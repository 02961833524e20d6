/**
 * Lining the colour matrix up with a table: which matrix row holds the header
 * colours, which rows colour the body, the header stylesheet rules
 * (`inject_excel_ui_styles`) and the per-cell style grid (`apply_matrix_styling`).
 */
module Styling {
  import opened Wrappers
  import opened Colors
  import opened Sheets

  /** The matrix row of the header colours: "Work Experience" has a title row above its header. */
  function HeaderRowIndex(sheet: string): nat
  {
    if sheet == WorkExperience then 1 else 0
  }

  /** Header colours and the colour rows of the body, top to bottom. */
  datatype Palette = Palette(header: seq<string>, body: seq<seq<string>>)

  /** Splits a colour matrix for a sheet. No matrix, or an empty one, means no styling;
      a matrix too short to hold the header row aborts the render (the header row is
      read by plain indexing, outside any error handler). */
  function SelectPalette(matrix: Option<seq<seq<string>>>, sheet: string): (r: Result<Option<Palette>, Abort>)
    ensures r == Ok(None) <==> matrix.None? || matrix.value == []
    ensures r.Err? <==> matrix.Some? && 0 < |matrix.value| <= HeaderRowIndex(sheet)
    ensures r.Ok? && r.value.Some? ==>
              matrix.value == matrix.value[..HeaderRowIndex(sheet)] + [r.value.value.header] + r.value.value.body
  {
    match matrix
    case None => Ok(None)
    case Some(m) =>
      if m == [] then Ok(None)
      else if HeaderRowIndex(sheet) < |m| then
        var h := HeaderRowIndex(sheet);
        assert m == m[..h] + [m[h]] + m[h + 1..];
        Ok(Some(Palette(m[h], m[h + 1..])))
      else
        Err(HeaderColorRowMissing)
  }

  /** One header stylesheet rule: the 1-based column it targets, its background and text colour. */
  datatype HeaderRule = HeaderRule(position: nat, background: string, foreground: string)

  /** The rules for a row of header colours, in column order. */
  function RulesFor(header: seq<string>): seq<HeaderRule>
  {
    if header == [] then []
    else
      var last := header[|header| - 1];
      RulesFor(header[..|header| - 1]) +
        (if last != White then [HeaderRule(|header|, last, "white")] else [])
  }

  /** The stylesheet rules emitted for the header colours, one loop step per column. */
  method InjectHeaderStyles(headerColors: seq<string>) returns (rules: seq<HeaderRule>)
    ensures rules == RulesFor(headerColors)
  {
    rules := [];
    for i := 0 to |headerColors|
      invariant rules == RulesFor(headerColors[..i])
    {
      var color := headerColors[i];
      if color != White {
        var text := if color != White then "white" else "black";
        rules := rules + [HeaderRule(i + 1, color, text)];
        assert headerColors[..i + 1][..i] == headerColors[..i];
      } else {
        assert headerColors[..i + 1][..i] == headerColors[..i];
      }
    }
    assert headerColors[..|headerColors|] == headerColors;
  }

  /** A rule exists for a column exactly when its header colour is not white; it targets
      the column's 1-based position, carries that colour and white text; rules come in
      column order, so no column gets two. */
  lemma {:induction false} RulesForSpec(header: seq<string>)
    ensures forall p: nat, c, f :: HeaderRule(p, c, f) in RulesFor(header) <==>
              1 <= p <= |header| && header[p - 1] == c && c != White && f == "white"
    ensures forall k :: 0 <= k < |RulesFor(header)| ==> 1 <= RulesFor(header)[k].position <= |header|
    ensures forall k, l :: 0 <= k < l < |RulesFor(header)| ==>
              RulesFor(header)[k].position < RulesFor(header)[l].position
  {
    if header != [] {
      var init := header[..|header| - 1];
      RulesForSpec(init);
      forall p: nat, c, f
        ensures HeaderRule(p, c, f) in RulesFor(header) <==>
                1 <= p <= |header| && header[p - 1] == c && c != White && f == "white"
      {
        if 1 <= p < |header| {
          assert header[p - 1] == init[p - 1];
        }
      }
    }
  }

  /** The style of one body cell: nothing, or a background colour with a text colour. */
  datatype CellStyle = Unstyled | Fill(background: string, foreground: string)

  /** The style grid for a table of `rows` by `cols` cells: a cell is filled with its body
      colour when that colour exists and is not white; every other cell, including one the
      matrix does not reach, stays unstyled. */
  method ApplyMatrixStyling(rows: nat, cols: nat, body: seq<seq<string>>) returns (style: array2<CellStyle>)
    ensures fresh(style) && style.Length0 == rows && style.Length1 == cols
    ensures forall r, c :: 0 <= r < rows && 0 <= c < cols ==>
              (style[r, c] != Unstyled <==> r < |body| && c < |body[r]| && body[r][c] != White)
    ensures forall r, c :: 0 <= r < rows && 0 <= c < cols && style[r, c] != Unstyled ==>
              style[r, c] == Fill(body[r][c], "white")
  {
    style := new CellStyle[rows, cols]((r, c) => Unstyled);
    for r := 0 to rows
      invariant forall i, j :: 0 <= i < r && 0 <= j < cols ==>
                  style[i, j] == (if i < |body| && j < |body[i]| && body[i][j] != White
                                  then Fill(body[i][j], "white") else Unstyled)
      invariant forall i, j :: r <= i < rows && 0 <= j < cols ==> style[i, j] == Unstyled
    {
      for c := 0 to cols
        invariant forall i, j :: 0 <= i < r && 0 <= j < cols ==>
                    style[i, j] == (if i < |body| && j < |body[i]| && body[i][j] != White
                                    then Fill(body[i][j], "white") else Unstyled)
        invariant forall j :: 0 <= j < c ==>
                    style[r, j] == (if r < |body| && j < |body[r]| && body[r][j] != White
                                    then Fill(body[r][j], "white") else Unstyled)
        invariant forall i, j :: r <= i < rows && 0 <= j < cols && (i > r || j >= c) ==> style[i, j] == Unstyled
      {
        if r < |body| && c < |body[r]| {
          var color := body[r][c];
          if color != White {
            style[r, c] := Fill(color, if color != White then "white" else "inherit");
          }
        }
      }
    }
  }
}
