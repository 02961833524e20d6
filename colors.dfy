/**
 * Reading the fill colour of every cell of a sheet (`get_excel_color_matrix`).
 * The workbook itself is not read here: the caller passes the sheet's fill
 * tokens, or `None` when the workbook or the sheet could not be opened.
 */
module Colors {
  import opened Wrappers

  /** The colour index openpyxl reports for a cell's fill: an ARGB or RGB string,
      or a number for an indexed or a theme colour. */
  datatype ColorIndex = Rgb(token: string) | Indexed(index: int) | Theme(theme: int)

  const White: string := "#FFFFFF"

  /** A `#RRGGBB`-shaped string: a hash sign followed by six characters. */
  predicate IsHexColor(s: string)
  {
    |s| == 7 && s[0] == '#'
  }

  /** Whether the token carries its colour in its last six characters. */
  predicate HasRgb(c: ColorIndex)
  {
    c.Rgb? && (|c.token| == 8 || |c.token| == 6)
  }

  /** The colour a fill token stands for: an eight-character ARGB token loses its
      alpha pair, a six-character token is taken as it is, and every other index
      reads as white. */
  function DecodeColor(c: ColorIndex): (hex: string)
    ensures IsHexColor(hex)
    ensures HasRgb(c) ==> hex[1..] == c.token[|c.token| - 6..]
    ensures !HasRgb(c) ==> hex == White
  {
    if c.Rgb? && |c.token| == 8 then "#" + c.token[2..]
    else if c.Rgb? && |c.token| == 6 then "#" + c.token
    else White
  }

  /** The colours of one row of fill tokens, in column order. */
  function DecodeRow(row: seq<ColorIndex>): (hex: seq<string>)
    ensures |hex| == |row|
    ensures forall i :: 0 <= i < |row| ==> IsHexColor(hex[i]) && hex[i] == DecodeColor(row[i])
  {
    seq(|row|, i requires 0 <= i < |row| => DecodeColor(row[i]))
  }

  /** Fill tokens of a workbook into the grid of colours, row by row and cell by
      cell; `None` when the workbook could not be read. */
  method GetColorMatrix(fills: Option<seq<seq<ColorIndex>>>) returns (matrix: Option<seq<seq<string>>>)
    ensures matrix.Some? <==> fills.Some?
    ensures matrix.Some? ==> |matrix.value| == |fills.value|
    ensures matrix.Some? ==> forall i :: 0 <= i < |fills.value| ==> |matrix.value[i]| == |fills.value[i]|
    ensures matrix.Some? ==> forall i, j :: 0 <= i < |fills.value| && 0 <= j < |fills.value[i]| ==>
              matrix.value[i][j] == DecodeColor(fills.value[i][j])
  {
    if fills.None? {
      return None;
    }
    var sheet := fills.value;
    var fullMatrix: seq<seq<string>> := [];
    for i := 0 to |sheet|
      invariant |fullMatrix| == i
      invariant forall k :: 0 <= k < i ==> |fullMatrix[k]| == |sheet[k]|
      invariant forall k, j :: 0 <= k < i && 0 <= j < |sheet[k]| ==> fullMatrix[k][j] == DecodeColor(sheet[k][j])
    {
      var rowColors: seq<string> := [];
      for j := 0 to |sheet[i]|
        invariant |rowColors| == j
        invariant forall k :: 0 <= k < j ==> rowColors[k] == DecodeColor(sheet[i][k])
      {
        var color := sheet[i][j];
        var hexVal;
        if color.Rgb? && |color.token| == 8 {
          hexVal := "#" + color.token[2..];
        } else if color.Rgb? && |color.token| == 6 {
          hexVal := "#" + color.token;
        } else {
          hexVal := White;
        }
        rowColors := rowColors + [hexVal];
      }
      fullMatrix := fullMatrix + [rowColors];
    }
    return Some(fullMatrix);
  }

  /** Examples: an ARGB token, an RGB token and a theme colour. */
  lemma DecodeExamples()
    ensures DecodeColor(Rgb("00FF00FF")) == "#FF00FF"
    ensures DecodeColor(Rgb("00FF00")) == "#00FF00"
    ensures DecodeColor(Theme(4)) == White
  {
  }
}
