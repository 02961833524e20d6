/**
 * One tab of the dashboard (`render_tab`): pick the table, clean every cell,
 * colour it from the workbook's fills, and declare the column constraints.
 * Widgets, the stylesheet text and the save button are not part of this model.
 */
module Presenter {
  import opened Wrappers
  import opened Tables
  import opened Colors
  import opened Cells
  import opened Sheets
  import opened Styling
  import opened ColumnConfig

  /** What one tab shows: the cleaned table, the header rules, the body style grid
      (absent when there is no colour matrix) and the editor's column settings. */
  datatype View = View(
    table: Table<string>,
    headerRules: seq<HeaderRule>,
    style: Option<array2<CellStyle>>,
    config: map<string, Constraint>)

  /** Renders one tab from the stored copy (if any), the workbook sheet and its fill tokens
      (`None` when the workbook could not be read). A body cell is styled exactly when the
      fill of the workbook cell it lines up with decodes to a colour other than white. */
  method RenderSheet(sheet: string, stored: Option<Table<Raw>>, workbook: Table<Raw>,
                     fills: Option<seq<seq<ColorIndex>>>)
    returns (view: Result<View, Abort>)
    ensures view.Err? <==>
              Resolve(stored, sheet, workbook).Err? || (fills.Some? && 0 < |fills.value| <= HeaderRowIndex(sheet))
    ensures view.Ok? ==> view.value.table == CleanTable(Resolve(stored, sheet, workbook).value)
    ensures view.Ok? ==> (view.value.style.Some? <==> fills.Some? && fills.value != [])
    ensures view.Ok? && view.value.style.None? ==> view.value.headerRules == []
    ensures view.Ok? && view.value.style.Some? ==>
              var h := HeaderRowIndex(sheet);
              view.value.headerRules == RulesFor(DecodeRow(fills.value[h])) &&
              forall p: nat, c, f :: HeaderRule(p, c, f) in view.value.headerRules <==>
                1 <= p <= |fills.value[h]| && c == DecodeColor(fills.value[h][p - 1]) && c != White && f == "white"
    ensures view.Ok? && view.value.style.Some? ==>
              var s := view.value.style.value;
              var t := view.value.table;
              var b := HeaderRowIndex(sheet) + 1;
              fresh(s) && s.Length0 == |t.rows| && s.Length1 == |t.columns| &&
              forall r, c :: 0 <= r < |t.rows| && 0 <= c < |t.columns| ==>
                (s[r, c] != Unstyled <==>
                   r + b < |fills.value| && c < |fills.value[r + b]| && DecodeColor(fills.value[r + b][c]) != White) &&
                (s[r, c] != Unstyled ==> s[r, c] == Fill(DecodeColor(fills.value[r + b][c]), "white"))
    ensures view.Ok? ==> view.value.config.Keys == set c | c in view.value.table.columns
    ensures view.Ok? ==> forall c :: c in view.value.config ==>
              view.value.config[c].title == c && (view.value.config[c].Choice? <==> NeedsChoice(c))
    ensures view.Ok? ==> forall c :: c in view.value.config && view.value.config[c].Choice? ==>
              view.value.config[c].options == ChoiceOptions
  {
    var resolved := Resolve(stored, sheet, workbook);
    if resolved.Err? {
      return Err(resolved.error);
    }
    var df := CleanTable(resolved.value);

    var matrix := GetColorMatrix(fills);
    var palette := SelectPalette(matrix, sheet);
    if palette.Err? {
      return Err(palette.error);
    }
    var rules: seq<HeaderRule> := [];
    var style: Option<array2<CellStyle>> := None;
    if palette.value.Some? {
      var colors := palette.value.value;
      var m := matrix.value;
      var h := HeaderRowIndex(sheet);
      assert colors.header == m[h] && colors.body == m[h + 1..] by {
        assert m[..h] + [colors.header] + colors.body == m;
        assert |m[..h]| == h;
        assert m[h] == (m[..h] + [colors.header] + colors.body)[h];
        assert m[h + 1..] == (m[..h] + [colors.header] + colors.body)[h + 1..];
      }
      assert colors.header == DecodeRow(fills.value[h]);
      rules := InjectHeaderStyles(colors.header);
      RulesForSpec(colors.header);
      var grid := ApplyMatrixStyling(|df.rows|, |df.columns|, colors.body);
      style := Some(grid);
    }
    var config := BuildConfig(df.columns);
    return Ok(View(df, rules, style, config));
  }
}
