/**
 * Where a tab's table comes from: the copy stored for the student when there
 * is one, otherwise the sheet of the workbook, reshaped for "Work Experience".
 */
module Sheets {
  import opened Wrappers
  import opened Text
  import opened Tables
  import opened Cells

  const WorkExperience: string := "Work Experience"

  /** The fixed column names of the "Work Experience" sheet; blank columns get one,
      two and three spaces so that no two names coincide. */
  const WorkExperienceHeaders: seq<string> := [
    " ",
    "Some Important Work Experience Questions",
    "  ",
    "Have Complete Clarity",
    "Need to work",
    "No Idea",
    "   ",
    "Story 1", "Story 2", "Story 3", "Story 4", "Story 5"
  ]

  /** The uncaught exceptions that stop rendering at this tab: pandas refusing a header
      list of the wrong length, a title cell that does not exist, a header colour row that
      does not exist. Nothing catches them, so the rest of the page (the later tabs and
      the sidebar's logout button) is not drawn either. */
  datatype Abort = ColumnCountMismatch(columns: nat) | TitleCellMissing | HeaderColorRowMissing

  /** The twelve fixed names are pairwise distinct. */
  lemma WorkExperienceHeadersDistinct()
    ensures |WorkExperienceHeaders| == 12
    ensures Distinct(WorkExperienceHeaders)
  {
    var h := WorkExperienceHeaders;
    forall i, j | 0 <= i < j < |h|
      ensures h[i] != h[j]
    {
      if 7 <= i {
        assert h[i][6] != h[j][6];
      } else if i == 5 && 7 <= j {
        assert h[i][0] != h[j][0];
      } else {
        assert |h[i]| != |h[j]|;
      }
    }
  }

  /** `df.columns = hardcoded_headers[:len(df.columns)]`: the first n fixed names for
      a table of n columns; pandas refuses the assignment when n exceeds twelve. */
  function ApplyHeaders(t: Table<Raw>): (r: Result<Table<Raw>, Abort>)
    ensures r.Ok? <==> |t.columns| <= |WorkExperienceHeaders|
    ensures r.Ok? ==> |r.value.columns| == |t.columns| && r.value.rows == t.rows
    ensures r.Ok? ==> forall i :: 0 <= i < |t.columns| ==> r.value.columns[i] == WorkExperienceHeaders[i]
    ensures r.Ok? ==> Distinct(r.value.columns)
  {
    WorkExperienceHeadersDistinct();
    if |t.columns| <= |WorkExperienceHeaders| then
      Ok(Table(WorkExperienceHeaders[..|t.columns|], t.rows))
    else
      Err(ColumnCountMismatch(|t.columns|))
  }

  /** The first row is the sheet's title row: its second cell mentions "Work Experience". */
  predicate HasTitleRow(t: Table<Raw>)
  {
    |t.rows| > 0 && |t.rows[0]| >= 2 && Contains(StrForm(t.rows[0][1]), WorkExperience)
  }

  /** Drops the title row when there is one; reading the second cell of a first row
      that has fewer than two cells fails. */
  function DropTitleRow(t: Table<Raw>): (r: Result<Table<Raw>, Abort>)
    ensures r.Err? <==> |t.rows| > 0 && |t.rows[0]| < 2
    ensures r.Ok? ==> r.value.columns == t.columns
    ensures r.Ok? ==> t.rows == (if HasTitleRow(t) then [t.rows[0]] else []) + r.value.rows
  {
    if |t.rows| > 0 && |t.rows[0]| < 2 then Err(TitleCellMissing)
    else if |t.rows| > 0 && Contains(StrForm(t.rows[0][1]), WorkExperience) then
      Ok(Table(t.columns, t.rows[1..]))
    else
      Ok(t)
  }

  /** The table a sheet of the workbook yields: only "Work Experience" is reshaped. */
  function LoadDerived(sheet: string, t: Table<Raw>): (r: Result<Table<Raw>, Abort>)
    ensures sheet != WorkExperience ==> r == Ok(t)
    ensures sheet == WorkExperience ==>
              (r.Err? <==> |t.columns| > |WorkExperienceHeaders| || (|t.rows| > 0 && |t.rows[0]| < 2))
    ensures sheet == WorkExperience && r.Ok? ==>
              r.value.columns == WorkExperienceHeaders[..|t.columns|] && Distinct(r.value.columns) &&
              t.rows == (if HasTitleRow(t) then [t.rows[0]] else []) + r.value.rows
  {
    if sheet == WorkExperience then
      match ApplyHeaders(t)
      case Err(e) => Err(e)
      case Ok(named) => DropTitleRow(named)
    else
      Ok(t)
  }

  /** The table shown in a tab: the stored copy wins over the workbook. */
  function Resolve(stored: Option<Table<Raw>>, sheet: string, workbook: Table<Raw>): (r: Result<Table<Raw>, Abort>)
    ensures stored.Some? ==> r == Ok(stored.value)
    ensures stored.None? ==> r == LoadDerived(sheet, workbook)
  {
    match stored
    case Some(t) => Ok(t)
    case None => LoadDerived(sheet, workbook)
  }

  /** Once a table is stored, the workbook is never consulted: any two workbooks give
      the same table. */
  lemma StoredIgnoresWorkbook(stored: Table<Raw>, sheet: string, w1: Table<Raw>, w2: Table<Raw>)
    ensures Resolve(Some(stored), sheet, w1) == Resolve(Some(stored), sheet, w2) == Ok(stored)
  {
  }

  /** Saving a table with at least one row and loading it again shows the same table,
      whatever the workbook says. */
  lemma SaveThenLoad(saved: Table<string>, sheet: string, workbook: Table<Raw>)
    requires |saved.rows| > 0 && NoNullSpellings(saved)
    ensures Resolve(Some(FromStored(saved)), sheet, workbook).Ok?
    ensures CleanTable(Resolve(Some(FromStored(saved)), sheet, workbook).value) == saved
  {
    StoredTableReloads(saved);
  }

  /** The title row is gone from the loaded "Work Experience" table, and only it. */
  lemma TitleRowDropped(t: Table<Raw>)
    requires |t.columns| <= |WorkExperienceHeaders| && HasTitleRow(t)
    ensures LoadDerived(WorkExperience, t) == Ok(Table(WorkExperienceHeaders[..|t.columns|], t.rows[1..]))
  {
    var r := LoadDerived(WorkExperience, t);
    assert t.rows == [t.rows[0]] + r.value.rows;
    assert r.value.rows == t.rows[1..];
  }
}
