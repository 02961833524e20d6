# Erudite P.I. Tool Kit — a Dafny model of the sheet pipeline

The Tool Kit is a one-page Streamlit dashboard. A student enters a
five-character code, then sees one tab per sheet of a fixed workbook
("Master", "Work Experience", "Personal Questions", "time lines"). Each tab
shows the student's saved copy of the sheet, or the workbook sheet when
nothing is saved yet. Every cell is normalised for display. The body and
header cells are coloured from the workbook's own fill colours. Columns whose
names mention "Clarity", "work" or "Idea" become a YES / NO / In Progress
drop-down.

This project models that pipeline, lifted out of Streamlit, Firestore and
openpyxl, and proves what each step promises:

- `Colors` — decoding an openpyxl fill index into `#RRGGBB` and building the
  colour matrix of a sheet with the source's nested loops.
- `Cells` — `clean_val` over a datatype of raw cell values, and its
  application to every cell of a table.
- `Sheets` — the "Work Experience" header list and title-row drop, and the
  rule that a stored table wins over the workbook.
- `Styling` — which colour-matrix rows give the header and the body, the
  header stylesheet rules, and the per-cell style grid, filled in place in a
  two-dimensional array.
- `ColumnConfig` — the keyword rule for closed-choice columns, built into a
  map one column at a time.
- `Session` — the code-entry state: accept an upper-cased five-character code,
  log out.
- `Presenter` — one tab end to end. It proves that a body cell is styled exactly
  when the workbook cell it lines up with has a fill other than white.
- `Text` — the Python string built-ins used above: `lower`, `upper`, `str(int)`
  and the substring test `in`.

Edge cases a reader might expect to be handled gently, which the code does not handle:

- `df.columns = hardcoded_headers[:n]` raises when the sheet has more than twelve
  columns. The header list is not stretched to fit longer sheets.
- `df.iloc[0, 1]` raises when the first row has fewer than two cells.
- `color_matrix[1]` is read outside the per-cell `try`. A "Work Experience"
  colour matrix with only one row therefore raises instead of being
  swallowed.
- `if color_matrix:` treats an empty matrix like a missing one: no styling.

None of these three exceptions is caught, so each stops the whole page at
that tab. The model renders one tab and gives the exception as its `Abort`
result.

## Model

| member | source | states |
|---|---|---|
| `Colors.DecodeColor` | app.py:35-41 | the result is `#` plus six characters; for a six- or eight-character string token it is `#` plus the token's last six characters; any other index is white |
| `Colors.DecodeExamples` | app.py:35-41 | `00FF00FF` decodes to `#FF00FF`, `00FF00` to `#00FF00`, a theme colour to white |
| `Colors.GetColorMatrix` | app.py:27-46 | an unreadable workbook gives no matrix; otherwise one row per sheet row, one entry per cell in order, each the decoded fill |
| `Cells.CleanVal` | app.py:121-124 | the normalised text never spells "nan" or "none" in any case |
| `Cells.CleanValBlankIff` | app.py:122 | the result is blank exactly when the value is missing, its text lower-cases to "nan" or "none", or its text is blank |
| `Cells.WholeFloatPrintsInteger` | app.py:123 | a whole float prints as a numeral without a decimal point that reads back as its integer |
| `Cells.OtherValuesKeepText` | app.py:124 | a value that is not missing, not a whole float and not a null spelling keeps its `str` text |
| `Cells.CleanValIdempotent` | app.py:121-124 | cleaning the cleaned text again changes nothing |
| `Cells.CleanValExamples` | app.py:121-124 | 5.0 gives "5", 5.3 gives "5.3", None, "nan" and "None" give "" |
| `Cells.CleanTable` | app.py:126 | same columns and same row and cell shape; every cell is the cleaned raw cell at that position |
| `Cells.FromStored` | app.py:109-110 | a stored table of strings reads back with the same rows, each cell a string value; its columns come back only when it has a row, since `pd.DataFrame([])` has none |
| `Cells.EmptySaveLosesColumns` | app.py:109-110 | a table saved with no rows loads, cleaned, as a table with no columns |
| `Cells.StoredTableReloads` | app.py:109-126 | a saved table of strings with at least one row and no null spellings, loaded and cleaned, is itself |
| `Cells.CleanTableIdempotent` | app.py:126 | a cleaned table with at least one row is a fixed point of save, load and clean |
| `Sheets.WorkExperienceHeadersDistinct` | app.py:97-107 | the twelve fixed names are pairwise distinct |
| `Sheets.ApplyHeaders` | app.py:115 | fails exactly when there are more than twelve columns; otherwise the column count and rows are kept, column i is fixed name i, and the names are distinct |
| `Sheets.DropTitleRow` | app.py:116-118 | fails exactly when the first row lacks a second cell; otherwise the columns are kept and the old rows are the title row (when its second cell mentions "Work Experience") followed by the new rows |
| `Sheets.LoadDerived` | app.py:111-118 | other sheets are returned unchanged; "Work Experience" fails exactly in the two cases above, else gets the first n fixed names and loses exactly its title row |
| `Sheets.Resolve` | app.py:109-112 | precedence: the stored copy whenever one exists, taken as it is; the workbook sheet, loaded and reshaped, only when none does |
| `Sheets.StoredIgnoresWorkbook` | app.py:109-112 | once a table is stored, any two workbooks yield the same table |
| `Sheets.SaveThenLoad` | app.py:109-126 | a saved table with at least one row and no null spellings is shown again unchanged, whatever the workbook holds |
| `Sheets.TitleRowDropped` | app.py:113-118 | a "Work Experience" sheet with a title row loads as the fixed names over all rows but the first |
| `Styling.SelectPalette` | app.py:130-136 | no matrix or an empty one means no styling; a matrix too short for the header row aborts; otherwise the matrix is the rows above the header row (one for "Work Experience", none for other sheets), the header row, then the body rows |
| `Styling.InjectHeaderStyles` | app.py:51-60 | the loop emits exactly the rules of `RulesFor` for the header colours |
| `Styling.RulesForSpec` | app.py:53-59 | a rule exists for 1-based position p exactly when header colour p-1 is not white; it carries that colour and white text; positions strictly increase |
| `Styling.ApplyMatrixStyling` | app.py:140-149 | a fresh grid of the table's shape; a cell is styled exactly when a body colour exists at its position and is not white, then with that colour and white text; out-of-range cells stay unstyled |
| `ColumnConfig.BuildConfig` | app.py:156-161 | one entry per column, titled with its name; a closed YES / NO / In Progress choice exactly when the name contains a keyword |
| `ColumnConfig.NoKeywordLetters` | app.py:158 | a name without 'C', 'w' and 'd' gets no drop-down |
| `ColumnConfig.KeywordHeaders` | app.py:158 | "Have Complete Clarity", "Need to work" and "No Idea" get the drop-down |
| `ColumnConfig.LeadingFreeTextHeaders` | app.py:158 | the blank columns and "Some Important Work Experience Questions" (capital W) stay free text |
| `ColumnConfig.StoryHeaders` | app.py:158 | "Story 1" to "Story 5" stay free text |
| `ColumnConfig.WorkExperienceChoiceColumns` | app.py:156-161 | of the twelve "Work Experience" columns, exactly positions 3 to 5 get the drop-down |
| `Session.AcceptCode` | app.py:72-75 | an entry is accepted exactly when it has five characters; the code is then upper-case and equal to the entry up to case, which makes it the upper-cased entry |
| `Session.AcceptCodeIgnoresCase` | app.py:72 | an entry and its upper-cased form are accepted alike, as the same code |
| `Session.AcceptCodeExamples` | app.py:72-78 | "ab12c" and "AB12C" give "AB12C"; a four-character entry is refused |
| `Session.Dashboard.constructor` | app.py:69 | a new session has no active code |
| `Session.Dashboard.SubmitCode` | app.py:72-78 | an accepted entry becomes the active code; otherwise the rejection message is returned and the state is unchanged |
| `Session.Dashboard.Logout` | app.py:186-188 | logging out clears the active code |
| `Presenter.RenderSheet` | app.py:92-161 | the tab raises exactly when loading fails or a non-empty matrix lacks the header row; it shows the cleaned resolved table; it is styled exactly when a non-empty matrix exists; the header rules are `RulesFor` of the decoded header fills, in column order; body cell (r, c) is styled exactly when workbook fill (r + header row + 1, c) exists and decodes to non-white, and then with that colour and white text; the config has one entry per column, titled with its name, with the YES / NO / In Progress options exactly for keyword columns |
| `Text.ContainsIffOccurs` | app.py:158 | the substring test holds exactly when the keyword occurs at some offset |
| `Text.NotContainedWithoutChar` | app.py:158 | a keyword with a letter the name lacks is not a substring of it |
| `Text.IntToStringRoundTrip` | app.py:123 | reading back `str(n)` gives n |
| `Text.UpperIdempotent` | app.py:72 | upper-casing keeps the length and a second upper-casing changes nothing |

## Left out

- Firebase credential setup and client creation (app.py:9-22): secrets handling and a foreign SDK.
- Presenter.RenderSheet: renders one tab. An uncaught exception (app.py:115, app.py:117, app.py:132) stops the whole script run, so the later tabs and the sidebar's logout button (app.py:179-188) are not drawn either; the model does not capture the rest of the page stopping.
- Sheets.SaveThenLoad: holds only for a table with at least one row. A table saved with no rows (the "time lines" tab lets rows be deleted) loses its column names for good, since the stored copy always wins (`Cells.EmptySaveLosesColumns`). The column order of a reloaded table follows the store's key order, which is not modelled.
- Firestore reads and writes (app.py:81-88, app.py:94-95, app.py:173-176): the identity document, the student name field and the save button are network I/O. A stored table is an `Option<Table<Raw>>` input. Saving is modelled only through what a reload shows (`Sheets.SaveThenLoad`); the `to_dict(orient='records')` serialisation and the store's ordering of a record's keys are not modelled.
- Workbook reading with pandas and openpyxl (app.py:29-30, app.py:112, app.py:183): the sheet's raw cells and its fill tokens are inputs. `None` fill tokens stand for the blanket `except: return None`. When nothing is stored and `pd.read_excel` cannot open the file or the sheet (app.py:112), the exception is not caught and stops the page; the workbook table is a plain input here, so that failure is not modelled.
- Streamlit: page config, logo, title, widgets, tabs, `data_editor` edits held in the session, dynamic rows, `st.rerun` and `st.success` (app.py:49, app.py:69-71, app.py:163-171, app.py:178-181). `Session.Dashboard` keeps only the active code.
- The stylesheet text itself (app.py:52-66): only which positions get a rule, with which colours, is modelled.
- The read-only Story Line tab (app.py:182-184): a plain `astype(str)` display.
- Floating point: a float is either whole (it carries its integer) or not (it carries its printed text). Python prints very large whole floats in exponent form ("1e+16"), while `StrForm` gives the integer followed by ".0". That text goes into the null-spelling test (app.py:122) and the title-row substring test (app.py:117); neither form spells "nan" or "none" nor contains "Work Experience", so both tests give the same answer.
- Cells.CleanVal: `pd.isna` is represented by the `Missing` value; NaT and other pandas missing markers are folded into it. `StrForm(Missing)` is "nan", the text of pandas' NaN, while a `None` cell prints as "None"; both are null spellings and neither contains "Work Experience", so the cleaning and title-row tests give the same answer for either.
- Session.AcceptCode: case mapping is ASCII only. Python's `str.upper` can lengthen some non-ASCII letters (ß becomes SS); the model does not capture that. The entry widget's five-character limit is not modelled; the length check is.
- ColumnConfig.BuildConfig: column names are strings. A numeric column name would make the substring test raise in Python.
