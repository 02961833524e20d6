/**
 * Cell normalisation (`clean_val`) and its application to every cell of a table.
 * Raw cell values are what pandas hands over; floating point is not modelled as
 * such: a float is either whole (and carries its integer) or not (and carries
 * the text `str` prints for it).
 */
module Cells {
  import opened Text
  import opened Tables

  /** A raw cell: missing (NaN, None), a float with no fractional part, any other
      float, or any other value given by the text `str` prints for it. */
  datatype Raw = Missing | WholeFloat(n: int) | FracFloat(repr: string) | Str(s: string)

  /** `str(v)`: pandas reads a missing cell as NaN, which prints as "nan". */
  function StrForm(v: Raw): string
  {
    match v
    case Missing => "nan"
    case WholeFloat(n) => IntToString(n) + ".0"
    case FracFloat(repr) => repr
    case Str(s) => s
  }

  /** A text whose lower-case form is one of the two spellings of "no value". */
  predicate IsNullSpelling(s: string)
  {
    Lower(s) == "nan" || Lower(s) == "none"
  }

  /** No integer numeral spells "nan" or "none": its first character is a digit or a minus. */
  lemma NumeralIsNotNullSpelling(n: int)
    ensures !IsNullSpelling(IntToString(n))
  {
    var s := IntToString(n);
    assert Lower(s)[0] == LowerChar(s[0]) != 'n';
  }

  /** `clean_val`: blanks for missing values and null spellings, the integer for a
      whole float, and the value's text otherwise. Its output never spells null. */
  function CleanVal(v: Raw): (r: string)
    ensures !IsNullSpelling(r)
  {
    if v.Missing? || IsNullSpelling(StrForm(v)) then ""
    else if v.WholeFloat? then (NumeralIsNotNullSpelling(v.n); IntToString(v.n))
    else StrForm(v)
  }

  /** The result is blank exactly when the value is missing, spells null, or prints as blank. */
  lemma CleanValBlankIff(v: Raw)
    ensures CleanVal(v) == "" <==> v.Missing? || IsNullSpelling(StrForm(v)) || StrForm(v) == ""
  {
  }

  /** A whole float prints as the numeral of its integer, without a fractional part. */
  lemma WholeFloatPrintsInteger(n: int)
    ensures NumeralValue(CleanVal(WholeFloat(n))) == n
    ensures '.' !in CleanVal(WholeFloat(n))
  {
    var s := StrForm(WholeFloat(n));
    assert Lower(s)[|s| - 1] == '0';
    IntToStringRoundTrip(n);
  }

  /** Any value that is neither missing, a whole float nor a null spelling keeps its text. */
  lemma OtherValuesKeepText(v: Raw)
    requires !v.Missing? && !v.WholeFloat? && !IsNullSpelling(StrForm(v))
    ensures CleanVal(v) == StrForm(v)
  {
  }

  /** The output is a string, so cleaning it again changes nothing. */
  lemma CleanValIdempotent(v: Raw)
    ensures CleanVal(Str(CleanVal(v))) == CleanVal(v)
  {
  }

  /** Examples: 5.0 gives "5", 5.3 gives "5.3", and None, "nan" and "None" give "". */
  lemma CleanValExamples()
    ensures CleanVal(WholeFloat(5)) == "5"
    ensures CleanVal(FracFloat("5.3")) == "5.3"
    ensures CleanVal(Missing) == ""
    ensures CleanVal(Str("nan")) == "" && CleanVal(Str("None")) == ""
  {
    assert IntToString(5) == [DigitChar(5)] == "5";
    assert StrForm(WholeFloat(5)) == "5.0";
    assert Lower("5.0")[0] == '5';
    assert !IsNullSpelling("5.0");
    assert Lower("5.3")[0] == '5';
  }

  /** `df.applymap(clean_val)`: every cell cleaned, the columns untouched. */
  function CleanTable(t: Table<Raw>): (r: Table<string>)
    ensures r.columns == t.columns && |r.rows| == |t.rows|
    ensures forall i :: 0 <= i < |t.rows| ==> |r.rows[i]| == |t.rows[i]|
    ensures forall i, j :: 0 <= i < |t.rows| && 0 <= j < |t.rows[i]| ==> r.rows[i][j] == CleanVal(t.rows[i][j])
  {
    Table(t.columns, seq(|t.rows|, i requires 0 <= i < |t.rows| =>
      seq(|t.rows[i]|, j requires 0 <= j < |t.rows[i]| => CleanVal(t.rows[i][j]))))
  }

  /** A table of strings saved as row records and read back from the record store:
      every cell becomes a string value. The column names live only in the records,
      so a table saved with no rows reads back with no columns either. */
  function FromStored(t: Table<string>): (r: Table<Raw>)
    ensures r.columns == (if |t.rows| == 0 then [] else t.columns) && |r.rows| == |t.rows|
    ensures forall i :: 0 <= i < |t.rows| ==> |r.rows[i]| == |t.rows[i]|
    ensures forall i, j :: 0 <= i < |t.rows| && 0 <= j < |t.rows[i]| ==> r.rows[i][j] == Str(t.rows[i][j])
  {
    if |t.rows| == 0 then Table([], [])
    else
      Table(t.columns, seq(|t.rows|, i requires 0 <= i < |t.rows| =>
        seq(|t.rows[i]|, j requires 0 <= j < |t.rows[i]| => Str(t.rows[i][j]))))
  }

  /** A table saved with no rows comes back with no columns: its column names are lost. */
  lemma EmptySaveLosesColumns(t: Table<string>)
    requires |t.rows| == 0
    ensures CleanTable(FromStored(t)) == Table([], [])
  {
  }

  /** Every cell of a table of strings, none of which spells null. */
  predicate NoNullSpellings(t: Table<string>)
  {
    forall i, j :: 0 <= i < |t.rows| && 0 <= j < |t.rows[i]| ==> !IsNullSpelling(t.rows[i][j])
  }

  /** A saved table with at least one row and no null spellings reads back, cleaned, as itself. */
  lemma StoredTableReloads(t: Table<string>)
    requires |t.rows| > 0 && NoNullSpellings(t)
    ensures CleanTable(FromStored(t)) == t
  {
    var r := CleanTable(FromStored(t));
    assert |r.rows| == |t.rows|;
    forall i | 0 <= i < |t.rows|
      ensures r.rows[i] == t.rows[i]
    {
      assert |r.rows[i]| == |t.rows[i]|;
      forall j | 0 <= j < |t.rows[i]|
        ensures r.rows[i][j] == t.rows[i][j]
      {
      }
    }
  }

  /** A cleaned table with at least one row is a fixed point: saving, reloading and
      cleaning it again changes nothing. */
  lemma CleanTableIdempotent(t: Table<Raw>)
    requires |t.rows| > 0
    ensures CleanTable(FromStored(CleanTable(t))) == CleanTable(t)
  {
    StoredTableReloads(CleanTable(t));
  }
}
