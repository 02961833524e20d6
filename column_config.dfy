/**
 * Which columns of a tab are a closed choice and which stay free text: a column
 * whose name contains one of the keywords gets the three-option drop-down.
 */
module ColumnConfig {
  import opened Text
  import opened Tables
  import opened Sheets

  const Keywords: seq<string> := ["Clarity", "work", "Idea"]
  const ChoiceOptions: seq<string> := ["YES", "NO", "In Progress"]

  /** The editor's setting for one column: free text, or a choice among options. */
  datatype Constraint = FreeText(title: string) | Choice(title: string, options: seq<string>)

  /** `any(x in col for x in keywords)`: a case-sensitive substring test per keyword. */
  predicate NeedsChoice(name: string)
  {
    exists k :: 0 <= k < |Keywords| && Contains(name, Keywords[k])
  }

  /** The `config` dictionary, filled one column at a time. Every column gets an entry
      titled with its name; a keyword column gets the three options, any other is free text. */
  method BuildConfig(columns: seq<string>) returns (config: map<string, Constraint>)
    ensures config.Keys == set c | c in columns
    ensures forall c :: c in config ==> config[c].title == c
    ensures forall c :: c in config ==> (config[c].Choice? <==> NeedsChoice(c))
    ensures forall c :: c in config && config[c].Choice? ==> config[c].options == ChoiceOptions
  {
    config := map[];
    for i := 0 to |columns|
      invariant config.Keys == set c | c in columns[..i]
      invariant forall c :: c in config ==> config[c].title == c
      invariant forall c :: c in config ==> (config[c].Choice? <==> NeedsChoice(c))
      invariant forall c :: c in config && config[c].Choice? ==> config[c].options == ChoiceOptions
    {
      var col := columns[i];
      if Contains(col, Keywords[0]) || Contains(col, Keywords[1]) || Contains(col, Keywords[2]) {
        config := config[col := Choice(col, ChoiceOptions)];
      } else {
        config := config[col := FreeText(col)];
      }
      assert columns[..i + 1] == columns[..i] + [col];
    }
    assert columns[..|columns|] == columns;
  }

  /** A name with no 'C', no 'w' and no 'd' contains none of the keywords. */
  lemma NoKeywordLetters(name: string)
    requires 'C' !in name && 'w' !in name && 'd' !in name
    ensures !NeedsChoice(name)
  {
    NotContainedWithoutChar(name, Keywords[0], 0);
    NotContainedWithoutChar(name, Keywords[1], 0);
    NotContainedWithoutChar(name, Keywords[2], 1);
  }

  /** "Have Complete Clarity", "Need to work" and "No Idea" contain a keyword. */
  lemma KeywordHeaders()
    ensures NeedsChoice(WorkExperienceHeaders[3])
    ensures NeedsChoice(WorkExperienceHeaders[4])
    ensures NeedsChoice(WorkExperienceHeaders[5])
  {
    var h := WorkExperienceHeaders;
    assert h[3][14..21] == Keywords[0];
    ContainsAt(h[3], Keywords[0], 14);
    assert h[4][8..12] == Keywords[1];
    ContainsAt(h[4], Keywords[1], 8);
    assert h[5][3..7] == Keywords[2];
    ContainsAt(h[5], Keywords[2], 3);
  }

  /** The three blank columns and the question column contain no keyword; the capital W
      of "Some Important Work Experience Questions" does not match "work". */
  lemma LeadingFreeTextHeaders()
    ensures !NeedsChoice(WorkExperienceHeaders[0]) && !NeedsChoice(WorkExperienceHeaders[1])
    ensures !NeedsChoice(WorkExperienceHeaders[2]) && !NeedsChoice(WorkExperienceHeaders[6])
  {
    NoKeywordLetters(WorkExperienceHeaders[0]);
    NoKeywordLetters(WorkExperienceHeaders[1]);
    NoKeywordLetters(WorkExperienceHeaders[2]);
    NoKeywordLetters(WorkExperienceHeaders[6]);
  }

  /** The five story columns contain no keyword. */
  lemma StoryHeaders()
    ensures forall i :: 7 <= i < |WorkExperienceHeaders| ==> !NeedsChoice(WorkExperienceHeaders[i])
  {
    NoKeywordLetters(WorkExperienceHeaders[7]);
    NoKeywordLetters(WorkExperienceHeaders[8]);
    NoKeywordLetters(WorkExperienceHeaders[9]);
    NoKeywordLetters(WorkExperienceHeaders[10]);
    NoKeywordLetters(WorkExperienceHeaders[11]);
  }

  /** Of the twelve "Work Experience" columns exactly "Have Complete Clarity", "Need to
      work" and "No Idea" (positions 3 to 5) get the drop-down. */
  lemma WorkExperienceChoiceColumns()
    ensures forall i :: 0 <= i < |WorkExperienceHeaders| ==>
              (NeedsChoice(WorkExperienceHeaders[i]) <==> 3 <= i <= 5)
  {
    KeywordHeaders();
    LeadingFreeTextHeaders();
    StoryHeaders();
    forall i | 0 <= i < |WorkExperienceHeaders|
      ensures NeedsChoice(WorkExperienceHeaders[i]) <==> 3 <= i <= 5
    {
      if i < 3 || i == 6 {
        assert i == 0 || i == 1 || i == 2 || i == 6;
      } else if i <= 5 {
        assert i == 3 || i == 4 || i == 5;
      }
    }
  }
}
