/**
 * The session shell: a student enters a five-character code to reach the
 * dashboard and logs out to leave it.
 */
module Session {
  import opened Wrappers
  import opened Text

  const CodeLength: nat := 5
  const RejectionMessage: string := "Please enter exactly 5 characters."

  /** The code an entry yields: the upper-cased input, when it has exactly five characters. */
  function AcceptCode(input: string): (code: Option<string>)
    ensures code.Some? <==> |input| == CodeLength
    ensures code.Some? ==> |code.value| == CodeLength && Upper(code.value) == code.value
    ensures code.Some? ==> Lower(code.value) == Lower(input)
  {
    UpperIdempotent(input);
    assert forall i :: 0 <= i < |input| ==> LowerChar(UpperChar(input[i])) == LowerChar(input[i]);
    var upper := Upper(input);
    if |upper| == CodeLength then Some(upper) else None
  }

  /** Entering a code in lower or upper case leads to the same student. */
  lemma AcceptCodeIgnoresCase(input: string)
    ensures AcceptCode(Upper(input)) == AcceptCode(input)
  {
    UpperIdempotent(input);
  }

  /** Examples: "ab12c" is accepted as "AB12C", a four-character code is refused. */
  lemma AcceptCodeExamples()
    ensures AcceptCode("ab12c") == AcceptCode("AB12C") == Some("AB12C")
    ensures AcceptCode("AB12") == None
  {
    assert Upper("ab12c") == "AB12C";
    assert Upper("AB12C") == "AB12C";
  }

  /** The session state: the active code, or none while on the entry screen. */
  class Dashboard {
    var seed: Option<string>

    /** A fresh session starts on the entry screen. */
    constructor ()
      ensures seed == None
    {
      seed := None;
    }

    /** The "Enter Dashboard" button: a valid code becomes the active one; otherwise an
        error message is reported and nothing changes. */
    method SubmitCode(input: string) returns (error: Option<string>)
      requires seed.None?
      modifies this
      ensures error.None? <==> AcceptCode(input).Some?
      ensures error.Some? ==> error.value == RejectionMessage && seed == old(seed)
      ensures error.None? ==> seed == AcceptCode(input)
    {
      var seedInput := Upper(input);
      if |seedInput| == CodeLength {
        seed := Some(seedInput);
        error := None;
      } else {
        error := Some(RejectionMessage);
      }
    }

    /** The "Logout" button: back to the entry screen. */
    method Logout()
      requires seed.Some?
      modifies this
      ensures seed == None
    {
      seed := None;
    }
  }
}
