/** The Status enum shared by projects and tasks, and the two ways the
    services turn a caller's string into one. */
module Statuses {
  import opened Outcomes

  datatype Status = NotStarted | InProgress | Completed | Cancelled

  /** The enum constant's Java name, which is what `Status.valueOf` accepts. */
  function Name(st: Status): string
  {
    match st
    case NotStarted => "NOT_STARTED"
    case InProgress => "IN_PROGRESS"
    case Completed => "COMPLETED"
    case Cancelled => "CANCELLED"
  }

  /** Upper-casing of one character, for the ASCII letters. */
  function UpperChar(c: char): char
  {
    if 'a' <= c <= 'z' then (c as int - 32) as char else c
  }

  /** Lower-casing of one character, for the ASCII letters. */
  function LowerChar(c: char): char
  {
    if 'A' <= c <= 'Z' then (c as int + 32) as char else c
  }

  /** `String.toUpperCase`, restricted to the ASCII letters. */
  function ToUpper(s: string): (r: string)
    ensures |r| == |s|
    ensures forall i :: 0 <= i < |s| ==> !('a' <= r[i] <= 'z')
    ensures forall i :: 0 <= i < |s| ==> LowerChar(r[i]) == LowerChar(s[i])
  {
    seq(|s|, i requires 0 <= i < |s| => UpperChar(s[i]))
  }

  /** `String.toLowerCase`, restricted to the ASCII letters. */
  function ToLower(s: string): (r: string)
    ensures |r| == |s|
    ensures forall i :: 0 <= i < |s| ==> !('A' <= r[i] <= 'Z')
  {
    seq(|s|, i requires 0 <= i < |s| => LowerChar(s[i]))
  }

  /** `Status.valueOf(s)`: exact, case-sensitive match on a constant's name;
      anything else is the IllegalArgumentException valueOf throws. */
  function ParseExact(s: string): (r: Option<Status>)
    ensures forall st :: r == Some(st) <==> s == Name(st)
  {
    if s == "NOT_STARTED" then Some(NotStarted)
    else if s == "IN_PROGRESS" then Some(InProgress)
    else if s == "COMPLETED" then Some(Completed)
    else if s == "CANCELLED" then Some(Cancelled)
    else None
  }

  /** `Status.valueOf(s.toUpperCase())`: the case-insensitive parse. */
  function Parse(s: string): (r: Option<Status>)
    ensures forall st :: r == Some(st) <==> ToUpper(s) == Name(st)
  {
    ParseExact(ToUpper(s))
  }

  /** Every constant's name is already upper case. */
  lemma NameIsUpper(st: Status)
    ensures ToUpper(Name(st)) == Name(st)
  {
  }

  /** Parsing a constant's name, in upper or in lower case, gives the constant back. */
  lemma ParseNameRoundTrip(st: Status)
    ensures Parse(Name(st)) == Some(st)
    ensures ParseExact(Name(st)) == Some(st)
    ensures Parse(ToLower(Name(st))) == Some(st)
  {
    NameIsUpper(st);
    var lo := ToLower(Name(st));
    assert ToUpper(lo) == Name(st);
  }

  /** Parsing ignores case: a string and its upper-cased form parse alike. */
  lemma ParseIgnoresCase(s: string)
    ensures Parse(ToUpper(s)) == Parse(s)
  {
    assert ToUpper(ToUpper(s)) == ToUpper(s);
  }

  /** The case-sensitive parse accepts only what the case-insensitive one accepts,
      with the same result; a lower-case name separates the two. */
  lemma ExactParseIsStricter(s: string)
    ensures ParseExact(s).Some? ==> Parse(s) == ParseExact(s)
    ensures ParseExact("in_progress") == None && Parse("in_progress") == Some(InProgress)
  {
    if ParseExact(s).Some? {
      NameIsUpper(ParseExact(s).value);
    }
    assert ToUpper("in_progress") == "IN_PROGRESS";
  }
}
