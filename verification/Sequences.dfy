/** Sequences and strings, as the rest of the model needs them. */
module Sequences {

  ghost predicate Distinct<T(!new)>(s: seq<T>) {
    forall i, j :: 0 <= i < j < |s| ==> s[i] != s[j]
  }

  predicate StartsWith<T(==)>(s: seq<T>, prefix: seq<T>) {
    |prefix| <= |s| && s[..|prefix|] == prefix
  }

  predicate EndsWith(s: string, suffix: string) {
    |suffix| <= |s| && s[|s| - |suffix|..] == suffix
  }

  /** The pieces between the separators. */
  function Split(s: string, sep: char): (r: seq<string>)
    ensures r != []
  {
    if s == "" then [""]
    else
      var rest := Split(s[1..], sep);
      if s[0] == sep then [""] + rest else [[s[0]] + rest[0]] + rest[1..]
  }

  /** The text without any occurrence of `part`, taken out from left to right. */
  function Removed(s: string, part: string): (r: string)
    requires part != ""
    ensures |r| <= |s|
    ensures EndsWith(s, part) ==> |r| < |s|
  {
    if |s| < |part| then s
    else if s[..|part|] == part then Removed(s[|part|..], part)
    else
      assert EndsWith(s, part) ==> |part| < |s| && EndsWith(s[1..], part);
      [s[0]] + Removed(s[1..], part)
  }
}
