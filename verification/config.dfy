/**
 * isEmpty of src/utils/config.ts: a missing or empty string is empty, and
 * so is one whose leading whitespace run is all there is (the replace
 * pattern is not global, so only that first run is removed).
 */
module Config {
  import opened Wrappers

  /** The characters JavaScript's `\s` class matches. */
  predicate IsSpace(c: char) {
    || c == ' ' || c == '\t' || c == '\n' || c == '\r' || c == '\U{000B}' || c == '\U{000C}'
    || c == '\U{00A0}' || c == '\U{1680}' || ('\U{2000}' <= c <= '\U{200A}')
    || c == '\U{2028}' || c == '\U{2029}' || c == '\U{202F}' || c == '\U{205F}' || c == '\U{3000}' || c == '\U{FEFF}'
  }

  /** The replace in isEmpty: the string without its leading whitespace run. */
  function TrimLeading(s: string): (t: string)
    ensures |t| <= |s| && t == s[|s| - |t|..]
    ensures t == [] || !IsSpace(t[0])
    ensures forall i | 0 <= i < |s| - |t| :: IsSpace(s[i])
  {
    if s != [] && IsSpace(s[0]) then TrimLeading(s[1..]) else s
  }

  /** isEmpty: null, undefined and "" are empty; otherwise empty when nothing is left after the leading whitespace. */
  function IsEmpty(str: Option<string>): bool {
    str.None? || str.value == "" || |TrimLeading(str.value)| == 0
  }

  /** Every missing or zero-length string is empty. */
  lemma MissingIsEmpty(str: Option<string>)
    requires str.None? || str.value == ""
    ensures IsEmpty(str)
  {
  }

  /** A string is empty exactly when every character of it is whitespace. */
  lemma EmptyIffAllSpace(s: string)
    ensures IsEmpty(Some(s)) <==> forall i | 0 <= i < |s| :: IsSpace(s[i])
  {
    var t := TrimLeading(s);
    if t != [] {
      assert s[|s| - |t|] == t[0];
    }
  }

  /** One character that is not whitespace makes a string non-empty. */
  lemma NonSpaceNotEmpty(s: string, i: nat)
    requires i < |s| && !IsSpace(s[i])
    ensures !IsEmpty(Some(s))
  {
    EmptyIffAllSpace(s);
  }

  /** Removing the leading whitespace first changes nothing: the verdict only depends on what follows it. */
  lemma {:induction false} TrimIsIdle(s: string)
    ensures IsEmpty(Some(s)) == IsEmpty(Some(TrimLeading(s)))
    ensures TrimLeading(TrimLeading(s)) == TrimLeading(s)
  {
    if s != [] && IsSpace(s[0]) {
      TrimIsIdle(s[1..]);
    }
  }
}
