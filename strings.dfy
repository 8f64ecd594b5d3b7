/** The few JavaScript string operations the composer handler relies on. */
module Strings {
  import opened Wrappers

  /** `s` holds `pat` starting at position `i`. */
  predicate OccursAt(s: string, pat: string, i: nat)
  {
    i + |pat| <= |s| && s[i..i + |pat|] == pat
  }

  /** `String.prototype.endsWith`. */
  predicate EndsWith(s: string, suffix: string)
  {
    |suffix| <= |s| && s[|s| - |suffix|..] == suffix
  }

  /** `String.prototype.indexOf(pat, from)`: the first position at or after `from` where `pat` occurs. */
  function IndexOfFrom(s: string, pat: string, from: nat): (r: Option<nat>)
    requires from <= |s|
    decreases |s| - from
    ensures r.Some? ==> from <= r.value <= |s| && OccursAt(s, pat, r.value)
    ensures r.Some? ==> forall j :: from <= j < r.value ==> !OccursAt(s, pat, j)
    ensures r.None? ==> forall j :: from <= j <= |s| ==> !OccursAt(s, pat, j)
  {
    if OccursAt(s, pat, from) then Some(from)
    else if from == |s| then None
    else IndexOfFrom(s, pat, from + 1)
  }

  /** `String.prototype.indexOf(pat)`. */
  function IndexOf(s: string, pat: string): Option<nat>
  {
    IndexOfFrom(s, pat, 0)
  }

  /**
   * `String.prototype.replace` with a string pattern: only the FIRST occurrence of `pat`
   * is replaced, and `s` is returned unchanged when `pat` does not occur.
   */
  function ReplaceFirst(s: string, pat: string, rep: string): (r: string)
    ensures IndexOf(s, pat).None? ==> r == s
    ensures IndexOf(s, pat).Some? ==>
              var i := IndexOf(s, pat).value;
              r == s[..i] + rep + s[i + |pat|..] && forall j :: 0 <= j < i ==> !OccursAt(s, pat, j)
  {
    match IndexOf(s, pat)
    case None => s
    case Some(i) => s[..i] + rep + s[i + |pat|..]
  }

  /** `String.prototype.substr(1)`: everything after the first character. */
  function DropFirst(s: string): string
  {
    if s == "" then "" else s[1..]
  }

  predicate IsUpper(c: char)
  {
    'A' <= c <= 'Z'
  }

  /** `toLowerCase` on one character, for the ASCII letters. */
  function LowerChar(c: char): (r: char)
    ensures !IsUpper(r)
    ensures !IsUpper(c) ==> r == c
    ensures IsUpper(c) ==> r as int - c as int == 'a' as int - 'A' as int
  {
    if 'A' <= c <= 'Z' then (c as int - 'A' as int + 'a' as int) as char else c
  }

  /** `String.prototype.toLowerCase`, restricted to ASCII letters. */
  function ToLower(s: string): string
  {
    seq(|s|, i requires 0 <= i < |s| => LowerChar(s[i]))
  }

  /** The lower-cased string has the same length, no upper-case ASCII letter, and every other character unchanged. */
  lemma ToLowerSpec(s: string)
    ensures |ToLower(s)| == |s|
    ensures forall i :: 0 <= i < |s| ==> !IsUpper(ToLower(s)[i])
    ensures forall i :: 0 <= i < |s| && !IsUpper(s[i]) ==> ToLower(s)[i] == s[i]
  {
  }

  /** Lower-casing twice changes nothing more. */
  lemma ToLowerIdempotent(s: string)
    ensures ToLower(ToLower(s)) == ToLower(s)
  {
  }

  /** An occurrence with none before it is the one `indexOf` finds. */
  lemma FirstOccurrence(s: string, pat: string, k: nat)
    requires OccursAt(s, pat, k)
    requires forall j :: 0 <= j < k ==> !OccursAt(s, pat, j)
    ensures IndexOf(s, pat) == Some(k)
  {
  }

  /** When the first occurrence of `pat` is the suffix, replacing it by nothing drops the suffix. */
  lemma ReplaceSuffix(s: string, pat: string)
    requires |pat| <= |s| && IndexOf(s, pat) == Some(|s| - |pat|)
    ensures ReplaceFirst(s, pat, "") == s[..|s| - |pat|]
  {
    var i := |s| - |pat|;
    assert s[i + |pat|..] == [];
    assert s[..i] + "" + [] == s[..i];
  }
}
