/** Strings, as the text models need them. */
module Text {
  import opened Prelude

  /** unicode.IsSpace. */
  predicate IsSpace(c: char) {
    '\U{0009}' <= c <= '\U{000D}' || c == ' ' || c == '\U{0085}' || c == '\U{00A0}' || c == '\U{1680}' ||
    '\U{2000}' <= c <= '\U{200A}' || c == '\U{2028}' || c == '\U{2029}' || c == '\U{202F}' ||
    c == '\U{205F}' || c == '\U{3000}'
  }

  function Concat(ss: seq<string>): string {
    if ss == [] then "" else ss[0] + Concat(ss[1..])
  }

  predicate At(s: string, pat: string, i: nat) {
    i + |pat| <= |s| && s[i..i + |pat|] == pat
  }

  /** strings.Index. */
  function IndexOf(s: string, pat: string): (r: Option<nat>)
    ensures r.Some? ==> At(s, pat, r.value) && forall j: nat :: j < r.value ==> !At(s, pat, j)
    ensures r.None? ==> forall j: nat :: j <= |s| ==> !At(s, pat, j)
  {
    FirstFrom(s, pat, 0)
  }

  function FirstFrom(s: string, pat: string, i: nat): (r: Option<nat>)
    requires i <= |s|
    ensures r.Some? ==> i <= r.value && At(s, pat, r.value) && forall j: nat :: i <= j < r.value ==> !At(s, pat, j)
    ensures r.None? ==> forall j: nat :: i <= j <= |s| ==> !At(s, pat, j)
    decreases |s| - i
  {
    if At(s, pat, i) then Some(i) else if i == |s| then None else FirstFrom(s, pat, i + 1)
  }

  predicate Contains(s: string, pat: string)
    ensures Contains(s, pat) <==> exists i: nat :: At(s, pat, i)
  {
    IndexOf(s, pat).Some?
  }

  /** A character of a word, as regular expressions know it. */
  predicate WordChar(c: char) {
    'a' <= c <= 'z' || 'A' <= c <= 'Z' || '0' <= c <= '9' || c == '_'
  }

  function AsciiLower(c: char): char {
    if 'A' <= c <= 'Z' then ((c as int) + 32) as char else c
  }

  function Mapped(s: string, f: char -> char): (r: string)
    ensures |r| == |s| && forall i :: 0 <= i < |s| ==> r[i] == f(s[i])
  {
    seq(|s|, i requires 0 <= i < |s| => f(s[i]))
  }

  /** The first place of a character. */
  function IndexOfChar(s: string, c: char): (n: nat)
    requires c in s
    ensures n < |s| && s[n] == c && forall i :: 0 <= i < n ==> s[i] != c
  {
    if s[0] == c then 0 else 1 + IndexOfChar(s[1..], c)
  }
}
