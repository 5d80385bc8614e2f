/** Responsive attributes for the images of a post body (api/internal/api/srcset.go):
    the candidate list, and the pass that writes it into the rendered HTML. */
module Srcset {
  import opened Prelude
  import opened Text
  import opened Ladder

  // ── The candidate list ────────────────────────────────────────────────────

  function Itoa(n: nat): (r: string)
    ensures r != "" && forall i :: 0 <= i < |r| ==> '0' <= r[i] <= '9'
  {
    var digit := [('0' as int + n % 10) as char];
    if n < 10 then digit else Itoa(n / 10) + digit
  }

  predicate Digits(s: string) {
    forall i :: 0 <= i < |s| ==> '0' <= s[i] <= '9'
  }

  /** The number that decimal digits stand for. */
  function Decimal(s: string): nat
    requires Digits(s)
  {
    if s == "" then 0 else 10 * Decimal(s[..|s| - 1]) + (s[|s| - 1] as int - '0' as int)
  }

  /** A number is written in decimal, without leading zeros: the text reads back as it. */
  lemma {:induction false} ItoaReadsBack(n: nat)
    ensures Decimal(Itoa(n)) == n
    ensures |Itoa(n)| > 1 ==> Itoa(n)[0] != '0'
  {
    var digit := [('0' as int + n % 10) as char];
    if n < 10 {
      assert Itoa(n) == digit && digit[..0] == "";
    } else {
      ItoaReadsBack(n / 10);
      assert Itoa(n)[..|Itoa(n)| - 1] == Itoa(n / 10);
      LeadingDigit(n / 10);
    }
  }

  lemma {:induction false} LeadingDigit(n: nat)
    requires n > 0
    ensures Itoa(n)[0] != '0'
  {
    if n >= 10 {
      LeadingDigit(n / 10);
    }
  }

  /** A path without its query. */
  function Bare(path: string): (r: string)
    ensures '?' !in r
  {
    if path == "" || path[0] == '?' then "" else [path[0]] + Bare(path[1..])
  }

  /** It is what comes before the first question mark. */
  lemma {:induction false} BareEndsAtTheQuery(path: string)
    ensures Bare(path) <= path && (Bare(path) == path || path[|Bare(path)|] == '?')
  {
    if path != "" && path[0] != '?' {
      BareEndsAtTheQuery(path[1..]);
    }
  }

  /** The URL of one rung; `version` is the cache token, ready for a query. */
  function VariantURL(path: string, rung: nat, version: string): string {
    Bare(path) + "?s=" + Itoa(rung) + if version == "" then "" else "&v=" + version
  }

  function Candidate(path: string, rung: nat, version: string, d: Dims): string
    requires d.width > 0
  {
    VariantURL(path, rung, version) + " " + Itoa(RungWidth(rung, d)) + "w"
  }

  function CandidateOf(path: string, version: string, d: Dims): nat -> string
    requires d.width > 0
  {
    (rung: nat) => Candidate(path, rung, version, d)
  }

  function JoinWith(sep: string, ss: seq<string>): string {
    if ss == [] then "" else if |ss| == 1 then ss[0] else ss[0] + sep + JoinWith(sep, ss[1..])
  }

  /** One candidate for each rung below the longest side, then the original; nothing
      if there is no such rung. */
  function CandidateList(path: string, d: Dims, version: string): string
    requires d.width > 0
  {
    if Rungs(d) == [] then ""
    else JoinWith(", ", Map(Rungs(d), CandidateOf(path, version, d)) + [path + " " + Itoa(d.width) + "w"])
  }

  lemma {:induction false} MapAppend<T, U>(a: seq<T>, b: seq<T>, f: T -> U)
    ensures Map(a + b, f) == Map(a, f) + Map(b, f)
  {
  }

  lemma OneRungMore(k: nat, d: Dims, f: nat -> string)
    requires k < |LADDER| && LADDER[k] < Longest(d)
    requires Filter(LADDER[..k], BelowLongest(d)) == LADDER[..k]
    ensures Filter(LADDER[..k + 1], BelowLongest(d)) == LADDER[..k + 1]
    ensures Map(LADDER[..k + 1], f) == Map(LADDER[..k], f) + [f(LADDER[k])]
  {
    assert LADDER[..k + 1] == LADDER[..k] + [LADDER[k]];
    FilterAppend(LADDER[..k], [LADDER[k]], BelowLongest(d));
    MapAppend(LADDER[..k], [LADDER[k]], f);
  }

  lemma {:induction false} TooLargeFrom(k: nat, d: Dims)
    requires k <= |LADDER| && (k < |LADDER| ==> LADDER[k] >= Longest(d))
    ensures forall rung :: rung in LADDER[k..] ==> !BelowLongest(d)(rung)
  {
    LadderAscends();
    assert forall j :: k <= j < |LADDER| ==> LADDER[j] >= LADDER[k];
  }

  lemma {:induction false} RestIsTooLarge(k: nat, d: Dims)
    requires k <= |LADDER| && (k < |LADDER| ==> LADDER[k] >= Longest(d))
    requires Filter(LADDER[..k], BelowLongest(d)) == LADDER[..k]
    ensures Rungs(d) == LADDER[..k]
  {
    assert LADDER == LADDER[..k] + LADDER[k..];
    FilterAppend(LADDER[..k], LADDER[k..], BelowLongest(d));
    TooLargeFrom(k, d);
    FilterNone(LADDER[k..], BelowLongest(d));
  }

  /** The loop stops at the first rung that is too large; the ladder ascends, so none
      after it would do. */
  method ArticleSrcset(path: string, d: Dims, version: string) returns (srcset: string)
    requires d.width > 0
    ensures srcset == CandidateList(path, d, version)
  {
    var longest := d.width;
    if d.height > longest {
      longest := d.height;
    }
    var candidates: seq<string> := [];
    var k := 0;
    while k < |LADDER|
      invariant k <= |LADDER| && Filter(LADDER[..k], BelowLongest(d)) == LADDER[..k]
      invariant candidates == Map(LADDER[..k], CandidateOf(path, version, d))
    {
      var rung := LADDER[k];
      if rung >= longest {
        break;
      }
      OneRungMore(k, d, CandidateOf(path, version, d));
      candidates := candidates + [Candidate(path, rung, version, d)];
      k := k + 1;
    }
    RestIsTooLarge(k, d);
    if candidates == [] {
      return "";
    }
    srcset := JoinWith(", ", candidates + [path + " " + Itoa(d.width) + "w"]);
  }

  /** There is nothing to offer exactly if the smallest rung would already enlarge. */
  lemma OfferedOrNot(path: string, d: Dims, version: string)
    requires d.width > 0
    ensures CandidateList(path, d, version) == "" <==> Longest(d) <= 128
  {
    if Longest(d) > 128 {
      assert 128 in LADDER && 128 in Rungs(d);
      var cs := Map(Rungs(d), CandidateOf(path, version, d)) + [path + " " + Itoa(d.width) + "w"];
      assert |cs| >= 2 && |cs[0]| > 0;
    } else {
      FilterNone(LADDER, BelowLongest(d));
    }
  }

  /** An entry for a width: a URL of the image, a blank and the width descriptor. */
  ghost predicate Describes(entry: string, path: string, width: nat) {
    exists url :: Bare(path) <= url && entry == url + " " + Itoa(width) + "w"
  }

  lemma {:induction false} RungEntry(path: string, rung: nat, version: string, d: Dims)
    requires d.width > 0
    ensures Describes(Candidate(path, rung, version, d), path, RungWidth(rung, d))
    ensures (Bare(path) + "?s=" + Itoa(rung)) <= Candidate(path, rung, version, d)
    ensures version != "" ==>
              (Bare(path) + "?s=" + Itoa(rung) + ("&v=" + version)) <= Candidate(path, rung, version, d)
  {
    var url := VariantURL(path, rung, version);
    assert Bare(path) <= url && Candidate(path, rung, version, d) == url + " " + Itoa(RungWidth(rung, d)) + "w";
  }

  /** What is offered for an image above 128: one entry for each of its widths, in
      order, the last with the path as it stands. Below it the URL asks for the rung. */
  lemma {:induction false} EntriesState(path: string, d: Dims, version: string) returns (entries: seq<string>)
    requires Longest(d) > 128 && d.width > 0
    ensures CandidateList(path, d, version) == JoinWith(", ", entries)
    ensures |entries| == |Widths(d)| == |Rungs(d)| + 1
    ensures forall i :: 0 <= i < |entries| ==> Describes(entries[i], path, Widths(d)[i])
    ensures entries[|entries| - 1] == path + " " + Itoa(d.width) + "w"
    ensures forall i :: 0 <= i < |Rungs(d)| ==> AsksFor(entries[i], path, Rungs(d)[i], version)
  {
    assert 128 in LADDER && 128 in Rungs(d);
    entries := Map(Rungs(d), CandidateOf(path, version, d)) + [path + " " + Itoa(d.width) + "w"];
    forall i | 0 <= i < |Rungs(d)|
      ensures Describes(entries[i], path, Widths(d)[i]) && AsksFor(entries[i], path, Rungs(d)[i], version)
    {
      RungEntry(path, Rungs(d)[i], version, d);
    }
    BareEndsAtTheQuery(path);
    assert Describes(path + " " + Itoa(d.width) + "w", path, d.width);
  }

  /** The entry's URL is the bare path with the rung, and the cache token if there is one. */
  predicate AsksFor(entry: string, path: string, rung: nat, version: string) {
    if version == "" then (Bare(path) + "?s=" + Itoa(rung)) <= entry
    else (Bare(path) + "?s=" + Itoa(rung) + ("&v=" + version)) <= entry
  }

  // ── The index of known sizes ──────────────────────────────────────────────

  datatype Medium = Medium(fileType: string, path: string, width: Option<int>, height: Option<int>)

  const ORIGINALS := "originals/"

  function PublicPath(m: Medium): string {
    "/" + if ORIGINALS <= m.path then m.path[|ORIGINALS|..] else m.path
  }

  /** Simple case folding, as far as it meets ASCII letters. */
  function FoldChar(c: char): char {
    if c == '\U{017F}' then 's' else if c == '\U{212A}' then 'k' else AsciiLower(c)
  }

  function Folded(s: string): string {
    Mapped(s, FoldChar)
  }

  /** A row of a known image size. */
  predicate Sized(m: Medium) {
    Folded(m.fileType) == "image" &&
    m.width.Some? && m.height.Some? && m.width.value > 0 && m.height.value > 0
  }

  /** A row counts if it is of type image, in any letter case, and has both sizes. */
  lemma SizedMeans(m: Medium)
    ensures Sized(m) <==>
            |m.fileType| == 5 &&
            (forall i :: 0 <= i < 5 ==> m.fileType[i] == "image"[i] || m.fileType[i] == "IMAGE"[i]) &&
            m.width.Some? && m.height.Some? && m.width.value > 0 && m.height.value > 0
  {
    var s, small := m.fileType, "image";
    if |s| == 5 {
      assert Folded(s) == small <==> forall i :: 0 <= i < 5 ==> FoldChar(s[i]) == small[i];
    }
  }

  /** A stored path is public without the directory of the originals. */
  lemma PublicPathMeans(m: Medium, rest: string)
    ensures m.path == "originals/" + rest ==> PublicPath(m) == "/" + rest
    ensures !("originals/" <= m.path) ==> PublicPath(m) == "/" + m.path
  {
  }

  /** Every path with a row of known size, under the size in its last such row. */
  function Index(media: seq<Medium>): (dims: map<string, Dims>)
    ensures forall path :: path in dims <==> exists i :: 0 <= i < |media| && Sized(media[i]) && PublicPath(media[i]) == path
    ensures forall path :: path in dims ==> dims[path].width > 0 && dims[path].height > 0
  {
    if media == [] then map[]
    else
      var n := |media| - 1;
      var dims, m := Index(media[..n]), media[n];
      assert forall i :: 0 <= i < n ==> media[..n][i] == media[i];
      if Sized(m) then dims[PublicPath(m) := Dims(m.width.value, m.height.value)] else dims
  }

  predicate LastFor(media: seq<Medium>, i: nat) {
    i < |media| && Sized(media[i]) &&
    forall j :: i < j < |media| && Sized(media[j]) ==> PublicPath(media[j]) != PublicPath(media[i])
  }

  lemma LastOfShorter(media: seq<Medium>, i: nat)
    requires LastFor(media, i) && i < |media| - 1
    ensures LastFor(media[..|media| - 1], i)
    ensures Sized(media[|media| - 1]) ==> PublicPath(media[|media| - 1]) != PublicPath(media[i])
  {
  }

  lemma {:induction false} IndexHasTheLast(media: seq<Medium>, i: nat)
    requires LastFor(media, i)
    ensures PublicPath(media[i]) in Index(media)
    ensures Index(media)[PublicPath(media[i])] == Dims(media[i].width.value, media[i].height.value)
  {
    if i < |media| - 1 {
      LastOfShorter(media, i);
      IndexHasTheLast(media[..|media| - 1], i);
    }
  }

  method ArticleImageDims(media: seq<Medium>) returns (dims: map<string, Dims>)
    ensures dims == Index(media)
  {
    dims := map[];
    assert media[..|media|] == media;
    for k := 0 to |media|
      invariant dims == Index(media[..k])
    {
      var m := media[k];
      assert media[..k + 1][..k] == media[..k];
      if Folded(m.fileType) != "image" {
        continue;
      }
      if m.width.None? || m.height.None? || m.width.value <= 0 || m.height.value <= 0 {
        continue;
      }
      dims := dims[PublicPath(m) := Dims(m.width.value, m.height.value)];
    }
  }
}
