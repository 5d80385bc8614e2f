/** The pass that adds size and candidate attributes to the <img> tags of rendered
    HTML (injectArticleSrcsetDims in api/internal/api/srcset.go). The two patterns
    are written out over characters. */
module ImgTags {
  import opened Prelude
  import opened Text
  import opened Ladder
  import opened Srcset

  // ── The tag pattern ───────────────────────────────────────────────────────

  predicate Space(c: char) {
    c == '\t' || c == '\n' || c == '\U{000C}' || c == '\r' || c == ' '
  }

  /** `<img` and the end of that word at position i. */
  predicate HeadAt(s: string, i: nat) {
    i + 5 <= |s| && Folded(s[i..i + 4]) == "<img" && !WordChar(s[i + 4])
  }

  function Find(s: string, c: char, from: nat): (r: Option<nat>)
    requires from <= |s|
    ensures r.Some? ==> from <= r.value < |s| && s[r.value] == c && forall i :: from <= i < r.value ==> s[i] != c
    ensures r.None? ==> forall i :: from <= i < |s| ==> s[i] != c
    decreases |s| - from
  {
    if from == |s| then None else if s[from] == c then Some(from) else Find(s, c, from + 1)
  }

  /** A whole tag from position i on, up to the first `>`. */
  predicate TagAt(s: string, i: nat) {
    HeadAt(s, i) && Find(s, '>', i + 4).Some?
  }

  function TagEnd(s: string, i: nat): (e: nat)
    requires TagAt(s, i)
    ensures i + 5 <= e <= |s|
  {
    Find(s, '>', i + 4).value + 1
  }

  function NextTag(s: string, from: nat): (r: Option<nat>)
    requires from <= |s|
    ensures r.Some? ==> from <= r.value && TagAt(s, r.value) && forall i: nat :: from <= i < r.value ==> !TagAt(s, i)
    ensures r.None? ==> forall i: nat :: from <= i <= |s| ==> !TagAt(s, i)
    decreases |s| - from
  {
    if TagAt(s, from) then Some(from) else if from == |s| then None else NextTag(s, from + 1)
  }

  /** A text that is one tag. */
  predicate IsTag(t: string) {
    TagAt(t, 0) && TagEnd(t, 0) == |t|
  }

  function TrimSpace(s: string): (r: string)
    ensures r <= s
  {
    if s != "" && Space(s[|s| - 1]) then TrimSpace(s[..|s| - 1]) else s
  }

  /** The captured attributes: all but a closing slash and the space before it. */
  function AttrsOf(t: string): (r: string)
    requires IsTag(t)
    ensures r <= t[4..|t| - 1]
  {
    var body := t[4..|t| - 1];
    TrimSpace(if body != "" && body[|body| - 1] == '/' then body[..|body| - 1] else body)
  }

  // ── Attributes ────────────────────────────────────────────────────────────

  /** ` src="` at position i, and a quote after it. */
  predicate SrcAt(a: string, i: nat) {
    i + 6 <= |a| && Space(a[i]) && Folded(a[i + 1..i + 6]) == "src=\"" && Find(a, '"', i + 6).Some?
  }

  function SrcFrom(a: string, from: nat): (r: Option<nat>)
    requires from <= |a|
    ensures r.Some? ==> from <= r.value && SrcAt(a, r.value) && forall i: nat :: from <= i < r.value ==> !SrcAt(a, i)
    ensures r.None? ==> forall i: nat :: from <= i <= |a| ==> !SrcAt(a, i)
    decreases |a| - from
  {
    if SrcAt(a, from) then Some(from) else if from == |a| then None else SrcFrom(a, from + 1)
  }

  /** The value of the first src attribute. */
  function SourceOf(a: string): Option<string> {
    match SrcFrom(a, 0)
    case None => None
    case Some(i) => Some(a[i + 6..Find(a, '"', i + 6).value])
  }

  /** strings.ToLower, as far as it yields ASCII letters. */
  function LowerChar(c: char): char {
    if c == '\U{0130}' then 'i' else AsciiLower(c)
  }

  function Lowered(s: string): string {
    Mapped(s, LowerChar)
  }

  /** A white space and then the attribute's name and `=`. */
  predicate HasAttr(a: string, name: string) {
    Contains(Lowered(a), " " + name) || Contains(Lowered(a), "\t" + name) || Contains(Lowered(a), "\n" + name) ||
    Contains(Lowered(a), "\U{000C}" + name) || Contains(Lowered(a), "\r" + name)
  }

  /** The author gave a size. */
  predicate HasSize(a: string) {
    HasAttr(a, "width=") || HasAttr(a, "height=")
  }

  predicate HasSrcset(a: string) {
    Contains(Lowered(a), "srcset=")
  }

  // ── The rewrite ───────────────────────────────────────────────────────────

  function EscapeChar(c: char): string {
    if c == '&' then "&amp;" else if c == '\'' then "&#39;" else if c == '<' then "&lt;"
    else if c == '>' then "&gt;" else if c == '"' then "&#34;" else [c]
  }

  /** html.EscapeString. */
  function Escape(s: string): (r: string)
    ensures '>' !in r && '"' !in r
  {
    if s == "" then "" else EscapeChar(s[0]) + Escape(s[1..])
  }

  /** What a reader of the attribute gets back. */
  function Unescape(s: string): string {
    if s == "" then ""
    else if "&amp;" <= s then "&" + Unescape(s[5..])
    else if "&#39;" <= s then "'" + Unescape(s[5..])
    else if "&lt;" <= s then "<" + Unescape(s[4..])
    else if "&gt;" <= s then ">" + Unescape(s[4..])
    else if "&#34;" <= s then "\"" + Unescape(s[5..])
    else [s[0]] + Unescape(s[1..])
  }

  lemma {:induction false} UnescapeOne(c: char, rest: string)
    ensures Unescape(EscapeChar(c) + rest) == [c] + Unescape(rest)
  {
    var s := EscapeChar(c) + rest;
    assert s[|EscapeChar(c)|..] == rest;
    if c == '&' {
      assert "&amp;" <= s;
    } else if c == '\'' {
      assert s[1] == '#' && s[3] == '9' && "&#39;" <= s;
    } else if c == '<' {
      assert s[1] == 'l' && "&lt;" <= s;
    } else if c == '>' {
      assert s[1] == 'g' && "&gt;" <= s;
    } else if c == '"' {
      assert s[1] == '#' && s[3] == '4' && "&#34;" <= s;
    } else {
      assert s[0] == c && c != '&';
    }
  }

  /** An escaped value reads back as the value. */
  lemma {:induction false} EscapedReadsBack(s: string)
    ensures Unescape(Escape(s)) == s
  {
    if s != "" {
      UnescapeOne(s[0], Escape(s[1..]));
      EscapedReadsBack(s[1..]);
    }
  }

  const SIZES := "(max-width: 50rem) 100vw, " + ("(min-width: 112rem) 75rem, " + "50rem")

  /** The sizes attribute, condition by condition. */
  lemma SizesAreSpelled()
    ensures SIZES[..26] == "(max-width: 50rem) 100vw, "
    ensures SIZES[26..53] == "(min-width: 112rem) 75rem, "
    ensures SIZES[53..] == "50rem"
  {
  }

  function Quoted(s: string): string {
    "\"" + s + "\""
  }

  function SizeAttrs(d: Dims): string {
    " width=" + (Quoted(Itoa(d.width)) + (" height=" + Quoted(Itoa(d.height))))
  }

  function SrcsetAttrs(list: string): string {
    " srcset=" + (Quoted(Escape(list)) + (" sizes=" + Quoted(SIZES)))
  }

  /** What is added to a tag with these attributes and a source of known size. */
  function Extra(attrs: string, src: string, d: Dims, version: string): string
    requires d.width > 0
  {
    (if HasSize(attrs) then "" else SizeAttrs(d)) +
    (if HasSrcset(attrs) || CandidateList(src, d, version) == "" then ""
     else SrcsetAttrs(CandidateList(src, d, version)))
  }

  ghost predicate Known(dims: map<string, Dims>) {
    forall path :: path in dims ==> dims[path].width > 0
  }

  function Added(attrs: string, dims: map<string, Dims>, version: string): string
    requires Known(dims)
  {
    match SourceOf(attrs)
    case None => ""
    case Some(src) =>
      if Bare(src) in dims then Extra(attrs, Bare(src), dims[Bare(src)], version) else ""
  }

  function RewriteTag(t: string, dims: map<string, Dims>, version: string): string
    requires IsTag(t) && Known(dims)
  {
    var extra := Added(AttrsOf(t), dims, version);
    if extra == "" then t else "<img" + AttrsOf(t) + extra + ">"
  }

  lemma SizeIsSpelled(d: Dims)
    ensures SizeAttrs(d) == " width=\"" + Itoa(d.width) + "\" height=\"" + Itoa(d.height) + "\""
  {
  }

  lemma SrcsetIsSpelled(list: string)
    ensures SrcsetAttrs(list) == " srcset=\"" + Escape(list) + "\" sizes=\"" + SIZES + "\""
  {
  }

  /** What is added to a tag's attributes. Nothing without a source or with one of unknown
      size, and nothing where the author gave both a size and candidates. Otherwise a
      size only where there is none, and candidates only where there are none. */
  lemma {:induction false} AuthorsAttributesWin(a: string, dims: map<string, Dims>, version: string)
    requires Known(dims)
    ensures SourceOf(a) == None || Bare(SourceOf(a).value) !in dims ==> Added(a, dims, version) == ""
    ensures SourceOf(a).Some? && Bare(SourceOf(a).value) in dims ==>
              var d := dims[Bare(SourceOf(a).value)];
              var list := CandidateList(Bare(SourceOf(a).value), d, version);
              if HasSrcset(a) || list == "" then Added(a, dims, version) == if HasSize(a) then "" else SizeAttrs(d)
              else Added(a, dims, version) == (if HasSize(a) then "" else SizeAttrs(d)) + SrcsetAttrs(list)
  {
    if SourceOf(a).Some? && Bare(SourceOf(a).value) in dims {
      ExtraMeans(a, Bare(SourceOf(a).value), dims[Bare(SourceOf(a).value)], version);
    }
  }

  lemma {:induction false} ExtraMeans(a: string, src: string, d: Dims, version: string)
    requires d.width > 0
    ensures var list := CandidateList(src, d, version);
            if HasSrcset(a) || list == "" then Extra(a, src, d, version) == if HasSize(a) then "" else SizeAttrs(d)
            else Extra(a, src, d, version) == (if HasSize(a) then "" else SizeAttrs(d)) + SrcsetAttrs(list)
    ensures SizeAttrs(d) != "" && SrcsetAttrs(CandidateList(src, d, version)) != ""
  {
    assert SizeAttrs(d) + "" == SizeAttrs(d);
    assert SizeAttrs(d)[0] == ' ' && SrcsetAttrs(CandidateList(src, d, version))[0] == ' ';
  }

  lemma TagIsTag(s: string, i: nat)
    requires TagAt(s, i)
    ensures IsTag(s[i..TagEnd(s, i)])
  {
    var e := TagEnd(s, i);
    var t := s[i..e];
    assert t[0..4] == s[i..i + 4];
    assert forall k :: 4 <= k < |t| ==> t[k] == s[i + k];
    assert t[|t| - 1] == '>';
  }

  /** ReplaceAllStringFunc: every tag in turn, from left to right. */
  function Rewrite(doc: string, dims: map<string, Dims>, version: string): string
    requires Known(dims)
    decreases |doc|
  {
    match NextTag(doc, 0)
    case None => doc
    case Some(i) =>
      TagIsTag(doc, i);
      var e := TagEnd(doc, i);
      doc[..i] + RewriteTag(doc[i..e], dims, version) + Rewrite(doc[e..], dims, version)
  }

  function InjectArticleSrcset(doc: string, dims: map<string, Dims>, version: string): string
    requires Known(dims)
  {
    if dims == map[] || !Contains(doc, "<img") then doc else Rewrite(doc, dims, version)
  }

  // ── What the rewrite keeps ────────────────────────────────────────────────

  /** Nothing in `pre` would start a tag if a tag came right after it. */
  ghost predicate Quiet(pre: string) {
    forall i: nat :: !HeadAt(pre + "<", i)
  }

  lemma BeforeFirstTagIsQuiet(s: string, i: nat)
    requires NextTag(s, 0) == Some(i)
    ensures Quiet(s[..i])
  {
    var pre := s[..i];
    assert Folded(s[i..i + 4])[0] == '<';
    assert FoldChar(s[i]) == '<' && s[i] == '<';
    var close := Find(s, '>', i + 4).value;
    forall j: nat
      ensures !HeadAt(pre + "<", j)
    {
      if j + 5 <= |pre + "<"| {
        assert (pre + "<")[j..j + 4] == s[j..j + 4];
        assert (pre + "<")[j + 4] == s[j + 4];
        CloseIsFound(s, j + 4, close);
        assert !TagAt(s, j);
      }
    }
  }

  lemma CloseIsFound(s: string, from: nat, close: nat)
    requires from <= close < |s| && s[close] == '>'
    ensures Find(s, '>', from).Some?
  {
  }

  /** A tag stays one with text around it. */
  lemma {:induction false} TagInside(pre: string, t: string, rest: string)
    requires IsTag(t)
    ensures TagAt(pre + t + rest, |pre|) && TagEnd(pre + t + rest, |pre|) == |pre| + |t|
    ensures t[0] == '<'
  {
    var s := pre + t + rest;
    var n := |pre|;
    assert s[n..n + 4] == t[0..4];
    assert forall k :: 4 <= k < |t| ==> s[n + k] == t[k];
    assert t[|t| - 1] == '>';
    assert Find(s, '>', n + 4) == Some(n + |t| - 1);
    assert FoldChar(t[0]) == Folded(t[0..4])[0] == '<';
  }

  /** A tag behind a quiet text is the next tag. */
  lemma {:induction false} TagAfterQuiet(pre: string, t: string, rest: string)
    requires Quiet(pre) && IsTag(t)
    ensures NextTag(pre + t + rest, 0) == Some(|pre|)
    ensures TagEnd(pre + t + rest, |pre|) == |pre| + |t|
  {
    var s := pre + t + rest;
    TagInside(pre, t, rest);
    forall j: nat | j < |pre|
      ensures !TagAt(s, j)
    {
      HeadInPrefix(pre, t + rest, j);
      assert pre + (t + rest) == s;
    }
  }

  lemma {:induction false} HeadInPrefix(pre: string, rest: string, j: nat)
    requires Quiet(pre) && j < |pre| && rest != "" && rest[0] == '<'
    ensures !HeadAt(pre + rest, j)
  {
    var a, b := pre + "<", pre + rest;
    assert !HeadAt(a, j);
    if j + 5 <= |a| {
      assert a[j..j + 4] == b[j..j + 4] && a[j + 4] == b[j + 4];
    } else if j + 4 <= |b| {
      assert b[j..j + 4][|pre| - j] == '<';
      assert Folded(b[j..j + 4])[|pre| - j] == '<';
    }
  }

  /** Closes no tag, and ends in a quote. */
  predicate Safely(x: string) {
    '>' !in x && x != "" && x[|x| - 1] == '"'
  }

  lemma QuotedSafely(s: string)
    requires '>' !in s
    ensures Safely(Quoted(s))
  {
  }

  lemma SafelyAfter(a: string, b: string)
    requires '>' !in a && Safely(b)
    ensures Safely(a + b)
  {
  }

  lemma SizeSafely(d: Dims)
    ensures Safely(SizeAttrs(d))
  {
    QuotedSafely(Itoa(d.width));
    QuotedSafely(Itoa(d.height));
    SafelyAfter(" height=", Quoted(Itoa(d.height)));
    SafelyAfter(Quoted(Itoa(d.width)), " height=" + Quoted(Itoa(d.height)));
    SafelyAfter(" width=", Quoted(Itoa(d.width)) + (" height=" + Quoted(Itoa(d.height))));
  }

  lemma SrcsetSafely(list: string)
    ensures Safely(SrcsetAttrs(list))
  {
    assert '>' !in SIZES;
    QuotedSafely(SIZES);
    QuotedSafely(Escape(list));
    SafelyAfter(" sizes=", Quoted(SIZES));
    SafelyAfter(Quoted(Escape(list)), " sizes=" + Quoted(SIZES));
    SafelyAfter(" srcset=", Quoted(Escape(list)) + (" sizes=" + Quoted(SIZES)));
  }

  lemma ExtraSafely(a: string, src: string, d: Dims, version: string)
    requires d.width > 0
    ensures Extra(a, src, d, version) == "" || Safely(Extra(a, src, d, version))
  {
    var list := CandidateList(src, d, version);
    SizeSafely(d);
    SrcsetSafely(list);
    SafelyAfter(SizeAttrs(d), SrcsetAttrs(list));
    assert SizeAttrs(d) + "" == SizeAttrs(d) && "" + SrcsetAttrs(list) == SrcsetAttrs(list);
  }

  lemma AddedIsSafe(a: string, dims: map<string, Dims>, version: string)
    requires Known(dims)
    ensures var x := Added(a, dims, version); x != "" ==> SourceOf(a).Some? && Safely(x)
  {
    if SourceOf(a).Some? && Bare(SourceOf(a).value) in dims {
      ExtraSafely(a, Bare(SourceOf(a).value), dims[Bare(SourceOf(a).value)], version);
    }
  }

  lemma SourceNeedsText(a: string)
    requires SourceOf(a).Some?
    ensures a != ""
  {
  }

  lemma TrimStopsAtQuote(s: string)
    requires s != "" && s[|s| - 1] == '"'
    ensures TrimSpace(s) == s
  {
  }

  lemma AttrsHoldNoClose(t: string)
    requires IsTag(t)
    ensures '>' !in AttrsOf(t) && (AttrsOf(t) != "" ==> !WordChar(AttrsOf(t)[0]))
  {
    var body := t[4..|t| - 1];
    assert forall k :: 0 <= k < |body| ==> body[k] == t[4 + k];
    assert forall k :: 0 <= k < |AttrsOf(t)| ==> AttrsOf(t)[k] == body[k];
  }

  /** A tag put together from attributes is one tag with those attributes. */
  lemma {:induction false} BuiltTag(a: string)
    requires '>' !in a && a != "" && !WordChar(a[0]) && a[|a| - 1] == '"'
    ensures IsTag("<img" + a + ">") && AttrsOf("<img" + a + ">") == a
  {
    var t := "<img" + a + ">";
    assert t[0..4] == "<img";
    assert Folded("<img") == "<img";
    assert t[4] == a[0];
    assert forall k :: 4 <= k < |t| - 1 ==> t[k] == a[k - 4];
    assert t[|t| - 1] == '>';
    assert Find(t, '>', 4) == Some(|t| - 1);
    assert t[4..|t| - 1] == a;
    TrimStopsAtQuote(a);
  }

  lemma {:induction false} BuiltLonger(t: string, x: string)
    requires IsTag(t) && AttrsOf(t) != "" && Safely(x)
    ensures var r := "<img" + AttrsOf(t) + x + ">"; IsTag(r) && AttrsOf(r) == AttrsOf(t) + x
  {
    AttrsHoldNoClose(t);
    SafelyAfter(AttrsOf(t), x);
    BuiltTag(AttrsOf(t) + x);
    Regroup("<img", AttrsOf(t), x);
  }

  /** The rewritten tag is one tag whose attributes are the old ones and the new. */
  lemma RewrittenTag(t: string, dims: map<string, Dims>, version: string)
    requires IsTag(t) && Known(dims)
    ensures var r := RewriteTag(t, dims, version);
      IsTag(r) && AttrsOf(r) == AttrsOf(t) + Added(AttrsOf(t), dims, version)
  {
    var a := AttrsOf(t);
    var x := Added(a, dims, version);
    AddedIsSafe(a, dims, version);
    if x == "" {
      assert a + x == a;
    } else {
      SourceNeedsText(a);
      BuiltLonger(t, x);
    }
  }

  lemma SrcStaysAt(a: string, x: string, i: nat)
    requires SrcAt(a, i)
    ensures SrcAt(a + x, i) && Find(a + x, '"', i + 6) == Find(a, '"', i + 6)
  {
    var s := a + x;
    assert s[i + 1..i + 6] == a[i + 1..i + 6];
    assert forall k :: 0 <= k < |a| ==> s[k] == a[k];
  }

  lemma NoSrcBefore(a: string, x: string, i: nat, j: nat)
    requires SrcAt(a, i) && j < i && !SrcAt(a, j)
    ensures !SrcAt(a + x, j)
  {
    var s := a + x;
    assert s[j + 1..j + 6] == a[j + 1..j + 6] && s[j] == a[j];
    assert a[i + 5] == '"' by {
      assert FoldChar(a[i + 5]) == Folded(a[i + 1..i + 6])[4];
    }
    assert Find(a, '"', j + 6).Some?;
  }

  /** Text behind the attributes does not change which source they name. */
  lemma SourceStays(a: string, x: string)
    requires SourceOf(a).Some?
    ensures SourceOf(a + x) == SourceOf(a)
  {
    var i := SrcFrom(a, 0).value;
    SrcStaysAt(a, x, i);
    forall j: nat | j < i
      ensures !SrcAt(a + x, j)
    {
      NoSrcBefore(a, x, i, j);
    }
    assert SrcFrom(a + x, 0) == Some(i);
    var q := Find(a, '"', i + 6).value;
    assert (a + x)[i + 6..q] == a[i + 6..q];
  }

  lemma LoweredAppend(a: string, b: string)
    ensures Lowered(a + b) == Lowered(a) + Lowered(b)
  {
  }

  lemma ContainsStays(a: string, x: string, pat: string)
    requires Contains(Lowered(a), pat)
    ensures Contains(Lowered(a + x), pat)
  {
    LoweredAppend(a, x);
    var i: nat :| At(Lowered(a), pat, i);
    assert Lowered(a + x)[i..i + |pat|] == pat;
    assert At(Lowered(a + x), pat, i);
  }

  lemma AttrStays(a: string, x: string, name: string)
    requires HasAttr(a, name)
    ensures HasAttr(a + x, name)
  {
    forall pat: string | Contains(Lowered(a), pat)
      ensures Contains(Lowered(a + x), pat)
    {
      ContainsStays(a, x, pat);
    }
  }

  /** Text in the middle is found. */
  lemma ContainsMiddle(a: string, x: string, y: string, pat: string)
    requires Lowered(x) == pat
    ensures Contains(Lowered(a + (x + y)), pat)
  {
    LoweredAppend(x, y);
    LoweredAppend(a, x + y);
    var s := Lowered(a + (x + y));
    assert s[|a|..|a| + |pat|] == pat;
    assert At(s, pat, |a|);
  }

  lemma SizeAdded(a: string, d: Dims, y: string)
    ensures HasSize(a + (SizeAttrs(d) + y))
  {
    var rest := Quoted(Itoa(d.width)) + (" height=" + Quoted(Itoa(d.height)));
    assert Lowered(" width=") == " width=";
    assert " width=" + (rest + y) == " width=" + rest + y;
    ContainsMiddle(a, " width=", rest + y, " width=");
    assert " " + "width=" == " width=";
  }

  lemma ContainsTail(s: string, pat: string)
    requires pat != "" && Contains(s, pat)
    ensures Contains(s, pat[1..])
  {
    var i: nat :| At(s, pat, i);
    assert s[i + 1..i + |pat|] == s[i..i + |pat|][1..];
    assert At(s, pat[1..], i + 1);
  }

  lemma SrcsetAdded(a: string, list: string)
    ensures HasSrcset(a + SrcsetAttrs(list))
  {
    assert Lowered(" srcset=") == " srcset=";
    ContainsMiddle(a, " srcset=", Quoted(Escape(list)) + (" sizes=" + Quoted(SIZES)), " srcset=");
    ContainsTail(Lowered(a + SrcsetAttrs(list)), " srcset=");
    assert " srcset="[1..] == "srcset=";
  }

  lemma Regroup(a: string, b: string, c: string)
    ensures a + b + c == a + (b + c)
  {
  }

  lemma {:induction false} OwnWidthIsSeen(a: string, y: string)
    ensures HasSize(a + (" width=" + y)) && HasSize(a + (" WIDTH=" + y))
  {
    assert Lowered(" width=") == " width=" && Lowered(" WIDTH=") == " width=";
    ContainsMiddle(a, " width=", y, " width=");
    ContainsMiddle(a, " WIDTH=", y, " width=");
    assert " " + "width=" == " width=";
  }

  /** The author's own attributes are seen wherever they stand, in capitals too. */
  lemma {:induction false} OwnHeightIsSeen(a: string, y: string)
    ensures HasSize(a + (" height=" + y))
  {
    assert Lowered(" height=") == " height=";
    ContainsMiddle(a, " height=", y, " height=");
    assert " " + "height=" == " height=";
  }

  lemma {:induction false} OwnCandidatesAreSeen(a: string, y: string)
    ensures HasSrcset(a + ("srcset=" + y)) && HasSrcset(a + ("SrcSet=" + y))
  {
    assert Lowered("srcset=") == "srcset=" && Lowered("SrcSet=") == "srcset=";
    ContainsMiddle(a, "srcset=", y, "srcset=");
    ContainsMiddle(a, "SrcSet=", y, "srcset=");
  }

  lemma {:induction false} SourceIsRead(path: string)
    requires '"' !in path
    ensures SourceOf(" src=\"" + path + "\"") == Some(path)
  {
    var a := " src=\"" + path + "\"";
    assert Folded("src=\"") == "src=\"";
    assert a[1..6] == "src=\"";
    assert a[6..|a| - 1] == path;
    assert |a| == |path| + 7 && a[|a| - 1] == '"';
    assert forall i :: 6 <= i < |a| - 1 ==> a[i] == path[i - 6] && a[i] != '"';
    assert Find(a, '"', 6) == Some(|a| - 1);
    assert SrcAt(a, 0);
  }

  /** What a post body has for an image: the tag is found whole, and its source is the
      path between the quotes. */
  lemma {:induction false} PlainTagIsRead(path: string)
    requires '"' !in path && '>' !in path
    ensures var a := " src=\"" + path + "\"";
            IsTag("<img" + a + ">") && AttrsOf("<img" + a + ">") == a && SourceOf(a) == Some(path)
  {
    var a := " src=\"" + path + "\"";
    SourceIsRead(path);
    HoldsNoClose(path);
    BuiltTag(a);
  }

  /** The slash that closes a tag, and the blank before it, are no attribute. */
  lemma {:induction false} SelfClosedTagIsRead(a: string)
    requires '>' !in a && a != "" && a[0] == ' ' && a[|a| - 1] == '"'
    ensures IsTag("<img" + a + " />") && AttrsOf("<img" + a + " />") == a
  {
    var t := "<img" + a + " />";
    assert |t| == |a| + 7 && t[0..4] == "<img" && Folded("<img") == "<img" && t[4] == a[0];
    assert forall k :: 4 <= k < |a| + 4 ==> t[k] == a[k - 4];
    assert t[|a| + 4] == ' ' && t[|a| + 5] == '/' && t[|t| - 1] == '>';
    assert Find(t, '>', 4) == Some(|t| - 1);
    var body := t[4..|t| - 1];
    assert |body| == |a| + 2 && forall k :: 0 <= k < |a| ==> body[k] == a[k];
    assert body[..|a| + 1] == a + [' '];
    assert (a + [' '])[..|a|] == a;
    TrimStopsAtQuote(a);
  }

  lemma {:induction false} HoldsNoClose(path: string)
    requires '>' !in path
    ensures var a := " src=\"" + path + "\""; '>' !in a && a[0] == ' ' && a[|a| - 1] == '"'
  {
    assert '>' !in " src=\"";
  }

  /** A tag that was rewritten gets nothing more. */
  lemma AddedOnce(a: string, dims: map<string, Dims>, version: string)
    requires Known(dims)
    ensures Added(a + Added(a, dims, version), dims, version) == ""
  {
    var x := Added(a, dims, version);
    if SourceOf(a).None? || Bare(SourceOf(a).value) !in dims {
      assert a + x == a;
    } else {
      var src := Bare(SourceOf(a).value);
      SourceStays(a, x);
      ExtraOnce(a, src, dims[src], version);
    }
  }

  lemma ExtraOnce(a: string, src: string, d: Dims, version: string)
    requires d.width > 0
    ensures Extra(a + Extra(a, src, d, version), src, d, version) == ""
  {
    SizeOnce(a, src, d, version);
    SrcsetOnce(a, src, d, version);
  }

  lemma SizeOnce(a: string, src: string, d: Dims, version: string)
    requires d.width > 0
    ensures HasSize(a + Extra(a, src, d, version))
  {
    var x := Extra(a, src, d, version);
    if HasSize(a) {
      SizeStays(a, x);
    } else {
      var list := CandidateList(src, d, version);
      SizeAdded(a, d, if HasSrcset(a) || list == "" then "" else SrcsetAttrs(list));
    }
  }

  lemma SrcsetOnce(a: string, src: string, d: Dims, version: string)
    requires d.width > 0
    ensures CandidateList(src, d, version) == "" || HasSrcset(a + Extra(a, src, d, version))
  {
    var x, list := Extra(a, src, d, version), CandidateList(src, d, version);
    if HasSrcset(a) {
      ContainsStays(a, x, "srcset=");
    } else if list != "" {
      var size := if HasSize(a) then "" else SizeAttrs(d);
      SrcsetAdded(a + size, list);
      Regroup(a, size, SrcsetAttrs(list));
    }
  }

  lemma SizeStays(a: string, x: string)
    requires HasSize(a)
    ensures HasSize(a + x)
  {
    if HasAttr(a, "width=") {
      AttrStays(a, x, "width=");
    } else {
      AttrStays(a, x, "height=");
    }
  }

  // ── Whole documents ───────────────────────────────────────────────────────

  lemma {:induction false} RewriteTagTwice(t: string, dims: map<string, Dims>, version: string)
    requires IsTag(t) && Known(dims)
    ensures IsTag(RewriteTag(t, dims, version))
    ensures RewriteTag(RewriteTag(t, dims, version), dims, version) == RewriteTag(t, dims, version)
  {
    RewrittenTag(t, dims, version);
    AddedOnce(AttrsOf(t), dims, version);
  }

  /** The tags of a document, in order. */
  function Tags(doc: string): (r: seq<string>)
    ensures forall t :: t in r ==> IsTag(t)
    decreases |doc|
  {
    match NextTag(doc, 0)
    case None => []
    case Some(i) =>
      TagIsTag(doc, i);
      [doc[i..TagEnd(doc, i)]] + Tags(doc[TagEnd(doc, i)..])
  }

  /** The texts before, between and after the tags. */
  function Outside(doc: string): seq<string>
    decreases |doc|
  {
    match NextTag(doc, 0)
    case None => [doc]
    case Some(i) => [doc[..i]] + Outside(doc[TagEnd(doc, i)..])
  }

  /** The first tag of a document that starts with a quiet text and a tag. */
  lemma FirstOf(pre: string, t: string, rest: string)
    requires Quiet(pre) && IsTag(t)
    ensures var doc := pre + t + rest;
      && NextTag(doc, 0) == Some(|pre|) && TagEnd(doc, |pre|) == |pre| + |t|
      && doc[..|pre|] == pre && doc[|pre|..|pre| + |t|] == t && doc[|pre| + |t|..] == rest
  {
    TagAfterQuiet(pre, t, rest);
  }

  /** The rewritten document starts with the same text and the rewritten tag. */
  lemma FirstOfRewritten(doc: string, i: nat, dims: map<string, Dims>, version: string)
    requires NextTag(doc, 0) == Some(i) && Known(dims)
    ensures IsTag(doc[i..TagEnd(doc, i)]) && Quiet(doc[..i])
    ensures var t := RewriteTag(doc[i..TagEnd(doc, i)], dims, version);
      IsTag(t) && Rewrite(doc, dims, version) == doc[..i] + t + Rewrite(doc[TagEnd(doc, i)..], dims, version)
  {
    TagIsTag(doc, i);
    BeforeFirstTagIsQuiet(doc, i);
    RewrittenTag(doc[i..TagEnd(doc, i)], dims, version);
  }

  lemma RewriteOf(pre: string, t: string, rest: string, dims: map<string, Dims>, version: string)
    requires Quiet(pre) && IsTag(t) && Known(dims)
    ensures Rewrite(pre + t + rest, dims, version) == pre + RewriteTag(t, dims, version) + Rewrite(rest, dims, version)
  {
    FirstOf(pre, t, rest);
  }

  lemma TagsOf(pre: string, t: string, rest: string)
    requires Quiet(pre) && IsTag(t)
    ensures Tags(pre + t + rest) == [t] + Tags(rest) && Outside(pre + t + rest) == [pre] + Outside(rest)
  {
    FirstOf(pre, t, rest);
  }

  lemma {:induction false} RewriteTwice(doc: string, dims: map<string, Dims>, version: string)
    requires Known(dims)
    ensures Rewrite(Rewrite(doc, dims, version), dims, version) == Rewrite(doc, dims, version)
    decreases |doc|
  {
    match NextTag(doc, 0)
    case None =>
    case Some(i) =>
      var t, rest := doc[i..TagEnd(doc, i)], doc[TagEnd(doc, i)..];
      FirstOfRewritten(doc, i, dims, version);
      RewriteTagTwice(t, dims, version);
      RewriteTwice(rest, dims, version);
      RewriteOf(doc[..i], RewriteTag(t, dims, version), Rewrite(rest, dims, version), dims, version);
  }

  /** Adding the attributes twice is adding them once. */
  lemma InjectTwice(doc: string, dims: map<string, Dims>, version: string)
    requires Known(dims)
    ensures var once := InjectArticleSrcset(doc, dims, version); InjectArticleSrcset(once, dims, version) == once
  {
    RewriteTwice(doc, dims, version);
  }

  predicate AllTags(ts: seq<string>) {
    forall i :: 0 <= i < |ts| ==> IsTag(ts[i])
  }

  function RewriteTags(ts: seq<string>, dims: map<string, Dims>, version: string): (r: seq<string>)
    requires Known(dims) && AllTags(ts)
    ensures |r| == |ts|
  {
    if ts == [] then []
    else
      assert IsTag(ts[0]);
      [RewriteTag(ts[0], dims, version)] + RewriteTags(ts[1..], dims, version)
  }

  lemma {:induction false} RewriteTagsAt(ts: seq<string>, dims: map<string, Dims>, version: string, k: nat)
    requires Known(dims) && AllTags(ts) && k < |ts|
    ensures RewriteTags(ts, dims, version)[k] == RewriteTag(ts[k], dims, version)
  {
    if k > 0 {
      RewriteTagsAt(ts[1..], dims, version, k - 1);
    }
  }

  lemma {:induction false} RewriteKeepsOutside(doc: string, dims: map<string, Dims>, version: string)
    requires Known(dims)
    ensures Outside(Rewrite(doc, dims, version)) == Outside(doc)
    ensures Tags(Rewrite(doc, dims, version)) == RewriteTags(Tags(doc), dims, version)
    decreases |doc|
  {
    match NextTag(doc, 0)
    case None =>
    case Some(i) =>
      var t, rest := doc[i..TagEnd(doc, i)], doc[TagEnd(doc, i)..];
      FirstOfRewritten(doc, i, dims, version);
      RewriteKeepsOutside(rest, dims, version);
      TagsOf(doc[..i], RewriteTag(t, dims, version), Rewrite(rest, dims, version));
      assert Tags(doc)[1..] == Tags(rest);
  }

  lemma RewriteTagKeepsSource(t: string, dims: map<string, Dims>, version: string)
    requires IsTag(t) && Known(dims)
    ensures var r := RewriteTag(t, dims, version);
      IsTag(r) && AttrsOf(t) <= AttrsOf(r) && SourceOf(AttrsOf(r)) == SourceOf(AttrsOf(t))
  {
    var a := AttrsOf(t);
    RewrittenTag(t, dims, version);
    if SourceOf(a).Some? {
      SourceStays(a, Added(a, dims, version));
    } else {
      assert a + "" == a;
    }
  }

  /** Every tag of the document, rewritten. */
  lemma {:induction false} RewriteOnTag(doc: string, dims: map<string, Dims>, version: string, k: nat)
    requires Known(dims) && k < |Tags(doc)|
    ensures var ts := Tags(Rewrite(doc, dims, version));
      |ts| == |Tags(doc)| && ts[k] == RewriteTag(Tags(doc)[k], dims, version)
  {
    RewriteKeepsOutside(doc, dims, version);
    RewriteTagsAt(Tags(doc), dims, version, k);
  }

  /** The text outside tags stays, no tag comes or goes, each keeps its attributes in
      front of the new ones, and each names the source it named. */
  lemma {:induction false} OnlyAttributesAreAdded(doc: string, dims: map<string, Dims>, version: string, k: nat)
    requires Known(dims) && k < |Tags(doc)|
    ensures var r := InjectArticleSrcset(doc, dims, version);
      && Outside(r) == Outside(doc) && |Tags(r)| == |Tags(doc)|
      && AttrsOf(Tags(doc)[k]) <= AttrsOf(Tags(r)[k])
      && SourceOf(AttrsOf(Tags(r)[k])) == SourceOf(AttrsOf(Tags(doc)[k]))
  {
    RewriteKeepsOutside(doc, dims, version);
    RewriteOnTag(doc, dims, version, k);
    RewriteTagKeepsSource(Tags(doc)[k], dims, version);
  }

  /** A tag whose source is known ends up with a size, and with candidates if the
      ladder has a rung for it. */
  lemma KnownSourcesAreSized(t: string, dims: map<string, Dims>, version: string)
    requires IsTag(t) && Known(dims)
    requires SourceOf(AttrsOf(t)).Some? && Bare(SourceOf(AttrsOf(t)).value) in dims
    ensures var d := dims[Bare(SourceOf(AttrsOf(t)).value)];
      var r := RewriteTag(t, dims, version);
      && IsTag(r) && HasSize(AttrsOf(r))
      && (Longest(d) > 128 ==> HasSrcset(AttrsOf(r)))
  {
    var a := AttrsOf(t);
    var src := Bare(SourceOf(a).value);
    RewrittenTag(t, dims, version);
    SizeOnce(a, src, dims[src], version);
    SrcsetOnce(a, src, dims[src], version);
    OfferedOrNot(src, dims[src], version);
  }
}
