/** The Content-Security-Policy header (api/cmd/api/csp.go, routes.go): how it is
    printed and spliced, against how a browser parses it (section 2.2.1 of Content
    Security Policy Level 3). */
module Csp {
  import opened Prelude
  import opened Text

  // ── Words ─────────────────────────────────────────────────────────────────

  /** ASCII whitespace, as the policy parser knows it. */
  predicate AsciiSpace(c: char) {
    c == '\t' || c == '\n' || c == '\U{000C}' || c == '\r' || c == ' '
  }

  predicate IsWord(w: string, space: char -> bool) {
    w != "" && forall i :: 0 <= i < |w| ==> !space(w[i])
  }

  function WordEnd(s: string, space: char -> bool): (n: nat)
    ensures n <= |s| && (forall i :: 0 <= i < n ==> !space(s[i])) && (n < |s| ==> space(s[n]))
  {
    if s == "" || space(s[0]) then 0 else 1 + WordEnd(s[1..], space)
  }

  /** The words between white space (strings.Fields; splitting on ASCII whitespace). */
  function Fields(s: string, space: char -> bool): (r: seq<string>)
    ensures forall w :: w in r ==> IsWord(w, space)
    decreases |s|
  {
    if s == "" then []
    else if space(s[0]) then Fields(s[1..], space)
    else
      var n := WordEnd(s, space);
      [s[..n]] + Fields(s[n..], space)
  }

  lemma FieldsOfWord(w: string, rest: string, space: char -> bool)
    requires IsWord(w, space) && (rest == "" || space(rest[0]))
    ensures Fields(w + rest, space) == [w] + Fields(rest, space)
  {
    var s := w + rest;
    assert forall i :: 0 <= i < |w| ==> !space(s[i]);
    assert |w| < |s| ==> space(s[|w|]);
    var n := WordEnd(s, space);
    assert s[..n] == w && s[n..] == rest;
  }

  /** Each word with a space in front. */
  function Spaced(ws: seq<string>): string {
    if ws == [] then "" else " " + ws[0] + Spaced(ws[1..])
  }

  lemma {:induction false} SpacedAppend(a: seq<string>, b: seq<string>)
    ensures Spaced(a + b) == Spaced(a) + Spaced(b)
  {
    if a == [] {
      assert a + b == b;
    } else {
      assert (a + b)[1..] == a[1..] + b;
      SpacedAppend(a[1..], b);
    }
  }

  lemma FieldsAfterSpace(s: string, space: char -> bool)
    requires space(' ')
    ensures Fields(" " + s, space) == Fields(s, space)
  {
    assert (" " + s)[1..] == s;
  }

  lemma SpacedHead(ws: seq<string>)
    requires ws != []
    ensures Spaced(ws) == " " + (ws[0] + Spaced(ws[1..]))
  {
  }

  lemma {:induction false} FieldsOfSpaced(ws: seq<string>, space: char -> bool)
    requires space(' ') && forall w :: w in ws ==> IsWord(w, space)
    ensures Fields(Spaced(ws), space) == ws
  {
    if ws != [] {
      FieldsOfSpaced(ws[1..], space);
      FieldsOfWord(ws[0], Spaced(ws[1..]), space);
      FieldsAfterSpace(ws[0] + Spaced(ws[1..]), space);
      SpacedHead(ws);
    }
  }

  /** strings.Join with a space. */
  function Join(ws: seq<string>): string {
    if ws == [] then "" else ws[0] + Spaced(ws[1..])
  }

  // ── The parser of the standard ────────────────────────────────────────────

  datatype Directive = Directive(name: string, value: seq<string>)

  function SplitOn(s: string, c: char): seq<string>
    decreases |s|
  {
    if c !in s then [s]
    else
      var n := IndexOfChar(s, c);
      [s[..n]] + SplitOn(s[n + 1..], c)
  }

  predicate Ascii(s: string) {
    forall i :: 0 <= i < |s| ==> s[i] as int < 128
  }

  /** One piece between semicolons: skipped if it is blank or not ASCII. */
  function ParsePiece(piece: string): Option<Directive> {
    var words := Fields(piece, AsciiSpace);
    if words == [] || !Ascii(piece) then None else Some(Directive(Mapped(words[0], AsciiLower), words[1..]))
  }

  /** The directives in order; of two with one name only the first is kept. */
  function Collect(pieces: seq<string>, seen: set<string>): seq<Directive> {
    if pieces == [] then []
    else
      match ParsePiece(pieces[0])
      case None => Collect(pieces[1..], seen)
      case Some(d) =>
        if d.name in seen then Collect(pieces[1..], seen)
        else [d] + Collect(pieces[1..], seen + {d.name})
  }

  function Parse(policy: string): seq<Directive> {
    Collect(SplitOn(policy, ';'), {})
  }

  // ── Printing directives ───────────────────────────────────────────────────

  function TextOf(d: Directive): string {
    d.name + Spaced(d.value)
  }

  function Tail(ds: seq<Directive>): string {
    if ds == [] then "" else "; " + TextOf(ds[0]) + Tail(ds[1..])
  }

  function Printed(ds: seq<Directive>): string
    requires ds != []
  {
    TextOf(ds[0]) + Tail(ds[1..])
  }

  /** A character that no word of a policy may hold: it would end the word, the
      directive, the policy or the header line. */
  predicate Breaks(c: char) {
    AsciiSpace(c) || c == ';' || c == ','
  }

  predicate Printable(d: Directive) {
    && IsWord(d.name, Breaks) && Mapped(d.name, AsciiLower) == d.name
    && forall v :: v in d.value ==> IsWord(v, Breaks)
  }

  predicate AllPrintable(ds: seq<Directive>) {
    && (forall d :: d in ds ==> Printable(d))
    && forall i, j :: 0 <= i < j < |ds| ==> ds[i].name != ds[j].name
  }

  predicate AllAscii(ws: seq<string>) {
    forall w :: w in ws ==> Ascii(w)
  }

  predicate AsciiDirective(d: Directive) {
    Ascii(d.name) && AllAscii(d.value)
  }

  lemma SplitAtSeparator(x: string, y: string)
    requires ';' !in x
    ensures SplitOn(x + ";" + y, ';') == [x] + SplitOn(y, ';')
  {
    var s := x + ";" + y;
    assert s[|x|] == ';';
    assert forall i :: 0 <= i < |x| ==> s[i] != ';';
    var n := IndexOfChar(s, ';');
    assert s[..n] == x && s[n + 1..] == y;
  }

  lemma {:induction false} SpacedHolds(ws: seq<string>, c: char)
    requires c != ' ' && forall w :: w in ws ==> c !in w
    ensures c !in Spaced(ws)
  {
    if ws != [] {
      SpacedHolds(ws[1..], c);
    }
  }

  lemma TextHoldsNo(d: Directive, c: char)
    requires Printable(d) && Breaks(c) && c != ' '
    ensures c !in TextOf(d)
  {
    forall w | w in d.value
      ensures c !in w
    {
      assert IsWord(w, Breaks);
    }
    SpacedHolds(d.value, c);
  }

  function Pieces(ds: seq<Directive>): seq<string> {
    if ds == [] then [] else [" " + TextOf(ds[0])] + Pieces(ds[1..])
  }

  lemma TailFromSeparator(x: string, text: string, rest: string)
    ensures x + ("; " + text + rest) == x + ";" + (" " + text + rest)
  {
  }

  lemma {:induction false} SplitOfTail(x: string, ds: seq<Directive>)
    requires ';' !in x && forall d :: d in ds ==> Printable(d)
    ensures SplitOn(x + Tail(ds), ';') == [x] + Pieces(ds)
    decreases |ds|
  {
    if ds == [] {
      assert x + "" == x;
    } else {
      TextHoldsNo(ds[0], ';');
      var y := " " + TextOf(ds[0]);
      assert ';' !in y;
      SplitOfTail(y, ds[1..]);
      SplitAtSeparator(x, y + Tail(ds[1..]));
      TailFromSeparator(x, TextOf(ds[0]), Tail(ds[1..]));
    }
  }

  lemma WordsOfText(d: Directive)
    requires Printable(d)
    ensures Fields(TextOf(d), AsciiSpace) == [d.name] + d.value
    ensures Fields(" " + TextOf(d), AsciiSpace) == [d.name] + d.value
  {
    forall w | w == d.name || w in d.value
      ensures IsWord(w, AsciiSpace)
    {
      assert IsWord(w, Breaks);
    }
    FieldsOfSpaced(d.value, AsciiSpace);
    FieldsOfWord(d.name, Spaced(d.value), AsciiSpace);
    FieldsAfterSpace(TextOf(d), AsciiSpace);
  }

  lemma AsciiAppend(a: string, b: string)
    ensures Ascii(a + b) <==> Ascii(a) && Ascii(b)
  {
    if Ascii(a + b) {
      forall i | 0 <= i < |a|
        ensures a[i] as int < 128
      {
        assert (a + b)[i] == a[i];
      }
      forall i | 0 <= i < |b|
        ensures b[i] as int < 128
      {
        assert (a + b)[|a| + i] == b[i];
      }
    }
  }

  lemma {:induction false} AsciiSpaced(ws: seq<string>)
    ensures Ascii(Spaced(ws)) <==> forall w :: w in ws ==> Ascii(w)
  {
    if ws != [] {
      AsciiSpaced(ws[1..]);
      AsciiAppend(" " + ws[0], Spaced(ws[1..]));
      AsciiAppend(" ", ws[0]);
      assert forall w :: w in ws <==> w == ws[0] || w in ws[1..];
    }
  }

  lemma PieceParses(d: Directive)
    requires Printable(d)
    ensures var r := if AsciiDirective(d) then Some(d) else None;
      ParsePiece(TextOf(d)) == r && ParsePiece(" " + TextOf(d)) == r
  {
    WordsOfText(d);
    AsciiSpaced(d.value);
    AsciiAppend(d.name, Spaced(d.value));
    AsciiAppend(" ", TextOf(d));
  }

  lemma {:induction false} CollectPieces(ds: seq<Directive>, seen: set<string>)
    requires AllPrintable(ds) && forall d :: d in ds ==> d.name !in seen
    ensures Collect(Pieces(ds), seen) == Filter(ds, AsciiDirective)
  {
    if ds != [] {
      PieceParses(ds[0]);
      assert Pieces(ds)[1..] == Pieces(ds[1..]);
      if AsciiDirective(ds[0]) {
        CollectPieces(ds[1..], seen + {ds[0].name});
      } else {
        CollectPieces(ds[1..], seen);
      }
    }
  }

  lemma CollectFirst(piece: string, rest: seq<string>)
    ensures Collect([piece] + rest, {}) ==
      match ParsePiece(piece)
      case None => Collect(rest, {})
      case Some(d) => [d] + Collect(rest, {d.name})
  {
    assert ([piece] + rest)[1..] == rest;
    assert forall x: string :: {} + {x} == {x};
  }

  /** What a browser reads back: the directives that were printed, in order, without
      those that hold a character outside ASCII. */
  lemma {:induction false} ParseOfPrinted(ds: seq<Directive>)
    requires ds != [] && AllPrintable(ds)
    ensures Parse(Printed(ds)) == Filter(ds, AsciiDirective)
  {
    TextHoldsNo(ds[0], ';');
    SplitOfTail(TextOf(ds[0]), ds[1..]);
    CollectFirst(TextOf(ds[0]), Pieces(ds[1..]));
    PieceParses(ds[0]);
    CollectPieces(ds[1..], if AsciiDirective(ds[0]) then {ds[0].name} else {});
  }

  // ── Operator sources ──────────────────────────────────────────────────────

  predicate Safe(w: string) {
    ';' !in w && ',' !in w && '\r' !in w && '\n' !in w
  }

  /** The words of an operator's list that may go into the policy. */
  function Kept(s: string): seq<string> {
    Filter(Fields(s, IsSpace), Safe)
  }

  lemma KeptAreWords(s: string)
    ensures forall w :: w in Kept(s) ==> IsWord(w, Breaks)
  {
    forall w | w in Kept(s)
      ensures IsWord(w, Breaks)
    {
      assert IsWord(w, IsSpace) && Safe(w);
    }
  }

  /** Four characters drop a word of an operator's list, and nothing else does. */
  lemma KeptMeans(s: string, w: string)
    ensures w in Kept(s) <==>
            w in Fields(s, IsSpace) &&
            forall i :: 0 <= i < |w| ==> w[i] != ';' && w[i] != ',' && w[i] != '\r' && w[i] != '\n'
  {
  }

  /** Sources of visible ASCII characters without a semicolon or a comma come through as
      they are, however the operator set them apart with blanks. */
  lemma {:induction false} PlainSourcesAreKept(ws: seq<string>)
    requires forall w, i :: w in ws && 0 <= i < |w| ==> '!' <= w[i] <= '~' && w[i] != ';' && w[i] != ','
    requires "" !in ws
    ensures Kept(Spaced(ws)) == ws && Kept(Join(ws)) == ws
  {
    forall w | w in ws
      ensures IsWord(w, IsSpace) && Safe(w)
    {
      assert forall i :: 0 <= i < |w| ==> !IsSpace(w[i]);
      assert w != "";
    }
    FieldsOfSpaced(ws, IsSpace);
    FilterAll(ws, Safe);
    if ws != [] {
      FieldsOfSpaced(ws[1..], IsSpace);
      FieldsOfWord(ws[0], Spaced(ws[1..]), IsSpace);
      assert ws == [ws[0]] + ws[1..];
    }
  }

  method SanitizeCSPSources(s: string) returns (r: string)
    ensures r == Join(Kept(s))
  {
    var out: seq<string> := [];
    var toks := Fields(s, IsSpace);
    assert toks[..|toks|] == toks;
    for i := 0 to |toks|
      invariant out == Filter(toks[..i], Safe)
    {
      assert toks[..i + 1] == toks[..i] + [toks[i]];
      FilterAppend(toks[..i], [toks[i]], Safe);
      if !Safe(toks[i]) {
        continue;
      }
      out := out + [toks[i]];
    }
    r := Join(out);
  }

  /** An operator's list survives being cleaned: cleaning it again changes nothing. */
  lemma SanitizingTwice(s: string)
    ensures Kept(Join(Kept(s))) == Kept(s)
  {
    var ws := Kept(s);
    if ws != [] {
      FieldsOfSpaced(ws[1..], IsSpace);
      FieldsOfWord(ws[0], Spaced(ws[1..]), IsSpace);
      assert ws == [ws[0]] + ws[1..];
    }
    FilterAll(ws, Safe);
  }

  // ── The policy ────────────────────────────────────────────────────────────

  const SELF := "'self'"
  const TILES := "https://server.arcgisonline.com"
  const GITHUB := "https://github.com"
  const GITHUB_CONTENT := "https://*.githubusercontent.com"

  /** Standard base64. */
  predicate Base64(s: string) {
    forall i :: 0 <= i < |s| ==>
      'a' <= s[i] <= 'z' || 'A' <= s[i] <= 'Z' || '0' <= s[i] <= '9' || s[i] == '+' || s[i] == '/' || s[i] == '='
  }

  function HashToken(digest: string): string {
    "'sha256-" + digest + "'"
  }

  predicate AllBase64(digests: seq<string>) {
    forall d :: d in digests ==> Base64(d)
  }

  /** The policy that is meant, for the inline scripts' hashes and the operator's
      two lists. */
  function Intended(digests: seq<string>, script: string, connect: string): seq<Directive> {
    [Directive("default-src", [SELF]),
     Directive("script-src", [SELF] + Map(digests, HashToken) + Kept(script)),
     Directive("style-src", [SELF, "'unsafe-inline'"]),
     Directive("img-src", SCHEMES + ORIGINS),
     Directive("media-src", [SELF, "blob:"]),
     Directive("connect-src", [SELF, TILES] + Kept(connect)),
     Directive("object-src", ["'none'"]),
     Directive("base-uri", [SELF]),
     Directive("form-action", [SELF]),
     Directive("frame-ancestors", ["'none'"]),
     Directive("require-trusted-types-for", ["'script'"]),
     Directive("trusted-types", ["point", "point-leaflet", "point-codejar"])]
  }

  /** Words join as strings.Join and `+= " " + extra` do. */
  lemma {:induction false} JoinedBySpaces(a: seq<string>, b: seq<string>)
    requires a != []
    ensures Spaced(a + b) == " " + Join(a) + Spaced(b)
  {
    SpacedAppend(a, b);
  }

  lemma JoinEmpty(ws: seq<string>)
    requires forall w :: w in ws ==> w != ""
    ensures Join(ws) == "" <==> ws == []
    ensures Spaced(ws) == if Join(ws) == "" then "" else " " + Join(ws)
  {
    if ws != [] {
      assert ws[0] in ws;
    }
  }

  function WithExtra(sources: string, extra: string): string {
    if extra != "" then sources + " " + extra else sources
  }

  lemma ExtraAfter(sources: string, extra: string)
    ensures " " + sources + (if extra == "" then "" else " " + extra) == " " + WithExtra(sources, extra)
  {
    if extra != "" {
      assert " " + sources + (" " + extra) == " " + (sources + " " + extra);
    }
  }

  lemma {:induction false} SourcesAreSpaced(a: seq<string>, s: string)
    requires a != []
    ensures Spaced(a + Kept(s)) == " " + WithExtra(Join(a), Join(Kept(s)))
  {
    KeptAreWords(s);
    JoinedBySpaces(a, Kept(s));
    JoinEmpty(Kept(s));
    ExtraAfter(Join(a), Join(Kept(s)));
  }

  lemma {:induction false} TailIsConcat(ds: seq<Directive>, pieces: seq<string>)
    requires |ds| == |pieces| && forall i :: 0 <= i < |ds| ==> pieces[i] == "; " + TextOf(ds[i])
    ensures Tail(ds) == Concat(pieces)
  {
    if ds != [] {
      TailIsConcat(ds[1..], pieces[1..]);
    }
  }

  lemma SpacedOne(a: string)
    ensures Spaced([a]) == " " + a
  {
    assert [a][1..] == [];
  }

  lemma SpacedTwo(a: string, b: string)
    ensures Spaced([a, b]) == " " + a + (" " + b)
  {
    assert [a, b][1..] == [b];
    SpacedOne(b);
  }

  lemma SpacedThree(a: string, b: string, c: string)
    ensures Spaced([a, b, c]) == " " + a + (" " + b + (" " + c))
  {
    assert [a, b, c][1..] == [b, c];
    SpacedTwo(b, c);
  }

  const STYLE := "; style-src 'self' 'unsafe-inline'"
  const IMG := "; img-src 'self' data: blob:" + (" https://server.arcgisonline.com" +
    (" https://github.com" + " https://*.githubusercontent.com"))
  const MEDIA := "; media-src 'self' blob:"
  const TRUSTED_TYPES := "; require-trusted-types-for 'script'"
  const POLICIES := "; trusted-types point" + (" point-leaflet" + " point-codejar")

  lemma FixedStyle()
    ensures STYLE == "; " + TextOf(Directive("style-src", [SELF, "'unsafe-inline'"]))
  {
    SpacedTwo(SELF, "'unsafe-inline'");
    assert STYLE == "; " + ("style-src" + (" " + SELF + (" " + "'unsafe-inline'")));
  }

  lemma FixedMedia()
    ensures MEDIA == "; " + TextOf(Directive("media-src", [SELF, "blob:"]))
  {
    SpacedTwo(SELF, "blob:");
    assert MEDIA == "; " + ("media-src" + (" " + SELF + (" " + "blob:")));
  }

  lemma FixedTrustedTypes()
    ensures TRUSTED_TYPES == "; " + TextOf(Directive("require-trusted-types-for", ["'script'"]))
  {
    SpacedOne("'script'");
    assert TRUSTED_TYPES == "; " + ("require-trusted-types-for" + (" " + "'script'"));
  }

  lemma PoliciesText()
    ensures POLICIES == "; " + ("trusted-types" + (" " + "point" + (" " + "point-leaflet" + (" " + "point-codejar"))))
  {
    assert "; trusted-types point" == "; " + ("trusted-types" + (" " + "point"));
    assert " point-leaflet" == " " + "point-leaflet";
    assert " point-codejar" == " " + "point-codejar";
  }

  lemma FixedPolicies()
    ensures POLICIES == "; " + TextOf(Directive("trusted-types", ["point", "point-leaflet", "point-codejar"]))
  {
    PoliciesText();
    SpacedThree("point", "point-leaflet", "point-codejar");
  }

  lemma TilesText()
    ensures " https://server.arcgisonline.com" == " " + TILES
  {
  }

  lemma GithubTexts()
    ensures " https://github.com" == " " + GITHUB
    ensures " https://*.githubusercontent.com" == " " + GITHUB_CONTENT
  {
  }

  lemma SpacedOrigins()
    ensures Spaced([TILES, GITHUB, GITHUB_CONTENT]) ==
      " https://server.arcgisonline.com" + (" https://github.com" + " https://*.githubusercontent.com")
  {
    TilesText();
    GithubTexts();
    SpacedThree(TILES, GITHUB, GITHUB_CONTENT);
  }

  lemma SpacedSchemes()
    ensures "; img-src 'self' data: blob:" == "; " + ("img-src" + Spaced([SELF, "data:", "blob:"]))
  {
    SpacedThree(SELF, "data:", "blob:");
    assert "; img-src 'self' data: blob:" == "; " + ("img-src" + (" " + SELF + (" " + "data:" + (" " + "blob:"))));
  }

  const SCHEMES := [SELF, "data:", "blob:"]
  const ORIGINS := [TILES, GITHUB, GITHUB_CONTENT]

  /** A printed list in two parts. */
  lemma PrintedInParts(name: string, a: seq<string>, b: seq<string>)
    ensures "; " + TextOf(Directive(name, a + b)) == "; " + (name + Spaced(a)) + Spaced(b)
  {
    SpacedAppend(a, b);
  }

  lemma FixedImg()
    ensures IMG == "; " + TextOf(Directive("img-src", SCHEMES + ORIGINS))
  {
    SpacedOrigins();
    SpacedSchemes();
    PrintedInParts("img-src", SCHEMES, ORIGINS);
  }

  /** The pieces of the header as the code puts them together. */
  function BuiltPieces(scriptSrc: string, connectSrc: string): seq<string> {
    ["default-src 'self'", "; script-src " + scriptSrc, STYLE, IMG, MEDIA, "; connect-src " + connectSrc,
     "; object-src 'none'", "; base-uri 'self'", "; form-action 'self'", "; frame-ancestors 'none'",
     TRUSTED_TYPES, POLICIES]
  }

  lemma FixedDefault()
    ensures "default-src 'self'" == TextOf(Directive("default-src", [SELF]))
  {
    SpacedOne(SELF);
    assert "default-src 'self'" == "default-src" + (" " + SELF);
  }

  lemma FixedNone()
    ensures "; object-src 'none'" == "; " + TextOf(Directive("object-src", ["'none'"]))
    ensures "; frame-ancestors 'none'" == "; " + TextOf(Directive("frame-ancestors", ["'none'"]))
  {
    SpacedOne("'none'");
    assert "; object-src 'none'" == "; " + ("object-src" + (" " + "'none'"));
    assert "; frame-ancestors 'none'" == "; " + ("frame-ancestors" + (" " + "'none'"));
  }

  lemma FixedSelf()
    ensures "; base-uri 'self'" == "; " + TextOf(Directive("base-uri", [SELF]))
    ensures "; form-action 'self'" == "; " + TextOf(Directive("form-action", [SELF]))
  {
    SpacedOne(SELF);
    assert "; base-uri 'self'" == "; " + ("base-uri" + (" " + SELF));
    assert "; form-action 'self'" == "; " + ("form-action" + (" " + SELF));
  }

  lemma ListPiece(lead: string, name: string, sources: string, value: seq<string>)
    requires lead == "; " + name + " " && Spaced(value) == " " + sources
    ensures lead + sources == "; " + TextOf(Directive(name, value))
  {
  }

  lemma ListPieces(scriptSrc: string, script: seq<string>, connectSrc: string, connect: seq<string>)
    requires Spaced(script) == " " + scriptSrc && Spaced(connect) == " " + connectSrc
    ensures "; script-src " + scriptSrc == "; " + TextOf(Directive("script-src", script))
    ensures "; connect-src " + connectSrc == "; " + TextOf(Directive("connect-src", connect))
  {
    assert "; script-src " == "; " + "script-src" + " ";
    assert "; connect-src " == "; " + "connect-src" + " ";
    ListPiece("; script-src ", "script-src", scriptSrc, script);
    ListPiece("; connect-src ", "connect-src", connectSrc, connect);
  }

  /** The pieces are the printed directives. */
  lemma {:induction false} BuiltIsPrinted(digests: seq<string>, script: string, connect: string, scriptSrc: string, connectSrc: string)
    requires Spaced([SELF] + Map(digests, HashToken) + Kept(script)) == " " + scriptSrc
    requires Spaced([SELF, TILES] + Kept(connect)) == " " + connectSrc
    ensures Concat(BuiltPieces(scriptSrc, connectSrc)) == Printed(Intended(digests, script, connect))
  {
    var ds := Intended(digests, script, connect);
    var ps := BuiltPieces(scriptSrc, connectSrc);
    FixedDefault();
    FixedNone();
    FixedSelf();
    FixedStyle();
    FixedImg();
    FixedMedia();
    FixedTrustedTypes();
    FixedPolicies();
    ListPieces(scriptSrc, ds[1].value, connectSrc, ds[5].value);
    TailIsConcat(ds[1..], ps[1..]);
  }

  lemma ConnectBase()
    ensures "'self'" + " https://server.arcgisonline.com" == Join([SELF, TILES])
  {
    SpacedOne(TILES);
    assert [SELF, TILES][1..] == [TILES];
    TilesText();
  }

  /** One directive's sources: what the engine needs, then what the operator added. */
  method Sources(base: string, operator: string, ghost words: seq<string>) returns (sources: string)
    requires words != [] && base == Join(words)
    ensures Spaced(words + Kept(operator)) == " " + sources
  {
    SourcesAreSpaced(words, operator);
    sources := base;
    var extra := SanitizeCSPSources(operator);
    if extra != "" {
      sources := sources + " " + extra;
    }
  }

  /** The header value at startup. */
  method BuildContentSecurityPolicy(digests: seq<string>, script: string, connect: string)
    returns (policy: string)
    ensures policy == Printed(Intended(digests, script, connect))
  {
    ConnectBase();
    var own := [SELF] + Map(digests, HashToken);
    var scriptSrc := Sources(Join(own), script, own);
    var connectSrc := Sources("'self'" + " https://server.arcgisonline.com", connect, [SELF, TILES]);
    BuiltIsPrinted(digests, script, connect, scriptSrc, connectSrc);
    policy := Concat(BuiltPieces(scriptSrc, connectSrc));
  }

  // ── What the browser gets ─────────────────────────────────────────────────

  /** The letters of an origin. */
  predicate OriginChar(c: char) {
    '-' <= c <= ':' || 'a' <= c <= 'z' || c == '*'
  }

  lemma OriginWord(w: string)
    requires w != "" && forall i :: 0 <= i < |w| ==> OriginChar(w[i])
    ensures IsWord(w, Breaks) && Ascii(w)
  {
  }

  lemma TilesWord()
    ensures IsWord("https://server.arcgisonline.com", Breaks) && Ascii("https://server.arcgisonline.com")
  {
    OriginWord("https://server.arcgisonline.com");
  }

  lemma GithubWords()
    ensures IsWord("https://github.com", Breaks) && Ascii("https://github.com")
    ensures IsWord("https://*.githubusercontent.com", Breaks) && Ascii("https://*.githubusercontent.com")
  {
    OriginWord("https://github.com");
    OriginWord("https://*.githubusercontent.com");
  }

  lemma KeywordWords()
    ensures IsWord("'self'", Breaks) && Ascii("'self'")
    ensures IsWord("'unsafe-inline'", Breaks) && Ascii("'unsafe-inline'")
    ensures IsWord("data:", Breaks) && Ascii("data:")
    ensures IsWord("blob:", Breaks) && Ascii("blob:")
    ensures IsWord("'none'", Breaks) && Ascii("'none'")
    ensures IsWord("'script'", Breaks) && Ascii("'script'")
  {
  }

  lemma PolicyWords()
    ensures IsWord("point", Breaks) && Ascii("point")
    ensures IsWord("point-leaflet", Breaks) && Ascii("point-leaflet")
    ensures IsWord("point-codejar", Breaks) && Ascii("point-codejar")
  {
  }

  lemma FixedWords()
    ensures IsWord("'self'", Breaks) && Ascii("'self'")
    ensures IsWord("'unsafe-inline'", Breaks) && Ascii("'unsafe-inline'")
    ensures IsWord("data:", Breaks) && Ascii("data:")
    ensures IsWord("blob:", Breaks) && Ascii("blob:")
    ensures IsWord("https://server.arcgisonline.com", Breaks) && Ascii("https://server.arcgisonline.com")
    ensures IsWord("https://github.com", Breaks) && Ascii("https://github.com")
    ensures IsWord("https://*.githubusercontent.com", Breaks) && Ascii("https://*.githubusercontent.com")
    ensures IsWord("'none'", Breaks) && Ascii("'none'")
    ensures IsWord("'script'", Breaks) && Ascii("'script'")
    ensures IsWord("point", Breaks) && Ascii("point")
    ensures IsWord("point-leaflet", Breaks) && Ascii("point-leaflet")
    ensures IsWord("point-codejar", Breaks) && Ascii("point-codejar")
  {
    TilesWord();
    GithubWords();
    KeywordWords();
    PolicyWords();
  }

  lemma HashIsWord(digest: string)
    requires Base64(digest)
    ensures IsWord(HashToken(digest), Breaks) && Ascii(HashToken(digest))
  {
    var w := HashToken(digest);
    assert w[0] == '\'';
    forall i | 0 <= i < |w|
      ensures !Breaks(w[i]) && w[i] as int < 128
    {
      if 8 <= i < |w| - 1 {
        assert w[i] == digest[i - 8];
      }
    }
  }

  /** A name tells itself from the others by its length and first letter. */
  function NameKey(name: string): int
    requires name != ""
  {
    1000 * |name| + name[0] as int
  }

  predicate GoodName(name: string, key: int) {
    IsWord(name, Breaks) && Ascii(name) && Mapped(name, AsciiLower) == name && NameKey(name) == key
  }

  lemma FetchNames()
    ensures GoodName("default-src", 11100) && GoodName("script-src", 10115) && GoodName("style-src", 9115)
    ensures GoodName("img-src", 7105)
  {
  }

  lemma MoreFetchNames()
    ensures GoodName("media-src", 9109) && GoodName("connect-src", 11099) && GoodName("object-src", 10111)
    ensures GoodName("base-uri", 8098)
  {
  }

  lemma OtherNames()
    ensures GoodName("form-action", 11102) && GoodName("frame-ancestors", 15102)
    ensures GoodName("trusted-types", 13116)
  {
  }

  lemma LongestName()
    ensures GoodName("require-trusted-types-for", 25114)
  {
  }

  const NAME_KEYS := [11100, 10115, 9115, 7105, 9109, 11099, 10111, 8098, 11102, 15102, 25114, 13116]

  predicate WordsBreakNothing(ws: seq<string>) {
    forall w :: w in ws ==> IsWord(w, Breaks)
  }

  lemma ListedSources(digests: seq<string>, script: string, connect: string)
    requires AllBase64(digests)
    ensures WordsBreakNothing([SELF] + Map(digests, HashToken) + Kept(script))
    ensures WordsBreakNothing([SELF, TILES] + Kept(connect))
  {
    FixedWords();
    KeptAreWords(script);
    KeptAreWords(connect);
    HashesAreWords(digests);
  }

  lemma HashesAreWords(digests: seq<string>)
    requires AllBase64(digests)
    ensures WordsBreakNothing(Map(digests, HashToken))
    ensures forall w :: w in Map(digests, HashToken) ==> Ascii(w)
  {
    forall w | w in Map(digests, HashToken)
      ensures IsWord(w, Breaks) && Ascii(w)
    {
      var i :| 0 <= i < |digests| && w == HashToken(digests[i]);
      HashIsWord(digests[i]);
    }
  }

  lemma IntendedNames(digests: seq<string>, script: string, connect: string, i: nat)
    requires i < 12
    ensures GoodName(Intended(digests, script, connect)[i].name, NAME_KEYS[i])
  {
    FetchNames();
    MoreFetchNames();
    OtherNames();
    LongestName();
  }

  lemma IntendedValues(digests: seq<string>, script: string, connect: string, i: nat)
    requires i < 12 && AllBase64(digests)
    ensures WordsBreakNothing(Intended(digests, script, connect)[i].value)
  {
    FixedWords();
    ListedSources(digests, script, connect);
  }

  lemma {:induction false} IntendedIsPrintable(digests: seq<string>, script: string, connect: string)
    requires AllBase64(digests)
    ensures AllPrintable(Intended(digests, script, connect))
  {
    var ds := Intended(digests, script, connect);
    forall i: nat | i < 12
      ensures GoodName(ds[i].name, NAME_KEYS[i]) && Printable(ds[i])
    {
      IntendedNames(digests, script, connect, i);
      IntendedValues(digests, script, connect, i);
    }
    assert forall i, j :: 0 <= i < j < 12 ==> NAME_KEYS[i] != NAME_KEYS[j];
    assert |ds| == 12;
  }

  lemma AllAsciiAppend(a: seq<string>, b: seq<string>)
    ensures AllAscii(a + b) <==> AllAscii(a) && AllAscii(b)
  {
    assert forall w :: w in a + b <==> w in a || w in b;
  }

  lemma FixedValuesAreAscii(digests: seq<string>, script: string, connect: string, i: nat)
    requires i < 12 && i != 1 && i != 5
    ensures AllAscii(Intended(digests, script, connect)[i].value)
  {
    FixedWords();
  }

  lemma OwnSourcesAreAscii(digests: seq<string>)
    requires AllBase64(digests)
    ensures AllAscii([SELF] + Map(digests, HashToken)) && AllAscii([SELF, TILES])
  {
    FixedWords();
    HashesAreWords(digests);
  }

  /** Only an operator's list can take its directive out of the policy. */
  lemma AsciiDirectives(digests: seq<string>, script: string, connect: string, i: nat)
    requires AllBase64(digests) && i < 12
    ensures AsciiDirective(Intended(digests, script, connect)[i]) <==>
      (i == 1 ==> AllAscii(Kept(script))) && (i == 5 ==> AllAscii(Kept(connect)))
  {
    IntendedNames(digests, script, connect, i);
    if i == 1 || i == 5 {
      OwnSourcesAreAscii(digests);
      AllAsciiAppend([SELF] + Map(digests, HashToken), Kept(script));
      AllAsciiAppend([SELF, TILES], Kept(connect));
    } else {
      FixedValuesAreAscii(digests, script, connect, i);
    }
  }

  lemma {:induction false} FilterKeepsAll(ds: seq<Directive>)
    ensures Filter(ds, AsciiDirective) == ds <==> forall d :: d in ds ==> AsciiDirective(d)
  {
    if ds != [] {
      FilterKeepsAll(ds[1..]);
      if AsciiDirective(ds[0]) {
        assert Filter(ds, AsciiDirective)[1..] == Filter(ds[1..], AsciiDirective);
      }
    }
  }

  /** For any operator's lists the browser reads the meant directives, in order. It
      reads them all exactly if every kept source is ASCII: the standard makes a
      browser skip a whole directive that holds any other character. */
  lemma BrowserReadsThePolicy(digests: seq<string>, script: string, connect: string)
    requires AllBase64(digests)
    ensures var ds := Intended(digests, script, connect);
      && Parse(Printed(ds)) == Filter(ds, AsciiDirective)
      && (Parse(Printed(ds)) == ds <==> AllAscii(Kept(script)) && AllAscii(Kept(connect)))
  {
    var ds := Intended(digests, script, connect);
    IntendedIsPrintable(digests, script, connect);
    ParseOfPrinted(ds);
    FilterKeepsAll(ds);
    AsciiDirectives(digests, script, connect, 1);
    AsciiDirectives(digests, script, connect, 5);
    forall i: nat | i < 12 && i != 1 && i != 5
      ensures AsciiDirective(ds[i])
    {
      AsciiDirectives(digests, script, connect, i);
    }
    assert ds[1] in ds && ds[5] in ds && |ds| == 12;
  }

  lemma KeptOfOneWord(s: string)
    requires IsWord(s, IsSpace) && Safe(s)
    ensures Kept(s) == [s]
  {
    FieldsOfWord(s, "", IsSpace);
    assert s + "" == s;
  }

  const FOREIGN := "b\U{00FC}cher.example"

  lemma ForeignIsAWord()
    ensures IsWord(FOREIGN, IsSpace) && Safe(FOREIGN)
  {
  }

  lemma ForeignIsKept()
    ensures Kept(FOREIGN) == [FOREIGN] && !Ascii(FOREIGN)
  {
    ForeignIsAWord();
    KeptOfOneWord(FOREIGN);
    assert FOREIGN[1] as int == 252;
  }

  /** A list with a letter outside ASCII costs the whole directive: scripts then fall
      back to default-src. */
  lemma {:induction false} ForeignSourceDropsScriptSrc()
    ensures var ds := Intended([], FOREIGN, "");
      ds[1].name == "script-src" && ds[1] !in Parse(Printed(ds))
  {
    ForeignIsKept();
    BrowserReadsThePolicy([], FOREIGN, "");
    AsciiDirectives([], FOREIGN, "", 1);
    assert FOREIGN in Kept(FOREIGN);
  }

  // ── The splice ────────────────────────────────────────────────────────────

  /** strings.Replace with a count of 1. */
  function ReplaceFirst(s: string, pat: string, replacement: string): string {
    match IndexOf(s, pat)
    case None => s
    case Some(i) => s[..i] + replacement + s[i + |pat|..]
  }

  /** The header of one answer: the hash of that document's bootstrap script goes in. */
  function Splice(policy: string, digest: string): string {
    ReplaceFirst(policy, "script-src", "script-src " + HashToken(digest))
  }

  lemma ScriptSrcIsFirstAt20(rest: string)
    ensures IndexOf("default-src 'self'; script-src" + rest, "script-src") == Some(20)
  {
    var head := "default-src 'self'; script-src";
    var s := head + rest;
    assert s[20..30] == "script-src";
    forall j: nat | j < 20
      ensures !At(s, "script-src", j)
    {
      assert s[j] == head[j] && s[j + 1] == head[j + 1];
      assert head[j] != 's' || head[j + 1] != 'c';
      assert "script-src"[0] == 's' && "script-src"[1] == 'c';
    }
    assert At(s, "script-src", 20);
  }

  function WithHash(ds: seq<Directive>, digest: string): seq<Directive>
    requires |ds| >= 2
  {
    ds[1 := Directive(ds[1].name, [HashToken(digest)] + ds[1].value)]
  }

  lemma PrintedInTwo(ds: seq<Directive>)
    requires |ds| >= 2 && ds[0] == Directive("default-src", [SELF]) && ds[1].name == "script-src"
    ensures Printed(ds) == "default-src 'self'; script-src" + (Spaced(ds[1].value) + Tail(ds[2..]))
  {
    FixedDefault();
    assert ds[1..][1..] == ds[2..];
    assert "default-src 'self'; script-src" == "default-src 'self'" + "; " + "script-src";
  }

  lemma SpliceAt20(rest: string, digest: string)
    ensures Splice("default-src 'self'; script-src" + rest, digest) ==
      "default-src 'self'; " + ("script-src " + HashToken(digest)) + rest
  {
    var head := "default-src 'self'; script-src";
    var s := head + rest;
    ScriptSrcIsFirstAt20(rest);
    assert head[..20] == "default-src 'self'; ";
    assert s[..20] == head[..20] && s[30..] == rest;
  }

  lemma HashInFront(digest: string, value: seq<string>)
    ensures "default-src 'self'; " + ("script-src " + HashToken(digest)) + Spaced(value) ==
      "default-src 'self'; script-src" + Spaced([HashToken(digest)] + value)
  {
    assert ([HashToken(digest)] + value)[1..] == value;
    var h := HashToken(digest);
    assert "default-src 'self'; " + "script-src " == "default-src 'self'; script-src" + " ";
    assert "default-src 'self'; " + ("script-src " + h) == "default-src 'self'; " + "script-src " + h;
  }

  lemma Regroup(head: string, v: string, t: string, a: string, v2: string)
    requires head + v == a + v2
    ensures head + (v + t) == a + (v2 + t)
  {
    assert head + (v + t) == head + v + t;
    assert a + (v2 + t) == a + v2 + t;
  }

  /** The splice puts the hash in front of the script sources and changes no other
      directive. */
  lemma SpliceAddsTheHash(ds: seq<Directive>, digest: string)
    requires |ds| >= 2 && ds[0] == Directive("default-src", [SELF]) && ds[1].name == "script-src"
    ensures Splice(Printed(ds), digest) == Printed(WithHash(ds, digest))
  {
    var value, tail := ds[1].value, Tail(ds[2..]);
    PrintedInTwo(ds);
    PrintedInTwo(WithHash(ds, digest));
    SpliceAt20(Spaced(value) + tail, digest);
    HashInFront(digest, value);
    assert WithHash(ds, digest)[2..] == ds[2..];
    Regroup("default-src 'self'; " + ("script-src " + HashToken(digest)), Spaced(value), tail,
            "default-src 'self'; script-src", Spaced([HashToken(digest)] + value));
  }

  /** Which scripts the policy of an answer lets run: the document's own bootstrap, the
      site's own files, the shell's inline scripts and what the operator has listed. */
  lemma {:induction false} ScriptSources(digests: seq<string>, script: string, connect: string, digest: string)
    ensures var v := WithHash(Intended(digests, script, connect), digest)[1].value;
            |v| == 2 + |digests| + |Kept(script)| && v[0] == "'sha256-" + digest + "'" && v[1] == "'self'" &&
            (forall i :: 0 <= i < |digests| ==> v[2 + i] == "'sha256-" + digests[i] + "'") &&
            v[2 + |digests|..] == Kept(script)
  {
  }

  lemma WithHashIsPrintable(ds: seq<Directive>, digest: string)
    requires |ds| >= 2 && AllPrintable(ds) && Base64(digest)
    ensures AllPrintable(WithHash(ds, digest))
  {
    var es := WithHash(ds, digest);
    HashIsWord(digest);
    assert forall i :: 0 <= i < |ds| ==> es[i].name == ds[i].name;
    forall d | d in es
      ensures Printable(d)
    {
      var i :| 0 <= i < |es| && es[i] == d;
      assert Printable(ds[i]);
    }
  }

  lemma {:induction false} TailHoldsNo(ds: seq<Directive>, c: char)
    requires Breaks(c) && c != ' ' && c != ';' && forall d :: d in ds ==> Printable(d)
    ensures c !in Tail(ds)
  {
    if ds != [] {
      TextHoldsNo(ds[0], c);
      TailHoldsNo(ds[1..], c);
    }
  }

  /** A header with one policy on one line: no comma, no line break. */
  predicate OnePolicy(header: string) {
    ',' !in header && '\r' !in header && '\n' !in header
  }

  lemma PrintedIsOnePolicy(ds: seq<Directive>)
    requires ds != [] && AllPrintable(ds)
    ensures OnePolicy(Printed(ds))
  {
    forall c | c == ',' || c == '\r' || c == '\n'
      ensures c !in Printed(ds)
    {
      TextHoldsNo(ds[0], c);
      TailHoldsNo(ds[1..], c);
    }
  }

  /** What the browser makes of a document's header: the meant policy with the hash of
      that document's script first among the script sources, and nothing else changed.
      Header and startup policy are each one policy on one line. */
  lemma BrowserReadsTheSplice(digests: seq<string>, script: string, connect: string, digest: string)
    requires AllBase64(digests) && Base64(digest)
    ensures var ds := Intended(digests, script, connect);
      && Parse(Splice(Printed(ds), digest)) == Filter(WithHash(ds, digest), AsciiDirective)
      && OnePolicy(Printed(ds)) && OnePolicy(Splice(Printed(ds), digest))
  {
    var ds := Intended(digests, script, connect);
    IntendedIsPrintable(digests, script, connect);
    WithHashIsPrintable(ds, digest);
    SpliceAddsTheHash(ds, digest);
    ParseOfPrinted(WithHash(ds, digest));
    PrintedIsOnePolicy(ds);
    PrintedIsOnePolicy(WithHash(ds, digest));
  }
}
