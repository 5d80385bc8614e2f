/** What the splitter's depth means for the words of a script, and what becomes of
    a CREATE TRIGGER (api/sql/embed.go, api/sql/schema.sql).

    The keywords are spelled out here and not taken from the splitter. */
module SqlWords {
  import opened Prelude
  import opened SqlSplit
  import opened Text

  /** `w` is `small` or `large`, or has letters of both. */
  predicate Spells(w: string, small: string, large: string)
    requires |small| == |large|
  {
    |w| == |small| && forall i :: 0 <= i < |w| ==> w[i] == small[i] || w[i] == large[i]
  }

  predicate IsBegin(w: string) {
    Spells(w, "begin", "BEGIN")
  }

  predicate IsEnd(w: string) {
    Spells(w, "end", "END")
  }

  /** How far the word reaches that a text starts with. */
  function Run(t: string): (n: nat)
    ensures n <= |t| && (forall i :: 0 <= i < n ==> WordChar(t[i])) && (n < |t| ==> !WordChar(t[n]))
  {
    if t == "" || !WordChar(t[0]) then 0 else 1 + Run(t[1..])
  }

  /** The words of a text, whole and in order. */
  function WordsOf(t: string): seq<string>
    decreases |t|
  {
    if t == "" then []
    else if WordChar(t[0]) then [t[..Run(t)]] + WordsOf(t[Run(t)..])
    else WordsOf(t[1..])
  }

  /** The depth after a list of words: up at each BEGIN, down at each END, never below 0. */
  function DepthOf(words: seq<string>, depth: nat): nat {
    if words == [] then depth
    else if IsBegin(words[0]) then DepthOf(words[1..], depth + 1)
    else if IsEnd(words[0]) then DepthOf(words[1..], if depth > 0 then depth - 1 else 0)
    else DepthOf(words[1..], depth)
  }

  // ── The depth is that of the words ────────────────────────────────────────

  /** The characters of words, by code point: small letters, capitals, digits and the
      underscore. */
  lemma WordCharacters(c: char)
    ensures WordChar(c) <==>
            97 <= c as int <= 122 || 65 <= c as int <= 90 || 48 <= c as int <= 57 || c as int == 95
  {
  }

  lemma {:induction false} FoldedIsSpelled(w: string)
    ensures SameFolded(w, BEGIN) <==> IsBegin(w)
    ensures SameFolded(w, END) <==> IsEnd(w)
  {
  }

  /** Between two characters, not both of a word. */
  predicate Boundary(t: string, i: nat)
    requires i <= |t|
  {
    i == 0 || i == |t| || !WordChar(t[i - 1]) || !WordChar(t[i])
  }

  lemma {:induction false} NoHitInside(t: string, i: nat)
    requires i < |t| && (!Boundary(t, i) || !WordChar(t[i]))
    ensures HitAt(t, i) == Neither
  {
    NotAKeyword(t, i, BEGIN);
    NotAKeyword(t, i, END);
  }

  lemma {:induction false} NotAKeyword(t: string, i: nat, kw: string)
    requires i < |t| && (kw == BEGIN || kw == END)
    requires !WordChar(t[i]) || (i > 0 && WordChar(t[i - 1]))
    ensures !WordAt(t, i, kw)
  {
    if WordAt(t, i, kw) && !WordChar(t[i]) {
      WordEndsBefore(t, i, kw, i);
    }
  }

  /** A keyword found is the whole word that starts there. */
  lemma {:induction false} KeywordIsWhole(t: string, i: nat, kw: string)
    requires i < |t| && (kw == BEGIN || kw == END) && WordChar(t[i]) && Boundary(t, i)
    ensures WordAt(t, i, kw) <==> SameFolded(t[i..][..Run(t[i..])], kw)
  {
    var n := Run(t[i..]);
    assert t[i..][..n] == t[i..i + n];
    if i + n < |t| {
      assert t[i..][n] == t[i + n];
    }
    if WordAt(t, i, kw) {
      WordReaches(t, i, kw);
    }
  }

  lemma {:induction false} WordReaches(t: string, i: nat, kw: string)
    requires WordAt(t, i, kw) && (kw == BEGIN || kw == END) && i < |t|
    ensures Run(t[i..]) == |kw|
  {
    var n := Run(t[i..]);
    if n < |kw| {
      assert t[i..][n] == t[i + n];
      WordEndsBefore(t, i, kw, i + n);
    }
  }

  lemma {:induction false} SkipsTheWord(t: string, i: nat, end: nat, depth: nat)
    requires 0 < i <= end <= |t|
    requires forall j :: i - 1 <= j < end ==> WordChar(t[j])
    ensures Scan(t, i, depth) == Scan(t, end, depth)
    decreases end - i
  {
    if i < end {
      NoHitInside(t, i);
      SkipsTheWord(t, i + 1, end, depth);
    }
  }

  lemma {:induction false} HitIsTheWord(t: string, i: nat)
    requires i < |t| && WordChar(t[i]) && Boundary(t, i)
    ensures var w := t[i..][..Run(t[i..])];
            HitAt(t, i) == if IsBegin(w) then Begin else if IsEnd(w) then End else Neither
  {
    KeywordIsWhole(t, i, BEGIN);
    KeywordIsWhole(t, i, END);
    FoldedIsSpelled(t[i..][..Run(t[i..])]);
  }

  lemma {:induction false} WordBounds(t: string, i: nat)
    requires i < |t| && WordChar(t[i])
    ensures var n := Run(t[i..]);
            n > 0 && i + n <= |t| && Boundary(t, i + n) && forall j :: i <= j < i + n ==> WordChar(t[j])
  {
    var n := Run(t[i..]);
    assert t[i..][0] == t[i];
    if i + n < |t| {
      assert t[i..][n] == t[i + n];
    }
    forall j | i <= j < i + n
      ensures WordChar(t[j])
    {
      assert t[j] == t[i..][j - i];
    }
  }

  function TurnOf(w: string, depth: nat): nat {
    if IsBegin(w) then depth + 1 else if IsEnd(w) then (if depth > 0 then depth - 1 else 0) else depth
  }

  lemma {:induction false} ScanTurns(t: string, i: nat, depth: nat)
    requires i < |t| && HitAt(t, i) != Neither
    ensures Scan(t, i, depth) == Scan(t, i + HitAt(t, i).Width(), HitAt(t, i).Turn(depth))
  {
  }

  lemma {:induction false} ScanPasses(t: string, i: nat, depth: nat)
    requires i < |t| && HitAt(t, i) == Neither
    ensures Scan(t, i, depth) == Scan(t, i + 1, depth)
  {
  }

  lemma {:induction false} ScanOneWord(t: string, i: nat, depth: nat)
    requires i < |t| && WordChar(t[i]) && Boundary(t, i)
    ensures i + Run(t[i..]) <= |t|
    ensures Scan(t, i, depth) == Scan(t, i + Run(t[i..]), TurnOf(t[i..][..Run(t[i..])], depth))
  {
    var n := Run(t[i..]);
    var w := t[i..][..n];
    HitIsTheWord(t, i);
    if IsBegin(w) || IsEnd(w) {
      ScanTurns(t, i, depth);
    } else {
      WordBounds(t, i);
      ScanPasses(t, i, depth);
      SkipsTheWord(t, i + 1, i + n, depth);
    }
  }

  lemma {:induction false} FirstWordOf(t: string, i: nat)
    requires i < |t| && WordChar(t[i])
    ensures var n := Run(t[i..]);
            i < i + n <= |t| && Boundary(t, i + n) && WordsOf(t[i..]) == [t[i..][..n]] + WordsOf(t[i + n..])
  {
    var n := Run(t[i..]);
    WordBounds(t, i);
    FirstWord(t[i..]);
    assert t[i..][n..] == t[i + n..];
  }

  /** From position i on, scanning and counting the words come to the same depth. */
  predicate Agree(t: string, i: nat, depth: nat)
    requires i <= |t|
  {
    Scan(t, i, depth) == DepthOf(WordsOf(t[i..]), depth)
  }

  lemma {:induction false} AgreeAtEnd(t: string, depth: nat)
    ensures Agree(t, |t|, depth)
  {
    assert t[|t|..] == "";
  }

  lemma {:induction false} AgreeBeforeOther(t: string, i: nat, depth: nat)
    requires i < |t| && !WordChar(t[i]) && Agree(t, i + 1, depth)
    ensures Agree(t, i, depth)
  {
    NoHitInside(t, i);
    assert t[i..][1..] == t[i + 1..];
  }

  lemma {:induction false} AgreeBeforeWord(t: string, i: nat, n: nat, w: string, depth: nat)
    requires i < i + n <= |t| && WordChar(t[i]) && Boundary(t, i)
    requires n == Run(t[i..]) && w == t[i..][..n]
    requires Agree(t, i + n, TurnOf(w, depth))
    ensures Agree(t, i, depth)
  {
    FirstWordOf(t, i);
    ScanOneWord(t, i, depth);
    DepthOfCons(w, WordsOf(t[i + n..]), depth);
  }

  lemma {:induction false} ScanIsDepthOf(t: string, i: nat, depth: nat)
    requires i <= |t| && Boundary(t, i)
    ensures Agree(t, i, depth)
    decreases |t| - i
  {
    if i == |t| {
      AgreeAtEnd(t, depth);
    } else if WordChar(t[i]) {
      WordBounds(t, i);
      var n := Run(t[i..]);
      ScanIsDepthOf(t, i + n, TurnOf(t[i..][..n], depth));
      AgreeBeforeWord(t, i, n, t[i..][..n], depth);
    } else {
      ScanIsDepthOf(t, i + 1, depth);
      AgreeBeforeOther(t, i, depth);
    }
  }

  lemma {:induction false} DepthOfCons(w: string, words: seq<string>, depth: nat)
    ensures DepthOf([w] + words, depth) == DepthOf(words, TurnOf(w, depth))
  {
    assert ([w] + words)[1..] == words;
  }

  lemma {:induction false} DepthOfAppend(a: seq<string>, b: seq<string>, depth: nat)
    ensures DepthOf(a + b, depth) == DepthOf(b, DepthOf(a, depth))
    decreases |a|
  {
    if a == [] {
      assert a + b == b;
    } else {
      assert (a + b)[1..] == a[1..] + b;
      DepthOfAppend(a[1..], b, TurnOf(a[0], depth));
    }
  }

  /** The depth of any text is counted from its whole words, BEGIN and END in any letter
      case: a keyword inside a longer word counts for nothing. */
  lemma DepthCountsWords(t: string)
    ensures Depth(t) == DepthOf(WordsOf(t), 0)
  {
    ScanIsDepthOf(t, 0, 0);
    assert t[0..] == t;
  }

  // ── Words of parts ────────────────────────────────────────────────────────

  lemma {:induction false} RunOfParts(a: string, b: string)
    requires a != "" && (!WordChar(a[|a| - 1]) || b == "" || !WordChar(b[0]))
    ensures Run(a + b) == Run(a)
  {
    if WordChar(a[0]) {
      assert (a + b)[1..] == a[1..] + b;
      if |a| > 1 {
        RunOfParts(a[1..], b);
      } else {
        assert a[1..] + b == b;
      }
    }
  }

  lemma {:induction false} FirstWord(t: string)
    requires t != "" && WordChar(t[0])
    ensures Run(t) > 0 && WordsOf(t) == [t[..Run(t)]] + WordsOf(t[Run(t)..])
  {
  }

  lemma {:induction false} WordsOfParts(a: string, b: string)
    requires a == "" || !WordChar(a[|a| - 1]) || b == "" || !WordChar(b[0])
    ensures WordsOf(a + b) == WordsOf(a) + WordsOf(b)
    decreases |a|
  {
    if a == "" {
      assert a + b == b;
    } else if WordChar(a[0]) {
      WordInFront(a, b);
      WordsOfParts(a[Run(a)..], b);
      FirstWord(a);
    } else {
      assert (a + b)[1..] == a[1..] + b;
      WordsOfParts(a[1..], b);
    }
  }

  lemma {:induction false} WordInFront(a: string, b: string)
    requires a != "" && WordChar(a[0]) && (!WordChar(a[|a| - 1]) || b == "" || !WordChar(b[0]))
    ensures var n := Run(a);
            n > 0 && WordsOf(a + b) == [a[..n]] + WordsOf(a[n..] + b) &&
            (n < |a| ==> a[n..][|a[n..]| - 1] == a[|a| - 1])
  {
    var n := Run(a);
    RunOfParts(a, b);
    FirstWord(a + b);
    assert (a + b)[..n] == a[..n] && (a + b)[n..] == a[n..] + b;
  }

  lemma {:induction false} OneWord(w: string)
    requires IsBegin(w) || IsEnd(w)
    ensures WordsOf(w) == [w]
  {
    forall i | 0 <= i < |w|
      ensures WordChar(w[i])
    {
    }
    assert Run(w) == |w|;
    assert w[..|w|] == w && w[|w|..] == "";
  }

  /** No word of the text is BEGIN or END. */
  predicate NoKeyword(t: string) {
    forall w :: w in WordsOf(t) ==> !IsBegin(w) && !IsEnd(w)
  }

  lemma {:induction false} PlainWords(words: seq<string>, depth: nat)
    requires forall w :: w in words ==> !IsBegin(w) && !IsEnd(w)
    ensures DepthOf(words, depth) == depth
  {
    if words != [] {
      PlainWords(words[1..], depth);
    }
  }

  /** White space, and at least one character of it. */
  predicate Gap(g: string) {
    g != "" && Blank(g)
  }

  lemma {:induction false} NoWordsInBlank(g: string)
    requires Blank(g)
    ensures WordsOf(g) == []
  {
    if g != "" {
      assert !WordChar(g[0]);
      NoWordsInBlank(g[1..]);
    }
  }

  /** A gap parts two words, and holds none. */
  lemma {:induction false} WordsAcross(a: string, g: string, b: string)
    requires Gap(g)
    ensures WordsOf(a + g + b) == WordsOf(a) + WordsOf(b)
  {
    assert !WordChar(g[0]) && !WordChar(g[|g| - 1]);
    assert (a + g)[|a + g| - 1] == g[|g| - 1];
    NoWordsInBlank(g);
    WordsOfParts(a, g);
    WordsOfParts(a + g, b);
    assert WordsOf(a) + [] == WordsOf(a);
  }

  lemma {:induction false} WordsBeforeASemicolon(a: string)
    ensures WordsOf(a + ";") == WordsOf(a)
  {
    var semi := ";";
    assert WordsOf(semi) == WordsOf(semi[1..]) == [];
    WordsOfParts(a, semi);
    assert WordsOf(a) + [] == WordsOf(a);
  }

  lemma {:induction false} DepthAcross(a: string, g: string, w: string)
    requires Gap(g) && (IsBegin(w) || IsEnd(w))
    ensures Depth(a + g + w) == TurnOf(w, Depth(a))
  {
    OneWord(w);
    WordsAcross(a, g, w);
    DepthCountsWords(a + g + w);
    DepthCountsWords(a);
    DepthOfAppend(WordsOf(a), [w], 0);
    DepthOfCons(w, [], Depth(a));
    assert [w] + [] == [w];
  }

  lemma {:induction false} DepthStaysAcross(a: string, g: string, b: string)
    requires Gap(g) && NoKeyword(b)
    ensures Depth(a + g + b) == Depth(a)
  {
    WordsAcross(a, g, b);
    DepthCountsWords(a + g + b);
    DepthCountsWords(a);
    DepthOfAppend(WordsOf(a), WordsOf(b), 0);
    PlainWords(WordsOf(b), Depth(a));
  }

  /** After a head without keywords, BEGIN in any letter case opens depth 1, and what
      follows without keywords stays there. */
  lemma {:induction false} TriggerIsOpen(head: string, g1: string, b: string, g2: string, body: string)
    requires NoKeyword(head) && NoKeyword(body) && IsBegin(b) && Gap(g1) && Gap(g2)
    ensures Depth(head + g1 + b + g2 + body) == 1
  {
    DepthCountsWords(head);
    PlainWords(WordsOf(head), 0);
    DepthAcross(head, g1, b);
    DepthStaysAcross(head + g1 + b, g2, body);
  }

  /** A CREATE TRIGGER up to its semicolon: a head, BEGIN, the statements and END, with
      white space between them. */
  datatype Trigger = Trigger(
    head: string, g1: string, begin: string, g2: string, body: string, g3: string, end: string)
  {
    function Open(): string {
      head + g1 + begin + g2
    }

    function Text(): string {
      Open() + body + g3 + end + ";"
    }

    predicate Ok() {
      NoKeyword(head) && NoKeyword(body) && IsBegin(begin) && IsEnd(end) && Gap(g1) && Gap(g2) && Gap(g3) &&
      head != "" && !IsSpace(head[0]) && ';' !in head
    }
  }

  /** The END after it takes the depth back to 0. */
  lemma {:induction false} TriggerIsClosed(t: Trigger)
    requires t.Ok()
    ensures Depth(t.Text()) == 0
  {
    var open := t.Open() + t.body;
    TriggerIsOpen(t.head, t.g1, t.begin, t.g2, t.body);
    DepthAcross(open, t.g3, t.end);
    var s := open + t.g3 + t.end;
    WordsBeforeASemicolon(s);
    DepthCountsWords(s);
    DepthCountsWords(s + ";");
  }

  /** What a text up to one of its semicolons has of keywords. */
  lemma {:induction false} NoKeywordUpTo(body: string, m: nat)
    requires NoKeyword(body) && 0 < m <= |body| && body[m - 1] == ';'
    ensures NoKeyword(body[..m])
  {
    assert body == body[..m] + body[m..];
    WordsOfParts(body[..m], body[m..]);
  }

  lemma {:induction false} NoSemicolonAround(t: Trigger)
    requires t.Ok()
    ensures ';' !in t.Open() && ';' !in t.g3 + t.end
  {
    assert ';' !in t.g1 && ';' !in t.g2 && ';' !in t.g3;
    assert ';' !in t.begin && ';' !in t.end;
  }

  lemma {:induction false} TriggerIsUnbroken(t: Trigger)
    requires t.Ok()
    ensures Unbroken(t.Text())
  {
    var s, open := t.Text(), t.Open();
    NoSemicolonAround(t);
    assert s == open + t.body + (t.g3 + t.end) + ";";
    forall k | 0 <= k < |s| - 1 && s[k] == ';'
      ensures Depth(s[..k + 1]) > 0
    {
      SemicolonIsInBody(open, t.body, t.g3 + t.end, k);
      var m := k + 1 - |open|;
      NoKeywordUpTo(t.body, m);
      assert s[..k + 1] == open + t.body[..m];
      TriggerIsOpen(t.head, t.g1, t.begin, t.g2, t.body[..m]);
    }
  }

  lemma SemicolonIsInBody(open: string, body: string, close: string, k: nat)
    requires k < |open + body + close| && (open + body + close)[k] == ';'
    requires ';' !in open && ';' !in close
    ensures |open| <= k < |open| + |body| && body[k - |open|] == ';'
  {
    var t := open + body + close;
    assert forall i :: 0 <= i < |open| ==> t[i] == open[i] && open[i] != ';';
    assert forall i :: 0 <= i < |close| ==> t[|open| + |body| + i] == close[i] && close[i] != ';';
  }

  /** A CREATE TRIGGER comes out as one statement, whatever semicolons there are between
      its BEGIN and its END. */
  lemma {:induction false} TriggerIsOneStatement(t: Trigger)
    requires t.Ok()
    ensures WellFormed(t.Text())
    ensures Statements(Chunks(t.Text())) == [t.Text()]
  {
    var s := t.Text();
    TriggerIsClosed(t);
    TriggerIsUnbroken(t);
    assert s[0] == t.head[0];
    var gaps, all := ["", ""], [s];
    assert all[1..] == [] && gaps[1..] == [""];
    assert Join(all[1..], gaps[1..]) == "";
    assert Join(all, gaps) == "" + s + "" == s;
    SplitOfJoin(all, gaps);
  }

  // ── The ends of a statement ───────────────────────────────────────────────

  /** A statement is not empty, and neither begins nor ends with a blank, a tab or a
      line break. */
  lemma {:induction false} StatementsAreTrimmed(chunks: seq<string>, s: string)
    requires s in Statements(chunks)
    ensures s != "" && s[0] !in " \t\r\n" && s[|s| - 1] !in " \t\r\n"
  {
    if s in Statements(chunks[1..]) {
      StatementsAreTrimmed(chunks[1..], s);
    } else {
      var lead, tail := TrimSplits(chunks[0]);
    }
  }
}
