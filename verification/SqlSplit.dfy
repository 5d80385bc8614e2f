/** The schema splitter (api/sql/embed.go): cuts a script at its semicolons, but
    not between BEGIN and END. */
module SqlSplit {
  import opened Prelude
  import opened Text

  predicate SameFolded(a: string, b: string) {
    |a| == |b| && forall i :: 0 <= i < |a| ==> AsciiLower(a[i]) == AsciiLower(b[i])
  }

  // ── Keywords and depth ────────────────────────────────────────────────────

  /** A match of `\b` + kw + `\b` at position i, for a keyword of word characters. */
  predicate WordAt(t: string, i: nat, kw: string) {
    i + |kw| <= |t| && SameFolded(t[i..i + |kw|], kw) &&
    (i == 0 || !WordChar(t[i - 1])) && (i + |kw| == |t| || !WordChar(t[i + |kw|]))
  }

  const BEGIN := "BEGIN"
  const END := "END"

  datatype Hit = Begin | End | Neither
  {
    function Width(): nat {
      match this
      case Begin => 5
      case End => 3
      case Neither => 1
    }

    /** END does not go below zero. */
    function Turn(depth: nat): nat {
      match this
      case Begin => depth + 1
      case End => if depth > 0 then depth - 1 else 0
      case Neither => depth
    }
  }

  function HitAt(t: string, i: nat): (h: Hit)
    requires i < |t|
    ensures i + h.Width() <= |t|
  {
    if WordAt(t, i, BEGIN) then Begin else if WordAt(t, i, END) then End else Neither
  }

  /** The depth after the matches found from position i on, left to right and
      without overlap. */
  function Scan(t: string, i: nat, depth: nat): nat
    requires i <= |t|
    decreases |t| - i
  {
    if i == |t| then depth
    else
      var h := HitAt(t, i);
      Scan(t, i + h.Width(), h.Turn(depth))
  }

  function Depth(t: string): nat {
    Scan(t, 0, 0)
  }

  /** A match ends before any character that is in no word. */
  lemma WordEndsBefore(t: string, i: nat, kw: string, j: nat)
    requires WordAt(t, i, kw) && (kw == BEGIN || kw == END)
    requires i <= j < |t| && !WordChar(t[j])
    ensures i + |kw| <= j
  {
    forall m | i <= m < i + |kw|
      ensures WordChar(t[m])
    {
      assert AsciiLower(t[i..i + |kw|][m - i]) == AsciiLower(kw[m - i]);
    }
  }

  /** No keyword straddles the end of `a`, which is no word character. */
  lemma WordsDoNotStraddle(a: string, b: string, i: nat, kw: string)
    requires a != "" && !WordChar(a[|a| - 1]) && i < |a|
    requires kw == BEGIN || kw == END
    ensures WordAt(a + b, i, kw) <==> WordAt(a, i, kw)
  {
    var t := a + b;
    if WordAt(t, i, kw) {
      WordEndsBefore(t, i, kw, |a| - 1);
    }
    if WordAt(a, i, kw) {
      WordEndsBefore(a, i, kw, |a| - 1);
    }
    if i + |kw| < |a| {
      assert t[i..i + |kw|] == a[i..i + |kw|];
    }
  }

  /** No keyword of the second text looks back into the first. */
  lemma WordInSecond(a: string, b: string, i: nat, kw: string)
    requires a == "" || !WordChar(a[|a| - 1])
    requires i <= |b|
    ensures WordAt(a + b, |a| + i, kw) <==> WordAt(b, i, kw)
  {
    var t := a + b;
    if i + |kw| <= |b| {
      assert t[|a| + i..|a| + i + |kw|] == b[i..i + |kw|];
    }
  }

  lemma {:induction false} HitInSecond(a: string, b: string, i: nat)
    requires a == "" || !WordChar(a[|a| - 1])
    requires i < |b|
    ensures HitAt(a + b, |a| + i) == HitAt(b, i)
  {
    WordInSecond(a, b, i, BEGIN);
    WordInSecond(a, b, i, END);
  }

  lemma {:induction false} HitInFirst(a: string, b: string, i: nat)
    requires i < |a| && !WordChar(a[|a| - 1])
    ensures HitAt(a + b, i) == HitAt(a, i)
  {
    WordsDoNotStraddle(a, b, i, BEGIN);
    WordsDoNotStraddle(a, b, i, END);
  }

  /** `u` is what `t` holds from `off` on, as far as keywords are concerned. */
  predicate SameHits(t: string, u: string, off: nat) {
    off + |u| == |t| && forall j: nat :: j < |u| ==> HitAt(t, off + j) == HitAt(u, j)
  }

  lemma {:induction false} ScanShifted(t: string, u: string, off: nat, i: nat, depth: nat)
    requires SameHits(t, u, off) && i <= |u|
    ensures Scan(t, off + i, depth) == Scan(u, i, depth)
    decreases |u| - i
  {
    if i < |u| {
      var h := HitAt(u, i);
      ScanShifted(t, u, off, i + h.Width(), h.Turn(depth));
    }
  }

  lemma {:induction false} HitsInSecond(a: string, b: string)
    requires a == "" || !WordChar(a[|a| - 1])
    ensures SameHits(a + b, b, |a|)
  {
    forall j: nat | j < |b|
      ensures HitAt(a + b, |a| + j) == HitAt(b, j)
    {
      HitInSecond(a, b, j);
    }
  }

  lemma {:induction false} ScanSecond(a: string, b: string, i: nat, depth: nat)
    requires a == "" || !WordChar(a[|a| - 1])
    requires i <= |b|
    ensures Scan(a + b, |a| + i, depth) == Scan(b, i, depth)
  {
    HitsInSecond(a, b);
    ScanShifted(a + b, b, |a|, i, depth);
  }

  lemma {:induction false} ScanFirst(a: string, b: string, i: nat, depth: nat)
    requires a == "" || !WordChar(a[|a| - 1])
    requires i <= |a|
    ensures Scan(a + b, i, depth) == Scan(b, 0, Scan(a, i, depth))
    decreases |a| - i
  {
    if i == |a| {
      ScanSecond(a, b, 0, depth);
    } else {
      HitInFirst(a, b, i);
      var h := HitAt(a, i);
      ScanFirst(a, b, i + h.Width(), h.Turn(depth));
    }
  }

  /** The depth of a text that is cut after a character no word has. */
  lemma DepthOfParts(a: string, b: string)
    requires a == "" || !WordChar(a[|a| - 1])
    ensures Depth(a + b) == Scan(b, 0, Depth(a))
  {
    ScanFirst(a, b, 0, 0);
  }

  // ── What the splitter must give ───────────────────────────────────────────

  /** The position after the first semicolon from n on at which the depth is 0. */
  function FirstCut(t: string, n: nat): (r: Option<nat>)
    requires n <= |t|
    ensures r.Some? ==> n < r.value <= |t| && t[r.value - 1] == ';' && Depth(t[..r.value]) == 0
    ensures r.Some? ==> forall k :: n <= k < r.value - 1 && t[k] == ';' ==> Depth(t[..k + 1]) > 0
    ensures r.None? ==> forall k :: n <= k < |t| && t[k] == ';' ==> Depth(t[..k + 1]) > 0
    decreases |t| - n
  {
    if n == |t| then None
    else if t[n] == ';' && Depth(t[..n + 1]) == 0 then Some(n + 1)
    else FirstCut(t, n + 1)
  }

  /** The text cut at every semicolon of depth 0, and what is left after the last. */
  function Chunks(t: string): seq<string>
    decreases |t|
  {
    match FirstCut(t, 0)
    case None => [t]
    case Some(n) => [t[..n]] + Chunks(t[n..])
  }

  function TrimLeft(t: string): string {
    if t != "" && IsSpace(t[0]) then TrimLeft(t[1..]) else t
  }

  function TrimRight(t: string): string {
    if t != "" && IsSpace(t[|t| - 1]) then TrimRight(t[..|t| - 1]) else t
  }

  function Trim(t: string): string {
    TrimRight(TrimLeft(t))
  }

  predicate Blank(t: string) {
    forall i :: 0 <= i < |t| ==> IsSpace(t[i])
  }

  /** The chunks, trimmed, without the blank ones. */
  function Statements(chunks: seq<string>): seq<string> {
    if chunks == [] then []
    else (if Trim(chunks[0]) == "" then [] else [Trim(chunks[0])]) + Statements(chunks[1..])
  }

  lemma {:induction false} StatementsAppend(a: seq<string>, b: seq<string>)
    ensures Statements(a + b) == Statements(a) + Statements(b)
  {
    if a == [] {
      assert a + b == b;
    } else {
      assert (a + b)[1..] == a[1..] + b;
      StatementsAppend(a[1..], b);
    }
  }

  // ── Trimming ──────────────────────────────────────────────────────────────

  lemma {:induction false} TrimLeftSplits(t: string) returns (lead: string)
    ensures t == lead + TrimLeft(t) && Blank(lead)
    ensures TrimLeft(t) != "" ==> !IsSpace(TrimLeft(t)[0])
  {
    lead := "";
    if t != "" && IsSpace(t[0]) {
      var rest := TrimLeftSplits(t[1..]);
      lead := [t[0]] + rest;
    }
  }

  lemma {:induction false} TrimRightSplits(t: string) returns (tail: string)
    ensures t == TrimRight(t) + tail && Blank(tail)
    ensures TrimRight(t) != "" ==> !IsSpace(TrimRight(t)[|TrimRight(t)| - 1])
  {
    tail := "";
    if t != "" && IsSpace(t[|t| - 1]) {
      var rest := TrimRightSplits(t[..|t| - 1]);
      tail := rest + [t[|t| - 1]];
    }
  }

  /** Trimming takes white space off the ends, and all of it. */
  lemma TrimSplits(t: string) returns (lead: string, tail: string)
    ensures t == lead + Trim(t) + tail && Blank(lead) && Blank(tail)
    ensures Trim(t) != "" ==> !IsSpace(Trim(t)[0]) && !IsSpace(Trim(t)[|Trim(t)| - 1])
  {
    lead := TrimLeftSplits(t);
    tail := TrimRightSplits(TrimLeft(t));
  }

  lemma {:induction false} TrimLeftOf(lead: string, t: string)
    requires Blank(lead) && (t == "" || !IsSpace(t[0]))
    ensures TrimLeft(lead + t) == t
  {
    if lead == "" {
      assert lead + t == t;
    } else {
      assert (lead + t)[1..] == lead[1..] + t;
      TrimLeftOf(lead[1..], t);
    }
  }

  // ── Properties of the cut ─────────────────────────────────────────────────

  /** Nothing is lost: the chunks are the text, and each is its statement with
      white space around it. */
  lemma {:induction false} ChunksLoseNothing(t: string)
    ensures Concat(Chunks(t)) == t
    decreases |t|
  {
    match FirstCut(t, 0)
    case None =>
    case Some(n) => ChunksLoseNothing(t[n..]);
  }

  /** The script in front of chunk k. */
  function Before(t: string, k: nat): string
    requires k <= |Chunks(t)|
  {
    Concat(Chunks(t)[..k])
  }

  /** Position p is where one chunk ends and the next begins. */
  predicate IsCut(t: string, p: nat)
    decreases |t|
  {
    match FirstCut(t, 0)
    case None => false
    case Some(n) => p == n || (p > n && IsCut(t[n..], p - n))
  }

  lemma BeforeTail(t: string, k: nat)
    requires FirstCut(t, 0).Some? && 1 <= k <= |Chunks(t)|
    ensures var n := FirstCut(t, 0).value; Before(t, k) == t[..n] + Before(t[n..], k - 1)
  {
    var n := FirstCut(t, 0).value;
    assert Chunks(t)[..k] == [t[..n]] + Chunks(t[n..])[..k - 1];
  }

  lemma {:induction false} CutIsBetween(t: string, p: nat) returns (k: nat)
    requires IsCut(t, p)
    ensures 1 <= k < |Chunks(t)| && |Before(t, k)| == p
    decreases |t|
  {
    var n := FirstCut(t, 0).value;
    BeforeTail(t, 1);
    k := 1;
    if p > n {
      var j := CutIsBetween(t[n..], p - n);
      k := j + 1;
      BeforeTail(t, k);
    }
  }

  lemma {:induction false} BetweenIsCut(t: string, k: nat)
    requires 1 <= k < |Chunks(t)|
    ensures IsCut(t, |Before(t, k)|)
    decreases |t|
  {
    var n := FirstCut(t, 0).value;
    BeforeTail(t, k);
    if k > 1 {
      BetweenIsCut(t[n..], k - 1);
      BeforeIsNotEmpty(t[n..], k - 1);
    }
  }

  lemma BeforeIsNotEmpty(t: string, k: nat)
    requires 1 <= k < |Chunks(t)|
    ensures |Before(t, k)| > 0
  {
    BeforeTail(t, k);
  }

  /** Position p is between two chunks exactly if it is a cut. */
  lemma CutsAreBetweenChunks(t: string, p: nat)
    ensures IsCut(t, p) <==> exists k :: 1 <= k < |Chunks(t)| && |Before(t, k)| == p
  {
    if IsCut(t, p) {
      var k := CutIsBetween(t, p);
    }
    forall k | 1 <= k < |Chunks(t)| && |Before(t, k)| == p
      ensures IsCut(t, p)
    {
      BetweenIsCut(t, k);
    }
  }

  /** The script is cut after a semicolon exactly when its depth, counted from the
      start of the whole script, is zero; and nowhere else. */
  lemma {:induction false} CutsAreTheTopLevelSemicolons(t: string, p: nat)
    ensures IsCut(t, p) <==> 1 <= p <= |t| && t[p - 1] == ';' && Depth(t[..p]) == 0
    decreases |t|
  {
    match FirstCut(t, 0)
    case None =>
    case Some(n) =>
      if n < p <= |t| {
        CutsAreTheTopLevelSemicolons(t[n..], p - n);
        assert t[..p] == t[..n] + t[n..][..p - n];
        DepthOfParts(t[..n], t[n..][..p - n]);
      } else if p > |t| {
        CutsAreTheTopLevelSemicolons(t[n..], p - n);
      }
  }

  // ── Statements and the white space around them ────────────────────────────

  /** The statements in order, with a gap before each and one at the end. */
  function Join(statements: seq<string>, gaps: seq<string>): string
    requires |gaps| == |statements| + 1
  {
    if statements == [] then gaps[0]
    else gaps[0] + statements[0] + Join(statements[1..], gaps[1..])
  }

  predicate AllBlank(gaps: seq<string>) {
    forall i :: 0 <= i < |gaps| ==> Blank(gaps[i])
  }

  lemma WidenFirstGap(text: string, statements: seq<string>, gaps: seq<string>)
    requires |gaps| == |statements| + 1
    ensures Join(statements, [text + gaps[0]] + gaps[1..]) == text + Join(statements, gaps)
  {
    if statements != [] {
      assert ([text + gaps[0]] + gaps[1..])[1..] == gaps[1..];
    }
  }

  /** One chunk more at the front. */
  lemma OneChunkMore(chunk: string, statements: seq<string>, gaps: seq<string>) returns (wider: seq<string>)
    requires |gaps| == |statements| + 1 && AllBlank(gaps)
    ensures var all := (if Trim(chunk) == "" then [] else [Trim(chunk)]) + statements;
      |wider| == |all| + 1 && AllBlank(wider) && Join(all, wider) == chunk + Join(statements, gaps)
  {
    var lead, tail := TrimSplits(chunk);
    if Trim(chunk) == "" {
      wider := [chunk + gaps[0]] + gaps[1..];
      assert [] + statements == statements && chunk == lead + tail;
      WidenFirstGap(chunk, statements, gaps);
    } else {
      var mid := [tail + gaps[0]] + gaps[1..];
      wider := [lead] + mid;
      WidenFirstGap(tail, statements, gaps);
      JoinOne(lead, Trim(chunk), statements, mid);
    }
  }

  lemma {:induction false} ChunksAreStatementsAndGaps(chunks: seq<string>) returns (gaps: seq<string>)
    ensures |gaps| == |Statements(chunks)| + 1 && AllBlank(gaps)
    ensures Join(Statements(chunks), gaps) == Concat(chunks)
  {
    gaps := [""];
    if chunks != [] {
      gaps := ChunksAreStatementsAndGaps(chunks[1..]);
      gaps := OneChunkMore(chunks[0], Statements(chunks[1..]), gaps);
    }
  }

  lemma JoinOne(gap: string, s: string, statements: seq<string>, gaps: seq<string>)
    requires |gaps| == |statements| + 1
    ensures Join([s] + statements, [gap] + gaps) == gap + s + Join(statements, gaps)
  {
    assert ([s] + statements)[1..] == statements && ([gap] + gaps)[1..] == gaps;
  }

  /** Any script is its statements in order, with nothing but white space between
      and around them. */
  lemma NothingIsLost(t: string) returns (gaps: seq<string>)
    ensures |gaps| == |Statements(Chunks(t))| + 1 && AllBlank(gaps)
    ensures t == Join(Statements(Chunks(t)), gaps)
    ensures forall g, c :: g in gaps && c in g ==> !('!' <= c <= '~')
  {
    gaps := ChunksAreStatementsAndGaps(Chunks(t));
    ChunksLoseNothing(t);
  }

  // ── Splitting what was joined ─────────────────────────────────────────────

  /** No semicolon in front of the last character ends it. */
  predicate Unbroken(s: string) {
    forall k :: 0 <= k < |s| - 1 && s[k] == ';' ==> Depth(s[..k + 1]) > 0
  }

  /** A whole statement: no white space at its ends, and the only semicolon that
      ends it is its last character. */
  predicate WellFormed(s: string) {
    s != "" && !IsSpace(s[0]) && s[|s| - 1] == ';' && Depth(s) == 0 && Unbroken(s)
  }

  lemma {:induction false} BlankScan(gap: string, i: nat, depth: nat)
    requires Blank(gap) && i <= |gap|
    ensures Scan(gap, i, depth) == depth
    decreases |gap| - i
  {
    if i < |gap| {
      forall kw: string | kw == BEGIN || kw == END
        ensures !WordAt(gap, i, kw)
      {
        if WordAt(gap, i, kw) {
          WordEndsBefore(gap, i, kw, i);
        }
      }
      BlankScan(gap, i + 1, depth);
    }
  }

  /** White space in front does not change the depth. */
  lemma DepthAfterGap(gap: string, s: string)
    requires Blank(gap)
    ensures Depth(gap + s) == Depth(s)
  {
    DepthOfParts(gap, s);
    BlankScan(gap, 0, 0);
  }

  lemma UnbrokenAfterGap(gap: string, s: string)
    requires Blank(gap)
    ensures Unbroken(gap + s) <==> Unbroken(s)
  {
    var t := gap + s;
    forall k | 0 <= k < |s|
      ensures Depth(t[..|gap| + k + 1]) == Depth(s[..k + 1]) && t[|gap| + k] == s[k]
    {
      assert t[..|gap| + k + 1] == gap + s[..k + 1];
      DepthAfterGap(gap, s[..k + 1]);
    }
    if Unbroken(t) {
      forall k | 0 <= k < |s| - 1 && s[k] == ';'
        ensures Depth(s[..k + 1]) > 0
      {
        assert t[|gap| + k] == ';';
      }
    }
    if Unbroken(s) {
      forall k | 0 <= k < |t| - 1 && t[k] == ';'
        ensures Depth(t[..k + 1]) > 0
      {
        assert s[k - |gap|] == ';';
      }
    }
  }

  /** A text that ends at its only cut is the first chunk of any script it starts. */
  lemma FirstChunk(head: string, rest: string)
    requires head != "" && head[|head| - 1] == ';' && Depth(head) == 0 && Unbroken(head)
    ensures Chunks(head + rest) == [head] + Chunks(rest)
  {
    var t := head + rest;
    assert t[..|head|] == head && t[|head|..] == rest;
    forall k | 0 <= k < |head| - 1 && t[k] == ';'
      ensures Depth(t[..k + 1]) > 0
    {
      assert t[..k + 1] == head[..k + 1] && head[k] == ';';
    }
    assert t[|head| - 1] == ';';
    assert FirstCut(t, 0) == Some(|head|);
  }

  lemma {:induction false} TrimOfBlank(t: string)
    requires Blank(t)
    ensures Trim(t) == ""
  {
    if t != "" {
      TrimOfBlank(t[1..]);
    }
  }

  lemma TrimOfPadded(gap: string, s: string)
    requires Blank(gap) && WellFormed(s)
    ensures Trim(gap + s) == s
  {
    TrimLeftOf(gap, s);
  }

  lemma BlankIsOneChunk(t: string)
    requires Blank(t)
    ensures Chunks(t) == [t]
  {
    assert FirstCut(t, 0) == None;
  }

  /** Splitting well-formed statements that were joined with any white space gives
      back exactly those statements. */
  lemma {:induction false} SplitOfJoin(statements: seq<string>, gaps: seq<string>)
    requires |gaps| == |statements| + 1 && AllBlank(gaps)
    requires forall i :: 0 <= i < |statements| ==> WellFormed(statements[i])
    ensures Statements(Chunks(Join(statements, gaps))) == statements
  {
    if statements == [] {
      BlankIsOneChunk(gaps[0]);
      TrimOfBlank(gaps[0]);
    } else {
      var s, rest := statements[0], Join(statements[1..], gaps[1..]);
      DepthAfterGap(gaps[0], s);
      UnbrokenAfterGap(gaps[0], s);
      FirstChunk(gaps[0] + s, rest);
      TrimOfPadded(gaps[0], s);
      SplitOfJoin(statements[1..], gaps[1..]);
    }
  }

  lemma TrimOfChunk(chunk: string)
    requires chunk != "" && chunk[|chunk| - 1] == ';' && Depth(chunk) == 0 && Unbroken(chunk)
    ensures WellFormed(Trim(chunk))
  {
    var lead, tail := TrimSplits(chunk);
    assert !IsSpace(chunk[|chunk| - 1]);
    assert tail == "";
    assert chunk == lead + Trim(chunk);
    DepthAfterGap(lead, Trim(chunk));
    UnbrokenAfterGap(lead, Trim(chunk));
  }

  /** Every chunk but the tail holds one whole statement. */
  lemma {:induction false} ChunksAreWellFormed(t: string, k: nat)
    requires k < |Chunks(t)| - 1
    ensures WellFormed(Trim(Chunks(t)[k]))
    decreases k
  {
    var n := FirstCut(t, 0).value;
    if k == 0 {
      var head := t[..n];
      forall j | 0 <= j < |head| - 1 && head[j] == ';'
        ensures Depth(head[..j + 1]) > 0
      {
        assert head[..j + 1] == t[..j + 1] && t[j] == ';';
      }
      TrimOfChunk(head);
    } else {
      ChunksAreWellFormed(t[n..], k - 1);
    }
  }

  // ── The loop ──────────────────────────────────────────────────────────────

  /** What strings.SplitAfter promises for ";". */
  predicate IsFragment(s: string) {
    forall i :: 0 <= i < |s| - 1 ==> s[i] != ';'
  }

  predicate EndsStatement(s: string) {
    s != "" && s[|s| - 1] == ';'
  }

  /** Fragments of which only the last may lack its semicolon. */
  predicate Fragments(frags: seq<string>) {
    (forall i :: 0 <= i < |frags| ==> IsFragment(frags[i])) &&
    forall i :: 0 <= i < |frags| - 1 ==> EndsStatement(frags[i])
  }

  lemma OneFragmentMore(frag: string, frags: seq<string>)
    requires IsFragment(frag) && EndsStatement(frag) && Fragments(frags)
    ensures Fragments([frag] + frags)
  {
    var all := [frag] + frags;
    assert forall i :: 1 <= i < |all| ==> all[i] == frags[i - 1];
  }

  /** strings.SplitAfter(t, ";"): only the last fragment lacks its semicolon. */
  function SplitAfter(t: string): (r: seq<string>)
    ensures r != [] && Concat(r) == t && Fragments(r) && ';' !in r[|r| - 1]
    decreases |t|
  {
    if ';' !in t then [t]
    else
      var n := IndexOfChar(t, ';') + 1;
      var rest := SplitAfter(t[n..]);
      OneFragmentMore(t[..n], rest);
      [t[..n]] + rest
  }

  /** The keywords found from position i on (regexp.FindAllString). */
  function Keywords(t: string, i: nat): seq<string>
    requires i <= |t|
    decreases |t| - i
  {
    if i == |t| then []
    else
      var h := HitAt(t, i);
      (if h == Neither then [] else [t[i..i + h.Width()]]) + Keywords(t, i + h.Width())
  }

  /** The depth after counting a list of keywords. */
  function Counted(kws: seq<string>, depth: nat): nat {
    if kws == [] then depth
    else if SameFolded(kws[0], BEGIN) then Counted(kws[1..], depth + 1)
    else Counted(kws[1..], if depth > 0 then depth - 1 else 0)
  }

  /** A found text is the keyword it was found for. */
  lemma FoundText(t: string, i: nat)
    requires i < |t| && HitAt(t, i) != Neither
    ensures SameFolded(t[i..i + HitAt(t, i).Width()], BEGIN) <==> HitAt(t, i) == Begin
  {
  }

  lemma {:induction false} ScanCountsKeywords(t: string, i: nat, depth: nat)
    requires i <= |t|
    ensures Counted(Keywords(t, i), depth) == Scan(t, i, depth)
    decreases |t| - i
  {
    if i < |t| {
      var h := HitAt(t, i);
      ScanCountsKeywords(t, i + h.Width(), h.Turn(depth));
      if h != Neither {
        FoundText(t, i);
        assert Keywords(t, i)[1..] == Keywords(t, i + h.Width());
      } else {
        assert [] + Keywords(t, i + h.Width()) == Keywords(t, i + h.Width());
      }
    }
  }

  method CountKeywords(kws: seq<string>, depth0: nat) returns (depth: nat)
    ensures depth == Counted(kws, depth0)
  {
    depth := depth0;
    for k := 0 to |kws|
      invariant Counted(kws, depth0) == Counted(kws[k..], depth)
    {
      assert kws[k..][1..] == kws[k + 1..];
      if SameFolded(kws[k], BEGIN) {
        depth := depth + 1;
      } else if depth > 0 {
        depth := depth - 1;
      }
    }
  }

  /** A fragment added to a buffer without a cut: still none before its last character. */
  lemma BufferGrows(buf: string, frag: string)
    requires buf != "" ==> buf[|buf| - 1] == ';' && Depth(buf) > 0
    requires Unbroken(buf) && IsFragment(frag)
    ensures Unbroken(buf + frag)
  {
    var t := buf + frag;
    forall k | 0 <= k < |buf| && t[k] == ';'
      ensures Depth(t[..k + 1]) > 0
    {
      assert t[..k + 1] == buf[..k + 1];
      if k == |buf| - 1 {
        assert buf[..k + 1] == buf;
      }
    }
  }

  lemma {:induction false} NoCut(t: string, n: nat)
    requires n <= |t| && Unbroken(t) && (t != "" && t[|t| - 1] == ';' ==> Depth(t) > 0)
    ensures FirstCut(t, n) == None
    decreases |t| - n
  {
    if n < |t| {
      if n == |t| - 1 {
        assert t[..n + 1] == t;
      }
      NoCut(t, n + 1);
    }
  }

  /** A text without a cut is one chunk. */
  lemma OneChunk(t: string)
    requires Unbroken(t) && (t != "" && t[|t| - 1] == ';' ==> Depth(t) > 0)
    ensures Chunks(t) == [t]
  {
    NoCut(t, 0);
  }

  /** What adding a fragment does to the buffer and to the count. */
  lemma Added(buf: string, frag: string)
    requires buf != "" ==> buf[|buf| - 1] == ';' && Depth(buf) > 0
    requires Unbroken(buf) && IsFragment(frag)
    ensures Unbroken(buf + frag)
    ensures Counted(Keywords(frag, 0), Depth(buf)) == Depth(buf + frag)
  {
    BufferGrows(buf, frag);
    DepthOfParts(buf, frag);
    ScanCountsKeywords(frag, 0, Depth(buf));
  }

  /** The statements given so far and those still in the buffer and the fragments. */
  function Due(out: seq<string>, buf: string, frags: seq<string>): seq<string> {
    out + Statements(Chunks(buf + Concat(frags)))
  }

  lemma DueAfterAdding(out: seq<string>, buf: string, frags: seq<string>)
    requires frags != []
    ensures Due(out, buf, frags) == Due(out, buf + frags[0], frags[1..])
  {
    assert buf + Concat(frags) == buf + frags[0] + Concat(frags[1..]);
  }

  function Flush(out: seq<string>, buf: string): seq<string> {
    if Trim(buf) != "" then out + [Trim(buf)] else out
  }

  /** Taking one chunk off the front of the list is one flush. */
  lemma FlushIsFirstStatement(out: seq<string>, buf: string, chunks: seq<string>)
    ensures out + Statements([buf] + chunks) == Flush(out, buf) + Statements(chunks)
  {
    assert ([buf] + chunks)[1..] == chunks;
  }

  lemma ChunkOfFlush(buf: string, rest: string)
    requires Depth(buf) == 0 && Unbroken(buf)
    requires if rest == "" then true else buf != "" && buf[|buf| - 1] == ';'
    ensures Statements(Chunks(buf + rest)) == Statements([buf] + Chunks(rest))
  {
    if buf != "" && buf[|buf| - 1] == ';' {
      FirstChunk(buf, rest);
    } else {
      assert buf + rest == buf;
      OneChunk(buf);
      BlankIsOneChunk("");
      StatementsAppend([buf], [""]);
    }
  }

  /** What a flush at depth 0 takes off the script, inside it or at its end. */
  lemma DueAfterFlush(out: seq<string>, buf: string, frags: seq<string>)
    requires Depth(buf) == 0 && Unbroken(buf)
    requires if frags == [] then true else buf != "" && buf[|buf| - 1] == ';'
    ensures Due(out, buf, frags) == Due(Flush(out, buf), "", frags)
  {
    var rest := Concat(frags);
    assert "" + rest == rest;
    ChunkOfFlush(buf, rest);
    FlushIsFirstStatement(out, buf, Chunks(rest));
  }

  lemma DueAtEnd(out: seq<string>, buf: string)
    requires Unbroken(buf) && (buf != "" ==> Depth(buf) > 0)
    ensures Due(out, buf, []) == Flush(out, buf)
  {
    assert buf + "" == buf;
    OneChunk(buf);
    FlushIsFirstStatement(out, buf, []);
    assert [buf] + [] == [buf];
  }

  /** The buffer holds an open statement, and everything still to come is due. */
  predicate LoopOk(text: string, out: seq<string>, buf: string, depth: nat, frags: seq<string>) {
    && Due(out, buf, frags) == Statements(Chunks(text))
    && depth == Depth(buf) && Unbroken(buf) && (buf != "" ==> depth > 0)
    && Fragments(frags) && (frags != [] && buf != "" ==> buf[|buf| - 1] == ';')
  }

  lemma LoopBegins(text: string)
    ensures LoopOk(text, [], "", 0, SplitAfter(text))
  {
    assert "" + text == text;
  }

  lemma FragmentAdded(text: string, out: seq<string>, buf: string, depth: nat, frags: seq<string>)
    requires LoopOk(text, out, buf, depth, frags) && frags != []
    ensures Counted(Keywords(frags[0], 0), depth) == Depth(buf + frags[0]) && Unbroken(buf + frags[0])
    ensures Due(out, buf + frags[0], frags[1..]) == Statements(Chunks(text))
    ensures Fragments(frags[1..])
    ensures frags[1..] != [] ==> buf + frags[0] != "" && (buf + frags[0])[|buf + frags[0]| - 1] == ';'
  {
    Added(buf, frags[0]);
    DueAfterAdding(out, buf, frags);
  }

  lemma LoopGoesOn(text: string, out: seq<string>, buf: string, depth: nat, frags: seq<string>)
    requires LoopOk(text, out, buf, depth, frags) && frags != []
    ensures var buf', depth' := buf + frags[0], Counted(Keywords(frags[0], 0), depth);
            if depth' > 0 then LoopOk(text, out, buf', depth', frags[1..])
            else LoopOk(text, Flush(out, buf'), "", 0, frags[1..])
  {
    FragmentAdded(text, out, buf, depth, frags);
    if Counted(Keywords(frags[0], 0), depth) == 0 {
      DueAfterFlush(out, buf + frags[0], frags[1..]);
    }
  }

  /** The loop gives what the definition says. */
  method SchemaStatements(text: string) returns (out: seq<string>)
    ensures out == Statements(Chunks(text))
  {
    out := [];
    var buf, depth := "", 0;
    var frags := SplitAfter(text);
    LoopBegins(text);
    for f := 0 to |frags|
      invariant LoopOk(text, out, buf, depth, frags[f..])
    {
      LoopGoesOn(text, out, buf, depth, frags[f..]);
      assert frags[f..][1..] == frags[f + 1..];
      buf := buf + frags[f];
      depth := CountKeywords(Keywords(frags[f], 0), depth);
      if depth > 0 {
        continue;
      }
      var trimmed := Trim(buf);
      if trimmed != "" {
        out := out + [trimmed];
      }
      buf := "";
    }
    DueAtEnd(out, buf);
    var trimmed := Trim(buf);
    if trimmed != "" {
      out := out + [trimmed];
    }
  }
}
