/** The two-sided feed (feedPage in demo/mock/routes.ts) and the two ways the
    page of a post is found: the demo's index arithmetic and the server's walk
    over the post stubs (GetPostPage in api/internal/api/posts.go). */
module Paging {
  import opened Prelude

  /** Math.ceil(a / b), for a divisor of either sign. */
  function CeilDiv(a: nat, b: int): int
    requires b != 0
  {
    if b > 0 then (a + b - 1) / b else -(a / -b)
  }

  /** Array.prototype.slice: negative bounds count from the end, all are clamped. */
  function JsSlice<T>(s: seq<T>, start: int, end: int): seq<T> {
    var from := Clamp(if start < 0 then |s| + start else start, |s|);
    var to := Clamp(if end < 0 then |s| + end else end, |s|);
    if from <= to then s[from..to] else []
  }

  function Clamp(i: int, n: nat): (r: nat)
    ensures r <= n
  {
    if i < 0 then 0 else if i > n then n else i
  }

  /** The `page` query parameter: absent, not a finite number, or a number. */
  datatype Asked = Absent | NotFinite | Number(n: int)

  datatype Page<T> = Page(
    posts: seq<T>, page: int, pages: int, perPage: int, total: nat, minPage: int, scheduled: bool)

  function MinPage(queued: nat, perPage: int): int
    requires perPage != 0
  {
    if queued > 0 then 1 - CeilDiv(queued, perPage) else 1
  }

  /** `scoped` are the rows in the years asked for, `queued` the queue, empty when
      a year range is set. */
  function FeedPage<T>(scoped: seq<T>, queued: seq<T>, perPage: int, asked: Asked): Page<T>
    requires perPage != 0
  {
    var minPage := MinPage(|queued|, perPage);
    var wanted := if asked.Number? then asked.n else 1;
    var page := if wanted < minPage then minPage else wanted;
    var pages := if CeilDiv(|scoped|, perPage) < 1 then 1 else CeilDiv(|scoped|, perPage);
    var posts := if page < 1 then JsSlice(queued, -page * perPage, -page * perPage + perPage)
                 else JsSlice(scoped, (page - 1) * perPage, (page - 1) * perPage + perPage);
    Page(posts, page, pages, perPage, |scoped|, minPage, page < 1)
  }

  // ── The pages cover the feed ──────────────────────────────────────────────

  /** The first `n` consecutive slices of length `size`. */
  function Slices<T>(s: seq<T>, size: int, n: nat): seq<T>
    requires size >= 1
  {
    if n == 0 then [] else Slices(s, size, n - 1) + JsSlice(s, (n - 1) * size, (n - 1) * size + size)
  }

  lemma {:induction false} SlicesArePrefix<T>(s: seq<T>, size: int, n: nat)
    requires size >= 1
    ensures n * size >= 0 && Slices(s, size, n) == s[..Clamp(n * size, |s|)]
  {
    if n > 0 {
      SlicesArePrefix(s, size, n - 1);
      var from := (n - 1) * size;
      assert n * size == from + size;
      assert s[..Clamp(from + size, |s|)]
          == s[..Clamp(from, |s|)] + s[Clamp(from, |s|)..Clamp(from + size, |s|)];
    }
  }

  lemma TimesMonotone(a: int, b: int, c: int)
    requires a <= b && c >= 1
    ensures a * c <= b * c
  {
  }

  /** Division is the only number that fits. */
  lemma QuotientIs(a: int, b: int, q: int)
    requires b >= 1
    ensures a / b == q <==> q * b <= a < q * b + b
  {
    var r := a / b;
    assert a == r * b + a % b;
    if r < q {
      TimesMonotone(r + 1, q, b);
      assert (r + 1) * b == r * b + b;
    } else if r > q {
      TimesMonotone(q + 1, r, b);
      assert (q + 1) * b == q * b + b;
    }
  }

  lemma CeilIsEnough(a: nat, b: int)
    requires b >= 1
    ensures CeilDiv(a, b) * b >= a && CeilDiv(a, b) >= 0
    ensures a > 0 ==> CeilDiv(a, b) >= 1 && (CeilDiv(a, b) - 1) * b < a
  {
    var q := CeilDiv(a, b);
    QuotientIs(a + b - 1, b, q);
    assert (q - 1) * b == q * b - b;
    if q < 0 {
      TimesMonotone(q, -1, b);
    }
    if a > 0 && q < 1 {
      TimesMonotone(q, 0, b);
    }
  }

  /** The posts of pages `from`, `from + 1`, … `from + n - 1`. */
  function Rightward<T>(scoped: seq<T>, queued: seq<T>, perPage: int, from: int, n: nat): seq<T>
    requires perPage != 0
  {
    if n == 0 then []
    else Rightward(scoped, queued, perPage, from, n - 1)
         + FeedPage(scoped, queued, perPage, Number(from + n - 1)).posts
  }

  /** The posts of pages 0, -1, … 1 - n. */
  function Leftward<T>(scoped: seq<T>, queued: seq<T>, perPage: int, n: nat): seq<T>
    requires perPage != 0
  {
    if n == 0 then []
    else Leftward(scoped, queued, perPage, n - 1) + FeedPage(scoped, queued, perPage, Number(1 - n)).posts
  }

  lemma RightPage<T>(scoped: seq<T>, queued: seq<T>, perPage: int, k: int)
    requires perPage >= 1 && k >= 1
    ensures FeedPage(scoped, queued, perPage, Number(k)).posts ==
            JsSlice(scoped, (k - 1) * perPage, (k - 1) * perPage + perPage)
  {
    CeilIsEnough(|queued|, perPage);
  }

  lemma {:induction false} RightwardIsSlices<T>(scoped: seq<T>, queued: seq<T>, perPage: int, n: nat)
    requires perPage >= 1
    ensures Rightward(scoped, queued, perPage, 1, n) == Slices(scoped, perPage, n)
  {
    if n > 0 {
      RightwardIsSlices(scoped, queued, perPage, n - 1);
      assert 1 + n - 1 == n;
      RightPage(scoped, queued, perPage, n);
    }
  }

  lemma LeftPage<T>(scoped: seq<T>, queued: seq<T>, perPage: int, k: int)
    requires perPage >= 1 && MinPage(|queued|, perPage) <= k <= 0
    ensures FeedPage(scoped, queued, perPage, Number(k)).posts ==
            JsSlice(queued, -k * perPage, -k * perPage + perPage)
  {
  }

  lemma {:induction false} LeftwardIsSlices<T>(scoped: seq<T>, queued: seq<T>, perPage: int, n: nat)
    requires perPage >= 1 && n <= 1 - MinPage(|queued|, perPage)
    ensures Leftward(scoped, queued, perPage, n) == Slices(queued, perPage, n)
  {
    if n > 0 {
      LeftwardIsSlices(scoped, queued, perPage, n - 1);
      LeftPage(scoped, queued, perPage, 1 - n);
      assert -(1 - n) == n - 1;
    }
  }

  lemma EnoughSlices<T>(s: seq<T>, size: int, n: nat)
    requires size >= 1 && n >= CeilDiv(|s|, size)
    ensures Slices(s, size, n) == s
  {
    CeilIsEnough(|s|, size);
    TimesMonotone(CeilDiv(|s|, size), n, size);
    SlicesArePrefix(s, size, n);
  }

  /** Pages 1 to `pages` are exactly the feed, pages 0 down to `min_page` exactly
      the queue. */
  lemma PagesCoverTheFeed<T>(scoped: seq<T>, queued: seq<T>, perPage: int, asked: Asked)
    requires perPage >= 1
    ensures var p := FeedPage(scoped, queued, perPage, asked);
            p.pages >= 1 && p.minPage <= 1 && p.total == |scoped| &&
            Rightward(scoped, queued, perPage, 1, p.pages) == scoped &&
            Leftward(scoped, queued, perPage, 1 - p.minPage) == queued
  {
    var p := FeedPage(scoped, queued, perPage, asked);
    CeilIsEnough(|queued|, perPage);
    RightwardIsSlices(scoped, queued, perPage, p.pages);
    EnoughSlices(scoped, perPage, p.pages);
    LeftwardIsSlices(scoped, queued, perPage, 1 - p.minPage);
    if queued != [] {
      EnoughSlices(queued, perPage, 1 - p.minPage);
    }
  }

  lemma SliceIsBounded<T>(s: seq<T>, start: nat, size: nat)
    ensures |JsSlice(s, start, start + size)| <= size
    ensures start < |s| && size >= 1 ==> JsSlice(s, start, start + size) != []
    ensures forall x :: x in JsSlice(s, start, start + size) ==> x in s
  {
  }

  /** A page left of page 1 starts inside the queue. */
  lemma LeftPageStarts(n: nat, perPage: int, page: int)
    requires perPage >= 1 && MinPage(n, perPage) <= page < 1
    ensures 0 <= -page * perPage < n
  {
    CeilIsEnough(n, perPage);
    TimesMonotone(-page, CeilDiv(n, perPage) - 1, perPage);
    TimesMonotone(0, -page, perPage);
    assert (CeilDiv(n, perPage) - 1) * perPage < n;
  }

  lemma LeftPageIsBounded<T>(scoped: seq<T>, queued: seq<T>, perPage: int, asked: Asked)
    requires perPage >= 1 && FeedPage(scoped, queued, perPage, asked).page < 1
    ensures var posts := FeedPage(scoped, queued, perPage, asked).posts;
            |posts| <= perPage && posts != [] && forall x :: x in posts ==> x in queued
  {
    var page := FeedPage(scoped, queued, perPage, asked).page;
    LeftPageStarts(|queued|, perPage, page);
    SliceIsBounded(queued, -page * perPage, perPage);
  }

  lemma RightPageIsBounded<T>(scoped: seq<T>, queued: seq<T>, perPage: int, asked: Asked)
    requires perPage >= 1 && FeedPage(scoped, queued, perPage, asked).page >= 1
    ensures |FeedPage(scoped, queued, perPage, asked).posts| <= perPage
  {
    var page := FeedPage(scoped, queued, perPage, asked).page;
    TimesMonotone(0, page - 1, perPage);
    SliceIsBounded(scoped, (page - 1) * perPage, perPage);
  }

  /** No page is longer than asked for; to the left of the queue there is only its
      last page. */
  lemma PagesAreBounded<T>(scoped: seq<T>, queued: seq<T>, perPage: int, asked: Asked)
    requires perPage >= 1
    ensures var p := FeedPage(scoped, queued, perPage, asked);
            |p.posts| <= perPage && p.page >= p.minPage && (p.scheduled <==> p.page < 1) &&
            (asked.Number? && asked.n < p.minPage ==> p == FeedPage(scoped, queued, perPage, Number(p.minPage))) &&
            (p.scheduled ==> p.posts != [] && forall x :: x in p.posts ==> x in queued)
  {
    if FeedPage(scoped, queued, perPage, asked).page < 1 {
      LeftPageIsBounded(scoped, queued, perPage, asked);
    } else {
      RightPageIsBounded(scoped, queued, perPage, asked);
    }
  }

  /** The page answered is the one asked for, but not below the floor; a page that is
      missing or no number is page 1. */
  lemma WhichPage<T>(scoped: seq<T>, queued: seq<T>, perPage: int, n: int)
    requires perPage >= 1
    ensures FeedPage(scoped, queued, perPage, Absent) == FeedPage(scoped, queued, perPage, Number(1))
    ensures FeedPage(scoped, queued, perPage, NotFinite) == FeedPage(scoped, queued, perPage, Number(1))
    ensures var p := FeedPage(scoped, queued, perPage, Number(n));
            p.page == (if n < p.minPage then p.minPage else n) && p.perPage == perPage && p.total == |scoped|
  {
  }

  /** The queue and the feed have as many pages as it takes and no more: page 1 at least
      for the feed, none for an empty queue. */
  lemma HowManyPages<T>(scoped: seq<T>, queued: seq<T>, perPage: int, asked: Asked)
    requires perPage >= 1
    ensures var p := FeedPage(scoped, queued, perPage, asked);
            Enough(1 - p.minPage, perPage, |queued|) && (queued == [] ==> p.minPage == 1) &&
            (scoped != [] ==> Enough(p.pages, perPage, |scoped|)) && (scoped == [] ==> p.pages == 1)
  {
    JustEnough(|queued|, perPage);
    JustEnough(|scoped|, perPage);
  }

  /** So many pages hold so many rows, and one page fewer does not. */
  predicate Enough(pages: int, size: int, rows: nat) {
    pages * size >= rows && (rows > 0 ==> (pages - 1) * size < rows)
  }

  lemma JustEnough(a: nat, b: int)
    requires b >= 1
    ensures Enough(CeilDiv(a, b), b, a) && (a > 0 ==> CeilDiv(a, b) >= 1) && (a == 0 ==> CeilDiv(a, b) == 0)
  {
    CeilIsEnough(a, b);
    if a == 0 {
      QuotientIs(b - 1, b, 0);
    }
  }

  lemma SliceIsInside<T>(s: seq<T>, start: int, end: int)
    ensures forall x :: x in JsSlice(s, start, end) ==> x in s
  {
  }

  /** Without a queue there is nothing to the left of page 1. */
  lemma NoQueue<T>(scoped: seq<T>, perPage: int, asked: Asked)
    requires perPage != 0
    ensures var p := FeedPage(scoped, [], perPage, asked);
            p.page >= 1 && !p.scheduled && forall x :: x in p.posts ==> x in scoped
  {
    var p := FeedPage(scoped, [], perPage, asked);
    SliceIsInside(scoped, (p.page - 1) * perPage, (p.page - 1) * perPage + perPage);
  }

  // ── Finding a post's page ─────────────────────────────────────────────────

  /** The demo: floor(index / perPage) + 1. */
  function PageOfIndex(i: nat, perPage: int): int
    requires perPage >= 1
  {
    i / perPage + 1
  }

  /** Row `i` is on that page, and on no other page of the feed. */
  lemma OnlyPage<T>(scoped: seq<T>, queued: seq<T>, perPage: int, i: nat, k: int)
    requires perPage >= 1 && i < |scoped| && NoDup(scoped) && k >= 1
    ensures scoped[i] in FeedPage(scoped, queued, perPage, Number(k)).posts <==> k == PageOfIndex(i, perPage)
  {
    RightPage(scoped, queued, perPage, k);
    var start := (k - 1) * perPage;
    assert start >= 0 by {
      TimesMonotone(0, k - 1, perPage);
    }
    SliceHolds(scoped, start, start + perPage, i);
    QuotientIs(i, perPage, k - 1);
  }

  lemma SliceHolds<T>(s: seq<T>, from: nat, to: nat, i: nat)
    requires NoDup(s) && i < |s| && from <= to
    ensures s[i] in JsSlice(s, from, to) <==> from <= i < to
  {
    var r := JsSlice(s, from, to);
    if from <= i < to {
      assert r[i - from] == s[i];
    } else {
      assert forall j :: 0 <= j < |r| ==> r[j] == s[from + j];
    }
  }

  /** The server: ceil(position / perPage), counting positions from one. */
  lemma CeilOfPosition(i: nat, perPage: int)
    requires perPage >= 1
    ensures CeilDiv(i + 1, perPage) == PageOfIndex(i, perPage)
  {
    var q := i / perPage;
    QuotientIs(i, perPage, q);
    assert (q + 1) * perPage == q * perPage + perPage;
    QuotientIs(i + perPage, perPage, q + 1);
  }

  // ── GetPostPage ───────────────────────────────────────────────────────────

  datatype Stub = Stub(id: nat, slug: string)

  /** What the walk is filtered by. `tagFilter` None is no filter at all; an
      unknown tag is Some({}), which nothing passes. */
  datatype Filters = Filters(
    publicOnly: bool, hiddenTags: set<nat>, tagFilter: Option<set<nat>>, tagsOf: map<nat, seq<nat>>)
  {
    function Tags(s: Stub): seq<nat> {
      if s.id in tagsOf then tagsOf[s.id] else []
    }

    predicate Passes(s: Stub) {
      (publicOnly ==> forall t :: t in Tags(s) ==> t !in hiddenTags) &&
      (tagFilter.Some? ==> exists t :: t in Tags(s) && t in tagFilter.value)
    }
  }

  method HasTagIn(tags: seq<nat>, wanted: set<nat>) returns (r: bool)
    ensures r <==> exists t :: t in tags && t in wanted
  {
    for i := 0 to |tags|
      invariant forall t :: t in tags[..i] ==> t !in wanted
    {
      if tags[i] in wanted {
        return true;
      }
    }
    assert tags[..|tags|] == tags;
    return false;
  }

  /** An explicit page size, else the site's, else 10. */
  function PageSize(asked: Option<int>, setting: int): (r: int)
    ensures r >= 1
    ensures asked.Some? && asked.value >= 1 ==> r == asked.value
    ensures (asked.None? || asked.value < 1) && setting >= 1 ==> r == setting
    ensures (asked.None? || asked.value < 1) && setting < 1 ==> r == 10
  {
    if asked.Some? && asked.value >= 1 then asked.value else if setting >= 1 then setting else 10
  }

  function PassTest(f: Filters): Stub -> bool {
    s => f.Passes(s)
  }

  function Visible(stubs: seq<Stub>, f: Filters): seq<Stub> {
    Filter(stubs, PassTest(f))
  }

  /** The posts that count: for a guest those without a hidden tag, and under a tag
      filter those with one of its tags. */
  lemma VisibleMeans(stubs: seq<Stub>, f: Filters, s: Stub)
    ensures s in Visible(stubs, f) <==>
            s in stubs &&
            (f.publicOnly && s.id in f.tagsOf ==> forall t :: t in f.tagsOf[s.id] ==> t !in f.hiddenTags) &&
            (f.tagFilter.Some? ==> s.id in f.tagsOf && exists t :: t in f.tagsOf[s.id] && t in f.tagFilter.value)
  {
  }

  lemma NextStub(stubs: seq<Stub>, f: Filters, i: nat)
    requires i < |stubs|
    ensures Visible(stubs[..i + 1], f) ==
            if f.Passes(stubs[i]) then Visible(stubs[..i], f) + [stubs[i]] else Visible(stubs[..i], f)
  {
    assert stubs[..i + 1] == stubs[..i] + [stubs[i]];
    FilterAppend(stubs[..i], [stubs[i]], PassTest(f));
  }

  lemma VisibleSoFar(stubs: seq<Stub>, f: Filters, i: nat)
    requires i <= |stubs|
    ensures Visible(stubs[..i], f) <= Visible(stubs, f)
  {
    assert stubs == stubs[..i] + stubs[i..];
    FilterAppend(stubs[..i], stubs[i..], PassTest(f));
  }

  method Skips(s: Stub, f: Filters) returns (skip: bool)
    ensures skip <==> !f.Passes(s)
  {
    var hiddenTag := HasTagIn(f.Tags(s), f.hiddenTags);
    if f.publicOnly && hiddenTag {
      return true;
    }
    if f.tagFilter.Some? {
      var hasTag := HasTagIn(f.Tags(s), f.tagFilter.value);
      return !hasTag;
    }
    return false;
  }

  /** The stub found is where the walk counted it, and the first with its slug. */
  lemma FoundAt(stubs: seq<Stub>, slug: string, f: Filters, i: nat)
    requires i < |stubs| && f.Passes(stubs[i]) && stubs[i].slug == slug
    requires forall j :: 0 <= j < |Visible(stubs[..i], f)| ==> Visible(stubs[..i], f)[j].slug != slug
    ensures var n := |Visible(stubs[..i], f)|;
            n < |Visible(stubs, f)| && Visible(stubs, f)[n] == stubs[i] &&
            forall j :: 0 <= j < n ==> Visible(stubs, f)[j].slug != slug
  {
    NextStub(stubs, f, i);
    VisibleSoFar(stubs, f, i + 1);
    var all, some := Visible(stubs, f), Visible(stubs[..i + 1], f);
    assert forall j :: 0 <= j < |some| ==> all[j] == some[j];
  }

  /** The walk stops at the first stub with the slug that passes; its page is the
      one of its index among the stubs that pass. */
  method GetPostPage(stubs: seq<Stub>, slug: string, f: Filters, asked: Option<int>, setting: int)
    returns (page: Option<int>, ghost index: nat)
    ensures page.None? <==> forall s :: s in Visible(stubs, f) ==> s.slug != slug
    ensures page.Some? ==>
              index < |Visible(stubs, f)| && Visible(stubs, f)[index].slug == slug &&
              (forall j :: 0 <= j < index ==> Visible(stubs, f)[j].slug != slug) &&
              page.value == PageOfIndex(index, PageSize(asked, setting))
  {
    var position := 0;
    for i := 0 to |stubs|
      invariant position == |Visible(stubs[..i], f)|
      invariant forall j :: 0 <= j < position ==> Visible(stubs[..i], f)[j].slug != slug
    {
      NextStub(stubs, f, i);
      var skip := Skips(stubs[i], f);
      if skip {
        continue;
      }
      position := position + 1;
      if stubs[i].slug == slug {
        index := position - 1;
        FoundAt(stubs, slug, f, i);
        CeilOfPosition(index, PageSize(asked, setting));
        return Some(CeilDiv(position, PageSize(asked, setting))), index;
      }
    }
    assert stubs[..|stubs|] == stubs;
    return None, 0;
  }
}
