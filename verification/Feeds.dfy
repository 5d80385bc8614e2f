/** What the demo's reads give to the owner and to a guest (demo/mock/routes.ts,
    demo/mock/store.ts): feeds, single posts, tag pages, the place cloud and the
    year-narrowed graph, all worked out from the post and tag stores. */
module Feeds {
  import opened Prelude
  import opened Reachability
  import opened TagGraph
  import Paging

  datatype Status = Published | StandalonePage | Draft | Scheduled | Hidden | Trashed | Other(name: string)

  /** A tag as a post carries it; `year` is the year of a tag of kind "year". */
  datatype PostTag = PostTag(slug: string, year: Option<int>)

  /** `date` is the publish date, else the creation date. */
  datatype Post = Post(
    id: Id, slug: string, status: Status, date: int, created: int, scheduledAt: Option<int>, tags: seq<PostTag>)

  /** A timeline range; it filters only when both ends are positive. */
  datatype Years = Years(from: int, to: int)

  datatype GraphBlob = GraphBlob(
    tags: seq<Id>, hierarchyEdges: seq<(Id, Id)>, posts: Option<seq<Id>>, membershipEdges: seq<(Id, Id)>)

  datatype Store = Store(authenticated: bool, posts: seq<Post>, tags: Tags, graph: GraphBlob)

  // ── The filters ───────────────────────────────────────────────────────────

  predicate Carries(p: Post, slugs: set<string>) {
    exists t :: t in p.tags && t.slug in slugs
  }

  function Carrying(slugs: set<string>): Post -> bool {
    (p: Post) => Carries(p, slugs)
  }

  predicate PublicStatus(s: Status) {
    s == Published || s == StandalonePage
  }

  predicate PubliclyReadable(p: Post, hides: set<string>) {
    PublicStatus(p.status) && !Carries(p, hides)
  }

  /** feedPosts: published, plus the hidden ones for the owner. */
  predicate InFeed(authenticated: bool, hides: set<string>, p: Post) {
    !(p.status == Draft || p.status == Scheduled || p.status == Trashed) &&
    if authenticated then p.status == Published || p.status == Hidden else PubliclyReadable(p, hides)
  }

  function FeedTest(authenticated: bool, hides: set<string>): Post -> bool {
    (p: Post) => InFeed(authenticated, hides, p)
  }

  function FeedPosts(s: Store, hides: set<string>): seq<Post> {
    Filter(s.posts, FeedTest(s.authenticated, hides))
  }

  predicate InYears(y: Years, p: Post) {
    y.from > 0 && y.to > 0 ==>
      exists t :: t in p.tags && t.year.Some? && y.from <= t.year.value <= y.to
  }

  function YearTest(y: Years): Post -> bool {
    (p: Post) => InYears(y, p)
  }

  function WithinYears(rows: seq<Post>, y: Years): seq<Post> {
    Filter(rows, YearTest(y))
  }

  function Newer(): (Post, Post) -> bool {
    (a: Post, b: Post) => a.date >= b.date
  }

  /** byNewest, over a sort that keeps the order of posts of the same date. */
  function ByNewest(s: seq<Post>): seq<Post> {
    SortBy(Newer(), s)
  }

  /** The queue's order: soonest first, undated last, then by creation. */
  function Sooner(): (Post, Post) -> bool {
    (a: Post, b: Post) =>
      match (a.scheduledAt, b.scheduledAt)
      case (Some(at), Some(bt)) => at < bt || (at == bt && a.created <= b.created)
      case (Some(_), None) => true
      case (None, Some(_)) => false
      case (None, None) => a.created <= b.created
  }

  /** scheduledQueue: the owner's alone. */
  function ScheduledQueue(s: Store): seq<Post> {
    if s.authenticated then SortBy(Sooner(), Filter(s.posts, (p: Post) => p.status == Scheduled)) else []
  }

  lemma QueueIsInOrder(s: Store)
    ensures SortedBy(Sooner(), ScheduledQueue(s))
    ensures forall p :: p in ScheduledQueue(s) <==> s.authenticated && p in s.posts && p.status == Scheduled
  {
    SortBySorts(Sooner(), Filter(s.posts, (p: Post) => p.status == Scheduled), (p: Post) => true);
  }

  /** The soonest first, those without a date last, and of one date the older first. */
  lemma {:induction false} QueueIsSoonestFirst(s: Store, i: nat, j: nat)
    requires i < j < |ScheduledQueue(s)|
    ensures var a, b := ScheduledQueue(s)[i], ScheduledQueue(s)[j];
            (a.scheduledAt.Some? && b.scheduledAt == None) ||
            (a.scheduledAt.Some? && b.scheduledAt.Some? && a.scheduledAt.value < b.scheduledAt.value) ||
            (a.scheduledAt == b.scheduledAt && a.created <= b.created)
  {
    QueueIsInOrder(s);
    assert Sooner()(ScheduledQueue(s)[i], ScheduledQueue(s)[j]);
  }

  lemma SortedMembers(s: seq<Post>)
    ensures forall p :: p in ByNewest(s) <==> p in s
  {
    SortBySorts(Newer(), s, (p: Post) => true);
  }

  // ── The reads ─────────────────────────────────────────────────────────────

  /** The slugs at or below a tag. */
  ghost function ClosureSlugs(tags: Tags, id: Id): set<string> {
    set t | t in tags && Reaches(EdgesOf(tags), id, t.id) :: t.slug
  }

  function FindSlug(tags: Tags, slug: string): (r: Option<Tag>)
    ensures r.Some? ==> r.value in tags && r.value.slug == slug
    ensures r.None? ==> forall t :: t in tags ==> t.slug != slug
  {
    if tags == [] then None
    else if tags[0].slug == slug then Some(tags[0])
    else
      assert forall t :: t in tags ==> t == tags[0] || t in tags[1..];
      FindSlug(tags[1..], slug)
  }

  ghost function Hides(s: Store): set<string> {
    SlugsHidingPosts(s.tags)
  }

  ghost function HomeRows(s: Store): seq<Post> {
    ByNewest(FeedPosts(s, Hides(s)))
  }

  /** tagFilterSlugs: nothing at all for an unknown tag. */
  ghost function FilterSlugs(s: Store, slug: string): set<string> {
    match FindSlug(s.tags, slug)
    case None => {}
    case Some(t) => ClosureSlugs(s.tags, t.id)
  }

  ghost function PostsForTag(s: Store, slug: string): seq<Post> {
    var slugs := FilterSlugs(s, slug);
    ByNewest(Filter(FeedPosts(s, Hides(s)), Carrying(slugs)))
  }

  /** queueForTag: the queued posts filed at or below the tag. */
  ghost function QueueForTag(s: Store, slug: string): seq<Post> {
    Filter(ScheduledQueue(s), Carrying(FilterSlugs(s, slug)))
  }

  /** GET /api/posts, before paging: the manager's list, or a guest's. */
  ghost function ListRows(s: Store, status: Option<Status>, tag: Option<string>, matches: Post -> bool): seq<Post> {
    var hides := Hides(s);
    var readable := if s.authenticated then s.posts else Filter(s.posts, (p: Post) => PubliclyReadable(p, hides));
    var withStatus := if status == None then readable else Filter(readable, (p: Post) => p.status == status.value);
    var slugs := if tag == None then {} else FilterSlugs(s, tag.value);
    var withTag := if tag == None then withStatus else Filter(withStatus, Carrying(slugs));
    ByNewest(Filter(withTag, matches))
  }

  /** GET /api/posts/slug/:slug and /api/posts/:id: a 404 is None. */
  ghost function ReadOne(s: Store, wanted: Post -> bool): Option<Post> {
    var found := Filter(s.posts, wanted);
    if found == [] || (!s.authenticated && !PubliclyReadable(found[0], Hides(s))) then None else Some(found[0])
  }

  const CLOUD_LIMIT: nat := 10

  /** The posts of atlasCloud. */
  ghost function CloudPosts(s: Store, tag: Tag, y: Years): seq<Post> {
    var slugs := ClosureSlugs(s.tags, tag.id);
    var inSubtree := Filter(FeedPosts(s, Hides(s)), Carrying(slugs));
    var recent := ByNewest(WithinYears(inSubtree, y));
    if |recent| > CLOUD_LIMIT then recent[..CLOUD_LIMIT] else recent
  }

  // ── In which order, and which posts ───────────────────────────────────────

  predicate NewestFirst(rows: seq<Post>) {
    forall i, j :: 0 <= i < j < |rows| ==> rows[i].date >= rows[j].date
  }

  lemma {:induction false} SortOfEqual(s: seq<Post>)
    requires forall p, q :: p in s && q in s ==> p.date == q.date
    ensures ByNewest(s) == s
  {
    if s != [] {
      SortOfEqual(s[1..]);
      assert s == [s[0]] + s[1..];
    }
  }

  function OfDate(date: int): Post -> bool {
    (p: Post) => p.date == date
  }

  /** byNewest: the posts given, newest first; posts of one date keep their order. */
  lemma ByNewestOrders(s: seq<Post>, date: int)
    ensures NewestFirst(ByNewest(s)) && multiset(ByNewest(s)) == multiset(s)
    ensures Filter(ByNewest(s), OfDate(date)) == Filter(s, OfDate(date))
  {
    SortBySorts(Newer(), s, (p: Post) => true);
    SortOfFilter(Newer(), s, OfDate(date));
    SortOfEqual(Filter(s, OfDate(date)));
  }

  /** The home page, a tag's page, the manager's list and the place cloud are all in
      descending order of their posts' dates. */
  lemma {:induction false} RowsAreNewestFirst(s: Store, slug: string, tag: Tag, y: Years, status: Option<Status>,
                           filter: Option<string>, matches: Post -> bool)
    ensures NewestFirst(HomeRows(s)) && NewestFirst(PostsForTag(s, slug))
    ensures NewestFirst(ListRows(s, status, filter, matches)) && NewestFirst(CloudPosts(s, tag, y))
  {
    ByNewestOrders(FeedPosts(s, Hides(s)), 0);
    ByNewestOrders(Filter(FeedPosts(s, Hides(s)), Carrying(FilterSlugs(s, slug))), 0);
    ListIsNewestFirst(s, status, filter, matches);
    CloudIsNewestFirst(s, tag, y);
  }

  lemma {:induction false} CloudIsNewestFirst(s: Store, tag: Tag, y: Years)
    ensures NewestFirst(CloudPosts(s, tag, y))
  {
    var inSubtree := Filter(FeedPosts(s, Hides(s)), Carrying(ClosureSlugs(s.tags, tag.id)));
    ByNewestOrders(WithinYears(inSubtree, y), 0);
  }

  lemma ListIsNewestFirst(s: Store, status: Option<Status>, tag: Option<string>, matches: Post -> bool)
    ensures NewestFirst(ListRows(s, status, tag, matches))
  {
    var hides := Hides(s);
    var readable := if s.authenticated then s.posts else Filter(s.posts, (p: Post) => PubliclyReadable(p, hides));
    var withStatus := if status == None then readable else Filter(readable, (p: Post) => p.status == status.value);
    var slugs := if tag == None then {} else FilterSlugs(s, tag.value);
    var withTag := if tag == None then withStatus else Filter(withStatus, Carrying(slugs));
    ByNewestOrders(Filter(withTag, matches), 0);
  }

  /** The cloud of a place holds the ten newest of its posts, or all if there are no
      more; `rest` are those left out. */
  lemma CloudIsTheNewest(s: Store, tag: Tag, y: Years) returns (rest: seq<Post>)
    ensures |CloudPosts(s, tag, y)| <= 10 && (rest != [] ==> |CloudPosts(s, tag, y)| == 10)
    ensures multiset(CloudPosts(s, tag, y)) + multiset(rest) ==
            multiset(WithinYears(Filter(FeedPosts(s, Hides(s)), Carrying(ClosureSlugs(s.tags, tag.id))), y))
    ensures forall p, q :: p in CloudPosts(s, tag, y) && q in rest ==> p.date >= q.date
  {
    var all := WithinYears(Filter(FeedPosts(s, Hides(s)), Carrying(ClosureSlugs(s.tags, tag.id))), y);
    ByNewestOrders(all, 0);
    var recent := ByNewest(all);
    var n := if |recent| > CLOUD_LIMIT then CLOUD_LIMIT else |recent|;
    rest := recent[n..];
    assert CloudPosts(s, tag, y) == recent[..n];
    CutNewestFirst(recent, n);
  }

  lemma {:induction false} CutNewestFirst(rows: seq<Post>, n: nat)
    requires NewestFirst(rows) && n <= |rows|
    ensures multiset(rows[..n]) + multiset(rows[n..]) == multiset(rows)
    ensures forall p, q :: p in rows[..n] && q in rows[n..] ==> p.date >= q.date
  {
    assert rows == rows[..n] + rows[n..];
  }

  // ── What a guest may see ──────────────────────────────────────────────────

  /** No tag of the post is at or below one that hides its posts. */
  ghost predicate NotHiddenByTag(tags: Tags, p: Post) {
    forall pt, t, h :: pt in p.tags && t in tags && t.slug == pt.slug && h in tags && h.hidesPosts ==>
                       !Reaches(EdgesOf(tags), h.id, t.id)
  }

  ghost predicate PublicPost(s: Store, p: Post) {
    PublicStatus(p.status) && NotHiddenByTag(s.tags, p)
  }

  lemma HidesMember(tags: Tags, slug: string)
    ensures slug in SlugsHidingPosts(tags) <==>
              exists t, h :: t in tags && t.slug == slug && h in tags && h.hidesPosts && Reaches(EdgesOf(tags), h.id, t.id)
  {
    if slug in SlugsHidingPosts(tags) {
      var t :| t in tags && t.id in HidesPostsIds(tags) && t.slug == slug;
      HidesPostsMember(tags, t.id);
    }
    forall t, h | t in tags && t.slug == slug && h in tags && h.hidesPosts && Reaches(EdgesOf(tags), h.id, t.id)
      ensures slug in SlugsHidingPosts(tags)
    {
      HidesPostsMember(tags, t.id);
    }
  }

  /** The slug test of the code is the visibility rule over the graph. */
  lemma CarriesIsTheRule(tags: Tags, p: Post)
    ensures !Carries(p, SlugsHidingPosts(tags)) <==> NotHiddenByTag(tags, p)
  {
    forall pt | pt in p.tags
      ensures pt.slug in SlugsHidingPosts(tags) <==>
                exists t, h :: t in tags && t.slug == pt.slug && h in tags && h.hidesPosts && Reaches(EdgesOf(tags), h.id, t.id)
    {
      HidesMember(tags, pt.slug);
    }
  }

  lemma FeedIsPublic(s: Store)
    requires !s.authenticated
    ensures forall p :: p in FeedPosts(s, Hides(s)) ==> PublicPost(s, p) && p in s.posts
  {
    forall p | p in FeedPosts(s, Hides(s))
      ensures PublicPost(s, p)
    {
      CarriesIsTheRule(s.tags, p);
    }
  }

  /** Every post a guest is given, by whichever read, is public. */
  lemma GuestsSeeOnlyPublicPosts(s: Store, slug: string, tag: Tag, y: Years, status: Option<Status>,
                                 filter: Option<string>, matches: Post -> bool)
    requires !s.authenticated
    ensures forall p :: p in HomeRows(s) ==> PublicPost(s, p)
    ensures forall p :: p in PostsForTag(s, slug) ==> PublicPost(s, p)
    ensures forall p :: p in ListRows(s, status, filter, matches) ==> PublicPost(s, p)
    ensures forall p :: p in CloudPosts(s, tag, y) ==> PublicPost(s, p)
    ensures ReadOne(s, matches).Some? ==> PublicPost(s, ReadOne(s, matches).value)
  {
    FeedIsPublic(s);
    SortedMembers(FeedPosts(s, Hides(s)));
    TagRowsArePublic(s, slug);
    ListRowsArePublic(s, status, filter, matches);
    CloudPostsArePublic(s, tag, y);
    if ReadOne(s, matches).Some? {
      CarriesIsTheRule(s.tags, ReadOne(s, matches).value);
    }
  }

  /** One page of the home feed, or of a tag's, as the routes answer it. */
  function FeedOf(rows: seq<Post>, queue: seq<Post>, y: Years, perPage: int, asked: Paging.Asked): Paging.Page<Post>
    requires perPage != 0
  {
    Paging.FeedPage(WithinYears(rows, y), if y.from > 0 && y.to > 0 then [] else queue, perPage, asked)
  }

  /** With a range of years the queue is left out and only the rows of those years are
      paged; without one every row is, and the queue comes before them. */
  lemma QueueOnlyWithoutYears(rows: seq<Post>, queue: seq<Post>, y: Years, perPage: int, asked: Paging.Asked)
    requires perPage >= 1
    ensures y.from <= 0 || y.to <= 0 ==>
              FeedOf(rows, queue, y, perPage, asked) == Paging.FeedPage(rows, queue, perPage, asked)
    ensures y.from > 0 && y.to > 0 ==>
              var p := FeedOf(rows, queue, y, perPage, asked);
              p.page >= 1 && p.minPage == 1 && p.total == |WithinYears(rows, y)| &&
              forall x :: x in p.posts ==> x in rows && InYears(y, x)
  {
    if y.from <= 0 || y.to <= 0 {
      FilterAll(rows, YearTest(y));
    } else {
      Paging.NoQueue(WithinYears(rows, y), perPage, asked);
    }
  }

  /** A guest has no queue: whatever page is asked for comes from the feed. */
  lemma GuestPagesArePublic(s: Store, slug: string, y: Years, perPage: int, asked: Paging.Asked)
    requires !s.authenticated && perPage != 0
    ensures forall p :: p in FeedOf(HomeRows(s), ScheduledQueue(s), y, perPage, asked).posts ==> PublicPost(s, p)
    ensures forall p :: p in FeedOf(PostsForTag(s, slug), QueueForTag(s, slug), y, perPage, asked).posts ==> PublicPost(s, p)
    ensures FeedOf(HomeRows(s), ScheduledQueue(s), y, perPage, asked).page >= 1
    ensures FeedOf(PostsForTag(s, slug), QueueForTag(s, slug), y, perPage, asked).page >= 1
  {
    FeedIsPublic(s);
    SortedMembers(FeedPosts(s, Hides(s)));
    TagRowsArePublic(s, slug);
    Paging.NoQueue(WithinYears(HomeRows(s), y), perPage, asked);
    Paging.NoQueue(WithinYears(PostsForTag(s, slug), y), perPage, asked);
  }

  lemma TagRowsArePublic(s: Store, slug: string)
    requires !s.authenticated
    ensures forall p :: p in PostsForTag(s, slug) ==> PublicPost(s, p)
  {
    FeedIsPublic(s);
    var slugs := FilterSlugs(s, slug);
    SortedMembers(Filter(FeedPosts(s, Hides(s)), Carrying(slugs)));
  }

  lemma ListRowsArePublic(s: Store, status: Option<Status>, tag: Option<string>, matches: Post -> bool)
    requires !s.authenticated
    ensures forall p :: p in ListRows(s, status, tag, matches) ==> PublicPost(s, p)
  {
    var hides := Hides(s);
    var readable := Filter(s.posts, (p: Post) => PubliclyReadable(p, hides));
    var withStatus := if status == None then readable else Filter(readable, (p: Post) => p.status == status.value);
    var slugs := if tag == None then {} else FilterSlugs(s, tag.value);
    var withTag := if tag == None then withStatus else Filter(withStatus, Carrying(slugs));
    SortedMembers(Filter(withTag, matches));
    forall p | p in ListRows(s, status, tag, matches)
      ensures PublicPost(s, p)
    {
      assert p in withTag && p in withStatus && p in readable;
      CarriesIsTheRule(s.tags, p);
    }
  }

  lemma CloudPostsArePublic(s: Store, tag: Tag, y: Years)
    requires !s.authenticated
    ensures forall p :: p in CloudPosts(s, tag, y) ==> PublicPost(s, p)
  {
    FeedIsPublic(s);
    var slugs := ClosureSlugs(s.tags, tag.id);
    var inSubtree := Filter(FeedPosts(s, Hides(s)), Carrying(slugs));
    SortedMembers(WithinYears(inSubtree, y));
    var recent := ByNewest(WithinYears(inSubtree, y));
    assert forall p :: p in CloudPosts(s, tag, y) ==> p in recent;
  }

  // ── Nothing is missing either ─────────────────────────────────────────────

  /** The home feed holds exactly the owner's published and hidden posts, or, for a
      guest, exactly the public ones. */
  lemma FeedMeans(s: Store, p: Post)
    ensures p in HomeRows(s) <==>
            p in s.posts && if s.authenticated then p.status == Published || p.status == Hidden else PublicPost(s, p)
  {
    SortedMembers(FeedPosts(s, Hides(s)));
    CarriesIsTheRule(s.tags, p);
  }

  /** Some tag of the post is at or below the tag. */
  ghost predicate FiledUnder(s: Store, tag: Tag, p: Post) {
    exists pt, t :: pt in p.tags && t in s.tags && t.slug == pt.slug && Reaches(EdgesOf(s.tags), tag.id, t.id)
  }

  lemma CarriesSubtree(s: Store, tag: Tag, p: Post)
    ensures Carries(p, ClosureSlugs(s.tags, tag.id)) <==> FiledUnder(s, tag, p)
  {
    if Carries(p, ClosureSlugs(s.tags, tag.id)) {
      var pt :| pt in p.tags && pt.slug in ClosureSlugs(s.tags, tag.id);
      var t :| t in s.tags && Reaches(EdgesOf(s.tags), tag.id, t.id) && t.slug == pt.slug;
      assert FiledUnder(s, tag, p);
    }
    if FiledUnder(s, tag, p) {
      var pt, t :| pt in p.tags && t in s.tags && t.slug == pt.slug && Reaches(EdgesOf(s.tags), tag.id, t.id);
      assert pt.slug in ClosureSlugs(s.tags, tag.id);
    }
  }

  /** A tag's page holds exactly the posts of the feed filed at or below the tag; its
      queue exactly the scheduled ones; an unknown tag has neither. */
  lemma TagPageMeans(s: Store, slug: string, p: Post)
    ensures FindSlug(s.tags, slug).Some? ==>
              var tag := FindSlug(s.tags, slug).value;
              (p in PostsForTag(s, slug) <==> p in HomeRows(s) && FiledUnder(s, tag, p)) &&
              (p in QueueForTag(s, slug) <==>
                 s.authenticated && p in s.posts && p.status == Scheduled && FiledUnder(s, tag, p))
    ensures FindSlug(s.tags, slug) == None ==> p !in PostsForTag(s, slug) && p !in QueueForTag(s, slug)
  {
    SortedMembers(FeedPosts(s, Hides(s)));
    SortedMembers(Filter(FeedPosts(s, Hides(s)), Carrying(FilterSlugs(s, slug))));
    QueueIsInOrder(s);
    if FindSlug(s.tags, slug).Some? {
      CarriesSubtree(s, FindSlug(s.tags, slug).value, p);
    }
  }

  /** Filed under the tag the list is filtered by, if it is filtered by one. */
  ghost predicate UnderFilter(s: Store, tag: Option<string>, p: Post) {
    tag.Some? ==> FindSlug(s.tags, tag.value).Some? && FiledUnder(s, FindSlug(s.tags, tag.value).value, p)
  }

  lemma {:induction false} CarriesFilter(s: Store, tag: string, p: Post)
    ensures Carries(p, FilterSlugs(s, tag)) <==> UnderFilter(s, Some(tag), p)
  {
    if FindSlug(s.tags, tag).Some? {
      CarriesSubtree(s, FindSlug(s.tags, tag).value, p);
    }
  }

  /** The list holds exactly the posts that pass its filters, for a guest the public
      ones of them; under an unknown tag there are none. */
  lemma {:induction false} ListMeans(s: Store, status: Option<Status>, tag: Option<string>, matches: Post -> bool, p: Post)
    ensures p in ListRows(s, status, tag, matches) <==>
            p in s.posts && (s.authenticated || PublicPost(s, p)) && matches(p) &&
            (status.Some? ==> p.status == status.value) && UnderFilter(s, tag, p)
  {
    var hides := Hides(s);
    var readable := if s.authenticated then s.posts else Filter(s.posts, (p: Post) => PubliclyReadable(p, hides));
    var withStatus := if status == None then readable else Filter(readable, (p: Post) => p.status == status.value);
    var slugs := if tag == None then {} else FilterSlugs(s, tag.value);
    var withTag := if tag == None then withStatus else Filter(withStatus, Carrying(slugs));
    SortedMembers(Filter(withTag, matches));
    CarriesIsTheRule(s.tags, p);
    if tag.Some? {
      CarriesFilter(s, tag.value, p);
    }
  }

  /** The place cloud, before its limit, is the feed below the tag and in the years. */
  lemma CloudMeans(s: Store, tag: Tag, y: Years, p: Post)
    ensures p in WithinYears(Filter(FeedPosts(s, Hides(s)), Carrying(ClosureSlugs(s.tags, tag.id))), y) <==>
            p in HomeRows(s) && FiledUnder(s, tag, p) && InYears(y, p)
  {
    SortedMembers(FeedPosts(s, Hides(s)));
    CarriesSubtree(s, tag, p);
  }

  /** The first post that matches is given to the owner, and to a guest exactly if it is
      public: never the next one in its place. */
  lemma ReadOneMeans(s: Store, wanted: Post -> bool, i: nat)
    requires i < |s.posts| && wanted(s.posts[i]) && forall j :: 0 <= j < i ==> !wanted(s.posts[j])
    ensures ReadOne(s, wanted) == if s.authenticated || PublicPost(s, s.posts[i]) then Some(s.posts[i]) else None
  {
    FilterFirst(s.posts, wanted, i);
    CarriesIsTheRule(s.tags, s.posts[i]);
  }

  lemma ReadNone(s: Store, wanted: Post -> bool)
    requires forall p :: p in s.posts ==> !wanted(p)
    ensures ReadOne(s, wanted) == None
  {
    FilterNone(s.posts, wanted);
  }

  /** A range of years is the two ranges it splits into; a range with an open end
      takes every post. */
  lemma YearsSplit(p: Post, from: int, mid: int, to: int)
    ensures 0 < from <= mid < to ==>
              (InYears(Years(from, to), p) <==> InYears(Years(from, mid), p) || InYears(Years(mid + 1, to), p))
    ensures from <= 0 || to <= 0 ==> InYears(Years(from, to), p)
    ensures 0 < from ==>
              (InYears(Years(from, from), p) <==> exists t :: t in p.tags && t.year == Some(from))
  {
  }

  // ── Guest and owner ───────────────────────────────────────────────────────

  /** The guest's feed is the owner's published posts that pass the tag test if and
      only if no readable post has status `page`: such a post is in the guest's
      feed and never in the owner's. */
  lemma GuestFeedIsOwnersPublished(s: Store)
    ensures var hides := Hides(s);
            var owners := Filter(FeedPosts(s.(authenticated := true), hides),
                                 (p: Post) => p.status == Published && !Carries(p, hides));
            FeedPosts(s.(authenticated := false), hides) == owners <==>
            forall p :: p in s.posts ==> !(p.status == StandalonePage && !Carries(p, hides))
  {
    var hides := Hides(s);
    var own := FeedTest(true, hides);
    var shown := (p: Post) => p.status == Published && !Carries(p, hides);
    var guest := FeedTest(false, hides);
    FilterTwice(s.posts, own, shown);
    if forall p :: p in s.posts ==> !(p.status == StandalonePage && !Carries(p, hides)) {
      FilterSame(s.posts, guest, Both(own, shown));
    } else {
      var p :| p in s.posts && p.status == StandalonePage && !Carries(p, hides);
      assert p in Filter(s.posts, guest);
      assert p !in Filter(Filter(s.posts, own), shown);
    }
  }

  /** `b` has the tags of `a`, perhaps with more hiding flags and more child refs. */
  predicate HidesMore(a: Tags, b: Tags) {
    |a| == |b| && forall i :: 0 <= i < |a| ==>
      b[i].id == a[i].id && b[i].slug == a[i].slug && (a[i].hidesPosts ==> b[i].hidesPosts) &&
      forall c :: c in a[i].children ==> c in b[i].children
  }

  lemma {:induction false} MoreEdges(a: Tags, b: Tags)
    requires HidesMore(a, b)
    ensures forall x, y :: y in Children(EdgesOf(a), x) ==> y in Children(EdgesOf(b), x)
  {
    if a != [] {
      var n := |a| - 1;
      MoreEdges(a[..n], b[..n]);
      assert a[n].id == b[n].id;
      forall x, y | y in Children(EdgesOf(a), x)
        ensures y in Children(EdgesOf(b), x)
      {
        assert x != a[n].id ==> y in Children(EdgesOf(a[..n]), x);
      }
    }
  }

  /** What a tag reaches before, it reaches after. */
  lemma StillReaches(a: Tags, b: Tags, x: Id, y: Id)
    requires HidesMore(a, b) && Reaches(EdgesOf(a), x, y)
    ensures Reaches(EdgesOf(b), x, y)
  {
    MoreEdges(a, b);
    ReachesMore(EdgesOf(a), EdgesOf(b), x, y);
  }

  lemma StillHides(a: Tags, b: Tags, slug: string)
    requires HidesMore(a, b) && slug in SlugsHidingPosts(a)
    ensures slug in SlugsHidingPosts(b)
  {
    HidesMember(a, slug);
    var t, h :| t in a && t.slug == slug && h in a && h.hidesPosts && Reaches(EdgesOf(a), h.id, t.id);
    var i :| 0 <= i < |a| && a[i] == t;
    var j :| 0 <= j < |a| && a[j] == h;
    StillReaches(a, b, h.id, t.id);
    assert b[i] in b && b[j] in b;
    HidesMember(b, slug);
  }

  lemma MoreHidingSlugs(a: Tags, b: Tags)
    requires HidesMore(a, b)
    ensures SlugsHidingPosts(a) <= SlugsHidingPosts(b)
  {
    forall slug | slug in SlugsHidingPosts(a)
      ensures slug in SlugsHidingPosts(b)
    {
      StillHides(a, b, slug);
    }
  }

  function NotCarrying(slugs: set<string>): Post -> bool {
    (p: Post) => !Carries(p, slugs)
  }

  /** Setting a hides_posts flag or adding a child edge only ever takes posts out
      of the guest's feed: what is left keeps its order. */
  lemma HidingOnlyRemoves(s: Store, s': Store)
    requires !s.authenticated && !s'.authenticated && s'.posts == s.posts && HidesMore(s.tags, s'.tags)
    ensures FeedPosts(s', Hides(s')) == Filter(FeedPosts(s, Hides(s)), NotCarrying(Hides(s')))
  {
    MoreHidingSlugs(s.tags, s'.tags);
    var before := FeedTest(false, Hides(s));
    var kept := NotCarrying(Hides(s'));
    FilterTwice(s.posts, before, kept);
    FilterSame(s.posts, FeedTest(false, Hides(s')), Both(before, kept));
  }

  /** The same of the home page's rows, newest first: the new ones are the old ones,
      in their order, without those that carry a hiding slug now. */
  lemma HidingOnlyRemovesRows(s: Store, s': Store)
    requires !s.authenticated && !s'.authenticated && s'.posts == s.posts && HidesMore(s.tags, s'.tags)
    ensures HomeRows(s') == Filter(HomeRows(s), NotCarrying(Hides(s')))
  {
    HidingOnlyRemoves(s, s');
    SortOfFilter(Newer(), FeedPosts(s, Hides(s)), NotCarrying(Hides(s')));
  }
}
