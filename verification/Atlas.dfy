/** The recorded graph narrowed to a timeline range, and the navigation tree cut
    to what a viewer may follow (scopedGraph and visibleNavTree in
    demo/mock/routes.ts). */
module Atlas {
  import opened Prelude
  import opened Reachability
  import opened TagGraph
  import opened Feeds
  import Paging

  /** How many of the viewer's posts in the years are filed at or below a tag. */
  ghost function CountFor(s: Store, id: Id, y: Years): nat {
    |Filter(WithinYears(FeedPosts(s, Hides(s)), y), Carrying(ClosureSlugs(s.tags, id)))|
  }

  /** The counts Map: tags of the store with at least one post. */
  ghost function Counts(s: Store, y: Years, n: nat): (r: map<Id, nat>)
    requires n <= |s.tags|
    ensures forall id :: id in r <==> id in IdsOf(s.tags[..n]) && CountFor(s, id, y) > 0
    ensures forall id :: id in r ==> r[id] == CountFor(s, id, y)
  {
    if n == 0 then map[]
    else
      assert s.tags[..n] == s.tags[..n - 1] + [s.tags[n - 1]];
      var before := Counts(s, y, n - 1);
      var id := s.tags[n - 1].id;
      if CountFor(s, id, y) > 0 then before[id := CountFor(s, id, y)] else before
  }

  datatype Node = Node(id: Id, postCount: nat)

  datatype Scoped = Scoped(
    tags: seq<Node>, hierarchyEdges: seq<(Id, Id)>, posts: Option<seq<Id>>, membershipEdges: seq<(Id, Id)>)

  function VisibleTest(authenticated: bool, hidden: set<Id>): Id -> bool {
    (id: Id) => authenticated || id !in hidden
  }

  function CountedTest(counts: map<Id, nat>): Id -> bool {
    (id: Id) => id in counts
  }

  function NodeFor(counts: map<Id, nat>): Id -> Node {
    (id: Id) => Node(id, if id in counts then counts[id] else 0)
  }

  /** The recorded tags that stay, in the recording's order. */
  ghost function KeptIds(s: Store, y: Years): (r: seq<Id>)
    ensures forall id :: id in r <==>
              id in s.graph.tags && (s.authenticated || id !in HiddenIds(s.tags)) &&
              id in IdsOf(s.tags) && CountFor(s, id, y) > 0
  {
    assert s.tags[..|s.tags|] == s.tags;
    Filter(Filter(s.graph.tags, VisibleTest(s.authenticated, HiddenIds(s.tags))),
           CountedTest(Counts(s, y, |s.tags|)))
  }

  /** The posts of this viewer's feed that lie in the years. */
  ghost function InRangeIds(s: Store, y: Years): set<Id> {
    set p | p in WithinYears(FeedPosts(s, Hides(s)), y) :: p.id
  }

  ghost function ScopedGraph(s: Store, y: Years): Scoped {
    var kept := KeptIds(s, y);
    var inRangeIds := InRangeIds(s, y);
    Scoped(
      Map(kept, NodeFor(Counts(s, y, |s.tags|))),
      Filter(s.graph.hierarchyEdges, (e: (Id, Id)) => e.0 in kept && e.1 in kept),
      if s.graph.posts == None then None
      else Some(Filter(s.graph.posts.value, (id: Id) => id in inRangeIds)),
      if s.graph.posts == None then s.graph.membershipEdges
      else Filter(s.graph.membershipEdges, (e: (Id, Id)) => e.0 in inRangeIds && e.1 in kept))
  }

  predicate Kept(g: Scoped, id: Id) {
    exists n :: n in g.tags && n.id == id
  }

  lemma NodesOf(kept: seq<Id>, counts: map<Id, nat>)
    requires forall id :: id in kept ==> id in counts
    ensures forall n :: n in Map(kept, NodeFor(counts)) ==> n.id in kept && n.postCount == counts[n.id]
    ensures forall id :: id in kept ==> exists n :: n in Map(kept, NodeFor(counts)) && n.id == id
  {
    var nodes := Map(kept, NodeFor(counts));
    forall n | n in nodes
      ensures n.id in kept && n.postCount == counts[n.id]
    {
      var i :| 0 <= i < |nodes| && nodes[i] == n;
      assert kept[i] in kept;
    }
    forall id | id in kept
      ensures exists n :: n in nodes && n.id == id
    {
      var i :| 0 <= i < |kept| && kept[i] == id;
      assert nodes[i] in nodes;
    }
  }

  /** Which tags stay, and with what count. */
  lemma KeptNodes(s: Store, y: Years)
    ensures forall id :: Kept(ScopedGraph(s, y), id) <==> id in KeptIds(s, y)
    ensures forall n :: n in ScopedGraph(s, y).tags ==> n.postCount == CountFor(s, n.id, y)
  {
    assert s.tags[..|s.tags|] == s.tags;
    NodesOf(KeptIds(s, y), Counts(s, y, |s.tags|));
  }

  lemma BelowHasFewer(s: Store, a: Id, b: Id, y: Years)
    requires Reaches(EdgesOf(s.tags), a, b)
    ensures CountFor(s, b, y) <= CountFor(s, a, y)
  {
    forall t | t in s.tags && Reaches(EdgesOf(s.tags), b, t.id)
      ensures Reaches(EdgesOf(s.tags), a, t.id)
    {
      ReachesOn(EdgesOf(s.tags), a, b, t.id);
    }
    assert ClosureSlugs(s.tags, b) <= ClosureSlugs(s.tags, a);
    FilterCountMono(WithinYears(FeedPosts(s, Hides(s)), y),
                    Carrying(ClosureSlugs(s.tags, b)), Carrying(ClosureSlugs(s.tags, a)));
  }

  /** For owner and guest alike, an ancestor of a kept tag that the store and the
      recording both have is kept too, with a count at least as large. */
  lemma AncestorsStay(s: Store, y: Years, a: Id, n: Node)
    requires n in ScopedGraph(s, y).tags
    requires Reaches(EdgesOf(s.tags), a, n.id) && a in IdsOf(s.tags) && a in s.graph.tags
    ensures exists m :: m in ScopedGraph(s, y).tags && m.id == a && m.postCount >= n.postCount
  {
    KeptNodes(s, y);
    assert Kept(ScopedGraph(s, y), n.id);
    BelowHasFewer(s, a, n.id, y);
    if a in HiddenIds(s.tags) {
      HiddenMember(s.tags, a);
      var t :| t in s.tags && t.hidden && Reaches(EdgesOf(s.tags), t.id, a);
      ReachesOn(EdgesOf(s.tags), t.id, a, n.id);
      HiddenMember(s.tags, n.id);
    }
    assert Kept(ScopedGraph(s, y), a);
  }

  /** A post node of the narrowed graph. */
  predicate PostKept(g: Scoped, id: Id) {
    g.posts.Some? && id in g.posts.value
  }

  /** Both ends of a membership edge are nodes of the narrowed graph. */
  predicate JoinsNodes(g: Scoped, e: (Id, Id)) {
    PostKept(g, e.0) && Kept(g, e.1)
  }

  /** A hierarchy edge stays exactly if both its ends do. */
  lemma HierarchyEdgesJoinSurvivors(s: Store, y: Years)
    ensures var g := ScopedGraph(s, y);
            forall e :: e in g.hierarchyEdges <==> e in s.graph.hierarchyEdges && Kept(g, e.0) && Kept(g, e.1)
  {
    KeptNodes(s, y);
  }

  /** Where the recording carries posts, a membership edge stays exactly if its post
      is in range and its tag is kept; the post nodes are the recorded ones in range,
      and for a guest they are public posts. */
  lemma WhichMembershipEdgesStay(s: Store, y: Years)
    requires s.graph.posts.Some?
    ensures var g := ScopedGraph(s, y);
            (forall e :: e in g.membershipEdges <==>
               e in s.graph.membershipEdges && e.0 in InRangeIds(s, y) && Kept(g, e.1)) &&
            (forall id :: PostKept(g, id) <==> id in s.graph.posts.value && id in InRangeIds(s, y)) &&
            (!s.authenticated ==>
               forall id :: PostKept(g, id) ==> exists p :: p in s.posts && p.id == id && PublicPost(s, p))
  {
    KeptNodes(s, y);
    if !s.authenticated {
      FeedIsPublic(s);
    }
  }

  /** The surviving membership edges join surviving nodes if and only if each recorded
      edge whose post is in range and whose tag is kept has a recorded post: the code
      tests the post of an edge against the store, not against the recorded posts. */
  lemma EdgesJoinSurvivors(s: Store, y: Years)
    requires s.graph.posts.Some?
    ensures var g := ScopedGraph(s, y);
            (forall e :: e in g.membershipEdges ==> JoinsNodes(g, e)) <==>
            (forall e :: e in s.graph.membershipEdges && e.0 in InRangeIds(s, y) && Kept(g, e.1) ==>
               e.0 in s.graph.posts.value)
  {
    var g := ScopedGraph(s, y);
    WhichMembershipEdgesStay(s, y);
    if forall e :: e in g.membershipEdges ==> JoinsNodes(g, e) {
      forall e | e in s.graph.membershipEdges && e.0 in InRangeIds(s, y) && Kept(g, e.1)
        ensures e.0 in s.graph.posts.value
      {
        assert JoinsNodes(g, e);
      }
    }
  }

  const TAGGED_POST: Post := Post(7, "p", Published, 0, 0, None, [PostTag("t", None)])

  /** A store with one post under one tag; its recording has the tag and the edge
      between them, but not the post. */
  const EDGE_WITHOUT_POST: Store := Store(
    true, [TAGGED_POST], [Tag(1, "t", false, false, [])], GraphBlob([1], [], Some([]), [(7, 1)]))

  lemma PostOfTheEdgeIsInRange()
    ensures 7 in InRangeIds(EDGE_WITHOUT_POST, Years(0, 0))
    ensures 1 in KeptIds(EDGE_WITHOUT_POST, Years(0, 0))
  {
    var s, y := EDGE_WITHOUT_POST, Years(0, 0);
    var feed := WithinYears(FeedPosts(s, Hides(s)), y);
    assert TAGGED_POST in s.posts && TAGGED_POST in feed;
    assert s.tags[0] in s.tags && 1 in IdsOf(s.tags);
    ReachesItself(EdgesOf(s.tags), 1);
    assert "t" in ClosureSlugs(s.tags, 1);
    assert TAGGED_POST.tags[0] in TAGGED_POST.tags;
    assert TAGGED_POST in Filter(feed, Carrying(ClosureSlugs(s.tags, 1)));
  }

  /** Its edge survives to a post node that is not there. */
  lemma EdgeOutlivesItsPost()
    ensures var g := ScopedGraph(EDGE_WITHOUT_POST, Years(0, 0));
            (7, 1) in g.membershipEdges && Kept(g, 1) && !PostKept(g, 7)
  {
    PostOfTheEdgeIsInRange();
    KeptNodes(EDGE_WITHOUT_POST, Years(0, 0));
    WhichMembershipEdgesStay(EDGE_WITHOUT_POST, Years(0, 0));
    assert EDGE_WITHOUT_POST.graph.membershipEdges[0] == (7, 1);
  }

  /** A recording in which every edge's post is recorded keeps that property under
      every narrowing. */
  lemma CompleteRecordingStaysComplete(s: Store, y: Years)
    requires s.graph.posts.Some?
    requires forall e :: e in s.graph.membershipEdges ==> e.0 in s.graph.posts.value
    ensures var g := ScopedGraph(s, y); forall e :: e in g.membershipEdges ==> JoinsNodes(g, e)
  {
    EdgesJoinSurvivors(s, y);
  }

  /** A range of years counts no more than all years do. */
  lemma FewerInRange(s: Store, id: Id, y: Years)
    ensures CountFor(s, id, y) <= CountFor(s, id, Years(0, 0))
    ensures InRangeIds(s, y) <= InRangeIds(s, Years(0, 0))
  {
    var feed, filed, all := FeedPosts(s, Hides(s)), Carrying(ClosureSlugs(s.tags, id)), Years(0, 0);
    FilterTwice(feed, YearTest(y), filed);
    FilterTwice(feed, YearTest(all), filed);
    FilterCountMono(feed, Both(YearTest(y), filed), Both(YearTest(all), filed));
  }

  lemma KeptInAllYears(s: Store, id: Id, y: Years)
    requires Kept(ScopedGraph(s, y), id)
    ensures Kept(ScopedGraph(s, Years(0, 0)), id)
  {
    KeptNodes(s, y);
    KeptNodes(s, Years(0, 0));
    FewerInRange(s, id, y);
  }

  /** A graph whose edges all join nodes over all years has no other edge in any range. */
  lemma NarrowingKeepsEdgesJoined(s: Store, y: Years)
    requires forall e :: e in ScopedGraph(s, Years(0, 0)).membershipEdges ==> JoinsNodes(ScopedGraph(s, Years(0, 0)), e)
    ensures forall e :: e in ScopedGraph(s, y).membershipEdges ==> JoinsNodes(ScopedGraph(s, y), e)
  {
    var all := Years(0, 0);
    if s.graph.posts.Some? {
      WhichMembershipEdgesStay(s, y);
      WhichMembershipEdgesStay(s, all);
      forall e | e in ScopedGraph(s, y).membershipEdges
        ensures JoinsNodes(ScopedGraph(s, y), e)
      {
        KeptInAllYears(s, e.1, y);
        FewerInRange(s, e.1, y);
        assert e in ScopedGraph(s, all).membershipEdges;
        assert PostKept(ScopedGraph(s, all), e.0);
      }
    } else {
      WithoutPostsEdgesStay(s, all);
      WithoutPostsEdgesStay(s, y);
    }
  }

  /** What an edge tells a guest: its post is a public one, recorded or not. */
  lemma GuestEdgesNamePublicPosts(s: Store, y: Years, e: (Id, Id))
    requires !s.authenticated && s.graph.posts.Some? && e in ScopedGraph(s, y).membershipEdges
    ensures exists p :: p in s.posts && p.id == e.0 && PublicPost(s, p)
    ensures e.1 !in HiddenIds(s.tags)
  {
    WhichMembershipEdgesStay(s, y);
    KeptNodes(s, y);
    FeedIsPublic(s);
  }

  /** Without recorded posts the edges are not narrowed at all, and there are no post
      nodes for them to join. */
  lemma WithoutPostsEdgesStay(s: Store, y: Years)
    requires s.graph.posts.None?
    ensures var g := ScopedGraph(s, y);
            g.membershipEdges == s.graph.membershipEdges &&
            ((forall e :: e in g.membershipEdges ==> JoinsNodes(g, e)) <==> s.graph.membershipEdges == [])
  {
    var g := ScopedGraph(s, y);
    if s.graph.membershipEdges != [] {
      assert g.membershipEdges[0] in g.membershipEdges;
    }
  }

  predicate UniqueSlugs(tags: Tags) {
    forall i, j :: 0 <= i < j < |tags| ==> tags[i].slug != tags[j].slug
  }

  /** A kept tag's count is the total its tag page reports for the same years. */
  lemma CountIsTagPageTotal(s: Store, y: Years, t: Tag, n: Node, perPage: int, asked: Paging.Asked)
    requires UniqueSlugs(s.tags) && t in s.tags && perPage != 0
    requires n in ScopedGraph(s, y).tags && n.id == t.id
    ensures n.postCount == FeedOf(PostsForTag(s, t.slug), QueueForTag(s, t.slug), y, perPage, asked).total
    ensures s.authenticated || t.id !in HiddenIds(s.tags)
  {
    KeptNodes(s, y);
    assert Kept(ScopedGraph(s, y), t.id);
    var found := FindSlug(s.tags, t.slug).value;
    assert found == t by {
      var i :| 0 <= i < |s.tags| && s.tags[i] == t;
      var j :| 0 <= j < |s.tags| && s.tags[j] == found;
    }
    var feed := FeedPosts(s, Hides(s));
    var filed := Carrying(ClosureSlugs(s.tags, t.id));
    SortBySorts(Newer(), Filter(feed, filed), YearTest(y));
    FilterTwice(feed, filed, YearTest(y));
    FilterTwice(feed, YearTest(y), filed);
    FilterSame(feed, Both(filed, YearTest(y)), Both(YearTest(y), filed));
  }

  // ── The navigation tree ───────────────────────────────────────────────────

  /** `id` is 0 for an authored link. */
  datatype NavItem = NavItem(id: Id, name: string, children: seq<NavItem>)

  function VisibleNav(authenticated: bool, hidden: set<Id>, nodes: seq<NavItem>): seq<NavItem>
    decreases nodes
  {
    if authenticated then nodes
    else if nodes == [] then []
    else
      (if nodes[0].id != 0 && nodes[0].id in hidden then []
       else [nodes[0].(children := VisibleNav(authenticated, hidden, nodes[0].children))])
      + VisibleNav(authenticated, hidden, nodes[1..])
  }

  function NavIds(nodes: seq<NavItem>): set<Id>
    decreases nodes
  {
    if nodes == [] then {} else {nodes[0].id} + NavIds(nodes[0].children) + NavIds(nodes[1..])
  }

  /** A node's id and name. */
  type Label = (Id, string)

  /** The way to each node, from the top of the menu down to it, in the order in which
      the menu lists the nodes. Ways and order determine the menu. */
  function Ways(nodes: seq<NavItem>, above: seq<Label>): seq<seq<Label>>
    decreases nodes
  {
    if nodes == [] then []
    else
      var way := above + [(nodes[0].id, nodes[0].name)];
      [way] + Ways(nodes[0].children, way) + Ways(nodes[1..], above)
  }

  /** No node on the way carries a hidden tag. */
  function OpenWay(hidden: set<Id>): seq<Label> -> bool {
    (way: seq<Label>) => forall i :: 0 <= i < |way| ==> way[i].0 == 0 || way[i].0 !in hidden
  }

  lemma {:induction false} NothingBelowHidden(hidden: set<Id>, nodes: seq<NavItem>, above: seq<Label>)
    requires !OpenWay(hidden)(above)
    ensures Filter(Ways(nodes, above), OpenWay(hidden)) == []
    decreases nodes
  {
    if nodes != [] {
      var way := above + [(nodes[0].id, nodes[0].name)];
      assert !OpenWay(hidden)(way) by {
        var i :| 0 <= i < |above| && above[i].0 != 0 && above[i].0 in hidden;
        assert way[i] == above[i];
      }
      NothingBelowHidden(hidden, nodes[0].children, way);
      NothingBelowHidden(hidden, nodes[1..], above);
      SplitWays(hidden, nodes, above);
    }
  }

  lemma SplitWays(hidden: set<Id>, nodes: seq<NavItem>, above: seq<Label>)
    requires nodes != []
    ensures var way, open := above + [(nodes[0].id, nodes[0].name)], OpenWay(hidden);
            Filter(Ways(nodes, above), open) == (if open(way) then [way] else []) +
              Filter(Ways(nodes[0].children, way), open) + Filter(Ways(nodes[1..], above), open)
  {
    var way, open := above + [(nodes[0].id, nodes[0].name)], OpenWay(hidden);
    FilterAppend([way] + Ways(nodes[0].children, way), Ways(nodes[1..], above), open);
    FilterAppend([way], Ways(nodes[0].children, way), open);
  }

  lemma WaysOfFirst(node: NavItem, rest: seq<NavItem>, above: seq<Label>)
    ensures var way := above + [(node.id, node.name)];
            Ways([node] + rest, above) == [way] + Ways(node.children, way) + Ways(rest, above)
  {
    assert ([node] + rest)[1..] == rest;
  }

  predicate NamesHidden(hidden: set<Id>, node: NavItem) {
    node.id != 0 && node.id in hidden
  }

  lemma HiddenWay(hidden: set<Id>, node: NavItem, above: seq<Label>)
    requires OpenWay(hidden)(above)
    ensures OpenWay(hidden)(above + [(node.id, node.name)]) <==> !NamesHidden(hidden, node)
  {
    var way := above + [(node.id, node.name)];
    assert way[|above|] == (node.id, node.name);
  }

  lemma VisibleOfFirst(hidden: set<Id>, nodes: seq<NavItem>)
    requires nodes != []
    ensures var rest := VisibleNav(false, hidden, nodes[1..]);
            VisibleNav(false, hidden, nodes) ==
            if NamesHidden(hidden, nodes[0]) then rest
            else [nodes[0].(children := VisibleNav(false, hidden, nodes[0].children))] + rest
  {
  }

  lemma {:induction false} VisibleWays(hidden: set<Id>, nodes: seq<NavItem>, above: seq<Label>)
    requires OpenWay(hidden)(above)
    ensures Ways(VisibleNav(false, hidden, nodes), above) == Filter(Ways(nodes, above), OpenWay(hidden))
    decreases nodes
  {
    if nodes != [] {
      var way := above + [(nodes[0].id, nodes[0].name)];
      VisibleWays(hidden, nodes[1..], above);
      SplitWays(hidden, nodes, above);
      HiddenWay(hidden, nodes[0], above);
      VisibleOfFirst(hidden, nodes);
      if NamesHidden(hidden, nodes[0]) {
        NothingBelowHidden(hidden, nodes[0].children, way);
      } else {
        VisibleWays(hidden, nodes[0].children, way);
        var children := VisibleNav(false, hidden, nodes[0].children);
        WaysOfFirst(nodes[0].(children := children), VisibleNav(false, hidden, nodes[1..]), above);
      }
    }
  }

  /** A guest's menu is the owner's, in order, without exactly the nodes that carry a
      hidden tag or lie below one; an authored link, whose id is 0, hides nothing. */
  lemma GuestNavHidesNothingElse(hidden: set<Id>, nodes: seq<NavItem>)
    ensures Ways(VisibleNav(false, hidden, nodes), []) == Filter(Ways(nodes, []), OpenWay(hidden))
    ensures VisibleNav(true, hidden, nodes) == nodes
  {
    VisibleWays(hidden, nodes, []);
  }

  /** What follows for the ids: none of them is hidden, none is new, and a menu with
      nothing hidden is left as it is. */
  lemma {:induction false} GuestNavIds(hidden: set<Id>, nodes: seq<NavItem>)
    ensures var r := VisibleNav(false, hidden, nodes);
            NavIds(r) <= NavIds(nodes) && NavIds(r) * hidden <= {0} &&
            (NavIds(nodes) * hidden <= {0} ==> r == nodes)
    decreases nodes
  {
    if nodes != [] {
      GuestNavIds(hidden, nodes[0].children);
      GuestNavIds(hidden, nodes[1..]);
      var rest := VisibleNav(false, hidden, nodes[1..]);
      var r := VisibleNav(false, hidden, nodes);
      if nodes[0].id != 0 && nodes[0].id in hidden {
        assert r == rest;
        assert nodes[0].id in NavIds(nodes) * hidden;
      } else {
        assert r[1..] == rest;
      }
    }
  }
}
