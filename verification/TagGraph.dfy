/** The tag graph of the demo (demo/mock/routes.ts): the visibility flags a tag
    inherits (hiddenSets) and the tags at or below one (tagSubtree). Tags have
    unique ids; nothing else is assumed of the graph. */
module TagGraph {
  import opened Prelude
  import opened Reachability

  datatype Tag = Tag(id: Id, slug: string, hidden: bool, hidesPosts: bool, children: seq<Id>)

  type Tags = seq<Tag>

  predicate UniqueIds(tags: Tags) {
    forall i, j :: 0 <= i < j < |tags| ==> tags[i].id != tags[j].id
  }

  /** The Map from ids to child refs; a later tag replaces an earlier one. */
  function EdgesOf(tags: Tags): (g: Graph)
    ensures g.Keys == IdsOf(tags)
  {
    if tags == [] then map[]
    else
      var n := |tags| - 1;
      assert tags == tags[..n] + [tags[n]];
      EdgesOf(tags[..n])[tags[n].id := tags[n].children]
  }

  function IdsOf(tags: Tags): set<Id> {
    set t | t in tags :: t.id
  }

  lemma {:induction false} EdgesOfTag(tags: Tags, t: Tag)
    requires UniqueIds(tags) && t in tags
    ensures EdgesOf(tags)[t.id] == t.children
  {
    var n := |tags| - 1;
    if t != tags[n] {
      assert tags == tags[..n] + [tags[n]];
      EdgesOfTag(tags[..n], t);
      var i :| 0 <= i < n && tags[i] == t;
    }
  }

  // ── hiddenSets ────────────────────────────────────────────────────────────

  /** All that is at or below one of the first `n` tags that `pick` chooses. */
  ghost function Spreads(tags: Tags, pick: Tag -> bool, n: nat): set<Id>
    requires n <= |tags|
  {
    if n == 0 then {}
    else Spreads(tags, pick, n - 1) + if pick(tags[n - 1]) then Below(EdgesOf(tags), tags[n - 1].id) else {}
  }

  lemma {:induction false} SpreadsMember(tags: Tags, pick: Tag -> bool, n: nat, x: Id)
    requires n <= |tags|
    ensures x in Spreads(tags, pick, n) <==>
              exists i :: 0 <= i < n && pick(tags[i]) && Reaches(EdgesOf(tags), tags[i].id, x)
  {
    if n > 0 {
      SpreadsMember(tags, pick, n - 1, x);
    }
  }

  ghost function HiddenIds(tags: Tags): set<Id> {
    Spreads(tags, (t: Tag) => t.hidden, |tags|)
  }

  ghost function HidesPostsIds(tags: Tags): set<Id> {
    Spreads(tags, (t: Tag) => t.hidesPosts, |tags|)
  }

  ghost function SlugsHidingPosts(tags: Tags): set<string> {
    set t | t in tags && t.id in HidesPostsIds(tags) :: t.slug
  }

  lemma HiddenMember(tags: Tags, x: Id)
    ensures x in HiddenIds(tags) <==> exists t :: t in tags && t.hidden && Reaches(EdgesOf(tags), t.id, x)
  {
    SpreadsMember(tags, (t: Tag) => t.hidden, |tags|, x);
  }

  lemma HidesPostsMember(tags: Tags, x: Id)
    ensures x in HidesPostsIds(tags) <==> exists t :: t in tags && t.hidesPosts && Reaches(EdgesOf(tags), t.id, x)
  {
    SpreadsMember(tags, (t: Tag) => t.hidesPosts, |tags|, x);
  }

  /** The hidden ids are the least child-closed set with the directly hidden tags. */
  lemma HiddenIsLeastClosed(tags: Tags)
    ensures Closed(EdgesOf(tags), HiddenIds(tags))
    ensures forall t :: t in tags && t.hidden ==> t.id in HiddenIds(tags)
    ensures forall s: set<Id> :: Closed(EdgesOf(tags), s) && (forall t :: t in tags && t.hidden ==> t.id in s)
                                 ==> HiddenIds(tags) <= s
  {
    var g := EdgesOf(tags);
    forall x, y | x in HiddenIds(tags) && y in Children(g, x)
      ensures y in HiddenIds(tags)
    {
      HiddenMember(tags, x);
      var t :| t in tags && t.hidden && Reaches(g, t.id, x);
      ReachesChild(g, t.id, x, y);
      HiddenMember(tags, y);
    }
    forall t | t in tags && t.hidden
      ensures t.id in HiddenIds(tags)
    {
      ReachesItself(g, t.id);
      HiddenMember(tags, t.id);
    }
    forall s: set<Id>, x | Closed(g, s) && (forall t :: t in tags && t.hidden ==> t.id in s) && x in HiddenIds(tags)
      ensures x in s
    {
      HiddenMember(tags, x);
      var t :| t in tags && t.hidden && Reaches(g, t.id, x);
      ClosedHoldsReach(g, s, t.id, x);
    }
  }

  predicate HidesOther(tags: Tags, i: nat, x: Id)
    requires i < |tags|
  {
    tags[i].hidden && tags[i].id != x
  }

  /** Which of the first `n` tags the code records as the one that hid `x`. */
  ghost function Via(tags: Tags, n: nat, x: Id): Option<Id>
    requires n <= |tags|
  {
    if n == 0 then None
    else if Via(tags, n - 1, x).Some? then Via(tags, n - 1, x)
    else if HidesOther(tags, n - 1, x) && Reaches(EdgesOf(tags), tags[n - 1].id, x) then Some(tags[n - 1].id)
    else None
  }

  /** It is the first hidden tag of the list, other than `x`, that reaches `x`. */
  lemma {:induction false} ViaIsFirst(tags: Tags, n: nat, x: Id)
    requires n <= |tags|
    ensures Via(tags, n, x).None? <==>
              forall i :: 0 <= i < n ==> !(HidesOther(tags, i, x) && Reaches(EdgesOf(tags), tags[i].id, x))
    ensures Via(tags, n, x).Some? ==>
              exists i :: 0 <= i < n && tags[i].id == Via(tags, n, x).value &&
                HidesOther(tags, i, x) && Reaches(EdgesOf(tags), tags[i].id, x) &&
                forall j :: 0 <= j < i ==> !(HidesOther(tags, j, x) && Reaches(EdgesOf(tags), tags[j].id, x))
  {
    if n > 0 {
      ViaIsFirst(tags, n - 1, x);
    }
  }

  datatype HiddenSets = HiddenSets(
    hidden: set<Id>, hidesPosts: set<Id>, hidesPostsSlugs: set<string>, via: map<Id, Id>)

  ghost predicate ViaUpTo(tags: Tags, n: nat, via: map<Id, Id>)
    requires n <= |tags|
  {
    forall x :: (x in via <==> Via(tags, n, x).Some?) && (x in via ==> via[x] == Via(tags, n, x).value)
  }

  method Compute(tags: Tags) returns (r: HiddenSets)
    ensures r.hidden == HiddenIds(tags)
    ensures r.hidesPosts == HidesPostsIds(tags)
    ensures r.hidesPostsSlugs == SlugsHidingPosts(tags)
    ensures ViaUpTo(tags, |tags|, r.via)
  {
    var g := EdgesOf(tags);
    var hidden: set<Id>, hidesPosts: set<Id>, via: map<Id, Id> := {}, {}, map[];
    for n := 0 to |tags|
      invariant hidden == Spreads(tags, (t: Tag) => t.hidden, n)
      invariant hidesPosts == Spreads(tags, (t: Tag) => t.hidesPosts, n)
      invariant ViaUpTo(tags, n, via)
    {
      var t := tags[n];
      if t.hidden {
        var seen := Spread(g, t.id);
        hidden := hidden + seen;
        via := MarkVia(tags, n, via, seen);
      }
      if t.hidesPosts {
        var seen := Spread(g, t.id);
        hidesPosts := hidesPosts + seen;
      }
    }
    r := HiddenSets(hidden, hidesPosts, set t | t in tags && t.id in hidesPosts :: t.slug, via);
  }

  /** Marks what tag `n` reaches, other than itself and what is marked already. */
  method MarkVia(tags: Tags, n: nat, via: map<Id, Id>, seen: set<Id>) returns (r: map<Id, Id>)
    requires n < |tags| && tags[n].hidden && seen == Below(EdgesOf(tags), tags[n].id)
    requires ViaUpTo(tags, n, via)
    ensures ViaUpTo(tags, n + 1, r)
  {
    var root := tags[n].id;
    r := map x | x in via.Keys + (seen - {root}) :: if x in via then via[x] else root;
    forall x
      ensures (x in r <==> Via(tags, n + 1, x).Some?) && (x in r ==> r[x] == Via(tags, n + 1, x).value)
    {
      NextVia(tags, n, x);
    }
  }

  lemma NextVia(tags: Tags, n: nat, x: Id)
    requires n < |tags| && tags[n].hidden
    ensures Via(tags, n + 1, x) ==
            if Via(tags, n, x).Some? then Via(tags, n, x)
            else if x in Below(EdgesOf(tags), tags[n].id) - {tags[n].id} then Some(tags[n].id)
            else None
  {
  }

  // ── tagSubtree ────────────────────────────────────────────────────────────

  function Find(tags: Tags, id: Id): (r: Option<Tag>)
    ensures r.Some? ==> r.value in tags && r.value.id == id
    ensures r.None? ==> id !in IdsOf(tags)
  {
    if tags == [] then None
    else if tags[0].id == id then Some(tags[0])
    else
      assert forall t :: t in tags ==> t == tags[0] || t in tags[1..];
      Find(tags[1..], id)
  }

  lemma SameId(tags: Tags, a: Tag, b: Tag)
    requires UniqueIds(tags) && a in tags && b in tags && a.id == b.id
    ensures a == b
  {
  }

  /** What one call of the walk leaves: more tags, all reached from `t`, `t` among
      them, and every existing child of a tag it added. */
  ghost predicate Walked(tags: Tags, t: Tag, out: seq<Tag>, r: seq<Tag>) {
    out <= r && UniqueIds(r) && t in r && (forall x :: x in r ==> x in tags) &&
    AddedFrom(tags, t, out, r) && ClosedExcept(tags, r, out)
  }

  ghost predicate AddedFrom(tags: Tags, t: Tag, out: seq<Tag>, r: seq<Tag>) {
    forall x :: x in r && x !in out ==> Reaches(EdgesOf(tags), t.id, x.id)
  }

  /** Every existing child of a tag of `r` is in `r`, the tags of `out` aside. */
  ghost predicate ClosedExcept(tags: Tags, r: seq<Tag>, out: seq<Tag>) {
    forall x, y :: x in r && x !in out && y in tags && y.id in x.children ==> y in r
  }

  /** Between two child refs of `t`: its first `i` children are in. */
  ghost predicate WalkedChildren(tags: Tags, t: Tag, i: nat, out: seq<Tag>, r: seq<Tag>)
    requires i <= |t.children|
  {
    out + [t] <= r && UniqueIds(r) && (forall x :: x in r ==> x in tags) &&
    AddedFrom(tags, t, out, r) && ClosedExcept(tags, r, out + [t]) &&
    forall y :: y in tags && y.id in t.children[..i] ==> y in r
  }

  lemma WalkOneChild(tags: Tags, t: Tag, i: nat, out: seq<Tag>, r: seq<Tag>, child: Tag, r': seq<Tag>)
    requires UniqueIds(tags) && t in tags && i < |t.children| && child in tags && child.id == t.children[i]
    requires WalkedChildren(tags, t, i, out, r) && Walked(tags, child, r, r')
    ensures WalkedChildren(tags, t, i + 1, out, r')
  {
    var g := EdgesOf(tags);
    forall x | x in r' && x !in out
      ensures Reaches(g, t.id, x.id)
    {
      if x !in r {
        ReachesItself(g, t.id);
        EdgesOfTag(tags, t);
        ReachesChild(g, t.id, t.id, child.id);
        ReachesOn(g, t.id, child.id, x.id);
      }
    }
    forall y | y in tags && y.id in t.children[..i + 1]
      ensures y in r'
    {
      if y.id !in t.children[..i] {
        assert y.id == child.id;
        SameId(tags, y, child);
      }
    }
    PrefixMembers(r, r');
    PrefixMembers(out + [t], r);
  }

  lemma WalkNoChild(tags: Tags, t: Tag, i: nat, out: seq<Tag>, r: seq<Tag>)
    requires i < |t.children| && t.children[i] !in IdsOf(tags)
    requires WalkedChildren(tags, t, i, out, r)
    ensures WalkedChildren(tags, t, i + 1, out, r)
  {
    assert t.children[..i + 1] == t.children[..i] + [t.children[i]];
    forall y | y in tags && y.id in t.children[..i + 1]
      ensures y in r
    {
      assert y.id in IdsOf(tags);
    }
  }

  lemma PrefixMembers<T>(a: seq<T>, r: seq<T>)
    requires a <= r
    ensures forall x :: x in a ==> x in r
  {
    assert r == a + r[|a|..];
  }

  lemma WalkBegins(tags: Tags, t: Tag, out: seq<Tag>)
    requires t in tags && t.id !in IdsOf(out) && UniqueIds(out) && forall x :: x in out ==> x in tags
    ensures WalkedChildren(tags, t, 0, out, out + [t])
  {
    ReachesItself(EdgesOf(tags), t.id);
  }

  lemma WalkEnds(tags: Tags, t: Tag, out: seq<Tag>, r: seq<Tag>)
    requires WalkedChildren(tags, t, |t.children|, out, r)
    ensures Walked(tags, t, out, r)
  {
    assert t.children[..|t.children|] == t.children;
    PrefixMembers(out + [t], r);
    assert t in out + [t];
    assert out <= out + [t];
    forall x, y | x in r && x !in out && y in tags && y.id in x.children
      ensures y in r
    {
      assert x != t ==> x !in out + [t];
    }
  }

  /** The depth-first walk below `t`, over the shared list `out`. */
  method Walk(tags: Tags, t: Tag, out: seq<Tag>) returns (r: seq<Tag>)
    requires UniqueIds(tags) && t in tags && UniqueIds(out) && forall x :: x in out ==> x in tags
    ensures Walked(tags, t, out, r)
    decreases |IdsOf(tags) - IdsOf(out)|
  {
    if t.id in IdsOf(out) {
      var x :| x in out && x.id == t.id;
      SameId(tags, t, x);
      return out;
    }
    r := out + [t];
    WalkBegins(tags, t, out);
    for i := 0 to |t.children|
      invariant WalkedChildren(tags, t, i, out, r)
    {
      var child := Find(tags, t.children[i]);
      if child.None? {
        WalkNoChild(tags, t, i, out, r);
      } else {
        FewerLeft(tags, t, out, r);
        var r' := Walk(tags, child.value, r);
        WalkOneChild(tags, t, i, out, r, child.value, r');
        r := r';
      }
    }
    WalkEnds(tags, t, out, r);
  }

  lemma FewerLeft(tags: Tags, t: Tag, out: seq<Tag>, r: seq<Tag>)
    requires t in tags && t.id !in IdsOf(out) && out + [t] <= r
    ensures |IdsOf(tags) - IdsOf(r)| < |IdsOf(tags) - IdsOf(out)|
  {
    PrefixMembers(out + [t], r);
    assert t in out + [t] && forall x :: x in out ==> x in out + [t];
    var a, b := IdsOf(tags) - IdsOf(r), IdsOf(tags) - IdsOf(out);
    assert t.id in b && t.id !in a && a <= b;
    assert b == a + (b - a);
  }

  /** tagSubtree lists, once each, exactly the existing tags `t` reaches. */
  method TagSubtree(tags: Tags, t: Tag) returns (r: seq<Tag>)
    requires UniqueIds(tags) && t in tags
    ensures UniqueIds(r)
    ensures forall x :: x in r <==> x in tags && Reaches(EdgesOf(tags), t.id, x.id)
  {
    r := Walk(tags, t, []);
    ghost var g := EdgesOf(tags);
    // Ids without a tag have no children, so they lead nowhere.
    ghost var s := IdsOf(r) + (Universe(g) - IdsOf(tags));
    forall a, b | a in s && b in Children(g, a)
      ensures b in s
    {
      assert a in IdsOf(tags);
      assert a in IdsOf(r);
      var x :| x in r && x.id == a;
      EdgesOfTag(tags, x);
      assert b in Universe(g);
      if b in IdsOf(tags) {
        var y :| y in tags && y.id == b;
        assert y in r;
      }
    }
    forall x | x in tags && Reaches(g, t.id, x.id)
      ensures x in r
    {
      ClosedHoldsReach(g, s, t.id, x.id);
      var y :| y in r && y.id == x.id;
      SameId(tags, x, y);
    }
  }

  /** On existing tags, the two walks agree: what is hidden is what the subtrees
      of the directly hidden tags hold. */
  lemma HiddenIsUnionOfSubtrees(tags: Tags, subtrees: seq<seq<Tag>>)
    requires |subtrees| == |tags|
    requires forall i :: 0 <= i < |tags| ==>
               forall x :: x in subtrees[i] <==> x in tags && Reaches(EdgesOf(tags), tags[i].id, x.id)
    ensures forall x :: x in tags ==>
              (x.id in HiddenIds(tags) <==> exists i :: 0 <= i < |tags| && tags[i].hidden && x in subtrees[i])
  {
    forall x | x in tags
      ensures x.id in HiddenIds(tags) <==> exists i :: 0 <= i < |tags| && tags[i].hidden && x in subtrees[i]
    {
      SpreadsMember(tags, (t: Tag) => t.hidden, |tags|, x.id);
      if x.id in HiddenIds(tags) {
        var i :| 0 <= i < |tags| && tags[i].hidden && Reaches(EdgesOf(tags), tags[i].id, x.id);
        assert x in subtrees[i];
      }
    }
  }

  /** The two walks themselves, side by side. */
  method RunBothWalks(tags: Tags) returns (sets: HiddenSets, subtrees: seq<seq<Tag>>)
    requires UniqueIds(tags)
    ensures |subtrees| == |tags|
    ensures forall x :: x in tags ==>
              (x.id in sets.hidden <==> exists i :: 0 <= i < |tags| && tags[i].hidden && x in subtrees[i])
  {
    sets := Compute(tags);
    subtrees := [];
    for k := 0 to |tags|
      invariant |subtrees| == k
      invariant forall i :: 0 <= i < k ==>
                  forall x :: x in subtrees[i] <==> x in tags && Reaches(EdgesOf(tags), tags[i].id, x.id)
    {
      var subtree := TagSubtree(tags, tags[k]);
      subtrees := subtrees + [subtree];
    }
    HiddenIsUnionOfSubtrees(tags, subtrees);
  }
}
