/** Plugin slots and their rules: the registry's pure helpers and NormalizeSlots
    (api/internal/plugins/registry.go) and the demo's copy of the preset algorithm
    (demo/mock/routes.ts).

    A catalog is any registry with unique ids and any table of slot rules. A
    wish list (Go's map[string]bool, the mock's Set) is the set of ids it maps
    to true. */
module Plugins {
  import opened Prelude

  datatype Cardinality = Any | AtMostOne | ExactlyOne | AtLeastOne {
    predicate SingleClaim() { AtMostOne? || ExactlyOne? }
    predicate RequiresOne() { ExactlyOne? || AtLeastOne? }
  }

  datatype Descriptor = Descriptor(id: string, slot: string, defaultEnabled: bool)

  datatype Catalog = Catalog(registry: seq<Descriptor>, rules: map<string, Cardinality>) {
    predicate Ok() {
      "" !in rules &&
      forall i, j :: 0 <= i < j < |registry| ==> registry[i].id != registry[j].id
    }

    /** A slot left out of the table, and so the empty slot, accepts any number. */
    function Rule(slot: string): Cardinality {
      if slot in rules then rules[slot] else Any
    }

    /** SlotPlugins, in registry order; the empty slot has none. */
    function Claimants(slot: string): seq<Descriptor> {
      if slot == "" then [] else Filter(registry, (d: Descriptor) => d.slot == slot)
    }

    function Wanted(slot: string, want: set<string>): seq<Descriptor> {
      Filter(Claimants(slot), (d: Descriptor) => d.id in want)
    }

    function DefaultClaimant(slot: string): string {
      var marked := Filter(Claimants(slot), (d: Descriptor) => d.defaultEnabled);
      if marked != [] then marked[0].id
      else if Claimants(slot) != [] then Claimants(slot)[0].id
      else ""
    }

    function Ids(): set<string> {
      set d | d in registry :: d.id
    }
  }

  lemma SameIdSameDescriptor(c: Catalog, d: Descriptor, e: Descriptor)
    requires c.Ok() && d in c.registry && e in c.registry && d.id == e.id
    ensures d == e
  {
  }

  lemma ClaimantsAreDistinct(c: Catalog, slot: string, want: set<string>)
    requires c.Ok()
    ensures NoDup(c.Claimants(slot)) && NoDup(c.Wanted(slot, want))
  {
    FilterNoDup(c.registry, (d: Descriptor) => d.slot == slot);
    FilterNoDup(c.Claimants(slot), (d: Descriptor) => d.id in want);
  }

  lemma DefaultIsAClaimant(c: Catalog, slot: string)
    requires c.Claimants(slot) != []
    ensures exists d :: d in c.Claimants(slot) && d.id == c.DefaultClaimant(slot)
  {
    var marked := Filter(c.Claimants(slot), (d: Descriptor) => d.defaultEnabled);
    var d := if marked != [] then marked[0] else c.Claimants(slot)[0];
    assert d in c.Claimants(slot) by {
      if marked != [] { assert d in marked; }
    }
  }

  // ── Valid selections ──────────────────────────────────────────────────────

  /** The rule of one slot, for a selection of plugin ids. */
  predicate SlotOk(c: Catalog, slot: string, on: set<string>) {
    (c.Rule(slot).RequiresOne() && c.Claimants(slot) != [] ==> c.Wanted(slot, on) != []) &&
    (c.Rule(slot).SingleClaim() ==> |c.Wanted(slot, on)| <= 1)
  }

  predicate Valid(c: Catalog, on: set<string>) {
    forall d :: d in c.registry ==> SlotOk(c, d.slot, on)
  }

  predicate RequiredFilled(c: Catalog, on: set<string>) {
    forall d :: d in c.registry && d.slot != "" && c.Rule(d.slot).RequiresOne() ==>
                c.Wanted(d.slot, on) != []
  }

  /** Plugin i of the registry, if any, claims the slot. */
  predicate Claims(c: Catalog, i: int, slot: string) {
    0 <= i < |c.registry| && c.registry[i].slot == slot
  }

  lemma {:induction false} FirstWanted(c: Catalog, want: set<string>, i: nat)
    requires i < |c.registry| && c.registry[i].slot != "" && c.registry[i].id in want
    requires forall j :: 0 <= j < i && Claims(c, j, c.registry[i].slot) ==> c.registry[j].id !in want
    ensures c.Wanted(c.registry[i].slot, want) != [] && c.Wanted(c.registry[i].slot, want)[0] == c.registry[i]
  {
    var slot := c.registry[i].slot;
    var p, q := (d: Descriptor) => d.slot == slot, (d: Descriptor) => d.id in want;
    FilterTwice(c.registry, p, q);
    FilterFirst(c.registry, Both(p, q), i);
  }

  lemma {:induction false} MarkedComesFirst(c: Catalog, slot: string, first: nat)
    requires slot != "" && Claims(c, first, slot) && c.registry[first].defaultEnabled
    requires forall j :: 0 <= j < first && Claims(c, j, slot) ==> !c.registry[j].defaultEnabled
    ensures c.DefaultClaimant(slot) == c.registry[first].id
  {
    var p, q := (e: Descriptor) => e.slot == slot, (e: Descriptor) => e.defaultEnabled;
    FilterTwice(c.registry, p, q);
    FilterFirst(c.registry, Both(p, q), first);
  }

  lemma {:induction false} ElseTheFirst(c: Catalog, slot: string, first: nat)
    requires slot != "" && Claims(c, first, slot)
    requires forall j :: Claims(c, j, slot) ==> !c.registry[j].defaultEnabled
    requires forall j :: 0 <= j < first ==> !Claims(c, j, slot)
    ensures c.DefaultClaimant(slot) == c.registry[first].id
  {
    var p, q := (e: Descriptor) => e.slot == slot, (e: Descriptor) => e.defaultEnabled;
    FilterFirst(c.registry, p, first);
    forall e | e in c.registry && e.slot == slot
      ensures !e.defaultEnabled
    {
      var j :| 0 <= j < |c.registry| && c.registry[j] == e;
      assert Claims(c, j, slot);
    }
    var marked := Filter(c.Claimants(slot), q);
    assert marked != [] ==> marked[0] in marked;
  }

  /** The claimant DefaultClaimant names. */
  ghost predicate IsDefault(c: Catalog, i: nat, slot: string) {
    Claims(c, i, slot) &&
    ((c.registry[i].defaultEnabled &&
      forall j :: 0 <= j < i && Claims(c, j, slot) ==> !c.registry[j].defaultEnabled) ||
     ((forall j :: Claims(c, j, slot) ==> !c.registry[j].defaultEnabled) &&
      forall j :: 0 <= j < i ==> !Claims(c, j, slot)))
  }

  lemma {:induction false} SomeDefault(c: Catalog, i: nat, slot: string) returns (first: nat)
    requires Claims(c, i, slot)
    ensures IsDefault(c, first, slot)
  {
    if k: nat :| Claims(c, k, slot) && c.registry[k].defaultEnabled {
      first := FirstThat(c.registry, (e: Descriptor) => e.slot == slot && e.defaultEnabled, k);
    } else {
      first := FirstThat(c.registry, (e: Descriptor) => e.slot == slot, i);
    }
  }

  /** The default claimant of a slot is the first that is enabled by default, and
      the first of all where none is. */
  lemma {:induction false} DefaultIsTheFirst(c: Catalog, i: nat)
    requires c.Ok() && i < |c.registry| && c.registry[i].slot != ""
    ensures var d := c.registry[i];
            d.id == c.DefaultClaimant(d.slot) <==>
            (d.defaultEnabled && forall j :: 0 <= j < i && Claims(c, j, d.slot) ==> !c.registry[j].defaultEnabled) ||
            ((forall j :: Claims(c, j, d.slot) ==> !c.registry[j].defaultEnabled) &&
             forall j :: 0 <= j < i ==> !Claims(c, j, d.slot))
  {
    var slot := c.registry[i].slot;
    var first := SomeDefault(c, i, slot);
    if c.registry[first].defaultEnabled {
      MarkedComesFirst(c, slot, first);
    } else {
      ElseTheFirst(c, slot, first);
    }
    assert IsDefault(c, i, slot) ==> i == first;
  }

  lemma {:induction false} FirstThat<T>(s: seq<T>, p: T -> bool, k: nat) returns (first: nat)
    requires k < |s| && p(s[k])
    ensures first <= k && p(s[first]) && forall j :: 0 <= j < first ==> !p(s[j])
  {
    first := 0;
    while !p(s[first])
      invariant first <= k && forall j :: 0 <= j < first ==> !p(s[j])
      decreases k - first
    {
      first := first + 1;
    }
  }

  /** IsLockedOff, claimant by claimant. */
  lemma {:induction false} LockedOffMeans(c: Catalog, d: Descriptor, on: set<string>)
    requires c.Ok() && d in c.registry
    ensures LockedOff(c, d, on) <==>
            d.slot in c.rules && (c.rules[d.slot] == ExactlyOne || c.rules[d.slot] == AtLeastOne) &&
            d.id in on && forall e :: e in c.registry && e.slot == d.slot && e.id in on ==> e == d
  {
    ClaimantsAreDistinct(c, d.slot, on);
    if d.slot in c.rules && d.id in on {
      assert forall e :: e in c.Wanted(d.slot, on) <==> e in c.registry && e.slot == d.slot && e.id in on;
      if forall e :: e in c.registry && e.slot == d.slot && e.id in on ==> e == d {
        OnlyOne(c.Wanted(d.slot, on), d);
      }
    }
  }

  // ── What normalisation must give ──────────────────────────────────────────

  /** Whether plugin `d` stays on when `want` is bent to the slot rules. */
  predicate Keeps(c: Catalog, want: set<string>, d: Descriptor) {
    var on := c.Wanted(d.slot, want);
    if c.Rule(d.slot).SingleClaim() && |on| > 1 then d == on[0]
    else if c.Rule(d.slot).RequiresOne() && on == [] && d.slot != "" then d.id == c.DefaultClaimant(d.slot)
    else d.id in want
  }

  /** Unknown ids are left alone: nothing is ever written for them. */
  function Normal(c: Catalog, want: set<string>): set<string> {
    (want - c.Ids()) + set d | d in c.registry && Keeps(c, want, d) :: d.id
  }

  lemma NormalMember(c: Catalog, want: set<string>, d: Descriptor)
    requires c.Ok() && d in c.registry
    ensures d.id in Normal(c, want) <==> Keeps(c, want, d)
  {
    if d.id in Normal(c, want) {
      var e :| e in c.registry && Keeps(c, want, e) && e.id == d.id;
      SameIdSameDescriptor(c, d, e);
    }
  }

  /** NormalizeSlots, plugin by plugin. In a slot that needs one and got none the
      default claimant is on. Elsewhere only what was asked for is on, and in a slot
      that takes one only the first that was. */
  lemma {:induction false} NormalMeans(c: Catalog, want: set<string>, i: nat)
    requires c.Ok() && i < |c.registry|
    ensures var d := c.registry[i];
            d.id in Normal(c, want) <==>
            if d.slot in c.rules && (c.rules[d.slot] == ExactlyOne || c.rules[d.slot] == AtLeastOne) &&
               forall j :: Claims(c, j, d.slot) ==> c.registry[j].id !in want
            then
              (d.defaultEnabled && forall j :: 0 <= j < i && Claims(c, j, d.slot) ==> !c.registry[j].defaultEnabled) ||
              ((forall j :: Claims(c, j, d.slot) ==> !c.registry[j].defaultEnabled) &&
               forall j :: 0 <= j < i ==> !Claims(c, j, d.slot))
            else
              d.id in want &&
              (d.slot in c.rules && (c.rules[d.slot] == ExactlyOne || c.rules[d.slot] == AtMostOne) ==>
                 forall j :: 0 <= j < i && Claims(c, j, d.slot) ==> c.registry[j].id !in want)
  {
    var d := c.registry[i];
    NormalMember(c, want, d);
    if d.slot in c.rules {
      DefaultIsTheFirst(c, i);
      WantedOrNot(c, want, d.slot);
      if k: nat :| k < |c.registry| && Claims(c, k, d.slot) && c.registry[k].id in want {
        var p := (e: Descriptor) => e.slot == d.slot && e.id in want;
        var first := FirstThat(c.registry, p, k);
        FirstWanted(c, want, first);
        KeepsTheFirst(c, want, i, first);
      }
    }
  }

  lemma {:induction false} WantedOrNot(c: Catalog, want: set<string>, slot: string)
    requires slot != ""
    ensures c.Wanted(slot, want) == [] <==> forall j :: Claims(c, j, slot) ==> c.registry[j].id !in want
  {
    if c.Wanted(slot, want) != [] {
      var e := c.Wanted(slot, want)[0];
      assert e in c.Wanted(slot, want);
      var j :| 0 <= j < |c.registry| && c.registry[j] == e;
      assert Claims(c, j, slot);
    }
    forall j | Claims(c, j, slot) && c.registry[j].id in want
      ensures c.registry[j] in c.Wanted(slot, want)
    {
    }
  }

  lemma {:induction false} KeepsTheFirst(c: Catalog, want: set<string>, i: nat, first: nat)
    requires c.Ok() && i < |c.registry| && first < |c.registry| && c.registry[i].slot in c.rules
    requires c.Wanted(c.registry[i].slot, want) != []
    requires c.Wanted(c.registry[i].slot, want)[0] == c.registry[first]
    requires Claims(c, first, c.registry[i].slot) && c.registry[first].id in want
    requires forall j :: 0 <= j < first && Claims(c, j, c.registry[i].slot) ==> c.registry[j].id !in want
    ensures var d := c.registry[i];
            Keeps(c, want, d) <==>
            d.id in want &&
            (c.rules[d.slot] == ExactlyOne || c.rules[d.slot] == AtMostOne ==>
               forall j :: 0 <= j < i && Claims(c, j, d.slot) ==> c.registry[j].id !in want)
  {
    var d := c.registry[i];
    var on := c.Wanted(d.slot, want);
    if d.id in want {
      assert d in on;
      assert i >= first;
      if i != first {
        assert c.registry[first] in on && c.registry[first] != d;
        assert |on| > 1;
      }
    }
  }

  /** The claimants of a slot that are on after normalisation. */
  lemma NormalWanted(c: Catalog, want: set<string>, slot: string)
    requires c.Ok() && slot != "" && c.Claimants(slot) != []
    ensures var on := c.Wanted(slot, want);
            var after := c.Wanted(slot, Normal(c, want));
            if c.Rule(slot).SingleClaim() && |on| > 1 then after == [on[0]]
            else if c.Rule(slot).RequiresOne() && on == [] then
              |after| == 1 && after[0].id == c.DefaultClaimant(slot)
            else after == on
  {
    var on := c.Wanted(slot, want);
    var after := c.Wanted(slot, Normal(c, want));
    ClaimantsAreDistinct(c, slot, want);
    ClaimantsAreDistinct(c, slot, Normal(c, want));
    forall d | d in c.Claimants(slot)
      ensures d in after <==> Keeps(c, want, d)
    {
      NormalMember(c, want, d);
    }
    if c.Rule(slot).SingleClaim() && |on| > 1 {
      assert on[0] in on;
      OnlyOne(after, on[0]);
    } else if c.Rule(slot).RequiresOne() && on == [] {
      DefaultIsAClaimant(c, slot);
      var d :| d in c.Claimants(slot) && d.id == c.DefaultClaimant(slot);
      forall e | e in after ensures e == d {
        SameIdSameDescriptor(c, d, e);
      }
      OnlyOne(after, d);
    } else {
      FilterSame(c.Claimants(slot), (d: Descriptor) => d.id in Normal(c, want), (d: Descriptor) => d.id in want);
    }
  }

  lemma OnlyOne<T>(s: seq<T>, x: T)
    requires NoDup(s) && x in s && forall y :: y in s ==> y == x
    ensures s == [x]
  {
    assert s[0] == x && s[|s| - 1] == x by {
      assert s[0] in s && s[|s| - 1] in s;
    }
  }

  lemma NormalIsValid(c: Catalog, want: set<string>)
    requires c.Ok()
    ensures Valid(c, Normal(c, want))
  {
    forall d | d in c.registry
      ensures SlotOk(c, d.slot, Normal(c, want))
    {
      if d.slot != "" {
        NormalWanted(c, want, d.slot);
      }
    }
  }

  lemma ValidIsNormal(c: Catalog, want: set<string>)
    requires c.Ok() && Valid(c, want)
    ensures Normal(c, want) == want
  {
    forall d | d in c.registry
      ensures Keeps(c, want, d) <==> d.id in want
    {
      assert SlotOk(c, d.slot, want);
    }
    forall x
      ensures x in Normal(c, want) <==> x in want
    {
      if x in c.Ids() {
        var d :| d in c.registry && d.id == x;
        NormalMember(c, want, d);
      }
    }
  }

  lemma NormalIsIdempotent(c: Catalog, want: set<string>)
    requires c.Ok()
    ensures Normal(c, Normal(c, want)) == Normal(c, want)
  {
    NormalIsValid(c, want);
    ValidIsNormal(c, Normal(c, want));
  }

  // ── Minimality ────────────────────────────────────────────────────────────

  /** The plugins of some slots on which two selections differ. */
  function Differ(c: Catalog, slots: set<string>, a: set<string>, b: set<string>): set<Descriptor> {
    set d | d in c.registry && d.slot in slots && (d.id in a) != (d.id in b)
  }

  function Slots(c: Catalog): set<string> {
    set d | d in c.registry :: d.slot
  }

  lemma SubsetIsSmaller<T>(a: set<T>, b: set<T>)
    requires a <= b
    ensures |a| <= |b|
  {
    assert b == a + (b - a);
  }

  /** `less` leaves out `x` only, `more` all of `w` but at most one element. */
  lemma FewestChanges<T>(w: set<T>, x: T, v: set<T>, less: set<T>, more: set<T>)
    requires x in w && less <= w - {x} && w - v <= more
    requires forall y, z :: y in v && z in v ==> y == z
    ensures |less| <= |more|
  {
    SubsetIsSmaller(less, w - {x});
    SubsetIsSmaller(w - v, more);
    if v == {} {
      assert w - v == w;
    } else {
      var y :| y in v;
      assert v == {y};
    }
  }

  function WantedSet(c: Catalog, slot: string, want: set<string>): set<Descriptor> {
    set d | d in c.Wanted(slot, want)
  }

  /** Every other valid selection drops the requested claimants it does not keep. */
  lemma OthersDrop(c: Catalog, want: set<string>, slot: string, other: set<string>)
    requires slot != "" && SlotOk(c, slot, other) && c.Rule(slot).SingleClaim()
    ensures WantedSet(c, slot, want) - WantedSet(c, slot, other) <= Differ(c, {slot}, other, want)
    ensures forall y, z :: y in WantedSet(c, slot, other) && z in WantedSet(c, slot, other) ==> y == z
  {
  }

  lemma TrimChanges(c: Catalog, want: set<string>, slot: string)
    requires c.Ok() && slot != "" && c.Rule(slot).SingleClaim() && |c.Wanted(slot, want)| > 1
    ensures c.Wanted(slot, want)[0] in WantedSet(c, slot, want)
    ensures Differ(c, {slot}, Normal(c, want), want) <= WantedSet(c, slot, want) - {c.Wanted(slot, want)[0]}
  {
    var on := c.Wanted(slot, want);
    assert on[0] in on;
    forall d | d in Differ(c, {slot}, Normal(c, want), want)
      ensures d in on && d != on[0]
    {
      NormalMember(c, want, d);
    }
  }

  lemma TrimIsMinimal(c: Catalog, want: set<string>, slot: string, other: set<string>)
    requires c.Ok() && slot != "" && SlotOk(c, slot, other)
    requires c.Rule(slot).SingleClaim() && |c.Wanted(slot, want)| > 1
    ensures |Differ(c, {slot}, Normal(c, want), want)| <= |Differ(c, {slot}, other, want)|
  {
    TrimChanges(c, want, slot);
    OthersDrop(c, want, slot, other);
    FewestChanges(WantedSet(c, slot, want), c.Wanted(slot, want)[0], WantedSet(c, slot, other),
                  Differ(c, {slot}, Normal(c, want), want), Differ(c, {slot}, other, want));
  }

  lemma FillIsMinimal(c: Catalog, want: set<string>, slot: string, other: set<string>)
    requires c.Ok() && slot != "" && c.Claimants(slot) != [] && SlotOk(c, slot, other)
    requires c.Rule(slot).RequiresOne() && c.Wanted(slot, want) == []
    ensures |Differ(c, {slot}, Normal(c, want), want)| <= |Differ(c, {slot}, other, want)|
  {
    DefaultIsAClaimant(c, slot);
    var d :| d in c.Claimants(slot) && d.id == c.DefaultClaimant(slot);
    forall e | e in Differ(c, {slot}, Normal(c, want), want)
      ensures e == d
    {
      NormalMember(c, want, e);
      assert e in c.Claimants(slot) && e !in c.Wanted(slot, want);
      SameIdSameDescriptor(c, d, e);
    }
    SubsetIsSmaller(Differ(c, {slot}, Normal(c, want), want), {d});
    var e := c.Wanted(slot, other)[0];
    assert e in c.Wanted(slot, other) && e !in c.Wanted(slot, want);
    SubsetIsSmaller({e}, Differ(c, {slot}, other, want));
  }

  /** Where nothing is to be trimmed or filled, the slot stays as wished. */
  lemma {:induction false} OtherSlotsStayAsWished(c: Catalog, want: set<string>, slot: string)
    requires c.Ok()
    requires slot == "" ||
             (!(c.Rule(slot).SingleClaim() && |c.Wanted(slot, want)| > 1) &&
              !(c.Rule(slot).RequiresOne() && c.Wanted(slot, want) == []))
    ensures Differ(c, {slot}, Normal(c, want), want) == {}
  {
    forall e | e in c.registry && e.slot == slot
      ensures e !in Differ(c, {slot}, Normal(c, want), want)
    {
      NormalMember(c, want, e);
      assert slot != "" && e.id in want ==> e in c.Wanted(slot, want);
    }
  }

  lemma {:induction false} SlotIsMinimal(c: Catalog, want: set<string>, slot: string, other: set<string>)
    requires c.Ok() && Valid(c, other) && slot in Slots(c)
    ensures |Differ(c, {slot}, Normal(c, want), want)| <= |Differ(c, {slot}, other, want)|
  {
    var d :| d in c.registry && d.slot == slot;
    assert SlotOk(c, slot, other);
    if slot != "" {
      assert d in c.Claimants(slot);
    }
    if slot != "" && c.Rule(slot).SingleClaim() && |c.Wanted(slot, want)| > 1 {
      TrimIsMinimal(c, want, slot, other);
    } else if slot != "" && c.Rule(slot).RequiresOne() && c.Wanted(slot, want) == [] {
      FillIsMinimal(c, want, slot, other);
    } else {
      OtherSlotsStayAsWished(c, want, slot);
    }
  }

  lemma DifferBySlot(c: Catalog, slots: set<string>, slot: string, a: set<string>, b: set<string>)
    requires slot in slots
    ensures |Differ(c, slots, a, b)| == |Differ(c, {slot}, a, b)| + |Differ(c, slots - {slot}, a, b)|
  {
    assert Differ(c, slots, a, b) == Differ(c, {slot}, a, b) + Differ(c, slots - {slot}, a, b);
  }

  lemma {:induction false} SlotsAreMinimal(
      c: Catalog, want: set<string>, slots: set<string>, other: set<string>)
    requires c.Ok() && Valid(c, other) && slots <= Slots(c)
    ensures |Differ(c, slots, Normal(c, want), want)| <= |Differ(c, slots, other, want)|
    decreases |slots|
  {
    if slots == {} {
      assert Differ(c, slots, Normal(c, want), want) == {};
    } else {
      var slot :| slot in slots;
      SlotIsMinimal(c, want, slot, other);
      SlotsAreMinimal(c, want, slots - {slot}, other);
      DifferBySlot(c, slots, slot, Normal(c, want), want);
      DifferBySlot(c, slots, slot, other, want);
    }
  }

  /** No valid selection is closer to the wish list than the normalised one. */
  lemma NormalIsMinimal(c: Catalog, want: set<string>, other: set<string>)
    requires c.Ok() && Valid(c, other)
    ensures |Differ(c, Slots(c), Normal(c, want), want)| <= |Differ(c, Slots(c), other, want)|
  {
    SlotsAreMinimal(c, want, Slots(c), other);
  }

  // ── The two programs that normalise ───────────────────────────────────────

  function IdsOf(ds: seq<Descriptor>): set<string> {
    set d | d in ds :: d.id
  }

  /** The step NormalizeSlots makes for one slot. */
  function Corrected(c: Catalog, slot: string, want: set<string>): set<string> {
    var on := c.Wanted(slot, want);
    if c.Rule(slot).SingleClaim() && |on| > 1 then want - IdsOf(on[1..])
    else if c.Rule(slot).RequiresOne() && on == [] then want + {c.DefaultClaimant(slot)}
    else want
  }

  lemma CorrectedIsPointwise(c: Catalog, slot: string, want: set<string>, d: Descriptor)
    requires c.Ok() && slot != "" && c.Claimants(slot) != [] && d in c.registry
    ensures d.id in Corrected(c, slot, want) <==> if d.slot == slot then Keeps(c, want, d) else d.id in want
  {
    var on := c.Wanted(slot, want);
    ClaimantsAreDistinct(c, slot, want);
    if c.Rule(slot).SingleClaim() && |on| > 1 {
      if d.id in IdsOf(on[1..]) {
        var e :| e in on[1..] && e.id == d.id;
        assert e in on;
        SameIdSameDescriptor(c, d, e);
      }
      if d.slot == slot && d.id in want {
        assert d in on;
        assert d == on[0] || d in on[1..];
      }
      assert on[0] in on;
    } else if c.Rule(slot).RequiresOne() && on == [] {
      DefaultIsAClaimant(c, slot);
      var e :| e in c.Claimants(slot) && e.id == c.DefaultClaimant(slot);
      if d.id == e.id {
        SameIdSameDescriptor(c, d, e);
      }
    }
  }

  lemma CorrectedKeepsUnknown(c: Catalog, slot: string, want: set<string>)
    requires slot != "" && c.Claimants(slot) != []
    ensures Corrected(c, slot, want) - c.Ids() == want - c.Ids()
  {
    DefaultIsAClaimant(c, slot);
    assert forall d :: d in c.Wanted(slot, want) ==> d.id in c.Ids();
    var on := c.Wanted(slot, want);
    assert forall d :: d in on[..] ==> d in on;
    if on != [] {
      assert IdsOf(on[1..]) <= c.Ids() by {
        assert forall d :: d in on[1..] ==> d in on;
      }
    }
  }

  lemma KeepsIsLocal(c: Catalog, d: Descriptor, a: set<string>, b: set<string>)
    requires d in c.registry && forall e :: e in c.registry && e.slot == d.slot ==> (e.id in a <==> e.id in b)
    ensures Keeps(c, a, d) <==> Keeps(c, b, d)
  {
    FilterSame(c.Claimants(d.slot), (e: Descriptor) => e.id in a, (e: Descriptor) => e.id in b);
  }

  lemma NormalIsPointwise(c: Catalog, wish: set<string>, want: set<string>)
    requires c.Ok() && want - c.Ids() == wish - c.Ids()
    requires forall d :: d in c.registry ==> (d.id in want <==> Keeps(c, wish, d))
    ensures want == Normal(c, wish)
  {
    forall x
      ensures x in want <==> x in Normal(c, wish)
    {
      if x in c.Ids() {
        var d :| d in c.registry && d.id == x;
        NormalMember(c, wish, d);
      } else {
        assert x in want <==> x in want - c.Ids();
        assert x in wish <==> x in wish - c.Ids();
      }
    }
  }

  /** What the pass has done: the slots in `done` are corrected, nothing else. */
  ghost predicate PassedOver(c: Catalog, done: set<string>, wish: set<string>, want: set<string>) {
    want - c.Ids() == wish - c.Ids() &&
    forall d :: d in c.registry ==>
      (d.id in want <==> if d.slot in done then Keeps(c, wish, d) else d.id in wish)
  }

  lemma PassOverSlot(c: Catalog, done: set<string>, wish: set<string>, want: set<string>, slot: string)
    requires c.Ok() && slot != "" && c.Claimants(slot) != [] && slot !in done
    requires PassedOver(c, done, wish, want)
    ensures PassedOver(c, done + {slot}, wish, Corrected(c, slot, want))
  {
    CorrectedKeepsUnknown(c, slot, want);
    forall d | d in c.registry
      ensures d.id in Corrected(c, slot, want) <==>
              if d.slot in done + {slot} then Keeps(c, wish, d) else d.id in wish
    {
      CorrectedIsPointwise(c, slot, want, d);
      if d.slot == slot {
        KeepsIsLocal(c, d, want, wish);
      }
    }
  }

  /** The slots of the first n plugins are in `done`, but for the empty slot. */
  predicate SlotsDone(c: Catalog, n: nat, done: set<string>)
    requires n <= |c.registry|
  {
    "" !in done && forall i :: 0 <= i < n && c.registry[i].slot != "" ==> c.registry[i].slot in done
  }

  lemma AllPassedOver(c: Catalog, done: set<string>, wish: set<string>, want: set<string>)
    requires c.Ok() && PassedOver(c, done, wish, want) && SlotsDone(c, |c.registry|, done)
    ensures want == Normal(c, wish)
  {
    forall d | d in c.registry
      ensures d.id in want <==> Keeps(c, wish, d)
    {
      var i :| 0 <= i < |c.registry| && c.registry[i] == d;
    }
    NormalIsPointwise(c, wish, want);
  }

  lemma HasClaimant(c: Catalog, i: nat)
    requires i < |c.registry| && c.registry[i].slot != ""
    ensures c.Claimants(c.registry[i].slot) != []
  {
    assert c.registry[i] in c.Claimants(c.registry[i].slot);
  }

  /** The registry's NormalizeSlots: one pass over the slots, in place. */
  method NormalizeSlots(c: Catalog, wish: set<string>) returns (want: set<string>)
    requires c.Ok()
    ensures want == Normal(c, wish)
  {
    want := wish;
    var done: set<string> := {};
    for i := 0 to |c.registry|
      invariant PassedOver(c, done, wish, want) && SlotsDone(c, i, done)
    {
      var slot := c.registry[i].slot;
      if slot == "" || slot in done {
        continue;
      }
      HasClaimant(c, i);
      PassOverSlot(c, done, wish, want, slot);
      done := done + {slot};
      var rule := c.Rule(slot);
      var enabled := c.Wanted(slot, want);
      if rule.SingleClaim() && |enabled| > 1 {
        want := DropAll(want, enabled[1..]);
        enabled := enabled[..1];
      }
      if rule.RequiresOne() && enabled == [] {
        want := want + {c.DefaultClaimant(slot)};
      }
    }
    AllPassedOver(c, done, wish, want);
  }

  method DropAll(want: set<string>, gone: seq<Descriptor>) returns (r: set<string>)
    ensures r == want - IdsOf(gone)
  {
    r := want;
    for i := 0 to |gone|
      invariant r == want - IdsOf(gone[..i])
    {
      r := r - {gone[i].id};
      assert gone[..i + 1] == gone[..i] + [gone[i]];
    }
    assert gone[..|gone|] == gone;
  }

  /** The demo's first loop: a required slot left empty gets its fallback. */
  predicate Filled(c: Catalog, wish: set<string>, d: Descriptor) {
    d.id in wish ||
    (c.Rule(d.slot).RequiresOne() && d.slot != "" && c.Wanted(d.slot, wish) == [] &&
     d.id == c.DefaultClaimant(d.slot))
  }

  /** `filled` slots have been through the first loop, `trimmed` ones through both. */
  ghost predicate DemoProgress(
      c: Catalog, filled: set<string>, trimmed: set<string>, wish: set<string>, want: set<string>)
  {
    want - c.Ids() == wish - c.Ids() &&
    forall d :: d in c.registry ==>
      (d.id in want <==>
         if d.slot in trimmed then Keeps(c, wish, d)
         else if d.slot in filled then Filled(c, wish, d)
         else d.id in wish)
  }

  lemma FillSlot(c: Catalog, filled: set<string>, wish: set<string>, want: set<string>, slot: string)
    requires c.Ok() && slot != "" && c.Claimants(slot) != [] && c.Rule(slot).RequiresOne()
    requires DemoProgress(c, filled, {}, wish, want)
    ensures DemoProgress(c, filled + {slot}, {}, wish,
              if c.Wanted(slot, want) == [] then want + {c.DefaultClaimant(slot)} else want)
  {
    DefaultIsAClaimant(c, slot);
    var e :| e in c.Claimants(slot) && e.id == c.DefaultClaimant(slot);
    var want' := if c.Wanted(slot, want) == [] then want + {c.DefaultClaimant(slot)} else want;
    if slot in filled {
      assert Filled(c, wish, e) ==> e in c.Wanted(slot, want);
      assert c.Wanted(slot, wish) != [] ==> c.Wanted(slot, wish)[0] in c.Wanted(slot, wish);
      assert c.Wanted(slot, wish) != [] ==> c.Wanted(slot, wish)[0] in c.Wanted(slot, want);
    } else {
      FilterSame(c.Claimants(slot), (d: Descriptor) => d.id in want, (d: Descriptor) => d.id in wish);
      forall d | d in c.registry
        ensures d.id in want' <==>
                if d.slot in filled + {slot} then Filled(c, wish, d) else d.id in wish
      {
        if d.id == e.id {
          SameIdSameDescriptor(c, d, e);
        }
      }
    }
  }

  /** What a filled slot holds before it is trimmed. */
  lemma FilledWanted(c: Catalog, wish: set<string>, want: set<string>, slot: string)
    requires c.Ok() && slot != "" && c.Claimants(slot) != []
    requires forall d :: d in c.registry && d.slot == slot ==> (d.id in want <==> Filled(c, wish, d))
    ensures var on := c.Wanted(slot, wish);
            if c.Rule(slot).RequiresOne() && on == [] then
              |c.Wanted(slot, want)| == 1 && c.Wanted(slot, want)[0].id == c.DefaultClaimant(slot)
            else c.Wanted(slot, want) == on
  {
    if c.Rule(slot).RequiresOne() && c.Wanted(slot, wish) == [] {
      DefaultIsAClaimant(c, slot);
      var d :| d in c.Claimants(slot) && d.id == c.DefaultClaimant(slot);
      ClaimantsAreDistinct(c, slot, want);
      forall e | e in c.Wanted(slot, want)
        ensures e == d
      {
        assert e.id in wish ==> e in c.Wanted(slot, wish);
        SameIdSameDescriptor(c, d, e);
      }
      OnlyOne(c.Wanted(slot, want), d);
    } else {
      FilterSame(c.Claimants(slot), (d: Descriptor) => d.id in want, (d: Descriptor) => d.id in wish);
    }
  }

  /** The trim of the second loop is the correction, once the slot is filled. */
  lemma TrimSlot(c: Catalog, wish: set<string>, want: set<string>, slot: string, d: Descriptor)
    requires c.Ok() && slot != "" && c.Claimants(slot) != [] && d in c.registry
    requires c.Rule(slot).SingleClaim()
    requires forall e :: e in c.registry && e.slot == slot ==> (e.id in want <==> Filled(c, wish, e))
    ensures c.Wanted(slot, want) != [] ==>
              (d.id in want - IdsOf(c.Wanted(slot, want)[1..]) <==>
                 if d.slot == slot then Keeps(c, wish, d) else d.id in want)
    ensures c.Wanted(slot, want) == [] && d.slot == slot ==> !Keeps(c, wish, d) && d.id !in want
  {
    FilledWanted(c, wish, want, slot);
    var on := c.Wanted(slot, want);
    ClaimantsAreDistinct(c, slot, want);
    if on != [] {
      assert on[0] in on;
      if d.id in IdsOf(on[1..]) {
        var e :| e in on[1..] && e.id == d.id;
        assert e in on;
        SameIdSameDescriptor(c, d, e);
      }
    }
    if d.slot == slot && d.id in want {
      assert d in on;
      assert d == on[0] || d in on[1..];
    }
  }

  /** The first loop of the demo's applyPluginPreset. */
  method FillSlots(c: Catalog, wish: set<string>) returns (want: set<string>, ghost filled: set<string>)
    requires c.Ok()
    ensures DemoProgress(c, filled, {}, wish, want)
    ensures forall d :: d in c.registry && c.Rule(d.slot).RequiresOne() ==> d.slot in filled
    ensures forall x :: x in filled ==> c.Rule(x).RequiresOne()
  {
    want := wish;
    filled := {};
    for i := 0 to |c.registry|
      invariant DemoProgress(c, filled, {}, wish, want)
      invariant RequiredUpTo(c, i, filled) && AllRequire(c, filled)
    {
      var slot := c.registry[i].slot;
      if !c.Rule(slot).RequiresOne() || slot == "" {
        continue;
      }
      HasClaimant(c, i);
      FillSlot(c, filled, wish, want, slot);
      filled := filled + {slot};
      if c.Wanted(slot, want) == [] {
        want := want + {c.DefaultClaimant(slot)};
      }
    }
  }

  /** The slots of the first n plugins that need a claimant have been filled. */
  predicate RequiredUpTo(c: Catalog, n: nat, filled: set<string>)
    requires n <= |c.registry|
  {
    forall j :: 0 <= j < n && c.Rule(c.registry[j].slot).RequiresOne() ==> c.registry[j].slot in filled
  }

  predicate AllRequire(c: Catalog, filled: set<string>) {
    forall x :: x in filled ==> c.Rule(x).RequiresOne()
  }

  /** The demo's applyPluginPreset, up to the selection it writes: fill, then trim. */
  method DemoSelection(c: Catalog, list: seq<string>) returns (want: set<string>)
    requires c.Ok()
    ensures want == Normal(c, set x | x in list)
  {
    ghost var wish := set x | x in list;
    ghost var filled;
    want, filled := FillSlots(c, set x | x in list);
    var seen: set<string> := {};
    for i := 0 to |c.registry|
      invariant DemoProgress(c, filled, seen, wish, want) && "" !in seen
      invariant forall d :: d in c.registry[..i] && c.Rule(d.slot).SingleClaim() ==> d.slot in seen
    {
      var slot := c.registry[i].slot;
      if !c.Rule(slot).SingleClaim() || slot == "" || slot in seen {
        continue;
      }
      assert c.registry[i] in c.Claimants(slot);
      ghost var before := want;
      want := KeepFirst(c, slot, want);
      TrimProgress(c, filled, seen, wish, before, want, slot);
      seen := seen + {slot};
    }
    assert c.registry[..|c.registry|] == c.registry;
    DemoIsDone(c, filled, seen, wish, want);
    NormalIsPointwise(c, wish, want);
  }

  lemma DemoIsDone(c: Catalog, filled: set<string>, seen: set<string>, wish: set<string>, want: set<string>)
    requires c.Ok() && DemoProgress(c, filled, seen, wish, want)
    requires forall d :: d in c.registry && c.Rule(d.slot).RequiresOne() ==> d.slot in filled
    requires forall x :: x in filled ==> c.Rule(x).RequiresOne()
    requires forall d :: d in c.registry && c.Rule(d.slot).SingleClaim() ==> d.slot in seen
    ensures forall d :: d in c.registry ==> (d.id in want <==> Keeps(c, wish, d))
  {
    forall d | d in c.registry && d.slot !in seen && d.slot in filled
      ensures Filled(c, wish, d) <==> Keeps(c, wish, d)
    {
      assert d.id in wish && d.slot != "" ==> d in c.Wanted(d.slot, wish);
    }
  }

  /** Of a slot's requested members, in registry order, only the first stays. */
  method KeepFirst(c: Catalog, slot: string, want: set<string>) returns (r: set<string>)
    requires c.Ok()
    ensures r == TrimmedTo(c.Claimants(slot), want)
  {
    r := want;
    var members := c.Claimants(slot);
    var kept := false;
    for i := 0 to |members|
      invariant kept <==> Requested(members[..i], want) != []
      invariant r == TrimmedTo(members[..i], want)
    {
      NextMember(c, slot, i, want);
      if members[i].id !in r {
        continue;
      }
      if kept {
        r := r - {members[i].id};
      } else {
        kept := true;
      }
    }
    assert members[..|members|] == members;
  }

  function Requested(members: seq<Descriptor>, want: set<string>): seq<Descriptor> {
    Filter(members, (d: Descriptor) => d.id in want)
  }

  function TrimmedTo(members: seq<Descriptor>, want: set<string>): set<string> {
    if Requested(members, want) == [] then want else want - IdsOf(Requested(members, want)[1..])
  }

  lemma {:induction false} NextMember(c: Catalog, slot: string, i: nat, want: set<string>)
    requires c.Ok() && i < |c.Claimants(slot)|
    ensures var members := c.Claimants(slot);
            var soFar := Requested(members[..i], want);
            var id := members[i].id;
            (id in TrimmedTo(members[..i], want) <==> id in want) &&
            Requested(members[..i + 1], want) == (if id in want then soFar + [members[i]] else soFar) &&
            TrimmedTo(members[..i + 1], want) ==
              (if id in want && soFar != [] then TrimmedTo(members[..i], want) - {id}
               else TrimmedTo(members[..i], want))
  {
    var members := c.Claimants(slot);
    var soFar := Requested(members[..i], want);
    var m := members[i];
    assert members[..i + 1] == members[..i] + [m];
    FilterAppend(members[..i], [m], (d: Descriptor) => d.id in want);
    ClaimantIdsDiffer(c, slot, i);
    if soFar != [] {
      assert forall d :: d in soFar[1..] ==> d in soFar;
      TailAppend(soFar, m);
    }
  }

  lemma TailAppend(s: seq<Descriptor>, m: Descriptor)
    requires s != []
    ensures IdsOf((s + [m])[1..]) == IdsOf(s[1..]) + {m.id}
  {
    assert (s + [m])[1..] == s[1..] + [m];
  }

  lemma ClaimantIdsDiffer(c: Catalog, slot: string, i: nat)
    requires c.Ok() && i < |c.Claimants(slot)|
    ensures forall d :: d in c.Claimants(slot)[..i] ==> d.id != c.Claimants(slot)[i].id
  {
    ClaimantsAreDistinct(c, slot, {});
    forall d | d in c.Claimants(slot)[..i] && d.id == c.Claimants(slot)[i].id
      ensures false
    {
      assert d in c.Claimants(slot) && c.Claimants(slot)[i] in c.Claimants(slot);
      SameIdSameDescriptor(c, d, c.Claimants(slot)[i]);
    }
  }

  lemma TrimProgress(c: Catalog, filled: set<string>, seen: set<string>, wish: set<string>,
                     before: set<string>, after: set<string>, slot: string)
    requires c.Ok() && slot != "" && c.Claimants(slot) != [] && c.Rule(slot).SingleClaim() && slot !in seen
    requires c.Rule(slot).RequiresOne() ==> slot in filled
    requires DemoProgress(c, filled, seen, wish, before)
    requires after == TrimmedTo(c.Claimants(slot), before)
    ensures DemoProgress(c, filled, seen + {slot}, wish, after)
  {
    forall d | d in c.registry && d.slot == slot
      ensures d.id in before <==> Filled(c, wish, d)
    {
    }
    forall d | d in c.registry
      ensures d.id in after <==> if d.slot == slot then Keeps(c, wish, d) else d.id in before
    {
      TrimSlot(c, wish, before, slot, d);
    }
    assert after - c.Ids() == before - c.Ids() by {
      var on := c.Wanted(slot, before);
      if on != [] {
        assert forall d :: d in on[1..] ==> d in on;
      }
    }
  }

  /** A row of the demo's plugin list. */
  datatype Row = Row(d: Descriptor, enabled: bool, locked: bool)

  /** IsLockedOff: the sole enabled claimant of a slot that requires one. */
  predicate LockedOff(c: Catalog, d: Descriptor, on: set<string>) {
    c.Rule(d.slot).RequiresOne() && d.id in on && c.Wanted(d.slot, on) == [d]
  }

  /** The whole of applyPluginPreset, with relockPlugins, on the demo's rows. */
  method ApplyPluginPreset(c: Catalog, rows: array<Row>, list: seq<string>)
    requires c.Ok() && rows.Length == |c.registry|
    requires forall i :: 0 <= i < rows.Length ==> rows[i].d == c.registry[i]
    modifies rows
    ensures forall i :: 0 <= i < rows.Length ==>
              rows[i].d == c.registry[i] &&
              (rows[i].enabled <==> rows[i].d.id in Normal(c, set x | x in list))
    ensures forall i :: 0 <= i < rows.Length ==>
              rows[i].locked == if c.Rule(rows[i].d.slot).RequiresOne()
                                then LockedOff(c, rows[i].d, Normal(c, set x | x in list))
                                else old(rows[i].locked)
  {
    var want := DemoSelection(c, list);
    SetEnabled(c, rows, want);
    RelockPlugins(c, rows, want);
  }

  method SetEnabled(c: Catalog, rows: array<Row>, want: set<string>)
    requires rows.Length == |c.registry|
    requires forall i :: 0 <= i < rows.Length ==> rows[i].d == c.registry[i]
    modifies rows
    ensures forall i :: 0 <= i < rows.Length ==>
              rows[i] == old(rows[i]).(enabled := c.registry[i].id in want)
  {
    for i := 0 to rows.Length
      invariant forall j :: 0 <= j < i ==> rows[j] == old(rows[j]).(enabled := c.registry[j].id in want)
      invariant forall j :: i <= j < rows.Length ==> rows[j] == old(rows[j])
    {
      rows[i] := rows[i].(enabled := rows[i].d.id in want);
    }
  }

  /** The ids of a slot's enabled rows, in order. */
  function EnabledIds(rows: seq<Row>, slot: string): seq<string> {
    if rows == [] then []
    else (if rows[0].d.slot == slot && rows[0].enabled then [rows[0].d.id] else []) + EnabledIds(rows[1..], slot)
  }

  lemma {:induction false} EnabledIdsAreWanted(rows: seq<Row>, ds: seq<Descriptor>, on: set<string>, slot: string)
    requires |rows| == |ds|
    requires forall i :: 0 <= i < |rows| ==> rows[i].d == ds[i] && (rows[i].enabled <==> ds[i].id in on)
    ensures var wanted := Filter(Filter(ds, (d: Descriptor) => d.slot == slot), (d: Descriptor) => d.id in on);
            EnabledIds(rows, slot) == Map(wanted, (d: Descriptor) => d.id)
  {
    if rows != [] {
      EnabledIdsAreWanted(rows[1..], ds[1..], on, slot);
    }
  }

  lemma {:induction false} LockedBySize(c: Catalog, rows: seq<Row>, on: set<string>, i: nat)
    requires c.Ok() && |rows| == |c.registry| && i < |rows| && c.Rule(rows[i].d.slot).RequiresOne()
    requires forall j :: 0 <= j < |rows| ==> rows[j].d == c.registry[j] && (rows[j].enabled <==> rows[j].d.id in on)
    ensures rows[i].enabled && |EnabledIds(rows, rows[i].d.slot)| == 1 <==> LockedOff(c, rows[i].d, on)
  {
    var d := rows[i].d;
    var wanted := c.Wanted(d.slot, on);
    EnabledIdsAreWanted(rows, c.registry, on, d.slot);
    assert |EnabledIds(rows, d.slot)| == |wanted|;
    if d.id in on {
      assert d in c.registry;
      assert d in wanted;
      assert |wanted| == 1 ==> wanted == [d];
    }
  }

  method RelockPlugins(c: Catalog, rows: array<Row>, ghost on: set<string>)
    requires c.Ok() && rows.Length == |c.registry|
    requires forall i :: 0 <= i < rows.Length ==>
               rows[i].d == c.registry[i] && (rows[i].enabled <==> rows[i].d.id in on)
    modifies rows
    ensures forall i :: 0 <= i < rows.Length ==>
              rows[i].d == c.registry[i] && rows[i].enabled == old(rows[i].enabled) &&
              rows[i].locked == if c.Rule(rows[i].d.slot).RequiresOne()
                                then LockedOff(c, rows[i].d, on) else old(rows[i].locked)
  {
    for i := 0 to rows.Length
      invariant forall j :: 0 <= j < rows.Length ==>
                  rows[j].d == c.registry[j] && rows[j].enabled == old(rows[j].enabled)
      invariant forall j :: i <= j < rows.Length ==> rows[j].locked == old(rows[j].locked)
      invariant forall j :: 0 <= j < i ==>
                  rows[j].locked == if c.Rule(rows[j].d.slot).RequiresOne()
                                    then LockedOff(c, rows[j].d, on) else old(rows[j].locked)
    {
      if c.Rule(rows[i].d.slot).RequiresOne() {
        LockedBySize(c, rows[..], on, i);
        var enabled := EnabledIds(rows[..], rows[i].d.slot);
        rows[i] := rows[i].(locked := rows[i].enabled && |enabled| == 1);
      }
    }
  }
}
