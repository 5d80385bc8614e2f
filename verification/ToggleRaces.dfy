/** Two toggles served at one time. TogglePlugin (api/internal/api/plugins.go) takes no
    lock: it reads the settings once and then writes its keys one by one, so another
    request may read and write between them. */
module ToggleRaces {
  import opened Prelude
  import opened Plugins
  import opened PluginHandlers

  /** PATCH /api/plugins/:id, for a plugin of the registry. */
  datatype Ask = Ask(d: Descriptor, enabled: bool)

  datatype Write = Write(d: Descriptor, on: bool)

  /** Before the settings are read, or with these writes left. */
  datatype Pc = Asked | Writing(left: seq<Write>)

  datatype State = State(on: set<string>, pcs: seq<Pc>)

  type Asks = asks: seq<Ask> | |asks| == 2
    witness [Ask(Descriptor("", "", false), false), Ask(Descriptor("", "", false), false)]

  predicate AsksOk(c: Catalog, asks: Asks) {
    c.Ok() && forall i :: 0 <= i < 2 ==> asks[i].d in c.registry
  }

  function OffWrite(): Descriptor -> Write {
    m => Write(m, false)
  }

  function OnTest(on: set<string>): Descriptor -> bool {
    (m: Descriptor) => m.id in on
  }

  /** What a request writes, given the settings it has read: nothing if it is refused;
      else its own flag and then the peers that were on. */
  function Plan(c: Catalog, r: Ask, on: set<string>): seq<Write> {
    if r.enabled then [Write(r.d, true)] + Map(Filter(Peers(c, r.d), OnTest(on)), OffWrite())
    else if LockedOff(c, r.d, on) then []
    else [Write(r.d, false)]
  }

  function Put(on: set<string>, w: Write): set<string> {
    if w.on then on + {w.d.id} else on - {w.d.id}
  }

  predicate Enabled(s: State, i: nat) {
    i < |s.pcs| && s.pcs[i] != Writing([])
  }

  /** One access of request i to the settings. */
  function Step(c: Catalog, asks: Asks, s: State, i: nat): State
    requires Enabled(s, i) && |s.pcs| == 2
  {
    match s.pcs[i]
    case Asked => s.(pcs := s.pcs[i := Writing(Plan(c, asks[i], s.on))])
    case Writing(left) => State(Put(s.on, left[0]), s.pcs[i := Writing(left[1..])])
  }

  /** The state after the accesses in this order, if there is such an order. */
  function Run(c: Catalog, asks: Asks, s: State, order: seq<nat>): Option<State>
    requires |s.pcs| == 2
    decreases |order|
  {
    if order == [] then Some(s)
    else if Enabled(s, order[0]) then Run(c, asks, Step(c, asks, s, order[0]), order[1..])
    else None
  }

  function Start(on: set<string>): State {
    State(on, [Asked, Asked])
  }

  predicate Finished(s: State) {
    forall i :: 0 <= i < |s.pcs| ==> s.pcs[i] == Writing([])
  }

  // ── What a request may write ──────────────────────────────────────────────

  predicate Belongs(c: Catalog, r: Ask, w: Write) {
    w.d in c.registry && w.d.slot == r.d.slot &&
    if w.d == r.d then w.on == r.enabled
    else !w.on && r.enabled && r.d.slot != "" && c.Rule(r.d.slot).SingleClaim()
  }

  lemma PeerWrites(c: Catalog, r: Ask, on: set<string>, m: Descriptor)
    requires c.Ok() && r.d in c.registry && m in c.registry && m != r.d
    ensures Write(m, false) in Map(Filter(Peers(c, r.d), OnTest(on)), OffWrite()) <==>
            m.id in on && m.slot == r.d.slot && r.d.slot != "" && c.Rule(r.d.slot).SingleClaim()
  {
    var offs := Filter(Peers(c, r.d), OnTest(on));
    if m.id == r.d.id {
      SameIdSameDescriptor(c, m, r.d);
    }
    if m in offs {
      var i :| 0 <= i < |offs| && offs[i] == m;
      assert Map(offs, OffWrite())[i] == Write(m, false);
    }
    if Write(m, false) in Map(offs, OffWrite()) {
      var i :| 0 <= i < |offs| && Map(offs, OffWrite())[i] == Write(m, false);
      assert offs[i] == m && offs[i] in offs;
    }
  }

  lemma PlanBelongs(c: Catalog, r: Ask, on: set<string>, w: Write)
    requires c.Ok() && r.d in c.registry && w in Plan(c, r, on)
    ensures Belongs(c, r, w) && (w.d != r.d ==> w.d.id in on)
  {
    if w != Write(r.d, r.enabled) {
      var offs := Filter(Peers(c, r.d), OnTest(on));
      var i :| 0 <= i < |offs| && Map(offs, OffWrite())[i] == w;
      assert offs[i] in offs && offs[i] in Peers(c, r.d);
    }
  }

  lemma PutMember(c: Catalog, on: set<string>, w: Write, e: Descriptor)
    requires c.Ok() && w.d in c.registry && e in c.registry
    ensures e.id in Put(on, w) <==> if e == w.d then w.on else e.id in on
  {
    if e.id == w.d.id {
      SameIdSameDescriptor(c, e, w.d);
    }
  }

  predicate LeftOk(c: Catalog, asks: Asks, s: State) {
    |s.pcs| == 2 &&
    forall i, w :: 0 <= i < 2 && s.pcs[i].Writing? && w in s.pcs[i].left ==> Belongs(c, asks[i], w)
  }

  lemma StepLeftOk(c: Catalog, asks: Asks, s: State, i: nat)
    requires AsksOk(c, asks) && LeftOk(c, asks, s) && Enabled(s, i)
    ensures LeftOk(c, asks, Step(c, asks, s, i))
    ensures s.pcs[i].Writing? ==> Belongs(c, asks[i], s.pcs[i].left[0])
  {
    if s.pcs[i].Asked? {
      forall w | w in Plan(c, asks[i], s.on)
        ensures Belongs(c, asks[i], w)
      {
        PlanBelongs(c, asks[i], s.on, w);
      }
    }
  }

  // ── Slots by their members ────────────────────────────────────────────────

  predicate InSlot(c: Catalog, slot: string, e: Descriptor) {
    e in c.registry && e.slot == slot
  }

  predicate SomeOn(c: Catalog, slot: string, on: set<string>) {
    exists e :: e in c.registry && InSlot(c, slot, e) && e.id in on
  }

  ghost predicate AtMostOneOn(c: Catalog, slot: string, on: set<string>) {
    forall e, f | InSlot(c, slot, e) && InSlot(c, slot, f) && e.id in on && f.id in on :: e == f
  }

  lemma SlotByMembers(c: Catalog, slot: string, on: set<string>)
    requires c.Ok() && slot != ""
    ensures c.Wanted(slot, on) != [] <==> SomeOn(c, slot, on)
    ensures |c.Wanted(slot, on)| <= 1 <==> AtMostOneOn(c, slot, on)
  {
    var wanted := c.Wanted(slot, on);
    assert forall e :: e in wanted <==> InSlot(c, slot, e) && e.id in on;
    ClaimantsAreDistinct(c, slot, on);
    if wanted != [] {
      assert wanted[0] in wanted;
    }
    if |wanted| > 1 {
      assert wanted[0] in wanted && wanted[1] in wanted;
    }
    if |wanted| <= 1 {
      forall e, f | InSlot(c, slot, e) && InSlot(c, slot, f) && e.id in on && f.id in on
        ensures e == f
      {
        assert e in wanted && f in wanted;
      }
    }
  }

  // ── Why a required slot cannot end empty ──────────────────────────────────

  /** No request can switch `e` off. */
  predicate Safe(c: Catalog, asks: Asks, e: Descriptor) {
    e in c.registry && forall i :: 0 <= i < 2 ==> !Belongs(c, asks[i], Write(e, false))
  }

  /** A claimant that stays on; the only one, which nobody may switch off; or one that
      request k switches on. */
  datatype Reason = Stays(e: Descriptor) | Sole(p: Descriptor) | Comes(k: nat)

  /** What the requests must be like. */
  predicate Sound(c: Catalog, asks: Asks, slot: string, why: Reason) {
    match why
    case Stays(e) => InSlot(c, slot, e) && Safe(c, asks, e)
    case Sole(p) =>
      InSlot(c, slot, p) && forall i :: 0 <= i < 2 && asks[i].d.slot == slot && asks[i].enabled ==> asks[i].d == p
    case Comes(k) => k < 2 && asks[k].enabled && InSlot(c, slot, asks[k].d) && Safe(c, asks, asks[k].d)
  }

  predicate OnlyOn(c: Catalog, slot: string, p: Descriptor, on: set<string>) {
    forall e :: e in c.registry && InSlot(c, slot, e) ==> (e.id in on <==> e == p)
  }

  /** What holds all along. */
  predicate Holds(c: Catalog, asks: Asks, slot: string, why: Reason, s: State)
    requires |s.pcs| == 2 && Sound(c, asks, slot, why)
  {
    match why
    case Stays(e) => e.id in s.on
    case Sole(p) =>
      OnlyOn(c, slot, p, s.on) &&
      forall i, w :: 0 <= i < 2 && s.pcs[i].Writing? && w in s.pcs[i].left && w.d.slot == slot ==>
        (w.on <==> w.d == p)
    case Comes(k) =>
      s.pcs[k].Writing? ==> asks[k].d.id in s.on || Write(asks[k].d, true) in s.pcs[k].left
  }

  lemma SafeStays(c: Catalog, asks: Asks, e: Descriptor, s: State, i: nat)
    requires AsksOk(c, asks) && LeftOk(c, asks, s) && Enabled(s, i) && Safe(c, asks, e) && e.id in s.on
    ensures e.id in Step(c, asks, s, i).on
  {
    StepLeftOk(c, asks, s, i);
    if s.pcs[i].Writing? {
      PutMember(c, s.on, s.pcs[i].left[0], e);
    }
  }

  lemma SoleIsWanted(c: Catalog, slot: string, p: Descriptor, on: set<string>)
    requires c.Ok() && slot != "" && InSlot(c, slot, p) && OnlyOn(c, slot, p, on)
    ensures c.Wanted(slot, on) == [p]
  {
    ClaimantsAreDistinct(c, slot, on);
    assert p in c.Wanted(slot, on);
    forall e | e in c.Wanted(slot, on)
      ensures e == p
    {
      assert InSlot(c, slot, e);
    }
    OnlyOne(c.Wanted(slot, on), p);
  }

  /** Who reads a slot with one claimant on plans nothing against it. */
  lemma SolePlan(c: Catalog, asks: Asks, slot: string, p: Descriptor, on: set<string>, i: nat, w: Write)
    requires AsksOk(c, asks) && slot != "" && c.Rule(slot).RequiresOne() && i < 2
    requires Sound(c, asks, slot, Sole(p)) && OnlyOn(c, slot, p, on)
    requires w in Plan(c, asks[i], on) && w.d.slot == slot
    ensures w.on <==> w.d == p
  {
    var r := asks[i];
    PlanBelongs(c, r, on, w);
    SoleIsWanted(c, slot, p, on);
    if w.d != r.d {
      assert InSlot(c, slot, w.d);
      assert r.enabled && r.d == p;
    } else if !r.enabled {
      assert InSlot(c, slot, p);
      assert r.d == p ==> LockedOff(c, r.d, on);
    }
  }

  lemma SoleStays(c: Catalog, asks: Asks, slot: string, p: Descriptor, s: State, i: nat)
    requires AsksOk(c, asks) && LeftOk(c, asks, s) && Enabled(s, i)
    requires slot != "" && c.Rule(slot).RequiresOne()
    requires Sound(c, asks, slot, Sole(p)) && Holds(c, asks, slot, Sole(p), s)
    ensures Holds(c, asks, slot, Sole(p), Step(c, asks, s, i))
  {
    StepLeftOk(c, asks, s, i);
    if s.pcs[i].Asked? {
      forall w | w in Plan(c, asks[i], s.on) && w.d.slot == slot
        ensures w.on <==> w.d == p
      {
        SolePlan(c, asks, slot, p, s.on, i, w);
      }
    } else {
      var w := s.pcs[i].left[0];
      forall e | e in c.registry && InSlot(c, slot, e)
        ensures e.id in Put(s.on, w) <==> e == p
      {
        PutMember(c, s.on, w, e);
        assert w in s.pcs[i].left;
      }
    }
  }

  lemma ComesStays(c: Catalog, asks: Asks, slot: string, k: nat, s: State, i: nat)
    requires AsksOk(c, asks) && LeftOk(c, asks, s) && Enabled(s, i)
    requires Sound(c, asks, slot, Comes(k)) && Holds(c, asks, slot, Comes(k), s)
    ensures Holds(c, asks, slot, Comes(k), Step(c, asks, s, i))
  {
    var d := asks[k].d;
    StepLeftOk(c, asks, s, i);
    if d.id in s.on {
      SafeStays(c, asks, d, s, i);
    }
    if s.pcs[i].Writing? {
      PutMember(c, s.on, s.pcs[i].left[0], d);
    }
  }

  lemma ReasonStays(c: Catalog, asks: Asks, slot: string, why: Reason, s: State, i: nat)
    requires AsksOk(c, asks) && LeftOk(c, asks, s) && Enabled(s, i)
    requires slot != "" && c.Rule(slot).RequiresOne()
    requires Sound(c, asks, slot, why) && Holds(c, asks, slot, why, s)
    ensures Holds(c, asks, slot, why, Step(c, asks, s, i))
  {
    match why
    case Stays(e) => SafeStays(c, asks, e, s, i);
    case Sole(p) => SoleStays(c, asks, slot, p, s, i);
    case Comes(k) => ComesStays(c, asks, slot, k, s, i);
  }

  lemma {:induction false} RunKeepsReason(c: Catalog, asks: Asks, slot: string, why: Reason, s: State, order: seq<nat>)
    requires AsksOk(c, asks) && LeftOk(c, asks, s)
    requires slot != "" && c.Rule(slot).RequiresOne()
    requires Sound(c, asks, slot, why) && Holds(c, asks, slot, why, s)
    requires Run(c, asks, s, order).Some?
    ensures var t := Run(c, asks, s, order).value; |t.pcs| == 2 && Holds(c, asks, slot, why, t)
    decreases |order|
  {
    if order != [] {
      ReasonStays(c, asks, slot, why, s, order[0]);
      StepLeftOk(c, asks, s, order[0]);
      RunKeepsReason(c, asks, slot, why, Step(c, asks, s, order[0]), order[1..]);
    }
  }

  /** At the end the slot has a claimant. */
  lemma {:induction false} EndsFilled(c: Catalog, asks: Asks, slot: string, why: Reason, on: set<string>, order: seq<nat>)
    requires AsksOk(c, asks) && slot != "" && c.Rule(slot).RequiresOne()
    requires Sound(c, asks, slot, why) && Holds(c, asks, slot, why, Start(on))
    requires Run(c, asks, Start(on), order).Some? && Finished(Run(c, asks, Start(on), order).value)
    ensures SomeOn(c, slot, Run(c, asks, Start(on), order).value.on)
  {
    RunKeepsReason(c, asks, slot, why, Start(on), order);
    var t := Run(c, asks, Start(on), order).value;
    var e := match why case Stays(e) => e case Sole(p) => p case Comes(k) => asks[k].d;
    assert InSlot(c, slot, e) && e.id in t.on;
  }

  // ── Why a single-claim slot cannot end with two ───────────────────────────

  /** Nobody switches anything on there; or request k clears the slot for its own. */
  datatype Cap = Shrinks | Clears(k: nat)

  predicate CapSound(c: Catalog, asks: Asks, slot: string, cap: Cap) {
    match cap
    case Shrinks => forall i :: 0 <= i < 2 && asks[i].d.slot == slot ==> !asks[i].enabled
    case Clears(k) =>
      k < 2 && asks[k].enabled && asks[k].d.slot == slot &&
      forall i :: 0 <= i < 2 && asks[i].d.slot == slot && asks[i].enabled ==> asks[i].d == asks[k].d
  }

  predicate CapHolds(c: Catalog, asks: Asks, slot: string, cap: Cap, was: set<string>, s: State)
    requires |s.pcs| == 2 && CapSound(c, asks, slot, cap)
  {
    match cap
    case Shrinks => forall e :: e in c.registry && InSlot(c, slot, e) && e.id in s.on ==> e.id in was
    case Clears(k) =>
      s.pcs[k].Writing? ==>
        forall e :: e in c.registry && InSlot(c, slot, e) && e.id in s.on && e != asks[k].d ==>
          Write(e, false) in s.pcs[k].left
  }

  lemma ShrinksStays(c: Catalog, asks: Asks, slot: string, was: set<string>, s: State, i: nat)
    requires AsksOk(c, asks) && LeftOk(c, asks, s) && Enabled(s, i)
    requires CapSound(c, asks, slot, Shrinks) && CapHolds(c, asks, slot, Shrinks, was, s)
    ensures CapHolds(c, asks, slot, Shrinks, was, Step(c, asks, s, i))
  {
    StepLeftOk(c, asks, s, i);
    if s.pcs[i].Writing? {
      var w := s.pcs[i].left[0];
      forall e | e in c.registry && InSlot(c, slot, e) && e.id in Put(s.on, w)
        ensures e.id in was
      {
        PutMember(c, s.on, w, e);
      }
    }
  }

  lemma ClearsStays(c: Catalog, asks: Asks, slot: string, k: nat, was: set<string>, s: State, i: nat)
    requires AsksOk(c, asks) && LeftOk(c, asks, s) && Enabled(s, i)
    requires slot != "" && c.Rule(slot).SingleClaim()
    requires CapSound(c, asks, slot, Clears(k)) && CapHolds(c, asks, slot, Clears(k), was, s)
    ensures CapHolds(c, asks, slot, Clears(k), was, Step(c, asks, s, i))
  {
    StepLeftOk(c, asks, s, i);
    var t := Step(c, asks, s, i);
    if t.pcs[k].Writing? {
      forall e | e in c.registry && InSlot(c, slot, e) && e.id in t.on && e != asks[k].d
        ensures Write(e, false) in t.pcs[k].left
      {
        if s.pcs[i].Asked? {
          if i == k {
            PeerWrites(c, asks[k], s.on, e);
          }
        } else {
          PutMember(c, s.on, s.pcs[i].left[0], e);
        }
      }
    }
  }

  lemma {:induction false} RunKeepsCap(
      c: Catalog, asks: Asks, slot: string, cap: Cap, was: set<string>, s: State, order: seq<nat>)
    requires AsksOk(c, asks) && LeftOk(c, asks, s)
    requires slot != "" && c.Rule(slot).SingleClaim()
    requires CapSound(c, asks, slot, cap) && CapHolds(c, asks, slot, cap, was, s)
    requires Run(c, asks, s, order).Some?
    ensures var t := Run(c, asks, s, order).value; |t.pcs| == 2 && CapHolds(c, asks, slot, cap, was, t)
    decreases |order|
  {
    if order != [] {
      match cap {
        case Shrinks => ShrinksStays(c, asks, slot, was, s, order[0]);
        case Clears(k) => ClearsStays(c, asks, slot, k, was, s, order[0]);
      }
      StepLeftOk(c, asks, s, order[0]);
      RunKeepsCap(c, asks, slot, cap, was, Step(c, asks, s, order[0]), order[1..]);
    }
  }

  /** At the end the slot has one claimant at most. */
  lemma {:induction false} EndsWithOne(c: Catalog, asks: Asks, slot: string, cap: Cap, on: set<string>, order: seq<nat>)
    requires AsksOk(c, asks) && slot != "" && c.Rule(slot).SingleClaim() && AtMostOneOn(c, slot, on)
    requires CapSound(c, asks, slot, cap)
    requires Run(c, asks, Start(on), order).Some? && Finished(Run(c, asks, Start(on), order).value)
    ensures AtMostOneOn(c, slot, Run(c, asks, Start(on), order).value.on)
  {
    RunKeepsCap(c, asks, slot, cap, on, Start(on), order);
  }

  // ── When two toggles clash ────────────────────────────────────────────────

  /** In one slot: two claimants asked for a single place; a required slot's one place
      given to a plugin that is off and is asked to go off as well; or the last two
      claimants of a required slot both asked to go. */
  predicate Clash(c: Catalog, on: set<string>, asks: Asks) {
    var a, b := asks[0], asks[1];
    var rule := c.Rule(a.d.slot);
    a.d.slot == b.d.slot && a.d.slot != "" &&
    ((rule.SingleClaim() && a.enabled && b.enabled && a.d != b.d) ||
     (rule.ExactlyOne? && a.enabled != b.enabled && a.d == b.d && a.d.id !in on) ||
     (rule.AtLeastOne? && !a.enabled && !b.enabled && a.d != b.d && OnlyThese(c, a.d, b.d, on)))
  }

  /** These two are on, and no other of their slot. */
  predicate OnlyThese(c: Catalog, a: Descriptor, b: Descriptor, on: set<string>) {
    forall e :: e in c.registry && InSlot(c, a.slot, e) ==> (e.id in on <==> e == a || e == b)
  }

  lemma ValidSlot(c: Catalog, slot: string, on: set<string>)
    requires c.Ok() && slot != "" && Valid(c, on) && exists e :: e in c.registry && InSlot(c, slot, e)
    ensures c.Rule(slot).RequiresOne() ==> SomeOn(c, slot, on)
    ensures c.Rule(slot).SingleClaim() ==> AtMostOneOn(c, slot, on)
  {
    var e :| e in c.registry && InSlot(c, slot, e);
    assert SlotOk(c, e.slot, on);
    assert e in c.Claimants(slot);
    SlotByMembers(c, slot, on);
  }

  /** Who may switch `e` off. */
  lemma Threat(c: Catalog, asks: Asks, e: Descriptor) returns (i: nat)
    requires AsksOk(c, asks) && e in c.registry && !Safe(c, asks, e)
    ensures i < 2 && asks[i].d.slot == e.slot
    ensures asks[i] == Ask(e, false) || (asks[i].enabled && c.Rule(e.slot).SingleClaim() && asks[i].d != e)
  {
    i :| 0 <= i < 2 && Belongs(c, asks[i], Write(e, false));
  }

  /** No request switches anything on in the slot. */
  predicate NoneEnables(asks: Asks, slot: string) {
    forall i :: 0 <= i < 2 && asks[i].d.slot == slot ==> !asks[i].enabled
  }

  lemma {:induction false} SoleAmongDisabled(c: Catalog, asks: Asks, slot: string, on: set<string>, p: Descriptor)
    requires AsksOk(c, asks) && !Clash(c, on, asks) && NoneEnables(asks, slot)
    requires slot != "" && c.Rule(slot).AtLeastOne? && InSlot(c, slot, p) && p.id in on
    requires forall e :: e in c.registry && InSlot(c, slot, e) && e.id in on ==> !Safe(c, asks, e)
    ensures OnlyOn(c, slot, p, on)
  {
    var a, b := asks[0].d, asks[1].d;
    forall e | e in c.registry && InSlot(c, slot, e) && e.id in on
      ensures e == asks[0].d || e == asks[1].d
    {
      var i := Threat(c, asks, e);
    }
    forall e | e in c.registry && InSlot(c, slot, e) && e.id in on
      ensures e == p
    {
      if e != p {
        var i := Threat(c, asks, e);
        var k := Threat(c, asks, p);
        assert OnlyThese(c, a, b, on);
      }
    }
  }

  /** A request that switches on, and the one that may undo it. */
  lemma {:induction false} SoleUnderEnabler(c: Catalog, asks: Asks, slot: string, on: set<string>, k: nat, p: Descriptor)
    requires AsksOk(c, asks) && !Clash(c, on, asks) && k < 2 && asks[k].enabled
    requires slot != "" && c.Rule(slot).RequiresOne() && InSlot(c, slot, asks[k].d) && !Safe(c, asks, asks[k].d)
    requires c.Rule(slot).SingleClaim() ==> AtMostOneOn(c, slot, on)
    requires InSlot(c, slot, p) && p.id in on
    requires forall e :: e in c.registry && InSlot(c, slot, e) && e.id in on ==> !Safe(c, asks, e)
    ensures OnlyOn(c, slot, p, on) && Sound(c, asks, slot, Sole(p))
  {
    var d := asks[k].d;
    var j := Threat(c, asks, d);
    assert asks[j] == Ask(d, false) && j == 1 - k;
    forall e | e in c.registry && InSlot(c, slot, e) && e.id in on
      ensures e == d
    {
      if c.Rule(slot).ExactlyOne? {
        assert d.id in on;
      } else {
        var i := Threat(c, asks, e);
      }
    }
    assert p == d;
  }

  /** If no claimant is safe, there is one, and no request can take it away. */
  lemma {:induction false} OnlyTheSoleIsLeft(c: Catalog, asks: Asks, slot: string, on: set<string>, p: Descriptor)
    requires AsksOk(c, asks) && !Clash(c, on, asks)
    requires slot != "" && c.Rule(slot).RequiresOne() && InSlot(c, slot, p) && p.id in on
    requires c.Rule(slot).SingleClaim() ==> AtMostOneOn(c, slot, on)
    requires forall e :: e in c.registry && InSlot(c, slot, e) && e.id in on ==> !Safe(c, asks, e)
    requires forall i :: 0 <= i < 2 && asks[i].d.slot == slot && asks[i].enabled ==> !Safe(c, asks, asks[i].d)
    ensures OnlyOn(c, slot, p, on) && Sound(c, asks, slot, Sole(p))
  {
    if k: nat :| k < 2 && asks[k].d.slot == slot && asks[k].enabled {
      SoleUnderEnabler(c, asks, slot, on, k, p);
    } else if c.Rule(slot).AtLeastOne? {
      SoleAmongDisabled(c, asks, slot, on, p);
    }
  }

  /** There is a reason for every slot, if the toggles do not clash. */
  lemma {:induction false} ReasonFor(c: Catalog, asks: Asks, slot: string, on: set<string>, p: Descriptor)
    returns (why: Reason)
    requires AsksOk(c, asks) && !Clash(c, on, asks)
    requires slot != "" && c.Rule(slot).RequiresOne() && InSlot(c, slot, p) && p.id in on
    requires c.Rule(slot).SingleClaim() ==> AtMostOneOn(c, slot, on)
    ensures Sound(c, asks, slot, why) && Holds(c, asks, slot, why, Start(on))
  {
    if e :| e in c.registry && InSlot(c, slot, e) && e.id in on && Safe(c, asks, e) {
      why := Stays(e);
    } else if k: nat :| k < 2 && asks[k].d.slot == slot && asks[k].enabled && Safe(c, asks, asks[k].d) {
      why := Comes(k);
    } else {
      OnlyTheSoleIsLeft(c, asks, slot, on, p);
      why := Sole(p);
    }
  }

  lemma CapFor(c: Catalog, asks: Asks, slot: string, on: set<string>) returns (cap: Cap)
    requires AsksOk(c, asks) && !Clash(c, on, asks) && slot != "" && c.Rule(slot).SingleClaim()
    ensures CapSound(c, asks, slot, cap)
  {
    cap := if asks[0].d.slot == slot && asks[0].enabled then Clears(0)
           else if asks[1].d.slot == slot && asks[1].enabled then Clears(1) else Shrinks;
  }

  /** Toggles that do not clash leave a valid configuration in any order of accesses. */
  lemma {:induction false} NoClashEndsValid(c: Catalog, asks: Asks, on: set<string>, order: seq<nat>)
    requires AsksOk(c, asks) && Valid(c, on) && !Clash(c, on, asks)
    requires Run(c, asks, Start(on), order).Some? && Finished(Run(c, asks, Start(on), order).value)
    ensures Valid(c, Run(c, asks, Start(on), order).value.on)
  {
    var t := Run(c, asks, Start(on), order).value;
    forall e | e in c.registry
      ensures SlotOk(c, e.slot, t.on)
    {
      if e.slot != "" {
        assert InSlot(c, e.slot, e);
        SlotByMembers(c, e.slot, t.on);
        ValidSlot(c, e.slot, on);
        if c.Rule(e.slot).RequiresOne() {
          var p :| p in c.registry && InSlot(c, e.slot, p) && p.id in on;
          var why := ReasonFor(c, asks, e.slot, on, p);
          EndsFilled(c, asks, e.slot, why, on, order);
        }
        if c.Rule(e.slot).SingleClaim() {
          var cap := CapFor(c, asks, e.slot, on);
          EndsWithOne(c, asks, e.slot, cap, on, order);
        }
      }
    }
  }

  // ── Clashing toggles can end badly ────────────────────────────────────────

  function Times(i: nat, n: nat): seq<nat> {
    if n == 0 then [] else [i] + Times(i, n - 1)
  }

  function PutAll(on: set<string>, ws: seq<Write>): set<string>
    decreases |ws|
  {
    if ws == [] then on else PutAll(Put(on, ws[0]), ws[1..])
  }

  lemma {:induction false} RunJoins(c: Catalog, asks: Asks, s: State, a: seq<nat>, b: seq<nat>)
    requires |s.pcs| == 2 && Run(c, asks, s, a).Some?
    ensures |Run(c, asks, s, a).value.pcs| == 2
    ensures Run(c, asks, s, a + b) == Run(c, asks, Run(c, asks, s, a).value, b)
    decreases |a|
  {
    if a == [] {
      assert a + b == b;
    } else {
      assert (a + b)[1..] == a[1..] + b;
      RunJoins(c, asks, Step(c, asks, s, a[0]), a[1..], b);
    }
  }

  /** Request i does all it has left. */
  lemma {:induction false} FinishOne(c: Catalog, asks: Asks, s: State, i: nat, ws: seq<Write>)
    requires |s.pcs| == 2 && i < 2 && s.pcs[i] == Writing(ws)
    ensures Run(c, asks, s, Times(i, |ws|)) == Some(State(PutAll(s.on, ws), s.pcs[i := Writing([])]))
    decreases |ws|
  {
    if ws == [] {
      assert s.pcs[i := Writing([])] == s.pcs;
    } else {
      var t := Step(c, asks, s, i);
      FinishOne(c, asks, t, i, ws[1..]);
      assert Times(i, |ws|)[1..] == Times(i, |ws| - 1);
      assert t.pcs[i := Writing([])] == s.pcs[i := Writing([])];
    }
  }

  /** A plugin ends as its writes say, if they agree; without any it stays. */
  lemma {:induction false} PutAllMember(c: Catalog, on: set<string>, ws: seq<Write>, e: Descriptor, b: bool)
    requires c.Ok() && e in c.registry && forall w :: w in ws ==> w.d in c.registry && (w.d == e ==> w.on == b)
    ensures e.id in PutAll(on, ws) <==> if Write(e, b) in ws then b else e.id in on
    decreases |ws|
  {
    if ws != [] {
      PutMember(c, on, ws[0], e);
      PutAllMember(c, Put(on, ws[0]), ws[1..], e, b);
      assert Write(e, b) in ws <==> ws[0] == Write(e, b) || Write(e, b) in ws[1..];
    }
  }

  /** One after the other: a request that is not disturbed does what the handler does. */
  lemma {:induction false} AloneIsToggled(c: Catalog, r: Ask, on: set<string>, e: Descriptor)
    requires c.Ok() && r.d in c.registry && e in c.registry
    ensures e.id in PutAll(on, Plan(c, r, on)) <==>
      e.id in if !r.enabled && LockedOff(c, r.d, on) then on else Toggled(c, r.d, on, r.enabled)
  {
    var ws := Plan(c, r, on);
    forall w | w in ws
      ensures w.d in c.registry && (w.d == e ==> w.on == (e == r.d && r.enabled))
    {
      PlanBelongs(c, r, on, w);
    }
    PutAllMember(c, on, ws, e, e == r.d && r.enabled);
    ToggledMember(c, r.d, on, r.enabled, e);
    if r.enabled && e != r.d {
      PeerWrites(c, r, on, e);
    }
  }

  predicate EndsInvalid(c: Catalog, asks: Asks, on: set<string>, order: seq<nat>) {
    var end := Run(c, asks, Start(on), order);
    end.Some? && Finished(end.value) && !Valid(c, end.value.on)
  }

  /** Planned from one reading, the writes of a and then those of b break a rule. */
  predicate Spoils(c: Catalog, a: Ask, b: Ask, on: set<string>) {
    !Valid(c, PutAll(PutAll(on, Plan(c, a, on)), Plan(c, b, on)))
  }

  /** Both read, then i writes, then j. */
  function BothRead(c: Catalog, asks: Asks, on: set<string>, i: nat): seq<nat>
    requires i < 2
  {
    [0, 1] + (Times(i, |Plan(c, asks[i], on)|) + Times(1 - i, |Plan(c, asks[1 - i], on)|))
  }

  /** Both have read; i does all it has left, and then the other. */
  lemma {:induction false} FinishBoth(c: Catalog, asks: Asks, s: State, i: nat, wi: seq<Write>, wj: seq<Write>)
    requires |s.pcs| == 2 && i < 2 && s.pcs[i] == Writing(wi) && s.pcs[1 - i] == Writing(wj)
    ensures Run(c, asks, s, Times(i, |wi|) + Times(1 - i, |wj|)) ==
      Some(State(PutAll(PutAll(s.on, wi), wj), [Writing([]), Writing([])]))
  {
    FinishOne(c, asks, s, i, wi);
    var s1 := State(PutAll(s.on, wi), s.pcs[i := Writing([])]);
    RunJoins(c, asks, s, Times(i, |wi|), Times(1 - i, |wj|));
    FinishOne(c, asks, s1, 1 - i, wj);
    assert s1.pcs[1 - i := Writing([])] == [Writing([]), Writing([])];
  }

  lemma {:induction false} BothReadRun(c: Catalog, asks: Asks, on: set<string>, i: nat)
    requires i < 2
    ensures var pi, pj := Plan(c, asks[i], on), Plan(c, asks[1 - i], on);
      Run(c, asks, Start(on), BothRead(c, asks, on, i)) ==
      Some(State(PutAll(PutAll(on, pi), pj), [Writing([]), Writing([])]))
  {
    var p0, p1 := Plan(c, asks[0], on), Plan(c, asks[1], on);
    var s0 := Start(on);
    var s1 := State(on, [Writing(p0), Writing(p1)]);
    assert Step(c, asks, s0, 0).pcs == [Writing(p0), Asked];
    assert Step(c, asks, Step(c, asks, s0, 0), 1) == s1;
    assert [0, 1][1..] == [1];
    assert Run(c, asks, s0, [0, 1]) == Some(s1);
    var rest := Times(i, |Plan(c, asks[i], on)|) + Times(1 - i, |Plan(c, asks[1 - i], on)|);
    RunJoins(c, asks, s0, [0, 1], rest);
    FinishBoth(c, asks, s1, i, Plan(c, asks[i], on), Plan(c, asks[1 - i], on));
  }

  lemma {:induction false} BothReadInvalid(c: Catalog, asks: Asks, on: set<string>, i: nat)
    requires i < 2 && Spoils(c, asks[i], asks[1 - i], on)
    ensures EndsInvalid(c, asks, on, BothRead(c, asks, on, i))
  {
    BothReadRun(c, asks, on, i);
  }

  /** Two claimants of a single-claim slot, planned from one reading. */
  lemma {:induction false} BothEndOn(c: Catalog, a: Ask, b: Ask, on: set<string>)
    requires c.Ok() && a.d in c.registry && b.d in c.registry && a.d != b.d
    requires a.enabled && b.enabled && a.d.id !in on
    ensures var end := PutAll(PutAll(on, Plan(c, a, on)), Plan(c, b, on)); a.d.id in end && b.d.id in end
  {
    var pa, pb := Plan(c, a, on), Plan(c, b, on);
    forall w | w in pa
      ensures w.d in c.registry && (w.d == a.d ==> w.on)
    {
      PlanBelongs(c, a, on, w);
    }
    forall w | w in pb
      ensures w.d in c.registry && (w.d == b.d ==> w.on) && w.d != a.d
    {
      PlanBelongs(c, b, on, w);
    }
    PutAllMember(c, on, pa, a.d, true);
    PutAllMember(c, PutAll(on, pa), pb, a.d, true);
    PutAllMember(c, PutAll(on, pa), pb, b.d, true);
  }

  lemma TwoOnIsInvalid(c: Catalog, a: Descriptor, b: Descriptor, on: set<string>)
    requires c.Ok() && a in c.registry && b in c.registry && a != b && a.slot == b.slot != ""
    requires c.Rule(a.slot).SingleClaim() && a.id in on && b.id in on
    ensures !Valid(c, on)
  {
    assert InSlot(c, a.slot, a) && InSlot(c, a.slot, b);
    SlotByMembers(c, a.slot, on);
    assert !SlotOk(c, a.slot, on);
  }

  lemma {:induction false} TwoClaimants(c: Catalog, asks: Asks, on: set<string>, i: nat)
    requires AsksOk(c, asks) && i < 2 && asks[0].d.slot == asks[1].d.slot != ""
    requires c.Rule(asks[0].d.slot).SingleClaim() && asks[0].enabled && asks[1].enabled
    requires asks[0].d != asks[1].d && asks[i].d.id !in on
    ensures EndsInvalid(c, asks, on, BothRead(c, asks, on, i))
  {
    BothEndOn(c, asks[i], asks[1 - i], on);
    TwoOnIsInvalid(c, asks[i].d, asks[1 - i].d, PutAll(PutAll(on, Plan(c, asks[i], on)), Plan(c, asks[1 - i], on)));
    BothReadInvalid(c, asks, on, i);
  }

  lemma NoneOnIsInvalid(c: Catalog, a: Descriptor, on: set<string>)
    requires c.Ok() && a in c.registry && a.slot != "" && c.Rule(a.slot).RequiresOne()
    requires forall e :: e in c.registry && InSlot(c, a.slot, e) ==> e.id !in on
    ensures !Valid(c, on)
  {
    SlotByMembers(c, a.slot, on);
    assert a in c.Claimants(a.slot);
    assert !SlotOk(c, a.slot, on);
  }

  /** With another claimant on, a request to go off is not refused. */
  lemma {:induction false} OffPlan(c: Catalog, d: Descriptor, e: Descriptor, on: set<string>)
    requires c.Ok() && e in c.registry && e != d && e.slot == d.slot != "" && e.id in on
    ensures Plan(c, Ask(d, false), on) == [Write(d, false)]
  {
    assert e in c.Wanted(d.slot, on);
  }

  lemma PutOne(on: set<string>, w: Write)
    ensures PutAll(on, [w]) == Put(on, w)
  {
    assert [w][1..] == [];
    assert PutAll(Put(on, w), []) == Put(on, w);
  }

  lemma {:induction false} NoneOfTheTwo(c: Catalog, a: Descriptor, b: Descriptor, on: set<string>)
    requires c.Ok() && a in c.registry && a.slot == b.slot != "" && c.Rule(a.slot).RequiresOne()
    requires OnlyThese(c, a, b, on)
    ensures !Valid(c, on - {a.id} - {b.id})
  {
    forall e | e in c.registry && InSlot(c, a.slot, e)
      ensures e.id !in on - {a.id} - {b.id}
    {
      assert e.id in on ==> e == a || e == b;
    }
    NoneOnIsInvalid(c, a, on - {a.id} - {b.id});
  }

  lemma {:induction false} BothOff(c: Catalog, a: Ask, b: Ask, on: set<string>)
    requires c.Ok() && a.d in c.registry && b.d in c.registry && a.d != b.d && a.d.slot == b.d.slot != ""
    requires !a.enabled && !b.enabled && a.d.id in on && b.d.id in on
    ensures PutAll(PutAll(on, Plan(c, a, on)), Plan(c, b, on)) == on - {a.d.id} - {b.d.id}
  {
    assert a == Ask(a.d, false) && b == Ask(b.d, false);
    OffPlan(c, a.d, b.d, on);
    OffPlan(c, b.d, a.d, on);
    PutOne(on, Write(a.d, false));
    PutOne(on - {a.d.id}, Write(b.d, false));
  }

  lemma {:induction false} BothOffInvalid(c: Catalog, a: Ask, b: Ask, on: set<string>)
    requires c.Ok() && a.d in c.registry && b.d in c.registry && a.d != b.d && a.d.slot == b.d.slot != ""
    requires !a.enabled && !b.enabled && c.Rule(a.d.slot).AtLeastOne? && OnlyThese(c, a.d, b.d, on)
    ensures Spoils(c, a, b, on)
  {
    assert InSlot(c, a.d.slot, a.d) && InSlot(c, a.d.slot, b.d);
    NoneOfTheTwo(c, a.d, b.d, on);
    BothOff(c, a, b, on);
  }

  lemma {:induction false} ThreeSteps(c: Catalog, asks: Asks, s: State, i: nat, j: nat, k: nat)
    requires |s.pcs| == 2 && Enabled(s, i) && Enabled(Step(c, asks, s, i), j)
    requires Enabled(Step(c, asks, Step(c, asks, s, i), j), k)
    ensures Run(c, asks, s, [i, j, k]) == Some(Step(c, asks, Step(c, asks, Step(c, asks, s, i), j), k))
  {
    var s1 := Step(c, asks, s, i);
    var s2 := Step(c, asks, s1, j);
    var s3 := Step(c, asks, s2, k);
    assert [k][1..] == [] && Run(c, asks, s3, []) == Some(s3);
    assert Run(c, asks, s2, [k]) == Some(s3);
    assert [j, k][1..] == [k] && Run(c, asks, s1, [j, k]) == Some(s3);
    assert [i, j, k][1..] == [j, k];
  }

  /** Request k reads and switches its plugin on; the other reads; k does the rest, and
      then the other. */
  function Undone(c: Catalog, asks: Asks, on: set<string>, k: nat): seq<nat>
    requires k < 2 && asks[k].enabled
  {
    [k, k, 1 - k] + (Times(k, |Plan(c, asks[k], on)| - 1) +
                     Times(1 - k, |Plan(c, asks[1 - k], on + {asks[k].d.id})|))
  }

  /** Request k has read and switched its plugin on; the other has read. */
  lemma {:induction false} OneWriteBetween(c: Catalog, asks: Asks, on: set<string>, k: nat)
    requires k < 2 && asks[k].enabled
    ensures var on1, pk := on + {asks[k].d.id}, Plan(c, asks[k], on);
      var s := Run(c, asks, Start(on), [k, k, 1 - k]);
      s.Some? && s.value.on == on1 && |s.value.pcs| == 2 &&
      s.value.pcs[k] == Writing(pk[1..]) && s.value.pcs[1 - k] == Writing(Plan(c, asks[1 - k], on1))
  {
    ThreeSteps(c, asks, Start(on), k, k, 1 - k);
  }

  lemma {:induction false} UndoneRun(c: Catalog, asks: Asks, on: set<string>, k: nat)
    requires k < 2 && asks[k].enabled
    ensures var d, pk := asks[k].d, Plan(c, asks[k], on);
      var pj := Plan(c, asks[1 - k], on + {d.id});
      Run(c, asks, Start(on), Undone(c, asks, on, k)) ==
      Some(State(PutAll(PutAll(on + {d.id}, pk[1..]), pj), [Writing([]), Writing([])]))
  {
    var pk, pj := Plan(c, asks[k], on), Plan(c, asks[1 - k], on + {asks[k].d.id});
    OneWriteBetween(c, asks, on, k);
    RunJoins(c, asks, Start(on), [k, k, 1 - k], Times(k, |pk| - 1) + Times(1 - k, |pj|));
    FinishBoth(c, asks, Run(c, asks, Start(on), [k, k, 1 - k]).value, k, pk[1..], pj);
  }

  /** What is left of the slot after the undoing. */
  lemma {:induction false} NothingLeft(c: Catalog, r: Ask, on: set<string>, e: Descriptor)
    requires c.Ok() && r.enabled && r.d in c.registry && e in c.registry && e.slot == r.d.slot != ""
    requires c.Rule(r.d.slot).SingleClaim()
    ensures e.id !in PutAll(on + {r.d.id}, Plan(c, r, on)[1..]) - {r.d.id}
  {
    if e != r.d {
      var ws := Plan(c, r, on)[1..];
      forall w | w in ws
        ensures w.d in c.registry && (w.d == e ==> !w.on)
      {
        PlanBelongs(c, r, on, w);
      }
      PeerWrites(c, r, on, e);
      PutAllMember(c, on + {r.d.id}, ws, e, false);
      PutMember(c, on, Write(r.d, true), e);
    }
  }

  lemma {:induction false} UndoneInvalid(c: Catalog, asks: Asks, on: set<string>, k: nat)
    requires k < 2 && asks[k].enabled
    requires var on1 := on + {asks[k].d.id};
      !Valid(c, PutAll(PutAll(on1, Plan(c, asks[k], on)[1..]), Plan(c, asks[1 - k], on1)))
    ensures EndsInvalid(c, asks, on, Undone(c, asks, on, k))
  {
    UndoneRun(c, asks, on, k);
  }

  /** The other request finds a second claimant on, and is not refused. */
  lemma {:induction false} NotRefused(c: Catalog, d: Descriptor, on: set<string>)
    requires c.Ok() && d in c.registry && Valid(c, on) && d.slot != "" && c.Rule(d.slot).ExactlyOne? && d.id !in on
    ensures Plan(c, Ask(d, false), on + {d.id}) == [Write(d, false)]
  {
    assert InSlot(c, d.slot, d);
    ValidSlot(c, d.slot, on);
    var p :| p in c.registry && InSlot(c, d.slot, p) && p.id in on;
    assert p in c.Wanted(d.slot, on + {d.id}) && p != d;
  }

  lemma {:induction false} SwitchUndone(c: Catalog, asks: Asks, on: set<string>, k: nat)
    requires AsksOk(c, asks) && Valid(c, on) && k < 2 && asks[k].enabled && asks[1 - k] == Ask(asks[k].d, false)
    requires asks[k].d.slot != "" && c.Rule(asks[k].d.slot).ExactlyOne? && asks[k].d.id !in on
    ensures EndsInvalid(c, asks, on, Undone(c, asks, on, k))
  {
    var d := asks[k].d;
    var before := PutAll(on + {d.id}, Plan(c, asks[k], on)[1..]);
    NotRefused(c, d, on);
    assert PutAll(before, [Write(d, false)]) == PutAll(before - {d.id}, []);
    forall e | e in c.registry && InSlot(c, d.slot, e)
      ensures e.id !in before - {d.id}
    {
      NothingLeft(c, asks[k], on, e);
    }
    NoneOnIsInvalid(c, d, before - {d.id});
    UndoneInvalid(c, asks, on, k);
  }

  lemma {:induction false} ClashEndsBadly(c: Catalog, asks: Asks, on: set<string>) returns (order: seq<nat>)
    requires AsksOk(c, asks) && Valid(c, on) && Clash(c, on, asks)
    ensures EndsInvalid(c, asks, on, order)
  {
    var a, b := asks[0], asks[1];
    assert InSlot(c, a.d.slot, a.d) && InSlot(c, a.d.slot, b.d);
    ValidSlot(c, a.d.slot, on);
    if a.enabled && b.enabled {
      var i := if a.d.id in on then 1 else 0;
      order := BothRead(c, asks, on, i);
      TwoClaimants(c, asks, on, i);
    } else if a.enabled || b.enabled {
      var k := if a.enabled then 0 else 1;
      order := Undone(c, asks, on, k);
      SwitchUndone(c, asks, on, k);
    } else {
      order := BothRead(c, asks, on, 0);
      BothOffInvalid(c, a, b, on);
      BothReadInvalid(c, asks, on, 0);
    }
  }

  /** Two toggles served at one time leave every valid configuration valid, in every
      order of their accesses, if and only if they do not clash. */
  lemma {:induction false} TwoAtOnceAreSafeUnlessTheyClash(c: Catalog, asks: Asks, on: set<string>)
    requires AsksOk(c, asks) && Valid(c, on)
    ensures (forall order: seq<nat> :: !EndsInvalid(c, asks, on, order)) <==> !Clash(c, on, asks)
  {
    if Clash(c, on, asks) {
      var order := ClashEndsBadly(c, asks, on);
    } else {
      forall order: seq<nat>
        ensures !EndsInvalid(c, asks, on, order)
      {
        var end := Run(c, asks, Start(on), order);
        if end.Some? && Finished(end.value) {
          NoClashEndsValid(c, asks, on, order);
        }
      }
    }
  }

  // ── A required slot that switching on empties ─────────────────────────────

  /** Request 0 switches on a plugin of a one-place slot, request 1 the one that is on
      there already: 0 reads and writes its own flag; 1 reads, and does all it has to;
      then 0 switches off what it has seen on. */
  function EachOffsTheOther(c: Catalog, asks: Asks, on: set<string>): seq<nat>
    requires asks[0].enabled
  {
    [0, 0, 1] + (Times(1, |Plan(c, asks[1], on + {asks[0].d.id})|) + Times(0, |Plan(c, asks[0], on)| - 1))
  }

  lemma {:induction false} EachOffsRun(c: Catalog, asks: Asks, on: set<string>)
    requires asks[0].enabled
    ensures var on1 := on + {asks[0].d.id};
      Run(c, asks, Start(on), EachOffsTheOther(c, asks, on)) ==
      Some(State(PutAll(PutAll(on1, Plan(c, asks[1], on1)), Plan(c, asks[0], on)[1..]), [Writing([]), Writing([])]))
  {
    var p0, p1 := Plan(c, asks[0], on), Plan(c, asks[1], on + {asks[0].d.id});
    OneWriteBetween(c, asks, on, 0);
    RunJoins(c, asks, Start(on), [0, 0, 1], Times(1, |p1|) + Times(0, |p0| - 1));
    FinishBoth(c, asks, Run(c, asks, Start(on), [0, 0, 1]).value, 1, p1, p0[1..]);
  }

  lemma {:induction false} EachIsOff(c: Catalog, a: Ask, b: Ask, on: set<string>, e: Descriptor)
    requires c.Ok() && a.d in c.registry && b.d in c.registry && a.d.slot == b.d.slot != ""
    requires c.Rule(a.d.slot).SingleClaim() && a.enabled && b.enabled && a.d != b.d
    requires b.d.id in on && e in c.registry && e.slot == a.d.slot
    ensures var on1 := on + {a.d.id}; e.id !in PutAll(PutAll(on1, Plan(c, b, on1)), Plan(c, a, on)[1..])
  {
    var on1 := on + {a.d.id};
    var pa, pb := Plan(c, a, on)[1..], Plan(c, b, on1);
    forall w | w in pa
      ensures w.d in c.registry && !w.on
    {
      PlanBelongs(c, a, on, w);
      assert pa == Map(Filter(Peers(c, a.d), OnTest(on)), OffWrite());
    }
    forall w | w in pb
      ensures w.d in c.registry && (w.d == e ==> w.on == (e == b.d))
    {
      PlanBelongs(c, b, on1, w);
    }
    PutAllMember(c, on1, pb, e, e == b.d);
    PutAllMember(c, PutAll(on1, pb), pa, e, false);
    if e != a.d {
      PeerWrites(c, a, on, e);
      PutMember(c, on, Write(a.d, true), e);
    }
    if e != b.d {
      PeerWrites(c, b, on1, e);
    }
  }

  /** Two switches at one time can leave a required slot with nothing on. */
  lemma {:induction false} TwoSwitchesEmptyTheSlot(c: Catalog, asks: Asks, on: set<string>)
    requires AsksOk(c, asks) && asks[0].enabled && asks[1].enabled && asks[0].d != asks[1].d
    requires asks[0].d.slot == asks[1].d.slot != "" && c.Rule(asks[0].d.slot).ExactlyOne? && asks[1].d.id in on
    ensures var end := Run(c, asks, Start(on), EachOffsTheOther(c, asks, on));
      end.Some? && Finished(end.value) && c.Wanted(asks[0].d.slot, end.value.on) == []
  {
    EachOffsRun(c, asks, on);
    var on1 := on + {asks[0].d.id};
    EachLeavesNone(c, asks[0], asks[1], on);
  }

  lemma {:induction false} EachLeavesNone(c: Catalog, a: Ask, b: Ask, on: set<string>)
    requires c.Ok() && a.d in c.registry && b.d in c.registry && a.d.slot == b.d.slot != ""
    requires c.Rule(a.d.slot).SingleClaim() && a.enabled && b.enabled && a.d != b.d && b.d.id in on
    ensures var on1 := on + {a.d.id};
      c.Wanted(a.d.slot, PutAll(PutAll(on1, Plan(c, b, on1)), Plan(c, a, on)[1..])) == []
  {
    var on1 := on + {a.d.id};
    var end := PutAll(PutAll(on1, Plan(c, b, on1)), Plan(c, a, on)[1..]);
    forall e | e in c.registry && InSlot(c, a.d.slot, e)
      ensures e.id !in end
    {
      EachIsOff(c, a, b, on, e);
    }
    SlotByMembers(c, a.d.slot, end);
  }
}
