/** The plugin handlers over the settings table, write by write
    (api/internal/api/plugins.go, plugin_presets.go).

    The table maps keys to strings; the JSON row of the presets is held decoded.
    Any write may fail: `faults` says which of the coming ones do. */
module PluginHandlers {
  import opened Prelude
  import opened Plugins

  const ACTIVE_PRESET := "plugins.active_preset"
  const CUSTOM := "custom"

  type Table = map<string, string>

  function EnabledKey(id: string): string {
    "plugin." + id + ".enabled"
  }

  lemma KeysAreApart(a: string, b: string)
    ensures EnabledKey(a) == EnabledKey(b) ==> a == b
    ensures EnabledKey(a) != ACTIVE_PRESET
  {
    var k := EnabledKey(a);
    assert k[6] == '.' && ACTIVE_PRESET[6] == 's';
    if k == EnabledKey(b) {
      assert a == k[7..|k| - 8] && b == k[7..|k| - 8];
    }
  }

  function FormatBool(b: bool): string {
    if b then "true" else "false"
  }

  /** IsEnabled, for a plugin of the registry. */
  predicate IsOn(d: Descriptor, t: Table) {
    if EnabledKey(d.id) in t then t[EnabledKey(d.id)] == "true" else d.defaultEnabled
  }

  function OnSet(c: Catalog, t: Table): set<string> {
    set d | d in c.registry && IsOn(d, t) :: d.id
  }

  lemma OnSetMember(c: Catalog, t: Table, d: Descriptor)
    requires c.Ok() && d in c.registry
    ensures d.id in OnSet(c, t) <==> IsOn(d, t)
  {
    if d.id in OnSet(c, t) {
      var e :| e in c.registry && IsOn(e, t) && e.id == d.id;
      SameIdSameDescriptor(c, d, e);
    }
  }

  /** A plugin with a row is on exactly if the row says "true"; one without a row is on
      exactly if it is enabled by default. */
  lemma OnByRowOrDefault(c: Catalog, t: Table, d: Descriptor)
    requires c.Ok() && d in c.registry
    ensures "plugin." + d.id + ".enabled" in t ==>
              (d.id in OnSet(c, t) <==> t["plugin." + d.id + ".enabled"] == "true")
    ensures "plugin." + d.id + ".enabled" !in t ==> (d.id in OnSet(c, t) <==> d.defaultEnabled)
  {
    OnSetMember(c, t, d);
  }

  /** With nothing stored yet the plugins that are on are the default-enabled ones. */
  lemma FreshInstall(c: Catalog)
    ensures OnSet(c, map[]) == set d | d in c.registry && d.defaultEnabled :: d.id
  {
    assert forall d :: d in c.registry ==> (IsOn(d, map[]) <==> d.defaultEnabled);
  }

  /** No claimant but `d` is enabled by default, and the slot needs one. */
  predicate SoleDefault(c: Catalog, d: Descriptor) {
    d in c.registry && d.defaultEnabled && d.slot in c.rules &&
    (c.rules[d.slot] == ExactlyOne || c.rules[d.slot] == AtLeastOne) &&
    forall e :: e in c.registry && e.slot == d.slot && e.defaultEnabled ==> e == d
  }

  lemma {:induction false} SoleDefaultIsLocked(c: Catalog, d: Descriptor)
    requires c.Ok() && d in c.registry
    ensures SoleDefault(c, d) <==> LockedOff(c, d, OnSet(c, map[]))
  {
    LockedOffMeans(c, d, OnSet(c, map[]));
    forall e | e in c.registry
      ensures e.id in OnSet(c, map[]) <==> e.defaultEnabled
    {
      OnByRowOrDefault(c, map[], e);
    }
  }

  lemma WritingAFlag(c: Catalog, t: Table, d: Descriptor, b: bool)
    requires c.Ok() && d in c.registry
    ensures OnSet(c, t[EnabledKey(d.id) := FormatBool(b)])
         == if b then OnSet(c, t) + {d.id} else OnSet(c, t) - {d.id}
  {
    var t' := t[EnabledKey(d.id) := FormatBool(b)];
    forall e | e in c.registry
      ensures IsOn(e, t') <==> if e.id == d.id then b else IsOn(e, t)
    {
      KeysAreApart(e.id, d.id);
    }
    forall x
      ensures x in OnSet(c, t') <==> x in (if b then OnSet(c, t) + {d.id} else OnSet(c, t) - {d.id})
    {
      if x in c.Ids() {
        var e :| e in c.registry && e.id == x;
        OnSetMember(c, t, e);
        OnSetMember(c, t', e);
      }
    }
  }

  lemma WritingThePreset(c: Catalog, t: Table, v: string)
    ensures OnSet(c, t[ACTIVE_PRESET := v]) == OnSet(c, t)
  {
    forall d | d in c.registry
      ensures IsOn(d, t[ACTIVE_PRESET := v]) <==> IsOn(d, t)
    {
      KeysAreApart(d.id, d.id);
    }
  }

  // ── A toggle, as a change of the selection ────────────────────────────────

  /** SlotPeers: the claimants that enabling `d` switches off. */
  function Peers(c: Catalog, d: Descriptor): seq<Descriptor> {
    if c.Rule(d.slot).SingleClaim() then Filter(c.Claimants(d.slot), (m: Descriptor) => m.id != d.id) else []
  }

  function Toggled(c: Catalog, d: Descriptor, on: set<string>, b: bool): set<string> {
    if b then on + {d.id} - IdsOf(Peers(c, d)) else on - {d.id}
  }

  lemma ToggledMember(c: Catalog, d: Descriptor, on: set<string>, b: bool, e: Descriptor)
    requires c.Ok() && d in c.registry && e in c.registry
    ensures e.id in Toggled(c, d, on, b) <==>
            if e == d then b
            else e.id in on && !(b && c.Rule(d.slot).SingleClaim() && e in c.Claimants(d.slot))
  {
    if e.id == d.id {
      SameIdSameDescriptor(c, e, d);
    }
    if e.id in IdsOf(Peers(c, d)) {
      var m :| m in Peers(c, d) && m.id == e.id;
      SameIdSameDescriptor(c, e, m);
    }
    if e in c.Claimants(d.slot) && c.Rule(d.slot).SingleClaim() && e != d {
      assert e in Peers(c, d);
    }
  }

  /** A toggle, plugin by plugin: the plugin itself is set; switching it on takes every
      other claimant off a slot that admits one; nothing else changes. */
  lemma ToggledMeans(c: Catalog, d: Descriptor, on: set<string>, b: bool, e: Descriptor)
    requires c.Ok() && d in c.registry && e in c.registry
    ensures e.id in Toggled(c, d, on, b) <==>
            if e.id == d.id then b
            else e.id in on &&
                 !(b && e.slot == d.slot && d.slot in c.rules &&
                   (c.rules[d.slot] == ExactlyOne || c.rules[d.slot] == AtMostOne))
  {
    ToggledMember(c, d, on, b, e);
    if e.id == d.id {
      SameIdSameDescriptor(c, e, d);
    }
  }

  lemma OtherSlotsStay(c: Catalog, d: Descriptor, on: set<string>, b: bool, slot: string)
    requires c.Ok() && d in c.registry && slot != d.slot
    ensures c.Wanted(slot, Toggled(c, d, on, b)) == c.Wanted(slot, on)
  {
    forall e | e in c.Claimants(slot)
      ensures e.id in Toggled(c, d, on, b) <==> e.id in on
    {
      ToggledMember(c, d, on, b, e);
    }
    FilterSame(c.Claimants(slot), (e: Descriptor) => e.id in Toggled(c, d, on, b), (e: Descriptor) => e.id in on);
  }

  /** Enabling a claimant of a single-claim slot leaves it alone there. */
  lemma TakesTheSlot(c: Catalog, d: Descriptor, on: set<string>)
    requires c.Ok() && d in c.registry && d.slot != "" && c.Rule(d.slot).SingleClaim()
    ensures c.Wanted(d.slot, Toggled(c, d, on, true)) == [d]
  {
    var after := Toggled(c, d, on, true);
    ClaimantsAreDistinct(c, d.slot, after);
    ToggledMember(c, d, on, true, d);
    assert d in c.Wanted(d.slot, after);
    forall e | e in c.Wanted(d.slot, after)
      ensures e == d
    {
      ToggledMember(c, d, on, true, e);
    }
    OnlyOne(c.Wanted(d.slot, after), d);
  }

  /** Switching `d` off empties its slot only if it was alone there. */
  lemma OnlyTheLastEmpties(c: Catalog, d: Descriptor, on: set<string>)
    requires c.Ok() && d in c.registry
    requires c.Wanted(d.slot, on) != [] && c.Wanted(d.slot, on - {d.id}) == []
    ensures c.Wanted(d.slot, on) == [d]
  {
    var wanted := c.Wanted(d.slot, on);
    ClaimantsAreDistinct(c, d.slot, on);
    forall e | e in wanted
      ensures e == d
    {
      assert e.id != d.id ==> e in c.Wanted(d.slot, on - {d.id});
      SameIdSameDescriptor(c, e, d);
    }
    assert wanted[0] in wanted;
    OnlyOne(wanted, d);
  }

  /** Switching off never adds a claimant. */
  lemma SwitchOffShrinks(c: Catalog, d: Descriptor, on: set<string>)
    requires c.Ok() && |c.Wanted(d.slot, on)| <= 1
    ensures |c.Wanted(d.slot, on - {d.id})| <= 1
  {
    var after := c.Wanted(d.slot, on - {d.id});
    ClaimantsAreDistinct(c, d.slot, on - {d.id});
    if after != [] {
      forall e | e in after
        ensures e == after[0]
      {
        assert after[0] in after;
        assert e in c.Wanted(d.slot, on) && after[0] in c.Wanted(d.slot, on);
      }
      OnlyOne(after, after[0]);
    }
  }

  lemma OwnSlotStaysOk(c: Catalog, d: Descriptor, on: set<string>, b: bool)
    requires c.Ok() && d in c.registry && SlotOk(c, d.slot, on) && (b || !LockedOff(c, d, on))
    ensures SlotOk(c, d.slot, Toggled(c, d, on, b))
  {
    var after := Toggled(c, d, on, b);
    if d.slot == "" {
    } else if b {
      if c.Rule(d.slot).SingleClaim() {
        TakesTheSlot(c, d, on);
      } else {
        assert d in c.Wanted(d.slot, after);
      }
    } else {
      if c.Wanted(d.slot, on) != [] && c.Wanted(d.slot, after) == [] {
        OnlyTheLastEmpties(c, d, on);
        assert d in c.Wanted(d.slot, on);
      }
      if c.Rule(d.slot).SingleClaim() {
        SwitchOffShrinks(c, d, on);
      }
    }
  }

  lemma ToggleKeepsValid(c: Catalog, d: Descriptor, on: set<string>, b: bool)
    requires c.Ok() && d in c.registry && Valid(c, on) && (b || !LockedOff(c, d, on))
    ensures Valid(c, Toggled(c, d, on, b))
  {
    forall e | e in c.registry
      ensures SlotOk(c, e.slot, Toggled(c, d, on, b))
    {
      if e.slot == d.slot {
        OwnSlotStaysOk(c, d, on, b);
      } else {
        OtherSlotsStay(c, d, on, b, e.slot);
      }
    }
  }

  // ── Runs of requests ──────────────────────────────────────────────────────

  datatype Request = Toggle(id: string, enabled: bool) | Apply(list: seq<string>)

  /** The selection after one request; a refused one leaves it alone. */
  function Served(c: Catalog, on: set<string>, r: Request): set<string> {
    match r
    case Toggle(id, enabled) =>
      var ds := Filter(c.registry, (d: Descriptor) => d.id == id);
      if ds == [] || (!enabled && LockedOff(c, ds[0], on)) then on else Toggled(c, ds[0], on, enabled)
    case Apply(list) => Normal(c, set x | x in list) * c.Ids()
  }

  /** What a request that found its plugin does. */
  lemma {:induction false} ServedToggle(c: Catalog, on: set<string>, d: Descriptor, b: bool)
    requires c.Ok() && d in c.registry
    ensures Served(c, on, Toggle(d.id, b)) == if !b && LockedOff(c, d, on) then on else Toggled(c, d, on, b)
  {
    var ds := Filter(c.registry, (e: Descriptor) => e.id == d.id);
    assert d in ds && ds[0] in ds;
    SameIdSameDescriptor(c, ds[0], d);
  }

  function AllServed(c: Catalog, on: set<string>, rs: seq<Request>): set<string>
    decreases |rs|
  {
    if rs == [] then on else AllServed(c, Served(c, on, rs[0]), rs[1..])
  }

  lemma UnknownIdsDoNotMatter(c: Catalog, on: set<string>)
    requires Valid(c, on)
    ensures Valid(c, on * c.Ids())
  {
    forall d | d in c.registry
      ensures SlotOk(c, d.slot, on * c.Ids())
    {
      FilterSame(c.Claimants(d.slot), (e: Descriptor) => e.id in on * c.Ids(), (e: Descriptor) => e.id in on);
    }
  }

  /** From a valid configuration no run of toggles and presets, refused ones
      included, breaks a slot rule. */
  lemma {:induction false} EveryRunStaysValid(c: Catalog, on: set<string>, rs: seq<Request>)
    requires c.Ok() && Valid(c, on)
    ensures Valid(c, AllServed(c, on, rs))
    decreases |rs|
  {
    if rs != [] {
      match rs[0] {
        case Toggle(id, enabled) =>
          var ds := Filter(c.registry, (d: Descriptor) => d.id == id);
          if ds != [] && (enabled || !LockedOff(c, ds[0], on)) {
            assert ds[0] in ds;
            ToggleKeepsValid(c, ds[0], on, enabled);
          }
        case Apply(list) =>
          NormalIsValid(c, set x | x in list);
          UnknownIdsDoNotMatter(c, Normal(c, set x | x in list));
      }
      EveryRunStaysValid(c, Served(c, on, rs[0]), rs[1..]);
    }
  }

  // ── Between two writes of a toggle ────────────────────────────────────────

  /** The selection after `d` is switched on and `i` of its peers off. */
  function Stage(d: Descriptor, peers: seq<Descriptor>, on: set<string>, i: nat): set<string>
    requires i <= |peers|
  {
    on + {d.id} - IdsOf(peers[..i])
  }

  /** With some of the peers off already, every required slot is still filled. */
  lemma FilledWhileSwitching(c: Catalog, d: Descriptor, on: set<string>, i: nat)
    requires c.Ok() && d in c.registry && RequiredFilled(c, on) && i <= |Peers(c, d)|
    ensures RequiredFilled(c, Stage(d, Peers(c, d), on, i))
  {
    var now := Stage(d, Peers(c, d), on, i);
    assert forall m :: m in Peers(c, d)[..i] ==> m in Peers(c, d);
    forall e | e in c.registry && e.slot != "" && c.Rule(e.slot).RequiresOne()
      ensures c.Wanted(e.slot, now) != []
    {
      var x := if e.slot == d.slot then d else c.Wanted(e.slot, on)[0];
      assert e.slot != d.slot ==> x in c.Wanted(e.slot, on);
      forall m | m in Peers(c, d)[..i] && m.id == x.id
        ensures false
      {
        SameIdSameDescriptor(c, m, x);
      }
      assert x in c.Wanted(e.slot, now);
    }
  }

  lemma NextPeer(d: Descriptor, peers: seq<Descriptor>, on: set<string>, i: nat)
    requires i < |peers|
    ensures Stage(d, peers, on, i + 1) == Stage(d, peers, on, i) - {peers[i].id}
  {
    assert peers[..i + 1] == peers[..i] + [peers[i]];
  }

  lemma FilledAfterSwitchOff(c: Catalog, d: Descriptor, on: set<string>)
    requires c.Ok() && d in c.registry && RequiredFilled(c, on) && !LockedOff(c, d, on)
    ensures RequiredFilled(c, on - {d.id})
  {
    forall e | e in c.registry && e.slot != "" && c.Rule(e.slot).RequiresOne()
      ensures c.Wanted(e.slot, on - {d.id}) != []
    {
      if e.slot == d.slot {
        assert d.id in on ==> d in c.Wanted(d.slot, on);
        assert d.id !in on ==> on - {d.id} == on;
        if c.Wanted(d.slot, on - {d.id}) == [] {
          OnlyTheLastEmpties(c, d, on);
        }
      } else {
        OtherSlotsStay(c, d, on, false, e.slot);
      }
    }
  }

  // ── The handlers ──────────────────────────────────────────────────────────

  datatype Status = Ok | NotFound | BadRequest | Conflict | StoreError

  function Keys(c: Catalog): set<string> {
    set d | d in c.registry :: EnabledKey(d.id)
  }

  /** The first occurrence of each id, in order. */
  function Deduped(ids: seq<string>): (r: seq<string>)
    ensures NoDup(r) && forall x :: x in r <==> x in ids
  {
    if ids == [] then []
    else
      var n := |ids| - 1;
      assert ids == ids[..n] + [ids[n]];
      Deduped(ids[..n]) + if ids[n] in ids[..n] then [] else [ids[n]]
  }

  /** What is listed keeps its place when more is listed after it, and a list without
      repeats is left as it is. */
  lemma {:induction false} DedupedKeepsOrder(a: seq<string>, x: string)
    ensures Deduped(a + [x]) == Deduped(a) + if x in a then [] else [x]
    ensures NoDup(a) ==> Deduped(a) == a
  {
    assert (a + [x])[..|a|] == a;
    if a != [] {
      var n := |a| - 1;
      assert a == a[..n] + [a[n]];
      DedupedKeepsOrder(a[..n], a[n]);
    }
  }

  /** The first n plugins are as wanted. */
  predicate WrittenUpTo(c: Catalog, t: Table, want: set<string>, n: nat)
    requires n <= |c.registry|
  {
    forall i :: 0 <= i < n ==> (c.registry[i].id in OnSet(c, t) <==> c.registry[i].id in want)
  }

  lemma NextWritten(c: Catalog, t: Table, want: set<string>, n: nat)
    requires c.Ok() && n < |c.registry| && WrittenUpTo(c, t, want, n)
    ensures var id := c.registry[n].id;
            WrittenUpTo(c, t[EnabledKey(id) := FormatBool(id in want)], want, n + 1)
  {
    WritingAFlag(c, t, c.registry[n], c.registry[n].id in want);
  }

  lemma AllWritten(c: Catalog, t: Table, want: set<string>)
    requires WrittenUpTo(c, t, want, |c.registry|)
    ensures OnSet(c, t) == want * c.Ids()
  {
  }

  class PluginsHandler {
    const catalog: Catalog
    const defaults: map<string, seq<string>>
    var table: Table
    var presets: map<string, seq<string>>
    var faults: seq<bool>
    /** The table after each successful write. */
    ghost var history: seq<Table>

    constructor (catalog: Catalog, defaults: map<string, seq<string>>, table: Table)
      ensures this.catalog == catalog && this.defaults == defaults && this.table == table
      ensures presets == map[] && faults == [] && history == []
    {
      this.catalog, this.defaults, this.table := catalog, defaults, table;
      presets, faults, history := map[], [], [];
    }

    method SetSetting(key: string, value: string) returns (ok: bool)
      modifies this`table, this`faults, this`history
      ensures table == if ok then old(table)[key := value] else old(table)
      ensures history == if ok then old(history) + [table] else old(history)
      ensures ok <==> old(faults) == [] || !old(faults)[0]
      ensures faults == if old(faults) == [] then [] else old(faults)[1..]
      ensures old(NoFaults()) ==> ok && NoFaults()
    {
      ok := faults == [] || !faults[0];
      if faults != [] {
        faults := faults[1..];
      }
      if ok {
        table := table[key := value];
        history := history + [table];
      }
    }

    /** No write still to come fails. */
    ghost predicate NoFaults()
      reads this
    {
      true !in faults
    }

    /** Every write made since `from` left every required slot with a claimant. */
    ghost predicate FilledSince(from: nat)
      reads this
    {
      forall k :: from <= k < |history| ==> RequiredFilled(catalog, OnSet(catalog, history[k]))
    }

    /** PATCH /api/plugins/:id. `body` is None when it does not parse. */
    method TogglePlugin(id: string, body: Option<bool>) returns (r: Status, ghost d: Option<Descriptor>)
      requires catalog.Ok()
      modifies this`table, this`faults, this`history
      ensures d.Some? ==> d.value in catalog.registry && d.value.id == id
      ensures r == NotFound <==> id !in catalog.Ids()
      ensures r == BadRequest <==> id in catalog.Ids() && body == None
      ensures r == Conflict <==>
                d.Some? && body == Some(false) && LockedOff(catalog, d.value, OnSet(catalog, old(table)))
      ensures r != Ok && r != StoreError ==> table == old(table) && history == old(history)
      ensures r == Ok ==>
                d.Some? && body.Some? &&
                OnSet(catalog, table) == Toggled(catalog, d.value, OnSet(catalog, old(table)), body.value) &&
                ACTIVE_PRESET in table && table[ACTIVE_PRESET] == CUSTOM
      ensures r == Ok || r == Conflict ==>
                body.Some? && OnSet(catalog, table) == Served(catalog, OnSet(catalog, old(table)), Toggle(id, body.value))
      ensures r == Ok ==> "plugins.active_preset" in table && table["plugins.active_preset"] == "custom"
      ensures old(table) == map[] && body == Some(false) ==>
                (r == Conflict <==> exists e :: SoleDefault(catalog, e) && e.id == id)
      ensures OthersKept(old(table)) && |old(history)| <= |history|
      ensures RequiredFilled(catalog, OnSet(catalog, old(table))) ==> FilledSince(|old(history)|)
      ensures old(NoFaults()) ==> r != StoreError
    {
      d := None;
      if id !in catalog.Ids() {
        return NotFound, d;
      }
      var plugin :| plugin in catalog.registry && plugin.id == id;
      if body == None {
        return BadRequest, None;
      }
      d := Some(plugin);
      var enabled := body.value;
      ServedToggle(catalog, OnSet(catalog, table), plugin, enabled);
      SoleDefaultIsLocked(catalog, plugin);
      if !enabled && LockedOff(catalog, plugin, OnSet(catalog, table)) {
        return Conflict, d;
      }
      r := WriteToggle(plugin, enabled);
    }

    /** Only plugin flags and the active preset have been written since `was`. */
    ghost predicate OthersKept(was: Table)
      reads this
    {
      forall k :: k !in Keys(catalog) && k != ACTIVE_PRESET ==>
        (k in table <==> k in was) && (k in was && k in table ==> table[k] == was[k])
    }

    method WriteToggle(plugin: Descriptor, enabled: bool) returns (r: Status)
      requires catalog.Ok() && plugin in catalog.registry
      requires enabled || !LockedOff(catalog, plugin, OnSet(catalog, table))
      modifies this`table, this`faults, this`history
      ensures r == Ok || r == StoreError
      ensures r == Ok ==>
                OnSet(catalog, table) == Toggled(catalog, plugin, OnSet(catalog, old(table)), enabled) &&
                ACTIVE_PRESET in table && table[ACTIVE_PRESET] == CUSTOM
      ensures OthersKept(old(table)) && |old(history)| <= |history|
      ensures RequiredFilled(catalog, OnSet(catalog, old(table))) ==> FilledSince(|old(history)|)
      ensures old(NoFaults()) ==> r == Ok
    {
      var ok;
      if enabled {
        ok := SwitchTo(plugin);
      } else {
        ok := SwitchOwnOff(plugin);
      }
      if !ok {
        return StoreError;
      }
      // An individual toggle diverges from any preset.
      WritingThePreset(catalog, table, CUSTOM);
      ok := SetSetting(ACTIVE_PRESET, CUSTOM);
      r := if ok then Ok else StoreError;
    }

    /** Switch `plugin` off, where that is allowed. */
    method SwitchOwnOff(plugin: Descriptor) returns (ok: bool)
      requires catalog.Ok() && plugin in catalog.registry
      requires !LockedOff(catalog, plugin, OnSet(catalog, table))
      modifies this`table, this`faults, this`history
      ensures ok ==> OnSet(catalog, table) == Toggled(catalog, plugin, OnSet(catalog, old(table)), false)
      ensures OthersKept(old(table)) && |old(history)| <= |history|
      ensures RequiredFilled(catalog, OnSet(catalog, old(table))) ==>
                FilledSince(|old(history)|) && RequiredFilled(catalog, OnSet(catalog, table))
      ensures old(NoFaults()) ==> ok && NoFaults()
    {
      if RequiredFilled(catalog, OnSet(catalog, table)) {
        FilledAfterSwitchOff(catalog, plugin, OnSet(catalog, table));
      }
      WritingAFlag(catalog, table, plugin, false);
      ok := SetSetting(EnabledKey(plugin.id), FormatBool(false));
    }

    /** Switch `plugin` on, then its peers off. */
    method SwitchTo(plugin: Descriptor) returns (ok: bool)
      requires catalog.Ok() && plugin in catalog.registry
      modifies this`table, this`faults, this`history
      ensures ok ==> OnSet(catalog, table) == Toggled(catalog, plugin, OnSet(catalog, old(table)), true)
      ensures OthersKept(old(table)) && |old(history)| <= |history|
      ensures RequiredFilled(catalog, OnSet(catalog, old(table))) ==>
                FilledSince(|old(history)|) && (ok ==> RequiredFilled(catalog, OnSet(catalog, table)))
      ensures old(NoFaults()) ==> ok && NoFaults()
    {
      ghost var on := OnSet(catalog, table);
      WritingAFlag(catalog, table, plugin, true);
      ok := SetSetting(EnabledKey(plugin.id), FormatBool(true));
      if !ok {
        return;
      }
      var peers := Peers(catalog, plugin);
      assert Stage(plugin, peers, on, 0) == on + {plugin.id};
      assert Stage(plugin, peers, on, |peers|) == Toggled(catalog, plugin, on, true) by {
        assert peers[..|peers|] == peers;
      }
      ok := SwitchOffPeers(plugin, peers, on, old(table), |old(history)|);
      if RequiredFilled(catalog, on) {
        StagesAreFilled(plugin, on, |old(history)|);
      }
    }

    lemma StagesAreFilled(plugin: Descriptor, on: set<string>, from: nat)
      requires catalog.Ok() && plugin in catalog.registry && RequiredFilled(catalog, on)
      requires StagedSince(from, plugin, Peers(catalog, plugin), on)
      ensures FilledSince(from)
      ensures RequiredFilled(catalog, Toggled(catalog, plugin, on, true))
    {
      var peers := Peers(catalog, plugin);
      forall k | from <= k < |history|
        ensures RequiredFilled(catalog, OnSet(catalog, history[k]))
      {
        var i :| 0 <= i <= |peers| && OnSet(catalog, history[k]) == Stage(plugin, peers, on, i);
        FilledWhileSwitching(catalog, plugin, on, i);
      }
      FilledWhileSwitching(catalog, plugin, on, |peers|);
      assert peers[..|peers|] == peers;
    }

    /** One turn of the loop: a peer that is on is written off. */
    method SwitchOff(peer: Descriptor, ghost was: Table) returns (ok: bool)
      requires catalog.Ok() && peer in catalog.registry && OthersKept(was)
      modifies this`table, this`faults, this`history
      ensures OthersKept(was)
      ensures ok ==> OnSet(catalog, table) == OnSet(catalog, old(table)) - {peer.id}
      ensures history == old(history) || (ok && history == old(history) + [table])
      ensures old(NoFaults()) ==> ok && NoFaults()
    {
      OnSetMember(catalog, table, peer);
      if !IsOn(peer, table) {
        return true;
      }
      WritingAFlag(catalog, table, peer, false);
      ok := SetSetting(EnabledKey(peer.id), "false");
    }

    /** The writes since `from` went through the stages of switching to `plugin`. */
    ghost predicate StagedSince(from: nat, plugin: Descriptor, peers: seq<Descriptor>, on: set<string>)
      reads this
    {
      forall k :: from <= k < |history| ==>
        exists i :: 0 <= i <= |peers| && OnSet(catalog, history[k]) == Stage(plugin, peers, on, i)
    }

    /** The loop over the peers, after the plugin itself was switched on. */
    method SwitchOffPeers(plugin: Descriptor, peers: seq<Descriptor>,
                          ghost on: set<string>, ghost was: Table, ghost from: nat)
      returns (ok: bool)
      requires catalog.Ok() && forall m :: m in peers ==> m in catalog.registry
      requires OnSet(catalog, table) == Stage(plugin, peers, on, 0) && OthersKept(was)
      requires from <= |history| && StagedSince(from, plugin, peers, on)
      modifies this`table, this`faults, this`history
      ensures ok ==> OnSet(catalog, table) == Stage(plugin, peers, on, |peers|)
      ensures OthersKept(was) && |old(history)| <= |history| && StagedSince(from, plugin, peers, on)
      ensures old(NoFaults()) ==> ok && NoFaults()
    {
      for i := 0 to |peers|
        invariant OnSet(catalog, table) == Stage(plugin, peers, on, i)
        invariant old(NoFaults()) ==> NoFaults()
        invariant OthersKept(was) && |old(history)| <= |history| && StagedSince(from, plugin, peers, on)
      {
        NextPeer(plugin, peers, on, i);
        ok := SwitchOff(peers[i], was);
        if !ok {
          return false;
        }
      }
      ok := true;
    }

    /** Whether the next write of the presets row succeeds. */
    method SavePresets(m: map<string, seq<string>>) returns (ok: bool)
      modifies this`presets, this`faults
      ensures presets == if ok then m else old(presets)
      ensures old(NoFaults()) ==> ok && NoFaults()
    {
      ok := faults == [] || !faults[0];
      if faults != [] {
        faults := faults[1..];
      }
      if ok {
        presets := m;
      }
    }

    /** The presets in force: the defaults until something is stored. */
    ghost function Stored(): map<string, seq<string>>
      reads this
    {
      if presets == map[] then defaults else presets
    }

    method LoadPresets() returns (ok: bool)
      modifies this`presets, this`faults
      ensures ok ==> presets == old(Stored())
      ensures !ok ==> presets == old(presets)
      ensures old(presets) != map[] ==> ok && presets == old(presets)
      ensures old(NoFaults()) ==> ok && NoFaults()
    {
      ok := true;
      if presets == map[] {
        ok := SavePresets(defaults);
      }
    }

    /** PUT /api/plugins/presets/:id. */
    method UpdatePreset(id: string, body: Option<seq<string>>) returns (r: Status)
      modifies this`presets, this`faults
      ensures r != StoreError ==>
                (r == NotFound <==> id !in old(Stored())) &&
                (r == BadRequest <==>
                   (id in old(Stored()) &&
                    (body == None || exists x :: x in body.value && x !in catalog.Ids())))
      ensures r == Ok ==> body.Some? && presets == old(Stored())[id := Deduped(body.value)]
      ensures r != Ok ==> presets == old(presets) || presets == old(Stored())
      ensures old(presets) != map[] && r == Ok ==> presets == old(presets)[id := Deduped(body.value)]
      ensures old(presets) == map[] && r == Ok ==> presets == defaults[id := Deduped(body.value)]
      ensures old(presets) != map[] && r != Ok ==> presets == old(presets)
      ensures old(NoFaults()) ==> r != StoreError
    {
      var ok := LoadPresets();
      if !ok {
        return StoreError;
      }
      if id !in presets {
        return NotFound;
      }
      if body == None {
        return BadRequest;
      }
      var list := body.value;
      var clean: seq<string> := [];
      for i := 0 to |list|
        invariant clean == Deduped(list[..i])
        invariant forall x :: x in list[..i] ==> x in catalog.Ids()
      {
        if list[i] !in catalog.Ids() {
          assert list[i] in list;
          return BadRequest;
        }
        assert list[..i + 1][..i] == list[..i];
        if list[i] !in clean {
          clean := clean + [list[i]];
        }
      }
      assert list[..|list|] == list;
      ok := SavePresets(presets[id := clean]);
      r := if ok then Ok else StoreError;
    }

    /** POST /api/plugins/presets/:id/apply. */
    method ApplyPreset(id: string) returns (r: Status)
      requires catalog.Ok()
      modifies this`table, this`faults, this`history, this`presets
      ensures r != StoreError ==> (r == NotFound <==> id !in old(Stored())) && r != BadRequest && r != Conflict
      ensures r == NotFound ==> table == old(table) && history == old(history)
      ensures old(presets) != map[] ==> presets == old(presets)
      ensures r == Ok && old(presets) == map[] ==> presets == defaults
      ensures r == Ok ==>
                id in old(Stored()) &&
                OnSet(catalog, table) == Normal(catalog, set x | x in old(Stored())[id]) * catalog.Ids() &&
                Valid(catalog, OnSet(catalog, table)) &&
                OnSet(catalog, table) == Served(catalog, OnSet(catalog, old(table)), Apply(old(Stored())[id])) &&
                ACTIVE_PRESET in table && table[ACTIVE_PRESET] == id
      ensures OthersKept(old(table))
      ensures old(NoFaults()) ==> r != StoreError
    {
      var ok := LoadPresets();
      if !ok {
        return StoreError;
      }
      if id !in presets {
        return NotFound;
      }
      var want := NormalizeSlots(catalog, set x | x in presets[id]);
      ok := WriteSelection(want);
      if !ok {
        return StoreError;
      }
      NormalIsValid(catalog, set x | x in presets[id]);
      UnknownIdsDoNotMatter(catalog, want);
      WritingThePreset(catalog, table, id);
      ok := SetSetting(ACTIVE_PRESET, id);
      r := if ok then Ok else StoreError;
    }

    method WriteSelection(want: set<string>) returns (ok: bool)
      requires catalog.Ok()
      modifies this`table, this`faults, this`history
      ensures ok ==> OnSet(catalog, table) == want * catalog.Ids()
      ensures OthersKept(old(table))
      ensures old(NoFaults()) ==> ok && NoFaults()
    {
      for i := 0 to |catalog.registry|
        invariant OthersKept(old(table)) && (old(NoFaults()) ==> NoFaults())
        invariant WrittenUpTo(catalog, table, want, i)
      {
        var d := catalog.registry[i];
        NextWritten(catalog, table, want, i);
        ok := SetSetting(EnabledKey(d.id), FormatBool(d.id in want));
        if !ok {
          return;
        }
      }
      AllWritten(catalog, table, want);
      ok := true;
    }
  }
}
