/** The live reload of the built frontend (api/cmd/api/assets.go): a
    double-checked, mutex-guarded replacement of an immutable snapshot, raced by
    other requests and by the builds that write the watched files.

    A file is its history of versions; version v of file f carries the stamp
    disk[f][v]. The code sees stamps only. `Seen.version` and `Call.began` are
    bookkeeping that no branch looks at. */
module LiveAssets {
  import opened Prelude

  const FILES: nat := 3

  /** `load` reads the CSS manifest, then index.html, then the plugin manifest. */
  const READ_ORDER: seq<nat> := [1, 0, 2]

  type Tid = nat
  type Disk = seq<seq<Stamp>>

  /** One version number per watched file. */
  type Versions = v: seq<nat> | |v| == FILES witness [0, 0, 0]

  datatype Stamp = Stamp(size: int, mtime: int)
  datatype Seen = Seen(stamp: Stamp, version: nat)
  datatype Snapshot = Snapshot(seen: seq<Seen>, read: Versions)

  /** Where one `forShell` call is. */
  datatype Pc =
    | Stating(s: Snapshot, got: seq<Seen>)
    | Waiting
    | LockedStating(got: seq<Seen>)
    | Loading(seen: seq<Seen>, files: seq<nat>)
    | Leaving(s: Snapshot)
    | Returned(s: Snapshot)

  datatype Call = Call(pc: Pc, began: Versions)

  datatype State = State(
    reload: bool,
    disk: Disk,
    published: seq<Snapshot>,
    mu: Option<Tid>,
    calls: map<Tid, Call>)

  datatype Step =
    | Write(f: nat, stamp: Stamp)
    | Begin(t: Tid)
    | Stat(t: Tid)
    | Decide(t: Tid)
    | Lock(t: Tid)
    | LockedStat(t: Tid)
    | LockedDecide(t: Tid)
    | Read(t: Tid)
    | Publish(t: Tid)
    | Unlock(t: Tid)

  predicate DiskOk(d: Disk) {
    |d| == FILES && forall f :: 0 <= f < FILES ==> |d[f]| > 0
  }

  function Now(d: Disk, f: nat): nat
    requires DiskOk(d) && f < FILES
  {
    |d[f]| - 1
  }

  function NowAll(d: Disk): Versions
    requires DiskOk(d)
  {
    [Now(d, 0), Now(d, 1), Now(d, 2)]
  }

  function StatOf(d: Disk, f: nat): Seen
    requires DiskOk(d) && f < FILES
  {
    Seen(d[f][Now(d, f)], Now(d, f))
  }

  /** slices.Equal on the stamps: versions play no part. */
  predicate SameStamps(a: seq<Seen>, b: seq<Seen>) {
    |a| == |b| && forall i :: 0 <= i < |a| ==> a[i].stamp == b[i].stamp
  }

  /** The files as `load` has read them, put back in watch order. */
  function Assemble(got: seq<nat>): Versions
    requires |got| == FILES
  {
    [got[1], got[0], got[2]]
  }

  function Put(s: State, t: Tid, pc: Pc): State
    requires t in s.calls
  {
    s.(calls := s.calls[t := s.calls[t].(pc := pc)])
  }

  predicate Enabled(s: State, e: Step) {
    DiskOk(s.disk) &&
    match e
    case Write(f, _) => f < FILES
    case Begin(t) => s.published != [] && (t in s.calls ==> s.calls[t].pc.Returned?)
    case Stat(t) => t in s.calls && s.calls[t].pc.Stating? && |s.calls[t].pc.got| < FILES
    case Decide(t) => t in s.calls && s.calls[t].pc.Stating? && |s.calls[t].pc.got| == FILES
    case Lock(t) => t in s.calls && s.calls[t].pc.Waiting? && s.mu == None
    case LockedStat(t) => t in s.calls && s.calls[t].pc.LockedStating? && |s.calls[t].pc.got| < FILES
    case LockedDecide(t) => t in s.calls && s.calls[t].pc.LockedStating? && |s.calls[t].pc.got| == FILES
    case Read(t) => t in s.calls && s.calls[t].pc.Loading? && |s.calls[t].pc.files| < FILES
    case Publish(t) => t in s.calls && s.calls[t].pc.Loading? && |s.calls[t].pc.files| == FILES
    case Unlock(t) => t in s.calls && s.calls[t].pc.Leaving?
  }

  function Current(s: State): Snapshot
    requires s.published != []
  {
    s.published[|s.published| - 1]
  }

  function Apply(s: State, e: Step): State
    requires Enabled(s, e)
  {
    match e
    case Write(f, stamp) =>
      s.(disk := s.disk[f := s.disk[f] + [stamp]])
    case Begin(t) =>
      var pc := if s.reload then Stating(Current(s), []) else Returned(Current(s));
      s.(calls := s.calls[t := Call(pc, NowAll(s.disk))])
    case Stat(t) =>
      var pc := s.calls[t].pc;
      Put(s, t, Stating(pc.s, pc.got + [StatOf(s.disk, |pc.got|)]))
    case Decide(t) =>
      var pc := s.calls[t].pc;
      Put(s, t, if SameStamps(pc.got, pc.s.seen) then Returned(pc.s) else Waiting)
    case Lock(t) =>
      Put(s.(mu := Some(t)), t, LockedStating([]))
    case LockedStat(t) =>
      var pc := s.calls[t].pc;
      Put(s, t, LockedStating(pc.got + [StatOf(s.disk, |pc.got|)]))
    case LockedDecide(t) =>
      var pc := s.calls[t].pc;
      Put(s, t, if s.published != [] && SameStamps(pc.got, Current(s).seen)
                then Leaving(Current(s)) else Loading(pc.got, []))
    case Read(t) =>
      var pc := s.calls[t].pc;
      Put(s, t, Loading(pc.seen, pc.files + [Now(s.disk, READ_ORDER[|pc.files|])]))
    case Publish(t) =>
      var pc := s.calls[t].pc;
      var sn := Snapshot(pc.seen, Assemble(pc.files));
      Put(s.(published := s.published + [sn]), t, Leaving(sn))
    case Unlock(t) =>
      Put(s.(mu := None), t, Returned(s.calls[t].pc.s))
  }

  /** newLiveAssets: call `boot` is alone until it stores the first snapshot, so
      it is started past the checks, holding the lock. Writers may race it. */
  function Start(reload: bool, stamps: seq<Stamp>, boot: Tid): State
    requires |stamps| == FILES
  {
    State(reload, [[stamps[0]], [stamps[1]], [stamps[2]]], [], Some(boot),
          map[boot := Call(LockedStating([]), [0, 0, 0])])
  }

  predicate IsRun(s: State, es: seq<Step>)
    decreases |es|
  {
    es == [] || (Enabled(s, es[0]) && IsRun(Apply(s, es[0]), es[1..]))
  }

  function After(s: State, es: seq<Step>): State
    requires IsRun(s, es)
    decreases |es|
  {
    if es == [] then s else After(Apply(s, es[0]), es[1..])
  }

  /** The assumption on the file system: no write repeats a stamp its file had. */
  predicate Distinct(d: Disk) {
    forall f :: 0 <= f < |d| ==> NoDup(d[f])
  }

  // ── The invariant ─────────────────────────────────────────────────────────

  predicate SeenOk(d: Disk, f: nat, x: Seen)
    requires DiskOk(d) && f < FILES
  {
    x.version < |d[f]| && d[f][x.version] == x.stamp
  }

  /** A list of stats of files 0, 1, … each at least as new as `low`. */
  predicate StatsOk(d: Disk, got: seq<Seen>, low: Versions)
    requires DiskOk(d)
  {
    |got| <= FILES &&
    forall f :: 0 <= f < |got| ==> SeenOk(d, f, got[f]) && low[f] <= got[f].version
  }

  predicate SnapOk(d: Disk, s: Snapshot)
    requires DiskOk(d)
  {
    |s.seen| == FILES &&
    forall f :: 0 <= f < FILES ==>
      SeenOk(d, f, s.seen[f]) && s.seen[f].version <= s.read[f] < |d[f]|
  }

  /** The files read so far are no older than the stats taken before them. */
  predicate ReadsOk(d: Disk, seen: seq<Seen>, got: seq<nat>)
    requires DiskOk(d) && |seen| == FILES
  {
    |got| <= FILES &&
    forall k :: 0 <= k < |got| ==>
      seen[READ_ORDER[k]].version <= got[k] < |d[READ_ORDER[k]]|
  }

  predicate AtLeast(a: Versions, b: Versions) {
    forall f :: 0 <= f < FILES ==> a[f] >= b[f]
  }

  /** What the versions in the last published snapshot force on the next stats. */
  function Floor(published: seq<Snapshot>): Versions {
    if published == [] then [0, 0, 0] else published[|published| - 1].read
  }

  predicate CallOk(d: Disk, published: seq<Snapshot>, c: Call)
    requires DiskOk(d)
  {
    (forall f :: 0 <= f < FILES ==> c.began[f] < |d[f]|) &&
    match c.pc
    case Stating(s, got) => SnapOk(d, s) && StatsOk(d, got, c.began)
    case Waiting => true
    case LockedStating(got) => StatsOk(d, got, c.began) && StatsOk(d, got, Floor(published))
    case Loading(seen, files) =>
      |seen| == FILES && StatsOk(d, seen, c.began) && StatsOk(d, seen, Floor(published)) &&
      ReadsOk(d, seen, files) &&
      (published != [] ==> !SameStamps(seen, published[|published| - 1].seen))
    case Leaving(s) => SnapOk(d, s)
    case Returned(s) => SnapOk(d, s)
  }

  predicate Locked(pc: Pc) {
    pc.LockedStating? || pc.Loading? || pc.Leaving?
  }

  /** `b` was published right after `a`. */
  predicate Advances(a: Snapshot, b: Snapshot) {
    |a.seen| == FILES && |b.seen| == FILES &&
    (forall f :: 0 <= f < FILES ==>
       a.read[f] <= b.read[f] && a.seen[f].version <= b.seen[f].version) &&
    !SameStamps(a.seen, b.seen)
  }

  /** What holds whatever stamps the writes leave. */
  ghost predicate Inv(s: State) {
    DiskOk(s.disk) && s.reload &&
    (forall k :: 0 <= k < |s.published| ==> SnapOk(s.disk, s.published[k])) &&
    (forall k :: 0 <= k < |s.published| - 1 ==> Advances(s.published[k], s.published[k + 1])) &&
    (forall t :: t in s.calls ==> CallOk(s.disk, s.published, s.calls[t])) &&
    (forall t :: t in s.calls && Locked(s.calls[t].pc) ==> s.mu == Some(t))
  }

  // ── Every step keeps it ───────────────────────────────────────────────────

  lemma StatIsFresh(d: Disk, got: seq<Seen>, low: Versions)
    requires DiskOk(d) && StatsOk(d, got, low) && |got| < FILES
    requires forall f :: 0 <= f < FILES ==> low[f] < |d[f]|
    ensures StatsOk(d, got + [StatOf(d, |got|)], low)
  {
  }

  lemma GrowthKeepsCall(d: Disk, d': Disk, published: seq<Snapshot>, c: Call)
    requires DiskOk(d) && DiskOk(d') && forall f :: 0 <= f < FILES ==> d[f] <= d'[f]
    requires CallOk(d, published, c)
    ensures CallOk(d', published, c)
  {
  }

  lemma WriteKeeps(s: State, f: nat, stamp: Stamp)
    requires Inv(s) && f < FILES
    ensures Inv(Apply(s, Write(f, stamp)))
  {
    var s' := Apply(s, Write(f, stamp));
    forall t | t in s'.calls
      ensures CallOk(s'.disk, s'.published, s'.calls[t])
    {
      GrowthKeepsCall(s.disk, s'.disk, s.published, s.calls[t]);
    }
  }

  /** Moving one call keeps the invariant when its new point is justified. */
  lemma MoveKeeps(s: State, t: Tid, c: Call, mu: Option<Tid>)
    requires Inv(s) && CallOk(s.disk, s.published, c)
    requires Locked(c.pc) ==> mu == Some(t)
    requires mu == s.mu || s.mu == None || s.mu == Some(t)
    ensures Inv(s.(calls := s.calls[t := c], mu := mu))
  {
  }

  lemma FloorBelowNow(s: State)
    requires Inv(s)
    ensures forall f :: 0 <= f < FILES ==> Floor(s.published)[f] < |s.disk[f]|
  {
    if s.published != [] {
      assert SnapOk(s.disk, Current(s));
    }
  }

  lemma UnlockedStepKeeps(s: State, e: Step)
    requires Inv(s) && Enabled(s, e) && (e.Begin? || e.Stat? || e.Decide?)
    ensures Inv(Apply(s, e))
  {
    var c := Apply(s, e).calls[e.t];
    match e
    case Begin(t) =>
      assert SnapOk(s.disk, Current(s));
      MoveKeeps(s, t, c, s.mu);
    case Stat(t) =>
      StatIsFresh(s.disk, s.calls[t].pc.got, s.calls[t].began);
      MoveKeeps(s, t, c, s.mu);
    case Decide(t) =>
      DecideKeeps(s, t);
  }

  lemma DecideKeeps(s: State, t: Tid)
    requires Inv(s) && Enabled(s, Decide(t))
    ensures Inv(Apply(s, Decide(t)))
  {
    assert CallOk(s.disk, s.published, s.calls[t]);
    MoveKeeps(s, t, Apply(s, Decide(t)).calls[t], s.mu);
  }

  lemma LockedStepKeeps(s: State, e: Step)
    requires Inv(s) && Enabled(s, e)
    requires e.Lock? || e.LockedStat? || e.LockedDecide? || e.Unlock?
    ensures Inv(Apply(s, e))
  {
    var c := Apply(s, e).calls[e.t];
    assert CallOk(s.disk, s.published, s.calls[e.t]);
    match e
    case Lock(t) =>
      MoveKeeps(s, t, c, Some(t));
    case LockedStat(t) =>
      FloorBelowNow(s);
      StatIsFresh(s.disk, s.calls[t].pc.got, s.calls[t].began);
      StatIsFresh(s.disk, s.calls[t].pc.got, Floor(s.published));
      MoveKeeps(s, t, c, s.mu);
    case LockedDecide(t) =>
      DecideIsSound(s, t);
      MoveKeeps(s, t, c, s.mu);
    case Unlock(t) =>
      MoveKeeps(s, t, c, None);
  }

  lemma DecideIsSound(s: State, t: Tid)
    requires Inv(s) && Enabled(s, LockedDecide(t))
    ensures CallOk(s.disk, s.published, Apply(s, LockedDecide(t)).calls[t])
  {
    assert CallOk(s.disk, s.published, s.calls[t]);
    if s.published != [] {
      assert SnapOk(s.disk, Current(s));
    }
  }

  lemma ReadKeeps(s: State, t: Tid)
    requires Inv(s) && Enabled(s, Read(t))
    ensures Inv(Apply(s, Read(t)))
  {
    var c := s.calls[t];
    assert CallOk(s.disk, s.published, c);
    var k := |c.pc.files|;
    assert READ_ORDER[k] < FILES;
    assert ReadsOk(s.disk, c.pc.seen, c.pc.files + [Now(s.disk, READ_ORDER[k])]);
    MoveKeeps(s, t, Apply(s, Read(t)).calls[t], s.mu);
  }

  /** What `load` read for each file, in terms of the order it read them in. */
  lemma AssembledReads(d: Disk, seen: seq<Seen>, files: seq<nat>, f: nat)
    requires DiskOk(d) && |seen| == FILES && |files| == FILES && ReadsOk(d, seen, files) && f < FILES
    ensures seen[f].version <= Assemble(files)[f] < |d[f]|
  {
    assert READ_ORDER[0] == 1 && READ_ORDER[1] == 0 && READ_ORDER[2] == 2;
    var k := if f == 0 then 1 else if f == 1 then 0 else 2;
    assert READ_ORDER[k] == f && Assemble(files)[f] == files[k];
  }

  lemma AssembledFits(d: Disk, seen: seq<Seen>, files: seq<nat>, low: Versions)
    requires DiskOk(d) && |seen| == FILES && |files| == FILES && ReadsOk(d, seen, files)
    requires StatsOk(d, seen, low)
    ensures SnapOk(d, Snapshot(seen, Assemble(files))) && AtLeast(Assemble(files), low)
  {
    forall f: nat | f < FILES
      ensures seen[f].version <= Assemble(files)[f] < |d[f]|
    {
      AssembledReads(d, seen, files, f);
    }
  }

  lemma AssembledGoesOn(d: Disk, before: Snapshot, seen: seq<Seen>, files: seq<nat>)
    requires DiskOk(d) && |seen| == FILES && |files| == FILES && ReadsOk(d, seen, files)
    requires SnapOk(d, before) && StatsOk(d, seen, before.read) && !SameStamps(seen, before.seen)
    ensures Advances(before, Snapshot(seen, Assemble(files)))
  {
    forall f: nat | f < FILES
      ensures before.read[f] <= Assemble(files)[f] && before.seen[f].version <= seen[f].version
    {
      AssembledReads(d, seen, files, f);
    }
  }

  lemma AssembledIsOk(s: State, t: Tid)
    requires Inv(s) && Enabled(s, Publish(t))
    ensures var sn := Snapshot(s.calls[t].pc.seen, Assemble(s.calls[t].pc.files));
            SnapOk(s.disk, sn) && AtLeast(sn.read, s.calls[t].began)
  {
    var c := s.calls[t];
    assert CallOk(s.disk, s.published, c);
    AssembledFits(s.disk, c.pc.seen, c.pc.files, c.began);
  }

  lemma AssembledAdvances(s: State, t: Tid)
    requires Inv(s) && Enabled(s, Publish(t)) && s.published != []
    ensures Advances(Current(s), Snapshot(s.calls[t].pc.seen, Assemble(s.calls[t].pc.files)))
  {
    var c := s.calls[t];
    assert CallOk(s.disk, s.published, c);
    assert SnapOk(s.disk, Current(s));
    AssembledGoesOn(s.disk, Current(s), c.pc.seen, c.pc.files);
  }

  lemma OthersOutsidePublish(s: State, t: Tid)
    requires Inv(s) && Enabled(s, Publish(t))
    ensures forall u :: u in s.calls && u != t ==> CallOk(s.disk, Apply(s, Publish(t)).published, s.calls[u])
  {
    forall u | u in s.calls && u != t
      ensures CallOk(s.disk, Apply(s, Publish(t)).published, s.calls[u])
    {
      assert CallOk(s.disk, s.published, s.calls[u]);
      assert !Locked(s.calls[u].pc);
    }
  }

  predicate ChainOk(d: Disk, ps: seq<Snapshot>)
    requires DiskOk(d)
  {
    (forall k :: 0 <= k < |ps| ==> SnapOk(d, ps[k])) &&
    (forall k :: 0 <= k < |ps| - 1 ==> Advances(ps[k], ps[k + 1]))
  }

  lemma {:induction false} ChainGrows(d: Disk, ps: seq<Snapshot>, sn: Snapshot)
    requires DiskOk(d) && ChainOk(d, ps) && SnapOk(d, sn)
    requires ps != [] ==> Advances(ps[|ps| - 1], sn)
    ensures ChainOk(d, ps + [sn])
  {
  }

  /** What call t is about to publish. */
  function Coming(s: State, t: Tid): Snapshot
    requires Enabled(s, Publish(t))
  {
    Snapshot(s.calls[t].pc.seen, Assemble(s.calls[t].pc.files))
  }

  lemma ChainSoFar(s: State)
    requires Inv(s)
    ensures ChainOk(s.disk, s.published)
  {
  }

  lemma {:induction false} PublishedStayOk(s: State, t: Tid)
    requires Inv(s) && Enabled(s, Publish(t))
    ensures ChainOk(s.disk, s.published + [Coming(s, t)])
  {
    ChainSoFar(s);
    AssembledIsOk(s, t);
    if s.published != [] {
      AssembledAdvances(s, t);
    }
    ChainGrows(s.disk, s.published, Coming(s, t));
  }

  lemma PublisherLeaves(s: State, t: Tid)
    requires Inv(s) && Enabled(s, Publish(t))
    ensures CallOk(s.disk, Apply(s, Publish(t)).published, Apply(s, Publish(t)).calls[t])
  {
    AssembledIsOk(s, t);
    assert CallOk(s.disk, s.published, s.calls[t]);
  }

  lemma PublishKeeps(s: State, t: Tid)
    requires Inv(s) && Enabled(s, Publish(t))
    ensures Inv(Apply(s, Publish(t)))
  {
    PublishedStayOk(s, t);
    OthersOutsidePublish(s, t);
    PublisherLeaves(s, t);
  }

  lemma StepKeeps(s: State, e: Step)
    requires Inv(s) && Enabled(s, e)
    ensures Inv(Apply(s, e))
  {
    match e
    case Write(f, stamp) => WriteKeeps(s, f, stamp);
    case Publish(t) => PublishKeeps(s, t);
    case Read(t) => ReadKeeps(s, t);
    case Begin(_) => UnlockedStepKeeps(s, e);
    case Stat(_) => UnlockedStepKeeps(s, e);
    case Decide(_) => UnlockedStepKeeps(s, e);
    case _ => LockedStepKeeps(s, e);
  }

  // ── Freshness, which rests on the stamps ──────────────────────────────────

  /** Equal stamps are equal versions, because stamps are not reused. */
  lemma SameStampsSameVersions(d: Disk, a: seq<Seen>, b: seq<Seen>)
    requires DiskOk(d) && Distinct(d) && |a| == FILES && |b| == FILES && SameStamps(a, b)
    requires forall f :: 0 <= f < FILES ==> SeenOk(d, f, a[f]) && SeenOk(d, f, b[f])
    ensures a == b
  {
    forall f | 0 <= f < FILES
      ensures a[f] == b[f]
    {
      assert NoDup(d[f]);
      assert d[f][a[f].version] == d[f][b[f].version];
    }
  }

  /** A call that has its snapshot has one no older than the files at its start. */
  predicate FreshCall(c: Call) {
    match c.pc
    case Leaving(s) => AtLeast(s.read, c.began)
    case Returned(s) => AtLeast(s.read, c.began)
    case _ => true
  }

  predicate AllFresh(s: State) {
    forall t :: t in s.calls ==> FreshCall(s.calls[t])
  }

  /** A snapshot with the stamps of later stats is as new as they are. */
  lemma SameStampsAreFresh(d: Disk, sn: Snapshot, got: seq<Seen>, low: Versions)
    requires DiskOk(d) && Distinct(d) && SnapOk(d, sn)
    requires |got| == FILES && StatsOk(d, got, low) && SameStamps(got, sn.seen)
    ensures AtLeast(sn.read, low)
  {
    SameStampsSameVersions(d, got, sn.seen);
  }

  lemma {:induction false} StepIsFresh(s: State, e: Step)
    requires Inv(s) && Distinct(s.disk) && AllFresh(s) && Enabled(s, e)
    ensures AllFresh(Apply(s, e))
  {
    match e
    case Decide(t) =>
      var pc := s.calls[t].pc;
      assert CallOk(s.disk, s.published, s.calls[t]);
      if SameStamps(pc.got, pc.s.seen) {
        SameStampsAreFresh(s.disk, pc.s, pc.got, s.calls[t].began);
      }
    case LockedDecide(t) =>
      var pc := s.calls[t].pc;
      assert CallOk(s.disk, s.published, s.calls[t]);
      if s.published != [] && SameStamps(pc.got, Current(s).seen) {
        assert SnapOk(s.disk, Current(s));
        SameStampsAreFresh(s.disk, Current(s), pc.got, s.calls[t].began);
      }
    case Publish(t) => AssembledIsOk(s, t);
    case _ =>
  }

  // ── Whole runs ────────────────────────────────────────────────────────────

  lemma StartInv(stamps: seq<Stamp>, boot: Tid)
    requires |stamps| == FILES
    ensures Inv(Start(true, stamps, boot))
  {
  }

  lemma {:induction false} DiskOnlyGrows(s: State, es: seq<Step>)
    requires IsRun(s, es) && DiskOk(s.disk)
    ensures DiskOk(After(s, es).disk)
    ensures forall f :: 0 <= f < FILES ==> s.disk[f] <= After(s, es).disk[f]
    decreases |es|
  {
    if es != [] {
      DiskOnlyGrows(Apply(s, es[0]), es[1..]);
    }
  }

  lemma {:induction false} DistinctBefore(s: State, es: seq<Step>)
    requires IsRun(s, es) && DiskOk(s.disk) && Distinct(After(s, es).disk)
    ensures Distinct(s.disk)
  {
    DiskOnlyGrows(s, es);
    forall f | 0 <= f < FILES
      ensures NoDup(s.disk[f])
    {
      var later := After(s, es).disk[f];
      assert s.disk[f] == later[..|s.disk[f]|];
    }
  }

  lemma {:induction false} RunKeeps(s: State, es: seq<Step>)
    requires Inv(s) && IsRun(s, es)
    ensures Inv(After(s, es))
    decreases |es|
  {
    if es != [] {
      StepKeeps(s, es[0]);
      RunKeeps(Apply(s, es[0]), es[1..]);
    }
  }

  lemma {:induction false} RunIsFresh(s: State, es: seq<Step>)
    requires Inv(s) && AllFresh(s) && IsRun(s, es) && Distinct(After(s, es).disk)
    ensures AllFresh(After(s, es))
    decreases |es|
  {
    if es != [] {
      DistinctBefore(s, es);
      StepKeeps(s, es[0]);
      StepIsFresh(s, es[0]);
      RunIsFresh(Apply(s, es[0]), es[1..]);
    }
  }

  lemma {:induction false} RunSplits(s: State, a: seq<Step>, b: seq<Step>)
    requires IsRun(s, a + b)
    ensures IsRun(s, a) && IsRun(After(s, a), b) && After(s, a + b) == After(After(s, a), b)
    decreases |a|
  {
    if a == [] {
      assert a + b == b;
    } else {
      assert (a + b)[1..] == a[1..] + b;
      RunSplits(Apply(s, a[0]), a[1..], b);
    }
  }

  lemma {:induction false} BeganStays(s: State, t: Tid, es: seq<Step>)
    requires t in s.calls && IsRun(s, es) && Begin(t) !in es
    ensures t in After(s, es).calls && After(s, es).calls[t].began == s.calls[t].began
    decreases |es|
  {
    if es != [] {
      assert es[0] != Begin(t);
      BeganStays(Apply(s, es[0]), t, es[1..]);
    }
  }

  /** The promise of DEV_ASSET_RELOAD: whatever builds and other requests do, a
      call that began after `before` and has returned holds, for every watched
      file, a version no older than the one then on disk, and none from the
      future. */
  lemma {:induction false} ServesFreshFiles(
      stamps: seq<Stamp>, boot: Tid, t: Tid, before: seq<Step>, during: seq<Step>)
    requires |stamps| == FILES && Begin(t) !in during
    requires IsRun(Start(true, stamps, boot), before + [Begin(t)] + during)
    requires Distinct(After(Start(true, stamps, boot), before + [Begin(t)] + during).disk)
    ensures IsRun(Start(true, stamps, boot), before)
    ensures var began := After(Start(true, stamps, boot), before);
            var end := After(Start(true, stamps, boot), before + [Begin(t)] + during);
            DiskOk(began.disk) && DiskOk(end.disk) && t in end.calls &&
            (end.calls[t].pc.Returned? ==>
               forall f :: 0 <= f < FILES ==>
                 Now(began.disk, f) <= end.calls[t].pc.s.read[f] <= Now(end.disk, f))
  {
    var s0 := Start(true, stamps, boot);
    RunSplits(s0, before + [Begin(t)], during);
    RunSplits(s0, before, [Begin(t)]);
    var s1 := After(s0, before);
    var s2 := Apply(s1, Begin(t));
    assert After(s1, [Begin(t)]) == s2;
    BeganStays(s2, t, during);
    StartInv(stamps, boot);
    RunKeeps(s0, before + [Begin(t)] + during);
    RunIsFresh(s0, before + [Begin(t)] + during);
    var end := After(s2, during);
    assert CallOk(end.disk, end.published, end.calls[t]) && FreshCall(end.calls[t]);
    assert end.calls[t].began == NowAll(s1.disk);
    if end.calls[t].pc.Returned? {
      var s := end.calls[t].pc.s;
      forall f | 0 <= f < FILES
        ensures Now(s1.disk, f) <= s.read[f] <= Now(end.disk, f)
      {
        assert NowAll(s1.disk)[f] == Now(s1.disk, f);
      }
    }
  }

  /** Snapshots never step back, and no two neighbours carry the same stamps. */
  lemma {:induction false} NeverStepsBack(stamps: seq<Stamp>, boot: Tid, es: seq<Step>, i: nat, j: nat)
    requires |stamps| == FILES && IsRun(Start(true, stamps, boot), es)
    requires i < j < |After(Start(true, stamps, boot), es).published|
    ensures var p := After(Start(true, stamps, boot), es).published;
            AtLeast(p[j].read, p[i].read) && !SameStamps(p[j - 1].seen, p[j].seen)
  {
    StartInv(stamps, boot);
    RunKeeps(Start(true, stamps, boot), es);
    var p := After(Start(true, stamps, boot), es).published;
    assert Advances(p[j - 1], p[j - 1 + 1]);
    var k := i;
    while k < j
      invariant i <= k <= j
      invariant AtLeast(p[k].read, p[i].read)
    {
      assert Advances(p[k], p[k + 1]);
      k := k + 1;
    }
  }

  /** At most one call is rebuilding a snapshot. */
  lemma {:induction false} ReloadsNeverOverlap(stamps: seq<Stamp>, boot: Tid, es: seq<Step>, t: Tid, u: Tid)
    requires |stamps| == FILES && IsRun(Start(true, stamps, boot), es)
    requires var c := After(Start(true, stamps, boot), es).calls;
             t in c && u in c && c[t].pc.Loading? && c[u].pc.Loading?
    ensures t == u
  {
    StartInv(stamps, boot);
    RunKeeps(Start(true, stamps, boot), es);
  }

  function WritesIn(es: seq<Step>): nat {
    if es == [] then 0 else (if es[0].Write? then 1 else 0) + WritesIn(es[1..])
  }

  function Age(d: Disk): int
    requires DiskOk(d)
  {
    |d[0]| + |d[1]| + |d[2]| - FILES
  }

  function SeenAge(s: Snapshot): nat
    requires |s.seen| == FILES
  {
    s.seen[0].version + s.seen[1].version + s.seen[2].version
  }

  lemma {:induction false} AgeCountsWrites(s: State, es: seq<Step>)
    requires DiskOk(s.disk) && IsRun(s, es)
    ensures DiskOk(After(s, es).disk) && Age(After(s, es).disk) == Age(s.disk) + WritesIn(es)
    decreases |es|
  {
    if es != [] {
      AgeCountsWrites(Apply(s, es[0]), es[1..]);
    }
  }

  /** Each reload has seen at least one write that the one before it had not. */
  lemma {:induction false} EachReloadIsNews(d: Disk, p: seq<Snapshot>, k: nat)
    requires DiskOk(d) && k < |p|
    requires forall i :: 0 <= i < |p| ==> SnapOk(d, p[i])
    requires forall i :: 0 <= i < |p| - 1 ==> Advances(p[i], p[i + 1])
    ensures |p[k].seen| == FILES && SeenAge(p[k]) >= k
  {
    assert SnapOk(d, p[k]);
    if k > 0 {
      EachReloadIsNews(d, p, k - 1);
      var a, b := p[k - 1], p[k - 1 + 1];
      assert SnapOk(d, a) && Advances(a, b);
      var f :| 0 <= f < FILES && a.seen[f].stamp != b.seen[f].stamp;
      assert a.seen[f].version < b.seen[f].version;
    }
  }

  /** The snapshot read at startup is free; every further one is paid for by a
      write to a watched file. */
  lemma {:induction false} ReloadsAreBoundedByWrites(stamps: seq<Stamp>, boot: Tid, es: seq<Step>)
    requires |stamps| == FILES && IsRun(Start(true, stamps, boot), es)
    ensures |After(Start(true, stamps, boot), es).published| - 1 <= WritesIn(es)
  {
    StartInv(stamps, boot);
    RunKeeps(Start(true, stamps, boot), es);
    AgeCountsWrites(Start(true, stamps, boot), es);
    var s := After(Start(true, stamps, boot), es);
    if s.published != [] {
      var last := |s.published| - 1;
      assert SnapOk(s.disk, s.published[last]);
      EachReloadIsNews(s.disk, s.published, last);
    }
  }

  // ── Loads and what is stored ──────────────────────────────────────────────

  function PublishesIn(es: seq<Step>): nat {
    if es == [] then 0 else (if es[0].Publish? then 1 else 0) + PublishesIn(es[1..])
  }

  /** The step with which a call decides to read the files. */
  predicate BeginsLoad(s: State, e: Step)
    requires Enabled(s, e)
  {
    e.LockedDecide? && Apply(s, e).calls[e.t].pc.Loading?
  }

  function LoadsIn(s: State, es: seq<Step>): nat
    requires IsRun(s, es)
    decreases |es|
  {
    if es == [] then 0 else (if BeginsLoad(s, es[0]) then 1 else 0) + LoadsIn(Apply(s, es[0]), es[1..])
  }

  predicate Reading(s: State, t: Tid) {
    t in s.calls && s.calls[t].pc.Loading?
  }

  function ReadersNow(s: State): nat {
    if exists t :: t in s.calls && Reading(s, t) then 1 else 0
  }

  lemma {:induction false} OthersGoOnReading(s: State, e: Step, u: Tid)
    requires Enabled(s, e) && (e.Write? || u != e.t)
    ensures Reading(s, u) <==> Reading(Apply(s, e), u)
  {
  }

  lemma {:induction false} WhoReads(s: State, e: Step)
    requires Enabled(s, e) && !e.Write?
    ensures Reading(Apply(s, e), e.t) <==> BeginsLoad(s, e) || (Reading(s, e.t) && !e.Publish?)
    ensures BeginsLoad(s, e) || e.Publish? ==> Locked(s.calls[e.t].pc)
    ensures e.Publish? ==> Reading(s, e.t)
    ensures BeginsLoad(s, e) ==> !Reading(s, e.t)
  {
  }

  /** Call t is the only one that reads, if any does. */
  lemma {:induction false} ReadersAre(s: State, t: Tid)
    requires forall u :: Reading(s, u) ==> u == t
    ensures ReadersNow(s) == if Reading(s, t) then 1 else 0
  {
  }

  lemma {:induction false} StepCountsLoads(s: State, e: Step)
    requires Inv(s) && Enabled(s, e)
    ensures (if BeginsLoad(s, e) then 1 else 0) + ReadersNow(s) ==
            (if e.Publish? then 1 else 0) + ReadersNow(Apply(s, e))
  {
    var s' := Apply(s, e);
    forall u | e.Write? || u != e.t
      ensures Reading(s, u) <==> Reading(s', u)
    {
      OthersGoOnReading(s, e, u);
    }
    if u :| Reading(s, u) && (e.Write? || u != e.t) {
      if !e.Write? {
        WhoReads(s, e);
      }
      assert forall v :: Reading(s, v) ==> v == u;
      ReadersAre(s, u);
      ReadersAre(s', u);
    } else if !e.Write? {
      WhoReads(s, e);
      ReadersAre(s, e.t);
      ReadersAre(s', e.t);
    }
  }

  /** Every load that was begun was stored, but for the one that may be under way. */
  lemma {:induction false} LoadsAreStored(s: State, es: seq<Step>)
    requires Inv(s) && IsRun(s, es)
    ensures LoadsIn(s, es) + ReadersNow(s) == PublishesIn(es) + ReadersNow(After(s, es))
    ensures |After(s, es).published| == |s.published| + PublishesIn(es)
    decreases |es|
  {
    if es != [] {
      StepKeeps(s, es[0]);
      StepCountsLoads(s, es[0]);
      LoadsAreStored(Apply(s, es[0]), es[1..]);
    }
  }

  /** A load under way has seen a write that the last stored snapshot had not. */
  lemma {:induction false} LoadIsNews(s: State, t: Tid)
    requires Inv(s) && Reading(s, t)
    ensures Age(s.disk) >= |s.published|
  {
    var seen := s.calls[t].pc.seen;
    assert CallOk(s.disk, s.published, s.calls[t]);
    if s.published != [] {
      var last := |s.published| - 1;
      assert SnapOk(s.disk, s.published[last]);
      EachReloadIsNews(s.disk, s.published, last);
      var f :| 0 <= f < FILES && seen[f].stamp != s.published[last].seen[f].stamp;
      assert s.published[last].seen[f].version < seen[f].version;
    }
  }

  /** Over any run no more loads are begun, and no more snapshots stored, than one for
      the startup and one for each write. */
  lemma {:induction false} LoadsAreBoundedByWrites(stamps: seq<Stamp>, boot: Tid, es: seq<Step>)
    requires |stamps| == FILES && IsRun(Start(true, stamps, boot), es)
    ensures LoadsIn(Start(true, stamps, boot), es) <= WritesIn(es) + 1
    ensures PublishesIn(es) <= WritesIn(es) + 1
  {
    var s0 := Start(true, stamps, boot);
    StartInv(stamps, boot);
    LoadsAreStored(s0, es);
    RunKeeps(s0, es);
    AgeCountsWrites(s0, es);
    ReloadsAreBoundedByWrites(stamps, boot, es);
    var s := After(s0, es);
    if t :| t in s.calls && Reading(s, t) {
      LoadIsNews(s, t);
    }
  }

  /** What a call has in hand was stored. */
  predicate HasStored(c: Call, published: seq<Snapshot>) {
    match c.pc
    case Stating(s, _) => s in published
    case Leaving(s) => s in published
    case Returned(s) => s in published
    case _ => true
  }

  predicate AllStored(s: State) {
    forall t :: t in s.calls ==> HasStored(s.calls[t], s.published)
  }

  /** The snapshot of a call that publishes is the one in force right after. */
  lemma PublishStores(s: State, t: Tid)
    requires Enabled(s, Publish(t))
    ensures var s' := Apply(s, Publish(t));
            s'.published == s.published + [Coming(s, t)] && s'.calls[t].pc == Leaving(Current(s'))
  {
  }

  lemma {:induction false} RunIsStored(s: State, es: seq<Step>)
    requires AllStored(s) && IsRun(s, es)
    ensures AllStored(After(s, es)) && s.published <= After(s, es).published
    decreases |es|
  {
    if es != [] {
      RunIsStored(Apply(s, es[0]), es[1..]);
    }
  }

  /** In every run, what a call returns was stored. */
  lemma {:induction false} ReturnedWasStored(reload: bool, stamps: seq<Stamp>, boot: Tid, es: seq<Step>, t: Tid)
    requires |stamps| == FILES && IsRun(Start(reload, stamps, boot), es)
    requires t in After(Start(reload, stamps, boot), es).calls
    requires After(Start(reload, stamps, boot), es).calls[t].pc.Returned?
    ensures var s := After(Start(reload, stamps, boot), es); s.calls[t].pc.s in s.published
  {
    RunIsStored(Start(reload, stamps, boot), es);
  }

  // ── After a reload, while nothing is written ──────────────────────────────

  predicate StatsSoFar(d: Disk, got: seq<Seen>)
    requires DiskOk(d)
  {
    |got| <= FILES && forall f :: 0 <= f < |got| ==> got[f] == StatOf(d, f)
  }

  predicate MatchesDisk(d: Disk, sn: Snapshot)
    requires DiskOk(d)
  {
    |sn.seen| == FILES && forall f :: 0 <= f < FILES ==> sn.seen[f].stamp == StatOf(d, f).stamp
  }

  predicate SettledPc(d: Disk, pc: Pc)
    requires DiskOk(d)
  {
    match pc
    case LockedStating(got) => StatsSoFar(d, got)
    case Loading(_, _) => false
    case _ => true
  }

  /** The snapshot in force carries the stamps of the files, and whoever holds the lock
      is about to find that out. */
  predicate Settled(s: State) {
    DiskOk(s.disk) && s.published != [] && MatchesDisk(s.disk, Current(s)) &&
    forall u :: u in s.calls ==> SettledPc(s.disk, s.calls[u].pc)
  }

  /** A call has the snapshot in force in hand, and will need no lock again. */
  predicate OnFastPath(s: State, sn: Snapshot, t: Tid) {
    t in s.calls && DiskOk(s.disk) &&
    match s.calls[t].pc
    case Stating(x, got) => x == sn && StatsSoFar(s.disk, got)
    case Leaving(x) => x == sn
    case Returned(x) => x == sn
    case _ => false
  }

  /** Call t reloads, from the moment it has the lock. */
  predicate Reloads(s: State, t: Tid) {
    DiskOk(s.disk) && t in s.calls &&
    match s.calls[t].pc
    case LockedStating(got) => StatsSoFar(s.disk, got)
    case Loading(seen, _) => |seen| == FILES && StatsSoFar(s.disk, seen)
    case _ => false
  }

  predicate Done(s: State, t: Tid) {
    Settled(s) && OnFastPath(s, Current(s), t)
  }

  lemma {:induction false} SettledStays(s: State, e: Step)
    requires Settled(s) && Enabled(s, e) && !e.Write?
    ensures Settled(Apply(s, e)) && Apply(s, e).published == s.published && !e.Read? && !e.Publish?
  {
  }

  /** While call t holds the lock, a step of its own keeps it reloading or settles it. */
  lemma {:induction false} OwnStepReloads(s: State, t: Tid, e: Step)
    requires Reloads(s, t) && Enabled(s, e) && (e == LockedStat(t) || e == Read(t))
    ensures Reloads(Apply(s, e), t)
  {
    if e == LockedStat(t) {
      var got := s.calls[t].pc.got;
      assert StatsSoFar(s.disk, got + [StatOf(s.disk, |got|)]);
    }
  }

  lemma {:induction false} DecideReloads(s: State, t: Tid)
    requires Reloads(s, t) && Enabled(s, LockedDecide(t))
    requires forall u :: u in s.calls && u != t ==> !Locked(s.calls[u].pc)
    ensures Reloads(Apply(s, LockedDecide(t)), t) || Done(Apply(s, LockedDecide(t)), t)
  {
    var s' := Apply(s, LockedDecide(t));
    if s'.calls[t].pc.Leaving? {
      assert MatchesDisk(s'.disk, Current(s'));
      assert forall u :: u in s'.calls ==> SettledPc(s'.disk, s'.calls[u].pc);
    }
  }

  lemma {:induction false} PublishSettles(s: State, t: Tid)
    requires Reloads(s, t) && Enabled(s, Publish(t))
    requires forall u :: u in s.calls && u != t ==> !Locked(s.calls[u].pc)
    ensures Done(Apply(s, Publish(t)), t)
  {
    var s' := Apply(s, Publish(t));
    assert Current(s').seen == s.calls[t].pc.seen;
    assert MatchesDisk(s'.disk, Current(s'));
    assert forall u :: u in s'.calls ==> SettledPc(s'.disk, s'.calls[u].pc);
  }

  lemma {:induction false} ReloadSettles(s: State, t: Tid, e: Step)
    requires Inv(s) && Reloads(s, t) && Enabled(s, e) && !e.Write?
    ensures Reloads(Apply(s, e), t) || Done(Apply(s, e), t)
  {
    assert forall u :: u in s.calls && u != t ==> !Locked(s.calls[u].pc);
    if e.t != t {
      assert Apply(s, e).calls[t] == s.calls[t];
    } else {
      match e
      case LockedStat(_) => OwnStepReloads(s, t, e);
      case Read(_) => OwnStepReloads(s, t, e);
      case LockedDecide(_) => DecideReloads(s, t);
      case Publish(_) => PublishSettles(s, t);
      case _ =>
    }
  }

  lemma {:induction false} DoneStays(s: State, t: Tid, e: Step)
    requires Done(s, t) && s.reload && Enabled(s, e) && !e.Write?
    ensures Done(Apply(s, e), t) && e != Lock(t)
  {
    SettledStays(s, e);
  }

  lemma {:induction false} QuietReload(s: State, t: Tid, es: seq<Step>)
    requires Inv(s) && (Reloads(s, t) || Done(s, t)) && IsRun(s, es) && WritesIn(es) == 0
    ensures Reloads(After(s, es), t) || Done(After(s, es), t)
    decreases |es|
  {
    if es != [] {
      StepKeeps(s, es[0]);
      if Reloads(s, t) {
        ReloadSettles(s, t, es[0]);
      } else {
        DoneStays(s, t, es[0]);
      }
      QuietReload(Apply(s, es[0]), t, es[1..]);
    }
  }

  lemma {:induction false} FastPathStays(s: State, t: Tid, es: seq<Step>)
    requires Settled(s) && s.reload && OnFastPath(s, Current(s), t) && IsRun(s, es) && WritesIn(es) == 0
    ensures OnFastPath(After(s, es), Current(s), t)
    ensures forall e :: e in es ==> !e.Read? && !e.Publish? && e != Lock(t)
    decreases |es|
  {
    if es != [] {
      SettledStays(s, es[0]);
      DoneStays(s, t, es[0]);
      FastPathStays(Apply(s, es[0]), t, es[1..]);
      assert forall e :: e in es ==> e == es[0] || e in es[1..];
    }
  }

  lemma {:induction false} SettledCallsAreFast(s: State, t: Tid, es: seq<Step>)
    requires Settled(s) && s.reload && Enabled(s, Begin(t)) && IsRun(Apply(s, Begin(t)), es) && WritesIn(es) == 0
    ensures forall e :: e in es ==> !e.Read? && !e.Publish? && e != Lock(t)
    ensures OnFastPath(After(Apply(s, Begin(t)), es), Current(s), t)
  {
    SettledStays(s, Begin(t));
    FastPathStays(Apply(s, Begin(t)), t, es);
  }

  /** One reload is enough. Call t takes the lock and gives it back while nothing is
      written: the snapshot then in force carries the stamps of the files, and is the
      one t returns. While nothing is written after that, nobody reads a file or stores
      a snapshot; a call that begins takes no lock, and returns that same snapshot. */
  lemma {:induction false} OneReloadIsEnough(
      stamps: seq<Stamp>, boot: Tid, before: seq<Step>, t: Tid, during: seq<Step>, u: Tid, later: seq<Step>)
    requires |stamps| == FILES && IsRun(Start(true, stamps, boot), before + [Lock(t)] + during)
    requires WritesIn(during) == 0 && WritesIn(later) == 0
    requires var s := After(Start(true, stamps, boot), before + [Lock(t)] + during);
             t in s.calls && !Locked(s.calls[t].pc) &&
             Enabled(s, Begin(u)) && IsRun(Apply(s, Begin(u)), later)
    ensures var s := After(Start(true, stamps, boot), before + [Lock(t)] + during);
            s.published != [] && MatchesDisk(s.disk, Current(s)) &&
            (s.calls[t].pc.Returned? ==> s.calls[t].pc.s == Current(s)) &&
            var end := After(Apply(s, Begin(u)), later);
            u in end.calls && (end.calls[u].pc.Returned? ==> end.calls[u].pc.s == Current(s))
    ensures forall e :: e in later ==> !e.Read? && !e.Publish? && e != Lock(u)
  {
    var s0 := Start(true, stamps, boot);
    StartInv(stamps, boot);
    RunSplits(s0, before + [Lock(t)], during);
    RunSplits(s0, before, [Lock(t)]);
    RunKeeps(s0, before + [Lock(t)]);
    RunKeeps(s0, before + [Lock(t)] + during);
    var locked := After(s0, before + [Lock(t)]);
    assert locked == Apply(After(s0, before), Lock(t));
    assert Reloads(locked, t);
    QuietReload(locked, t, during);
    var s := After(s0, before + [Lock(t)] + during);
    assert Done(s, t);
    SettledCallsAreFast(s, u, later);
  }

  // ── Nobody is left waiting ────────────────────────────────────────────────

  /** The lock is held only by a call that is using it. */
  predicate LockInUse(s: State) {
    s.mu.Some? ==> s.mu.value in s.calls && Locked(s.calls[s.mu.value].pc)
  }

  lemma {:induction false} RunKeepsLockInUse(s: State, es: seq<Step>)
    requires Inv(s) && LockInUse(s) && IsRun(s, es)
    ensures LockInUse(After(s, es))
    decreases |es|
  {
    if es != [] {
      StepKeeps(s, es[0]);
      RunKeepsLockInUse(Apply(s, es[0]), es[1..]);
    }
  }

  /** The steps a call has before it at most. */
  function ToGo(pc: Pc): nat {
    match pc
    case Stating(_, got) => 15 + if |got| < FILES then FILES - |got| else 0
    case Waiting => 13
    case LockedStating(got) => 9 + if |got| < FILES then FILES - |got| else 0
    case Loading(_, files) => 3 + if |files| < FILES then FILES - |files| else 0
    case Leaving(_) => 1
    case Returned(_) => 0
  }

  function NextStep(t: Tid, pc: Pc): Step {
    match pc
    case Stating(_, got) => if |got| < FILES then Stat(t) else Decide(t)
    case Waiting => Lock(t)
    case LockedStating(got) => if |got| < FILES then LockedStat(t) else LockedDecide(t)
    case Loading(_, files) => if |files| < FILES then Read(t) else Publish(t)
    case Leaving(_) => Unlock(t)
    case Returned(_) => Begin(t)
  }

  /** The numbers of stats and of reads are those of the watched files at most. */
  predicate GotInRange(pc: Pc) {
    match pc
    case Stating(_, got) => |got| <= FILES
    case LockedStating(got) => |got| <= FILES
    case Loading(_, files) => |files| <= FILES
    case _ => true
  }

  lemma {:induction false} InvGotInRange(s: State, t: Tid)
    requires Inv(s) && t in s.calls
    ensures GotInRange(s.calls[t].pc)
  {
    assert CallOk(s.disk, s.published, s.calls[t]);
  }

  /** Every step of its own brings a call nearer to its return. */
  lemma {:induction false} StepsAreFew(s: State, t: Tid)
    requires t in s.calls && !s.calls[t].pc.Returned?
    requires Enabled(s, NextStep(t, s.calls[t].pc))
    ensures ToGo(Apply(s, NextStep(t, s.calls[t].pc)).calls[t].pc) < ToGo(s.calls[t].pc)
  {
    var c := s.calls[t];
    match c.pc
    case Stating(_, _) =>
    case Waiting =>
    case LockedStating(_) =>
    case Loading(_, _) =>
    case Leaving(_) =>
  }

  lemma {:induction false} NextIsEnabled(s: State, t: Tid)
    requires DiskOk(s.disk) && t in s.calls && GotInRange(s.calls[t].pc)
    requires !s.calls[t].pc.Returned? && (s.calls[t].pc.Waiting? ==> s.mu == None)
    ensures Enabled(s, NextStep(t, s.calls[t].pc))
  {
  }

  /** In every run a call that has not returned can go on, or waits for the lock while
      its holder can go on; and at most 18 steps of its own bring it home. */
  lemma {:induction false} NobodyIsStuck(stamps: seq<Stamp>, boot: Tid, es: seq<Step>, t: Tid)
    requires |stamps| == FILES && IsRun(Start(true, stamps, boot), es)
    requires t in After(Start(true, stamps, boot), es).calls
    requires !After(Start(true, stamps, boot), es).calls[t].pc.Returned?
    ensures var s := After(Start(true, stamps, boot), es);
            ToGo(s.calls[t].pc) <= 18 &&
            (Enabled(s, NextStep(t, s.calls[t].pc)) ||
             (s.calls[t].pc.Waiting? && s.mu.Some? && s.mu.value in s.calls &&
              Enabled(s, NextStep(s.mu.value, s.calls[s.mu.value].pc))))
  {
    var s0 := Start(true, stamps, boot);
    StartInv(stamps, boot);
    RunKeeps(s0, es);
    RunKeepsLockInUse(s0, es);
    var s := After(s0, es);
    InvGotInRange(s, t);
    if s.calls[t].pc.Waiting? && s.mu.Some? {
      InvGotInRange(s, s.mu.value);
      NextIsEnabled(s, s.mu.value);
    } else {
      NextIsEnabled(s, t);
    }
  }

  // ── Without the assumption, and without the switch ────────────────────────

  lemma {:induction false} RunCons(s: State, e: Step, es: seq<Step>)
    requires Enabled(s, e) && IsRun(Apply(s, e), es)
    ensures IsRun(s, [e] + es) && After(s, [e] + es) == After(Apply(s, e), es)
  {
    assert ([e] + es)[1..] == es;
  }

  /** The lock-free checks of a call, on a disk that carries the stamps its
      snapshot was built with. */
  lemma UnlockedChecksPass(s: State, t: Tid, sn: Snapshot)
    requires DiskOk(s.disk) && t in s.calls && s.calls[t].pc == Stating(sn, [])
    requires |sn.seen| == FILES
    requires forall f :: 0 <= f < FILES ==> sn.seen[f].stamp == StatOf(s.disk, f).stamp
    ensures var es := [Stat(t)] + ([Stat(t)] + ([Stat(t)] + ([Decide(t)] + [])));
            IsRun(s, es) &&
            After(s, es) == s.(calls := s.calls[t := Call(Returned(sn), s.calls[t].began)])
  {
    var s1 := Apply(s, Stat(t));
    var s2 := Apply(s1, Stat(t));
    var s3 := Apply(s2, Stat(t));
    RunCons(s3, Decide(t), []);
    RunCons(s2, Stat(t), [Decide(t)] + []);
    RunCons(s1, Stat(t), [Stat(t)] + ([Decide(t)] + []));
    RunCons(s, Stat(t), [Stat(t)] + ([Stat(t)] + ([Decide(t)] + [])));
  }

  /** The four steps of a call that finds its stamps unchanged. */
  function Checks(t: Tid): seq<Step> {
    [Stat(t)] + ([Stat(t)] + ([Stat(t)] + ([Decide(t)] + [])))
  }

  /** A call that begins while the disk carries the stamps of the snapshot in force. */
  lemma UnseenCallReturns(s: State, t: Tid)
    requires DiskOk(s.disk) && s.reload && s.published != [] && t !in s.calls
    requires |Current(s).seen| == FILES
    requires forall f :: 0 <= f < FILES ==> Current(s).seen[f].stamp == StatOf(s.disk, f).stamp
    ensures var es := [Begin(t)] + Checks(t);
            IsRun(s, es) &&
            After(s, es) == s.(calls := s.calls[t := Call(Returned(Current(s)), NowAll(s.disk))])
  {
    UnlockedChecksPass(Apply(s, Begin(t)), t, Current(s));
    RunCons(s, Begin(t), Checks(t));
  }

  /** Distinct stamps are needed: a write that repeats the stamp of the version
      it replaces goes unseen, and the next call returns the replaced version. */
  lemma {:induction false} RepeatedStampIsServedStale(s: State, t: Tid, f: nat)
    requires Inv(s) && s.published != [] && t !in s.calls && f < FILES
    requires Current(s).seen == [StatOf(s.disk, 0), StatOf(s.disk, 1), StatOf(s.disk, 2)]
    ensures var es := [Write(f, StatOf(s.disk, f).stamp)] + ([Begin(t)] + Checks(t));
            IsRun(s, es) && t in After(s, es).calls &&
            var c := After(s, es).calls[t];
            c.pc == Returned(Current(s)) && c.pc.s.read[f] < c.began[f]
  {
    var w := Write(f, StatOf(s.disk, f).stamp);
    assert SnapOk(s.disk, Current(s));
    var s1 := Apply(s, w);
    UnseenCallReturns(s1, t);
    RunCons(s, w, [Begin(t)] + Checks(t));
    assert NowAll(s1.disk)[f] == Now(s1.disk, f);
  }

  lemma {:induction false} RunsJoin(s: State, a: seq<Step>, b: seq<Step>)
    requires IsRun(s, a) && IsRun(After(s, a), b)
    ensures IsRun(s, a + b) && After(s, a + b) == After(After(s, a), b)
    decreases |a|
  {
    if a == [] {
      assert a + b == b;
    } else {
      RunsJoin(Apply(s, a[0]), a[1..], b);
      assert (a + b)[1..] == a[1..] + b;
    }
  }

  /** A file written again and again. */
  function WritesTo(f: nat, stamps: seq<Stamp>): seq<Step> {
    if stamps == [] then [] else [Write(f, stamps[0])] + WritesTo(f, stamps[1..])
  }

  lemma {:induction false} WritesRun(s: State, f: nat, stamps: seq<Stamp>)
    requires DiskOk(s.disk) && f < FILES
    ensures IsRun(s, WritesTo(f, stamps))
    ensures After(s, WritesTo(f, stamps)) == s.(disk := s.disk[f := s.disk[f] + stamps])
    decreases |stamps|
  {
    if stamps == [] {
      assert s.disk[f] + [] == s.disk[f] && s.disk[f := s.disk[f]] == s.disk;
    } else {
      var s1 := Apply(s, Write(f, stamps[0]));
      WritesRun(s1, f, stamps[1..]);
      RunCons(s, Write(f, stamps[0]), WritesTo(f, stamps[1..]));
      assert s.disk[f] + [stamps[0]] + stamps[1..] == s.disk[f] + stamps;
      assert s1.disk[f := s1.disk[f] + stamps[1..]] == s.disk[f := s.disk[f] + stamps];
    }
  }

  function StatAll(d: Disk): seq<Seen>
    requires DiskOk(d)
  {
    [StatOf(d, 0), StatOf(d, 1), StatOf(d, 2)]
  }

  lemma PutTwice(s: State, t: Tid, a: Pc, b: Pc)
    requires t in s.calls
    ensures Put(Put(s, t, a), t, b) == Put(s, t, b)
  {
    var c := s.calls[t];
    assert s.calls[t := c.(pc := a)][t := c.(pc := b)] == s.calls[t := c.(pc := b)];
  }

  /** The steps of newLiveAssets: stats, reads, and the end. */
  function StatSteps(boot: Tid): seq<Step> {
    [LockedStat(boot)] + ([LockedStat(boot)] + ([LockedStat(boot)] + ([LockedDecide(boot)] + [])))
  }

  function ReadSteps(boot: Tid): seq<Step> {
    [Read(boot)] + ([Read(boot)] + ([Read(boot)] + []))
  }

  function PublishSteps(boot: Tid): seq<Step> {
    [Publish(boot)] + ([Unlock(boot)] + [])
  }

  /** The boot call's stats, on a disk that stays as it is. */
  lemma {:induction false} BootStats(s: State, boot: Tid)
    requires DiskOk(s.disk) && s.published == []
    requires boot in s.calls && s.calls[boot].pc == LockedStating([])
    ensures var es := StatSteps(boot);
            IsRun(s, es) && After(s, es) == Put(s, boot, Loading(StatAll(s.disk), []))
  {
    var s1 := Apply(s, LockedStat(boot));
    var s2 := Apply(s1, LockedStat(boot));
    var s3 := Apply(s2, LockedStat(boot));
    RunCons(s3, LockedDecide(boot), []);
    RunCons(s2, LockedStat(boot), [LockedDecide(boot)] + []);
    RunCons(s1, LockedStat(boot), [LockedStat(boot)] + ([LockedDecide(boot)] + []));
    RunCons(s, LockedStat(boot), [LockedStat(boot)] + ([LockedStat(boot)] + ([LockedDecide(boot)] + [])));
    var a, b, c := StatOf(s.disk, 0), StatOf(s.disk, 1), StatOf(s.disk, 2);
    assert [] + [a] == [a] && [a] + [b] == [a, b] && [a, b] + [c] == [a, b, c];
    PutTwice(s, boot, LockedStating([a]), LockedStating([a, b]));
    PutTwice(s, boot, LockedStating([a, b]), LockedStating([a, b, c]));
    PutTwice(s, boot, LockedStating([a, b, c]), Loading([a, b, c], []));
  }

  /** Its reads, on a disk that stays as it is. */
  lemma {:induction false} BootReads(s: State, boot: Tid, seen: seq<Seen>)
    requires DiskOk(s.disk) && boot in s.calls && s.calls[boot].pc == Loading(seen, [])
    ensures var es := ReadSteps(boot);
            IsRun(s, es) && After(s, es) == Put(s, boot, Loading(seen, [Now(s.disk, 1), Now(s.disk, 0), Now(s.disk, 2)]))
  {
    assert READ_ORDER[0] == 1 && READ_ORDER[1] == 0 && READ_ORDER[2] == 2;
    var a, b, c := Now(s.disk, 1), Now(s.disk, 0), Now(s.disk, 2);
    var s1 := Apply(s, Read(boot));
    var s2 := Apply(s1, Read(boot));
    assert [] + [a] == [a] && [a] + [b] == [a, b] && [a, b] + [c] == [a, b, c];
    PutTwice(s, boot, Loading(seen, [a]), Loading(seen, [a, b]));
    PutTwice(s, boot, Loading(seen, [a, b]), Loading(seen, [a, b, c]));
    RunCons(s2, Read(boot), []);
    RunCons(s1, Read(boot), [Read(boot)] + []);
    RunCons(s, Read(boot), [Read(boot)] + ([Read(boot)] + []));
  }

  lemma {:induction false} BootPublishes(s: State, boot: Tid, seen: seq<Seen>, files: seq<nat>)
    requires DiskOk(s.disk) && s.published == [] && |files| == FILES
    requires boot in s.calls && s.calls[boot].pc == Loading(seen, files)
    ensures var es := PublishSteps(boot);
            var sn := Snapshot(seen, Assemble(files));
            IsRun(s, es) && After(s, es) == Put(s.(published := [sn], mu := None), boot, Returned(sn))
  {
    var s1 := Apply(s, Publish(boot));
    RunCons(s1, Unlock(boot), []);
    RunCons(s, Publish(boot), [Unlock(boot)] + []);
  }

  function BootSteps(boot: Tid): seq<Step> {
    StatSteps(boot) + ReadSteps(boot) + PublishSteps(boot)
  }

  /** Up to what it is about to publish. */
  lemma {:induction false} BootLoads(s: State, boot: Tid)
    requires DiskOk(s.disk) && s.published == []
    requires boot in s.calls && s.calls[boot].pc == LockedStating([])
    ensures var files := [Now(s.disk, 1), Now(s.disk, 0), Now(s.disk, 2)];
            IsRun(s, StatSteps(boot) + ReadSteps(boot)) &&
            After(s, StatSteps(boot) + ReadSteps(boot)) == Put(s, boot, Loading(StatAll(s.disk), files))
  {
    BootStats(s, boot);
    BootReads(After(s, StatSteps(boot)), boot, StatAll(s.disk));
    RunsJoin(s, StatSteps(boot), ReadSteps(boot));
    PutTwice(s, boot, Loading(StatAll(s.disk), []),
             Loading(StatAll(s.disk), [Now(s.disk, 1), Now(s.disk, 0), Now(s.disk, 2)]));
  }

  /** newLiveAssets, on a disk that stays as it is. */
  lemma {:induction false} BootRun(s: State, boot: Tid)
    requires DiskOk(s.disk) && s.published == []
    requires boot in s.calls && s.calls[boot].pc == LockedStating([])
    ensures var sn := Snapshot(StatAll(s.disk), NowAll(s.disk));
            IsRun(s, BootSteps(boot)) &&
            After(s, BootSteps(boot)) == Put(s.(published := [sn], mu := None), boot, Returned(sn))
  {
    var files := [Now(s.disk, 1), Now(s.disk, 0), Now(s.disk, 2)];
    var sn := Snapshot(StatAll(s.disk), NowAll(s.disk));
    BootLoads(s, boot);
    var s2 := After(s, StatSteps(boot) + ReadSteps(boot));
    BootPublishes(s2, boot, StatAll(s.disk), files);
    RunsJoin(s, StatSteps(boot) + ReadSteps(boot), PublishSteps(boot));
    assert Assemble(files) == NowAll(s.disk);
    PutTwice(s.(published := [sn], mu := None), boot, Loading(StatAll(s.disk), files), Returned(sn));
  }

  predicate PrefixDisk(a: Disk, b: Disk) {
    |a| == |b| && forall f :: 0 <= f < |a| ==> a[f] <= b[f]
  }

  /** Call t was given something older than the file it began with. */
  predicate Stale(s: State, t: Tid, f: nat)
    requires f < FILES
  {
    t in s.calls && s.calls[t].pc.Returned? && s.calls[t].pc.s.read[f] < s.calls[t].began[f]
  }

  /** A boot at version i, writes up to version j with the same stamp, and a call. */
  function UnseenSteps(f: nat, first: seq<Stamp>, later: seq<Stamp>): seq<Step> {
    WritesTo(f, first) + BootSteps(0) + WritesTo(f, later) + ([Begin(1)] + Checks(1))
  }

  /** Everything but the files is as at the start, with the one call done. */
  function Booted(disk: Disk): State
    requires DiskOk(disk)
  {
    var sn := Snapshot(StatAll(disk), NowAll(disk));
    State(true, disk, [sn], None, map[0 := Call(Returned(sn), [0, 0, 0])])
  }

  lemma {:induction false} BootOn(s0: State, disk: Disk)
    requires DiskOk(disk) && s0 == State(true, disk, [], Some(0), map[0 := Call(LockedStating([]), [0, 0, 0])])
    ensures IsRun(s0, BootSteps(0)) && After(s0, BootSteps(0)) == Booted(disk)
  {
    var sn := Snapshot(StatAll(disk), NowAll(disk));
    BootRun(s0, 0);
    assert Put(s0.(published := [sn], mu := None), 0, Returned(sn)).calls == map[0 := Call(Returned(sn), [0, 0, 0])];
  }

  lemma {:induction false} BootAfterWrites(stamps: seq<Stamp>, f: nat, first: seq<Stamp>)
    requires |stamps| == FILES && f < FILES
    ensures var s0, es := Start(true, stamps, 0), WritesTo(f, first) + BootSteps(0);
            IsRun(s0, es) && After(s0, es) == Booted(s0.disk[f := [stamps[f]] + first])
  {
    var s0 := Start(true, stamps, 0);
    WritesRun(s0, f, first);
    BootOn(After(s0, WritesTo(f, first)), s0.disk[f := [stamps[f]] + first]);
    RunsJoin(s0, WritesTo(f, first), BootSteps(0));
  }

  lemma {:induction false} UnseenWriteRun(stamps: seq<Stamp>, f: nat, first: seq<Stamp>, later: seq<Stamp>)
    requires |stamps| == FILES && f < FILES
    ensures var s0, es := Start(true, stamps, 0), WritesTo(f, first) + BootSteps(0) + WritesTo(f, later);
            IsRun(s0, es) &&
            After(s0, es) == Booted(s0.disk[f := [stamps[f]] + first]).(disk := s0.disk[f := [stamps[f]] + first + later])
  {
    var s0 := Start(true, stamps, 0);
    var boot := WritesTo(f, first) + BootSteps(0);
    BootAfterWrites(stamps, f, first);
    WritesRun(After(s0, boot), f, later);
    RunsJoin(s0, boot, WritesTo(f, later));
    assert s0.disk[f := [stamps[f]] + first][f := [stamps[f]] + first + later] ==
      s0.disk[f := [stamps[f]] + first + later];
  }

  /** What a repeated stamp leads to. */
  lemma {:induction false} UnseenWriteIsServedStale(stamps: seq<Stamp>, f: nat, first: seq<Stamp>, later: seq<Stamp>)
    requires |stamps| == FILES && f < FILES && later != []
    requires ([stamps[f]] + first)[|first|] == later[|later| - 1]
    ensures var s0, es := Start(true, stamps, 0), UnseenSteps(f, first, later);
            IsRun(s0, es) && After(s0, es).disk == s0.disk[f := [stamps[f]] + first + later] &&
            Stale(After(s0, es), 1, f)
  {
    var s0 := Start(true, stamps, 0);
    var es := WritesTo(f, first) + BootSteps(0) + WritesTo(f, later);
    UnseenWriteRun(stamps, f, first, later);
    var s2 := After(s0, es);
    UnseenCallReturns(s2, 1);
    RunsJoin(s0, es, [Begin(1)] + Checks(1));
    assert NowAll(s2.disk)[f] == Now(s2.disk, f) && Current(s2).read[f] == |first|;
  }

  /** Every call that has returned has a snapshot as new as its start. */
  predicate ReturnedAreFresh(s: State) {
    forall t :: t in s.calls && s.calls[t].pc.Returned? ==> AtLeast(s.calls[t].pc.s.read, s.calls[t].began)
  }

  /** In every run that writes no more than `d` holds, returned calls are fresh. */
  ghost predicate AlwaysFresh(d: Disk) {
    forall stamps: seq<Stamp>, boot: Tid, es: seq<Step> ::
      |stamps| == FILES && IsRun(Start(true, stamps, boot), es) &&
      PrefixDisk(After(Start(true, stamps, boot), es).disk, d) ==>
        ReturnedAreFresh(After(Start(true, stamps, boot), es))
  }

  lemma {:induction false} DistinctIsFresh(d: Disk, stamps: seq<Stamp>, boot: Tid, es: seq<Step>)
    requires DiskOk(d) && Distinct(d)
    requires |stamps| == FILES && IsRun(Start(true, stamps, boot), es)
    requires PrefixDisk(After(Start(true, stamps, boot), es).disk, d)
    ensures ReturnedAreFresh(After(Start(true, stamps, boot), es))
  {
    var s := After(Start(true, stamps, boot), es);
    forall f | 0 <= f < |s.disk|
      ensures NoDup(s.disk[f])
    {
      assert s.disk[f] == d[f][..|s.disk[f]|] && NoDup(d[f]);
    }
    StartInv(stamps, boot);
    RunIsFresh(Start(true, stamps, boot), es);
    assert forall t :: t in s.calls ==> FreshCall(s.calls[t]);
  }

  lemma {:induction false} RepeatIsNotAlwaysFresh(d: Disk, f: nat, i: nat, j: nat)
    requires DiskOk(d) && f < FILES && i < j < |d[f]| && d[f][i] == d[f][j]
    ensures !AlwaysFresh(d)
  {
    var stamps := [d[0][0], d[1][0], d[2][0]];
    var first, later := d[f][1..i + 1], d[f][i + 1..j + 1];
    assert [stamps[f]] + first == d[f][..i + 1];
    UnseenWriteIsServedStale(stamps, f, first, later);
    var s := After(Start(true, stamps, 0), UnseenSteps(f, first, later));
    assert [stamps[f]] + first + later == d[f][..j + 1];
    assert PrefixDisk(s.disk, d);
    assert !ReturnedAreFresh(s);
  }

  /** The stamps are what freshness rests on, and all it rests on: for any history of
      the files, every run over it serves fresh snapshots if and only if no file has
      one stamp twice. */
  lemma {:induction false} FreshExactlyIfStampsDiffer(d: Disk)
    requires DiskOk(d)
    ensures Distinct(d) <==> AlwaysFresh(d)
  {
    if Distinct(d) {
      forall stamps: seq<Stamp>, boot: Tid, es: seq<Step> |
        |stamps| == FILES && IsRun(Start(true, stamps, boot), es) &&
        PrefixDisk(After(Start(true, stamps, boot), es).disk, d)
        ensures ReturnedAreFresh(After(Start(true, stamps, boot), es))
      {
        DistinctIsFresh(d, stamps, boot, es);
      }
    } else {
      var f :| 0 <= f < |d| && !NoDup(d[f]);
      var i, j :| 0 <= i < j < |d[f]| && d[f][i] == d[f][j];
      RepeatIsNotAlwaysFresh(d, f, i, j);
    }
  }

  /** File 0 is missing when newLiveAssets stats it, is written as x before it is
      read, and is removed again. */
  function RemovedSteps(boot: Tid, t: Tid, missing: Stamp, x: Stamp): seq<Step> {
    StatSteps(boot) + WritesTo(0, [x]) + ReadSteps(boot) + PublishSteps(boot) +
    WritesTo(0, [missing]) + ([Begin(t)] + Checks(t))
  }

  /** Equal contents under equal stamps would not do either: a file that is missing
      again carries the stamp of its first absence, under which another version was
      read, and the next call returns that version. */
  lemma {:induction false} RemovedFileIsServed(stamps: seq<Stamp>, x: Stamp)
    requires |stamps| == FILES
    ensures var s0, es := Start(true, stamps, 0), RemovedSteps(0, 1, stamps[0], x);
            IsRun(s0, es) && After(s0, es).disk == [[stamps[0], x, stamps[0]], [stamps[1]], [stamps[2]]] &&
            var c := After(s0, es).calls;
            1 in c && c[1].pc.Returned? && c[1].pc.s.read[0] == 1 && c[1].began[0] == 2
  {
    RemovedBoot(stamps, x);
    var es := StatSteps(0) + WritesTo(0, [x]) + ReadSteps(0) + PublishSteps(0);
    var s0 := Start(true, stamps, 0);
    AfterRemoval(After(s0, es), stamps, x, s0, es);
  }

  /** File 0 is written between the boot call's stats and its reads. */
  lemma {:induction false} WrittenAfterStats(stamps: seq<Stamp>, x: Stamp)
    requires |stamps| == FILES
    ensures var s0, es := Start(true, stamps, 0), StatSteps(0) + WritesTo(0, [x]);
            IsRun(s0, es) &&
            After(s0, es) == State(true, [[stamps[0], x], [stamps[1]], [stamps[2]]], [], Some(0),
              map[0 := Call(Loading(StatAll(s0.disk), []), [0, 0, 0])])
  {
    var s0 := Start(true, stamps, 0);
    BootStats(s0, 0);
    WritesRun(After(s0, StatSteps(0)), 0, [x]);
    RunsJoin(s0, StatSteps(0), WritesTo(0, [x]));
    assert [stamps[0]] + [x] == [stamps[0], x];
    assert s0.disk[0 := [stamps[0], x]] == [[stamps[0], x], [stamps[1]], [stamps[2]]];
    assert Put(s0, 0, Loading(StatAll(s0.disk), [])).calls ==
      map[0 := Call(Loading(StatAll(s0.disk), []), [0, 0, 0])];
  }

  lemma {:induction false} RemovedLoads(stamps: seq<Stamp>, x: Stamp)
    requires |stamps| == FILES
    ensures var s0, es := Start(true, stamps, 0), StatSteps(0) + WritesTo(0, [x]) + ReadSteps(0);
            IsRun(s0, es) &&
            After(s0, es) == State(true, [[stamps[0], x], [stamps[1]], [stamps[2]]], [], Some(0),
              map[0 := Call(Loading(StatAll(s0.disk), [0, 1, 0]), [0, 0, 0])])
  {
    var s0 := Start(true, stamps, 0);
    var seen := StatAll(s0.disk);
    WrittenAfterStats(stamps, x);
    var s2 := After(s0, StatSteps(0) + WritesTo(0, [x]));
    BootReads(s2, 0, seen);
    RunsJoin(s0, StatSteps(0) + WritesTo(0, [x]), ReadSteps(0));
    assert Put(s2, 0, Loading(seen, [0, 1, 0])).calls == map[0 := Call(Loading(seen, [0, 1, 0]), [0, 0, 0])];
  }

  lemma {:induction false} RemovedBoot(stamps: seq<Stamp>, x: Stamp)
    requires |stamps| == FILES
    ensures var s0, es := Start(true, stamps, 0), StatSteps(0) + WritesTo(0, [x]) + ReadSteps(0) + PublishSteps(0);
            IsRun(s0, es) &&
            var s := After(s0, es);
            s.reload && s.disk == [[stamps[0], x], [stamps[1]], [stamps[2]]] && s.calls.Keys == {0} &&
            s.published == [Snapshot([Seen(stamps[0], 0), Seen(stamps[1], 0), Seen(stamps[2], 0)], [1, 0, 0])]
  {
    var s0 := Start(true, stamps, 0);
    RemovedLoads(stamps, x);
    var es := StatSteps(0) + WritesTo(0, [x]) + ReadSteps(0);
    BootPublishes(After(s0, es), 0, StatAll(s0.disk), [0, 1, 0]);
    RunsJoin(s0, es, PublishSteps(0));
  }

  lemma {:induction false} AfterRemoval(s: State, stamps: seq<Stamp>, x: Stamp, s0: State, es: seq<Step>)
    requires |stamps| == FILES && IsRun(s0, es) && After(s0, es) == s
    requires s.reload && s.disk == [[stamps[0], x], [stamps[1]], [stamps[2]]] && s.calls.Keys == {0}
    requires s.published == [Snapshot([Seen(stamps[0], 0), Seen(stamps[1], 0), Seen(stamps[2], 0)], [1, 0, 0])]
    ensures var all := es + WritesTo(0, [stamps[0]]) + ([Begin(1)] + Checks(1));
            IsRun(s0, all) && After(s0, all).disk == [[stamps[0], x, stamps[0]], [stamps[1]], [stamps[2]]] &&
            var c := After(s0, all).calls;
            1 in c && c[1].pc.Returned? && c[1].pc.s.read[0] == 1 && c[1].began[0] == 2
  {
    WritesRun(s, 0, [stamps[0]]);
    RunsJoin(s0, es, WritesTo(0, [stamps[0]]));
    var s1 := After(s, WritesTo(0, [stamps[0]]));
    assert [stamps[0], x] + [stamps[0]] == [stamps[0], x, stamps[0]];
    assert s1.disk == [[stamps[0], x, stamps[0]], [stamps[1]], [stamps[2]]];
    UnseenCallReturns(s1, 1);
    RunsJoin(s0, es + WritesTo(0, [stamps[0]]), [Begin(1)] + Checks(1));
  }

  predicate FixedInv(s: State) {
    !s.reload && |s.published| <= 1 &&
    (forall t :: t in s.calls ==>
       match s.calls[t].pc
       case LockedStating(_) => s.published == []
       case Loading(_, _) => s.published == []
       case Leaving(sn) => s.published == [sn]
       case Returned(sn) => s.published == [sn]
       case _ => false) &&
    (forall t, u :: t in s.calls && u in s.calls && s.published == [] ==> t == u)
  }

  lemma {:induction false} FixedRunKeeps(s: State, es: seq<Step>)
    requires FixedInv(s) && IsRun(s, es)
    ensures FixedInv(After(s, es))
    decreases |es|
  {
    if es != [] {
      FixedRunKeeps(Apply(s, es[0]), es[1..]);
    }
  }

  /** In production nothing is re-read: every call returns the startup snapshot. */
  lemma WithoutReloadNothingChanges(stamps: seq<Stamp>, boot: Tid, es: seq<Step>, t: Tid)
    requires |stamps| == FILES && IsRun(Start(false, stamps, boot), es)
    requires t in After(Start(false, stamps, boot), es).calls
    requires After(Start(false, stamps, boot), es).calls[t].pc.Returned?
    ensures var s := After(Start(false, stamps, boot), es);
            s.published == [s.calls[t].pc.s]
  {
    FixedRunKeeps(Start(false, stamps, boot), es);
  }
}
