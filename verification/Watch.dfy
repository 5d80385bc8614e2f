/** The rebuild scheduler behind `run.sh --watch` (scripts/watch.ts): debounced
    edits coalesce in a set, one drain loop builds them, and a successful Go
    build replaces the server process across asynchronous exits.

    The state is the module's variables plus the suspended continuations (one
    per `drain` call, one for `shutdown`) and the child processes. `log` is a
    record of what happened; no branch reads it. */
module Watch {
  import opened Prelude

  datatype Kind = Css | Js | Go

  /** A server process: `Dead` has ended but its exit event is still queued. */
  datatype Life = Running | Dead | Reaped

  type Pid = nat

  /** A `drain` call, by the await it is suspended at. */
  datatype Drain =
    | Building(kind: Kind, rest: seq<Kind>)
    | Replacing(awaited: Option<Pid>, rest: seq<Kind>)
    | Finished

  datatype Shutdown = NotAsked | Awaiting(awaited: Option<Pid>) | Exited

  datatype Note = Edited(kind: Kind) | Started(kind: Kind) | Built(kind: Kind, ok: bool) | Spawned

  datatype State = State(
    pending: set<Kind>,
    timer: bool,
    building: bool,
    stopping: bool,
    server: Option<Pid>,
    drains: seq<Drain>,
    procs: seq<Life>,
    shutdown: Shutdown,
    log: seq<Note>)

  datatype Event =
    | Edit(kind: Kind)
    | Fire
    | BuildEnds(d: nat, ok: bool)
    | Replaced(d: nat)
    | Die(p: Pid)
    | ExitEvent(p: Pid)
    | Signal
    | ShutdownEnds

  // ── The transitions ───────────────────────────────────────────────────────

  /** ORDER: frontend first, so a restarted server comes up on the new bundles. */
  function Rank(k: Kind): nat {
    match k case Css => 0 case Js => 1 case Go => 2
  }

  function InOrder(pending: set<Kind>): (r: seq<Kind>)
    ensures forall k :: k in pending <==> k in r
    ensures |r| == |pending|
    ensures forall i, j :: 0 <= i < j < |r| ==> Rank(r[i]) < Rank(r[j])
  {
    var css := if Css in pending then [Css] else [];
    var js := if Js in pending then [Js] else [];
    var go := if Go in pending then [Go] else [];
    CountKinds(pending);
    css + js + go
  }

  lemma CountKinds(p: set<Kind>)
    ensures |p| == (if Css in p then 1 else 0) + (if Js in p then 1 else 0) + (if Go in p then 1 else 0)
    ensures forall k :: k in p <==>
              k in (if Css in p then [Css] else []) + (if Js in p then [Js] else []) + (if Go in p then [Go] else [])
  {
    var css := if Css in p then {Css} else {};
    var js := if Js in p then {Js} else {};
    var go := if Go in p then {Go} else {};
    forall k: Kind
      ensures k in p <==> k in css + js + go
      ensures k in p <==>
              k in (if Css in p then [Css] else []) + (if Js in p then [Js] else []) + (if Go in p then [Go] else [])
    {
      match k case Css => case Js => case Go =>
    }
    assert p == css + js + go;
  }

  function Record(s: State, n: Note): State {
    s.(log := s.log + [n])
  }

  function StartBuild(s: State, d: nat, kind: Kind, rest: seq<Kind>): State
    requires d < |s.drains|
  {
    Record(s.(drains := s.drains[d := Building(kind, rest)]), Started(kind))
  }

  /** The code of drain `d` from the end of one build to its next await: the rest
      of the batch, else a new batch, else the end. */
  function Continue(s: State, d: nat, rest: seq<Kind>): State
    requires d < |s.drains|
  {
    if s.stopping then
      s.(drains := s.drains[d := Finished], building := false)
    else if rest != [] then
      StartBuild(s, d, rest[0], rest[1..])
    else if s.pending == {} then
      s.(drains := s.drains[d := Finished], building := false)
    else
      var kinds := InOrder(s.pending);
      StartBuild(s.(pending := {}), d, kinds[0], kinds[1..])
  }

  function WithServer(s: State): State {
    Record(s.(procs := s.procs + [Running], server := Some(|s.procs|)), Spawned)
  }

  /** The process `stopServer` waits for, if any. */
  function ToAwait(s: State): Option<Pid> {
    match s.server
    case None => None
    case Some(p) => if p < |s.procs| && s.procs[p].Reaped? then None else Some(p)
  }

  predicate Gone(s: State, awaited: Option<Pid>) {
    match awaited
    case None => true
    case Some(p) => p < |s.procs| && s.procs[p].Reaped?
  }

  predicate Enabled(s: State, e: Event) {
    !s.shutdown.Exited? &&
    match e
    case Edit(_) => true
    case Fire => s.timer
    case BuildEnds(d, _) => d < |s.drains| && s.drains[d].Building?
    case Replaced(d) => d < |s.drains| && s.drains[d].Replacing? && Gone(s, s.drains[d].awaited)
    case Die(p) => p < |s.procs| && s.procs[p].Running?
    case ExitEvent(p) => p < |s.procs| && s.procs[p].Dead?
    case Signal => true
    case ShutdownEnds => s.shutdown.Awaiting? && Gone(s, s.shutdown.awaited)
  }

  function Apply(s: State, e: Event): State
    requires Enabled(s, e)
  {
    match e
    case Edit(kind) =>
      Record(s.(pending := s.pending + {kind}, timer := true), Edited(kind))
    case Fire =>
      var s1 := s.(timer := false);
      if s1.building then s1
      else Continue(s1.(building := true, drains := s1.drains + [Finished]), |s1.drains|, [])
    case BuildEnds(d, ok) =>
      var build := s.drains[d];
      var s1 := Record(s, Built(build.kind, ok));
      if ok && build.kind == Go then
        s1.(server := None, drains := s1.drains[d := Replacing(ToAwait(s1), build.rest)])
      else
        Continue(s1, d, build.rest)
    case Replaced(d) =>
      var s1 := if s.stopping then s else WithServer(s);
      Continue(s1, d, s.drains[d].rest)
    case Die(p) => s.(procs := s.procs[p := Dead])
    case ExitEvent(p) =>
      s.(procs := s.procs[p := Reaped], server := if s.server == Some(p) then None else s.server)
    case Signal =>
      if s.stopping then s
      else s.(stopping := true, timer := false, server := None, shutdown := Awaiting(ToAwait(s)))
    case ShutdownEnds => s.(shutdown := Exited)
  }

  const START: State :=
    WithServer(State({}, false, false, false, None, [], [], NotAsked, []))

  predicate IsRun(s: State, es: seq<Event>)
    decreases |es|
  {
    es == [] || (Enabled(s, es[0]) && IsRun(Apply(s, es[0]), es[1..]))
  }

  function After(s: State, es: seq<Event>): State
    requires IsRun(s, es)
    decreases |es|
  {
    if es == [] then s else After(Apply(s, es[0]), es[1..])
  }

  // ── What the log says ─────────────────────────────────────────────────────

  /** The last edit of kind `k` has no build start of its kind after it. */
  predicate Stale(log: seq<Note>, k: Kind) {
    log != [] &&
    var last := log[|log| - 1];
    last == Edited(k) || (last != Started(k) && Stale(log[..|log| - 1], k))
  }

  /** A Go build has succeeded and no server was started since. */
  predicate Outdated(log: seq<Note>) {
    log != [] &&
    var last := log[|log| - 1];
    last == Built(Go, true) || (last != Spawned && Outdated(log[..|log| - 1]))
  }

  lemma {:induction false} NotStale(log: seq<Note>, k: Kind, i: nat)
    requires i < |log| && log[i] == Edited(k)
    ensures Stale(log, k) || exists j :: i < j < |log| && log[j] == Started(k)
  {
    var n := |log| - 1;
    if i < n && log[n] != Started(k) && log[n] != Edited(k) {
      NotStale(log[..n], k, i);
      if !Stale(log[..n], k) {
        var j :| i < j < n && log[..n][j] == Started(k);
        assert log[j] == Started(k);
      }
    }
  }

  lemma {:induction false} NotOutdated(log: seq<Note>, i: nat)
    requires i < |log| && log[i] == Built(Go, true)
    ensures Outdated(log) || exists j :: i < j < |log| && log[j] == Spawned
  {
    var n := |log| - 1;
    if i < n && log[n] != Spawned && log[n] != Built(Go, true) {
      NotOutdated(log[..n], i);
      if !Outdated(log[..n]) {
        var j :| i < j < n && log[..n][j] == Spawned;
        assert log[j] == Spawned;
      }
    }
  }

  lemma NoteEffect(s: State, n: Note)
    ensures forall k :: Stale(Record(s, n).log, k) <==> n == Edited(k) || (n != Started(k) && Stale(s.log, k))
    ensures Outdated(Record(s, n).log) <==> n == Built(Go, true) || (n != Spawned && Outdated(s.log))
  {
    assert Record(s, n).log[..|s.log|] == s.log;
  }

  // ── The invariant ─────────────────────────────────────────────────────────

  /** The latest drain: the only one that may be unfinished. */
  function Active(s: State): Drain {
    if s.drains == [] then Finished else s.drains[|s.drains| - 1]
  }

  predicate DrainsOk(s: State) {
    (forall d :: 0 <= d < |s.drains| - 1 ==> s.drains[d].Finished?) &&
    (s.building <==> !Active(s).Finished?)
  }

  predicate Unreaped(procs: seq<Life>, p: nat) {
    p < |procs| && !procs[p].Reaped?
  }

  /** One process at most is not reaped; while not stopping, it is the server or
      the one the active drain is waiting for. */
  ghost predicate ProcsOk(procs: seq<Life>, server: Option<Pid>, stopping: bool, active: Drain) {
    (server.Some? ==> Unreaped(procs, server.value)) &&
    (forall p: nat, q: nat :: Unreaped(procs, p) && Unreaped(procs, q) ==> p == q) &&
    (active.Replacing? ==>
       server == None && (active.awaited.Some? ==> active.awaited.value < |procs|)) &&
    (!stopping && server == None ==>
       forall p: nat :: Unreaped(procs, p) ==> active.Replacing? && active.awaited == Some(p)) &&
    (stopping ==> server == None)
  }

  /** While not stopping, no edit is forgotten and no finished Go build either. */
  ghost predicate WorkOk(s: State) {
    !s.stopping ==>
      (s.pending != {} ==> s.timer || s.building) &&
      (forall k :: Stale(s.log, k) ==>
         k in s.pending || (!Active(s).Finished? && k in Active(s).rest)) &&
      (Outdated(s.log) ==> Active(s).Replacing?)
  }

  ghost predicate Inv(s: State) {
    DrainsOk(s) && WorkOk(s) &&
    ProcsOk(s.procs, s.server, s.stopping, Active(s)) &&
    (s.stopping <==> !s.shutdown.NotAsked?)
  }

  lemma StartInv()
    ensures Inv(START)
  {
    assert START.log == [Spawned];
  }

  /** What a build's start does to the drains. */
  lemma {:induction false} StartedDrains(s: State, d: nat, kind: Kind, rest: seq<Kind>)
    requires s.drains != [] && d == |s.drains| - 1 && s.building
    requires forall e :: 0 <= e < d ==> s.drains[e].Finished?
    ensures DrainsOk(StartBuild(s, d, kind, rest))
    ensures Active(StartBuild(s, d, kind, rest)) == Building(kind, rest)
  {
  }

  /** What it does to the work left. */
  lemma {:induction false} StartedWork(s: State, d: nat, kind: Kind, rest: seq<Kind>)
    requires s.drains != [] && d == |s.drains| - 1 && s.building
    requires !Outdated(s.log) && forall k :: Stale(s.log, k) ==> k in s.pending || k == kind || k in rest
    ensures WorkOk(StartBuild(s, d, kind, rest))
  {
    NoteEffect(s, Started(kind));
    assert StartBuild(s, d, kind, rest).log == s.log + [Started(kind)];
  }

  lemma {:induction false} StartBuildKeeps(s: State, d: nat, kind: Kind, rest: seq<Kind>)
    requires s.drains != [] && d == |s.drains| - 1 && s.building && !s.stopping
    requires forall e :: 0 <= e < d ==> s.drains[e].Finished?
    requires ProcsOk(s.procs, s.server, s.stopping, Finished) && s.shutdown.NotAsked?
    requires !Outdated(s.log) && forall k :: Stale(s.log, k) ==> k in s.pending || k == kind || k in rest
    ensures Inv(StartBuild(s, d, kind, rest))
  {
    StartedDrains(s, d, kind, rest);
    StartedWork(s, d, kind, rest);
    var s' := StartBuild(s, d, kind, rest);
    assert ProcsOk(s'.procs, s'.server, s'.stopping, Active(s'));
  }

  lemma {:induction false} EndDrainKeeps(s: State, d: nat)
    requires s.drains != [] && d == |s.drains| - 1
    requires forall e :: 0 <= e < d ==> s.drains[e].Finished?
    requires ProcsOk(s.procs, s.server, s.stopping, Finished) && (s.stopping <==> !s.shutdown.NotAsked?)
    requires !s.stopping ==> s.pending == {} && !Outdated(s.log) && forall k :: !Stale(s.log, k)
    ensures Inv(s.(drains := s.drains[d := Finished], building := false))
  {
  }

  /** `Continue` from the end of a build, or of a restart, of the active drain. */
  lemma {:induction false} ContinueKeeps(s: State, d: nat, rest: seq<Kind>)
    requires s.drains != [] && d == |s.drains| - 1 && s.building
    requires forall e :: 0 <= e < d ==> s.drains[e].Finished?
    requires ProcsOk(s.procs, s.server, s.stopping, Finished) && (s.stopping <==> !s.shutdown.NotAsked?)
    requires !s.stopping ==>
               !Outdated(s.log) && forall k :: Stale(s.log, k) ==> k in s.pending || k in rest
    ensures Inv(Continue(s, d, rest))
  {
    if s.stopping || (rest == [] && s.pending == {}) {
      EndDrainKeeps(s, d);
    } else if rest != [] {
      StartBuildKeeps(s, d, rest[0], rest[1..]);
    } else {
      var kinds := InOrder(s.pending);
      StartBuildKeeps(s.(pending := {}), d, kinds[0], kinds[1..]);
    }
  }

  lemma FireKeeps(s: State)
    requires Inv(s) && Enabled(s, Fire)
    ensures Inv(Apply(s, Fire))
  {
    if !s.building {
      var s1 := s.(timer := false, building := true, drains := s.drains + [Finished]);
      assert s1.drains[|s.drains| := Finished] == s1.drains;
      ContinueKeeps(s1, |s.drains|, []);
    }
  }

  lemma {:induction false} BuildEndsKeeps(s: State, d: nat, ok: bool)
    requires Inv(s) && Enabled(s, BuildEnds(d, ok))
    ensures Inv(Apply(s, BuildEnds(d, ok)))
  {
    var kind := s.drains[d].kind;
    NoteEffect(s, Built(kind, ok));
    assert d == |s.drains| - 1;
    assert Active(s) == s.drains[d];
    if !(ok && kind == Go) {
      ContinueKeeps(Record(s, Built(kind, ok)), d, s.drains[d].rest);
    }
  }

  /** When the awaited process is gone, every process is. */
  lemma NewServerIsAlone(s: State, d: nat)
    requires Inv(s) && Enabled(s, Replaced(d)) && !s.stopping && d == |s.drains| - 1
    ensures forall p: nat :: Unreaped(s.procs + [Running], p) ==> p == |s.procs|
  {
    forall p: nat | Unreaped(s.procs + [Running], p) && p < |s.procs|
      ensures false
    {
      assert Unreaped(s.procs, p);
    }
  }

  lemma {:induction false} ReplacedKeeps(s: State, d: nat)
    requires Inv(s) && Enabled(s, Replaced(d))
    ensures Inv(Apply(s, Replaced(d)))
  {
    assert d == |s.drains| - 1;
    var s1 := if s.stopping then s else WithServer(s);
    if !s.stopping {
      NoteEffect(s.(procs := s1.procs, server := s1.server), Spawned);
      NewServerIsAlone(s, d);
    }
    ContinueKeeps(s1, d, s.drains[d].rest);
  }

  lemma StepKeeps(s: State, e: Event)
    requires Inv(s) && Enabled(s, e)
    ensures Inv(Apply(s, e))
  {
    match e
    case Edit(kind) => NoteEffect(s, Edited(kind));
    case Fire => FireKeeps(s);
    case BuildEnds(d, ok) => BuildEndsKeeps(s, d, ok);
    case Replaced(d) => ReplacedKeeps(s, d);
    case Die(p) => ReapingKeeps(s, e);
    case ExitEvent(p) => ReapingKeeps(s, e);
    case Signal =>
    case ShutdownEnds =>
  }

  lemma ReapingKeeps(s: State, e: Event)
    requires Inv(s) && Enabled(s, e) && (e.Die? || e.ExitEvent?)
    ensures Inv(Apply(s, e))
  {
    var s' := Apply(s, e);
    assert forall q: nat :: Unreaped(s'.procs, q) ==> Unreaped(s.procs, q);
    assert s.server.Some? && s'.server.Some? ==> Unreaped(s'.procs, s.server.value);
    assert Active(s') == Active(s);
    if e.ExitEvent? && s.server == Some(e.p) {
      assert forall q: nat :: Unreaped(s'.procs, q) ==> Unreaped(s.procs, q) && q != e.p;
    }
  }

  lemma {:induction false} RunKeeps(s: State, es: seq<Event>)
    requires Inv(s) && IsRun(s, es)
    ensures Inv(After(s, es))
    decreases |es|
  {
    if es != [] {
      StepKeeps(s, es[0]);
      RunKeeps(Apply(s, es[0]), es[1..]);
    }
  }

  // ── Over every run ────────────────────────────────────────────────────────

  lemma {:induction false} OneBuildOneServer(es: seq<Event>)
    requires IsRun(START, es)
    ensures var s := After(START, es);
            (forall d, e | 0 <= d < |s.drains| && 0 <= e < |s.drains| ::
               s.drains[d].Building? && s.drains[e].Building? ==> d == e) &&
            (forall p, q | 0 <= p < |s.procs| && 0 <= q < |s.procs| ::
               s.procs[p].Running? && s.procs[q].Running? ==> p == q)
  {
    StartInv();
    RunKeeps(START, es);
    var s := After(START, es);
    forall p, q | 0 <= p < |s.procs| && 0 <= q < |s.procs| && s.procs[p].Running? && s.procs[q].Running?
      ensures p == q
    {
      assert Unreaped(s.procs, p) && Unreaped(s.procs, q);
    }
  }

  predicate Starts(n: Note) {
    n.Started? || n.Spawned?
  }

  /** Once stopping, no build and no server is started. */
  lemma {:induction false} NothingStartsAfterStopping(s: State, es: seq<Event>)
    requires s.stopping && IsRun(s, es)
    ensures var s' := After(s, es);
            s'.stopping && |s'.procs| == |s.procs| && s.log <= s'.log &&
            forall i :: |s.log| <= i < |s'.log| ==> !Starts(s'.log[i])
    decreases |es|
  {
    if es != [] {
      NothingStartsAfterStopping(Apply(s, es[0]), es[1..]);
    }
  }

  lemma NothingForgotten(s: State, i: nat)
    requires Inv(s) && !s.stopping && i < |s.log| && s.log[i].Edited?
    ensures var k := s.log[i].kind;
            (exists j :: i < j < |s.log| && s.log[j] == Started(k)) ||
            (k in s.pending && (s.timer || s.building)) ||
            (exists d :: 0 <= d < |s.drains| && !s.drains[d].Finished? && k in s.drains[d].rest)
  {
    var k := s.log[i].kind;
    NotStale(s.log, k, i);
    if Stale(s.log, k) && k !in s.pending {
      assert !s.drains[|s.drains| - 1].Finished?;
    }
  }

  /** Until the watcher is told to stop, an edit either has a later build start of
      its kind, or is pending (and then a timer is armed or a drain is running),
      or is left in the batch being built. */
  lemma {:induction false} NoEditIsForgotten(es: seq<Event>, i: nat)
    requires IsRun(START, es) && !After(START, es).stopping
    requires i < |After(START, es).log| && After(START, es).log[i].Edited?
    ensures var s := After(START, es);
            var k := s.log[i].kind;
            (exists j :: i < j < |s.log| && s.log[j] == Started(k)) ||
            (k in s.pending && (s.timer || s.building)) ||
            (exists d :: 0 <= d < |s.drains| && !s.drains[d].Finished? && k in s.drains[d].rest)
  {
    StartInv();
    RunKeeps(START, es);
    NothingForgotten(After(START, es), i);
  }

  /** With no timer armed and no drain running, every edit was built after it was
      made and the server is newer than the last successful Go build. */
  lemma {:induction false} AtRestEverythingIsBuilt(es: seq<Event>)
    requires IsRun(START, es)
    requires var s := After(START, es); !s.stopping && !s.timer && !s.building
    ensures var s := After(START, es);
            s.pending == {} &&
            (forall i :: 0 <= i < |s.log| && s.log[i].Edited? ==>
               exists j :: i < j < |s.log| && s.log[j] == Started(s.log[i].kind)) &&
            (forall i :: 0 <= i < |s.log| && s.log[i] == Built(Go, true) ==>
               exists j :: i < j < |s.log| && s.log[j] == Spawned)
  {
    StartInv();
    RunKeeps(START, es);
    var s := After(START, es);
    forall i | 0 <= i < |s.log| && s.log[i].Edited?
      ensures exists j :: i < j < |s.log| && s.log[j] == Started(s.log[i].kind)
    {
      NotStale(s.log, s.log[i].kind, i);
    }
    forall i | 0 <= i < |s.log| && s.log[i] == Built(Go, true)
      ensures exists j :: i < j < |s.log| && s.log[j] == Spawned
    {
      NotOutdated(s.log, i);
    }
  }

  // ── What a server is replaced for ─────────────────────────────────────────

  /** The running server is let go by the end of a successful Go build, by its own
      exit and by the first signal, and taken on when its predecessor is gone: by
      nothing else. */
  lemma ServerChangesOnlyThen(s: State, e: Event)
    requires Enabled(s, e)
    ensures var s' := Apply(s, e);
            (s'.server != s.server ==>
               (e.BuildEnds? && e.ok && s.drains[e.d].kind == Go && s'.server == None) ||
               (e.Replaced? && !s.stopping && s'.server == Some(|s.procs|)) ||
               (e.ExitEvent? && s.server == Some(e.p) && s'.server == None) ||
               (e.Signal? && !s.stopping && s'.server == None)) &&
            (e.Replaced? && !s.stopping ==>
               s'.server == Some(|s.procs|) && s'.procs == s.procs + [Running]) &&
            (!(e.Replaced? && !s.stopping) && !e.Die? && !e.ExitEvent? ==> s'.procs == s.procs)
  {
  }

  /** A build that failed leaves the server and every process alone. */
  lemma FailedBuildKeepsServer(s: State, d: nat)
    requires Enabled(s, BuildEnds(d, false))
    ensures var s' := Apply(s, BuildEnds(d, false));
            s'.server == s.server && s'.procs == s.procs && s'.log[|s.log|] == Built(s.drains[d].kind, false) &&
            !s'.drains[d].Replacing?
  {
    ServerChangesOnlyThen(s, BuildEnds(d, false));
  }

  /** Each server after the first has a finished Go build right before it. */
  ghost predicate SpawnsPaid(log: seq<Note>) {
    forall j :: 0 < j < |log| && log[j] == Spawned ==> Outdated(log[..j])
  }

  ghost predicate SpawnOk(s: State) {
    SpawnsPaid(s.log) && s.log != [] && multiset(s.log)[Spawned] == |s.procs| &&
    (Active(s).Replacing? ==> Outdated(s.log))
  }

  lemma {:induction false} NoteIsPaid(s: State, n: Note)
    requires SpawnsPaid(s.log) && s.log != [] && (n == Spawned ==> Outdated(s.log))
    ensures SpawnsPaid(Record(s, n).log)
    ensures multiset(Record(s, n).log)[Spawned] == multiset(s.log)[Spawned] + (if n == Spawned then 1 else 0)
  {
    var log := s.log + [n];
    forall j | 0 < j < |log| && log[j] == Spawned
      ensures Outdated(log[..j])
    {
      assert log[..j] == s.log[..j];
      assert s.log[..|s.log|] == s.log;
    }
  }

  lemma {:induction false} ContinueIsPaid(s: State, d: nat, rest: seq<Kind>)
    requires SpawnsPaid(s.log) && s.log != [] && multiset(s.log)[Spawned] == |s.procs|
    requires s.drains != [] && d == |s.drains| - 1
    ensures SpawnOk(Continue(s, d, rest))
  {
    var kinds := if rest != [] || s.pending == {} then rest else InOrder(s.pending);
    if !s.stopping && kinds != [] {
      NoteIsPaid(s, Started(kinds[0]));
      assert Continue(s, d, rest).log == Record(s, Started(kinds[0])).log;
    }
  }

  lemma {:induction false} EditIsPaid(s: State, kind: Kind)
    requires SpawnOk(s) && Enabled(s, Edit(kind))
    ensures SpawnOk(Apply(s, Edit(kind)))
  {
    NoteIsPaid(s, Edited(kind));
    NoteEffect(s, Edited(kind));
  }

  lemma {:induction false} FireIsPaid(s: State)
    requires SpawnOk(s) && Enabled(s, Fire)
    ensures SpawnOk(Apply(s, Fire))
  {
    if !s.building {
      ContinueIsPaid(s.(timer := false, building := true, drains := s.drains + [Finished]), |s.drains|, []);
    }
  }

  lemma {:induction false} BuildEndIsPaid(s: State, d: nat, ok: bool)
    requires Inv(s) && SpawnOk(s) && Enabled(s, BuildEnds(d, ok))
    ensures SpawnOk(Apply(s, BuildEnds(d, ok)))
  {
    var n := Built(s.drains[d].kind, ok);
    NoteIsPaid(s, n);
    NoteEffect(s, n);
    if !(ok && s.drains[d].kind == Go) {
      ContinueIsPaid(Record(s, n), d, s.drains[d].rest);
    }
  }

  lemma {:induction false} ReplacedIsPaid(s: State, d: nat)
    requires Inv(s) && SpawnOk(s) && Enabled(s, Replaced(d))
    ensures SpawnOk(Apply(s, Replaced(d)))
  {
    NoteIsPaid(s, Spawned);
    ContinueIsPaid(if s.stopping then s else WithServer(s), d, s.drains[d].rest);
  }

  lemma {:induction false} StepIsPaid(s: State, e: Event)
    requires Inv(s) && SpawnOk(s) && Enabled(s, e)
    ensures SpawnOk(Apply(s, e))
  {
    match e
    case Edit(kind) => EditIsPaid(s, kind);
    case Fire => FireIsPaid(s);
    case BuildEnds(d, ok) => BuildEndIsPaid(s, d, ok);
    case Replaced(d) => ReplacedIsPaid(s, d);
    case _ =>
  }

  lemma {:induction false} RunIsPaid(s: State, es: seq<Event>)
    requires Inv(s) && SpawnOk(s) && IsRun(s, es)
    ensures SpawnOk(After(s, es))
    decreases |es|
  {
    if es != [] {
      StepKeeps(s, es[0]);
      StepIsPaid(s, es[0]);
      RunIsPaid(Apply(s, es[0]), es[1..]);
    }
  }

  lemma {:induction false} OutdatedBy(log: seq<Note>) returns (m: nat)
    requires Outdated(log)
    ensures m < |log| && log[m] == Built(Go, true)
    ensures forall j :: m < j < |log| ==> log[j] != Spawned
  {
    var n := |log| - 1;
    if log[n] == Built(Go, true) {
      m := n;
    } else {
      m := OutdatedBy(log[..n]);
      assert forall j :: m < j < n ==> log[j] == log[..n][j];
    }
  }

  /** No server is replaced without a Go build that succeeded: between two servers
      started there is one. The log has one entry for each process there has been. */
  lemma {:induction false} OnlyGoBuildsReplaceTheServer(es: seq<Event>, i: nat, j: nat)
    requires IsRun(START, es)
    requires var log := After(START, es).log; i < j < |log| && log[i] == Spawned && log[j] == Spawned
    ensures exists m :: i < m < j && After(START, es).log[m] == Built(Go, true)
    ensures multiset(After(START, es).log)[Spawned] == |After(START, es).procs|
  {
    StartInv();
    assert START.log == [Spawned];
    RunIsPaid(START, es);
    var log := After(START, es).log;
    var m := OutdatedBy(log[..j]);
    assert log[..j][m] == log[m] && log[..j][i] == Spawned;
  }

  // ── What a build is run for ───────────────────────────────────────────────

  function Left(d: Drain): seq<Kind> {
    if d.Finished? then [] else d.rest
  }

  /** Every build of kind k started, and every one still to come, has an edit of its own. */
  predicate Owed(log: seq<Note>, pending: set<Kind>, rest: seq<Kind>, k: Kind) {
    multiset(log)[Started(k)] + (if k in pending then 1 else 0) + multiset(rest)[k] <= multiset(log)[Edited(k)]
  }

  predicate BuildsPaid(s: State, k: Kind) {
    Owed(s.log, s.pending, Left(Active(s)), k)
  }

  lemma {:induction false} OneMore(log: seq<Note>, n: Note, m: Note)
    ensures multiset(log + [n])[m] == multiset(log)[m] + (if n == m then 1 else 0)
  {
  }

  lemma {:induction false} OwedAfter(log: seq<Note>, n: Note, pending: set<Kind>, rest: seq<Kind>, k: Kind)
    requires Owed(log, pending, rest, k) && n != Started(k)
    ensures Owed(log + [n], pending, rest, k)
  {
    OneMore(log, n, Started(k));
    OneMore(log, n, Edited(k));
  }

  lemma {:induction false} OwedEdit(log: seq<Note>, pending: set<Kind>, rest: seq<Kind>, kind: Kind, k: Kind)
    requires Owed(log, pending, rest, k)
    ensures Owed(log + [Edited(kind)], pending + {kind}, rest, k)
  {
    OneMore(log, Edited(kind), Started(k));
    OneMore(log, Edited(kind), Edited(k));
  }

  lemma {:induction false} OwedStart(log: seq<Note>, pending: set<Kind>, rest: seq<Kind>, k: Kind)
    requires rest != [] && Owed(log, pending, rest, k)
    ensures Owed(log + [Started(rest[0])], pending, rest[1..], k)
  {
    OneMore(log, Started(rest[0]), Started(k));
    OneMore(log, Started(rest[0]), Edited(k));
    assert rest == [rest[0]] + rest[1..];
    assert multiset(rest) == multiset{rest[0]} + multiset(rest[1..]);
  }

  lemma {:induction false} TakenOnce(p: set<Kind>, k: Kind)
    ensures multiset(InOrder(p))[k] == if k in p then 1 else 0
  {
    var r := InOrder(p);
    assert forall i, j :: 0 <= i < j < |r| ==> r[i] != r[j];
    CountedOnce(r);
    assert k in r <==> k in p;
  }

  lemma {:induction false} CountedOnce(r: seq<Kind>)
    requires forall i, j :: 0 <= i < j < |r| ==> r[i] != r[j]
    ensures forall k :: multiset(r)[k] == if k in r then 1 else 0
  {
    if r != [] {
      var n := |r| - 1;
      CountedOnce(r[..n]);
      assert r == r[..n] + [r[n]];
      assert r[n] !in r[..n];
    }
  }

  lemma {:induction false} ContinueIsOwed(s: State, d: nat, rest: seq<Kind>, k: Kind)
    requires s.drains != [] && d == |s.drains| - 1
    requires Owed(s.log, s.pending, rest, k)
    ensures BuildsPaid(Continue(s, d, rest), k)
  {
    var s' := Continue(s, d, rest);
    if s.stopping || (rest == [] && s.pending == {}) {
      assert Left(Active(s')) == [];
    } else if rest != [] {
      OwedStart(s.log, s.pending, rest, k);
      assert Left(Active(s')) == rest[1..];
    } else {
      var kinds := InOrder(s.pending);
      TakenOnce(s.pending, k);
      OwedStart(s.log, {}, kinds, k);
      assert Left(Active(s')) == kinds[1..];
    }
  }

  lemma {:induction false} BuildEndIsOwed(s: State, d: nat, ok: bool, k: Kind)
    requires Inv(s) && BuildsPaid(s, k) && Enabled(s, BuildEnds(d, ok))
    ensures BuildsPaid(Apply(s, BuildEnds(d, ok)), k)
  {
    assert Active(s) == s.drains[d];
    var n := Built(s.drains[d].kind, ok);
    OwedAfter(s.log, n, s.pending, s.drains[d].rest, k);
    if !(ok && s.drains[d].kind == Go) {
      ContinueIsOwed(Record(s, n), d, s.drains[d].rest, k);
    }
  }

  lemma {:induction false} ReplacedIsOwed(s: State, d: nat, k: Kind)
    requires Inv(s) && BuildsPaid(s, k) && Enabled(s, Replaced(d))
    ensures BuildsPaid(Apply(s, Replaced(d)), k)
  {
    assert Active(s) == s.drains[d];
    OwedAfter(s.log, Spawned, s.pending, s.drains[d].rest, k);
    ContinueIsOwed(if s.stopping then s else WithServer(s), d, s.drains[d].rest, k);
  }

  lemma {:induction false} FireIsOwed(s: State, k: Kind)
    requires Inv(s) && BuildsPaid(s, k) && Enabled(s, Fire)
    ensures BuildsPaid(Apply(s, Fire), k)
  {
    if !s.building {
      ContinueIsOwed(s.(timer := false, building := true, drains := s.drains + [Finished]), |s.drains|, [], k);
    }
  }

  lemma {:induction false} StepIsOwed(s: State, e: Event, k: Kind)
    requires Inv(s) && BuildsPaid(s, k) && Enabled(s, e)
    ensures BuildsPaid(Apply(s, e), k)
  {
    match e
    case Edit(kind) => OwedEdit(s.log, s.pending, Left(Active(s)), kind, k);
    case Fire => FireIsOwed(s, k);
    case BuildEnds(d, ok) => BuildEndIsOwed(s, d, ok, k);
    case Replaced(d) => ReplacedIsOwed(s, d, k);
    case _ =>
  }

  lemma {:induction false} RunIsOwed(s: State, es: seq<Event>, k: Kind)
    requires Inv(s) && BuildsPaid(s, k) && IsRun(s, es)
    ensures BuildsPaid(After(s, es), k)
    decreases |es|
  {
    if es != [] {
      StepKeeps(s, es[0]);
      StepIsOwed(s, es[0], k);
      RunIsOwed(Apply(s, es[0]), es[1..], k);
    }
  }

  lemma {:induction false} StartIsOwed(k: Kind)
    ensures BuildsPaid(START, k)
  {
    assert START.log == [Spawned];
    assert multiset([Spawned])[Started(k)] == 0;
    assert Left(Active(START)) == [];
  }

  /** In every run no kind is built more often than it was edited. */
  lemma {:induction false} NoBuildWithoutAnEdit(es: seq<Event>, k: Kind)
    requires IsRun(START, es)
    ensures multiset(After(START, es).log)[Started(k)] <= multiset(After(START, es).log)[Edited(k)]
  {
    StartInv();
    StartIsOwed(k);
    RunIsOwed(START, es, k);
  }

  /** Within a batch the stylesheets come first and the server last. */
  lemma FrontendFirst(pending: set<Kind>, i: nat, j: nat)
    requires i < j < |InOrder(pending)|
    ensures InOrder(pending)[i] != Go && InOrder(pending)[j] != Css
  {
  }

  // ── Stopping ──────────────────────────────────────────────────────────────

  /** An edit is queued and arms the timer, whatever is going on. The first signal
      disarms it, lets the server go and waits for its process; later ones do nothing. */
  lemma EditsAndSignals(s: State, kind: Kind)
    requires Enabled(s, Edit(kind))
    ensures var s' := Apply(s, Edit(kind));
            s'.timer && s'.pending == s.pending + {kind} && s'.drains == s.drains && s'.procs == s.procs
    ensures var s' := Apply(s, Signal);
            if s.stopping then s' == s
            else
              s'.stopping && !s'.timer && s'.pending == s.pending && s'.drains == s.drains && s'.log == s.log &&
              s'.shutdown.Awaiting? &&
              (s.server.Some? && s.server.value < |s.procs| && s.procs[s.server.value].Running? ==>
                 s'.shutdown.awaited == s.server)
  {
  }

  /** Once told to stop, a process not yet gone is awaited by `shutdown` or by a drain. */
  ghost predicate StopOk(s: State) {
    s.stopping ==>
      forall p: nat :: Unreaped(s.procs, p) ==>
        (s.shutdown.Awaiting? && s.shutdown.awaited == Some(p)) ||
        (Active(s).Replacing? && Active(s).awaited == Some(p))
  }

  lemma {:induction false} StepStops(s: State, e: Event)
    requires Inv(s) && StopOk(s) && Enabled(s, e)
    ensures StopOk(Apply(s, e))
  {
    var s' := Apply(s, e);
    match e
    case ExitEvent(p) => assert forall q: nat :: Unreaped(s'.procs, q) ==> Unreaped(s.procs, q);
    case Die(p) => assert forall q: nat :: Unreaped(s'.procs, q) ==> Unreaped(s.procs, q);
    case _ =>
  }

  lemma {:induction false} RunStops(s: State, es: seq<Event>)
    requires Inv(s) && StopOk(s) && IsRun(s, es)
    ensures StopOk(After(s, es))
    decreases |es|
  {
    if es != [] {
      StepKeeps(s, es[0]);
      StepStops(s, es[0]);
      RunStops(Apply(s, es[0]), es[1..]);
    }
  }

  /** When the watcher exits, a server process that has not ended is one that a drain
      had already told to stop; a watcher that is not replacing a server leaves none. */
  lemma {:induction false} WhatExitLeavesBehind(es: seq<Event>, p: nat)
    requires IsRun(START, es) && After(START, es).shutdown.Exited?
    requires Unreaped(After(START, es).procs, p)
    ensures var s := After(START, es);
            s.drains != [] && s.drains[|s.drains| - 1].Replacing? &&
            s.drains[|s.drains| - 1].awaited == Some(p)
  {
    StartInv();
    RunStops(START, es);
    RunKeeps(START, es);
  }

  /** And such a run there is: a signal while the old server is being waited for. */
  lemma ServerCanOutliveTheWatcher()
    ensures var es := [Edit(Go), Fire, BuildEnds(0, true), Signal, ShutdownEnds];
            IsRun(START, es) && After(START, es).shutdown.Exited? &&
            Unreaped(After(START, es).procs, 0) && After(START, es).procs[0].Running?
  {
    var s1 := Apply(START, Edit(Go));
    var s2 := Apply(s1, Fire);
    var kinds := InOrder({Go});
    assert s1.pending == {Go} && kinds[0] == Go && kinds[1..] == [];
    var started := s1.(timer := false, building := true, drains := s1.drains + [Finished]);
    assert s2 == Continue(started, 0, []) && started.drains == [Finished];
    assert s2 == StartBuild(started.(pending := {}), 0, Go, []);
    assert s2.drains[0] == Building(Go, []) && |s2.drains| == 1;
    var s3 := Apply(s2, BuildEnds(0, true));
    var s4 := Apply(s3, Signal);
    var s5 := Apply(s4, ShutdownEnds);
    var e5: seq<Event> := [ShutdownEnds];
    var e4 := [Signal] + e5;
    var e3 := [BuildEnds(0, true)] + e4;
    var e2 := [Fire] + e3;
    var es := [Edit(Go)] + e2;
    assert e5[1..] == [] && e4[1..] == e5 && e3[1..] == e4 && e2[1..] == e3 && es[1..] == e2;
    assert IsRun(s5, []) && After(s5, []) == s5;
    assert IsRun(s4, e5) && After(s4, e5) == s5;
    assert IsRun(s3, e4) && After(s3, e4) == s5;
    assert IsRun(s2, e3) && After(s2, e3) == s5;
    assert IsRun(s1, e2) && After(s1, e2) == s5;
    assert IsRun(START, es) && After(START, es) == s5;
    assert es == [Edit(Go), Fire, BuildEnds(0, true), Signal, ShutdownEnds];
  }

  // ── Coming to rest ────────────────────────────────────────────────────────

  function LifeWeight(procs: seq<Life>): nat {
    if procs == [] then 0
    else LifeWeight(procs[..|procs| - 1]) +
         (match procs[|procs| - 1] case Running => 2 case Dead => 1 case Reaped => 0)
  }

  lemma {:induction false} LifeWeightDrops(procs: seq<Life>, p: nat, l: Life)
    requires p < |procs|
    requires (procs[p].Running? && l.Dead?) || (procs[p].Dead? && l.Reaped?)
    ensures LifeWeight(procs[p := l]) == LifeWeight(procs) - 1
  {
    var n := |procs| - 1;
    if p == n {
      assert procs[p := l][..n] == procs[..n];
    } else {
      assert procs[p := l][..n] == procs[..n][p := l];
      LifeWeightDrops(procs[..n], p, l);
    }
  }

  function DrainWeight(d: Drain): nat {
    match d
    case Building(_, rest) => 5 + 6 * |rest|
    case Replacing(_, rest) => 3 + 6 * |rest|
    case Finished => 0
  }

  /** What is left to do if nothing else is edited and nobody asks to stop. */
  function Weight(s: State): nat {
    6 * |s.pending| + DrainWeight(Active(s)) + LifeWeight(s.procs) +
    (if s.timer then 1 else 0) + (if s.shutdown.Exited? then 0 else 1)
  }

  /** A build that starts weighs less than its kind did, pending or in the batch. */
  lemma {:induction false} ContinueWeighs(s: State, d: nat, rest: seq<Kind>)
    requires s.drains != [] && d == |s.drains| - 1
    ensures var s' := Continue(s, d, rest);
            6 * |s'.pending| + DrainWeight(Active(s')) <= 6 * |s.pending| + 6 * |rest| &&
            s'.procs == s.procs && s'.timer == s.timer && s'.shutdown == s.shutdown
  {
  }

  lemma FireDrops(s: State)
    requires Inv(s) && Enabled(s, Fire)
    ensures Weight(Apply(s, Fire)) < Weight(s)
  {
    if !s.building {
      ContinueWeighs(s.(timer := false, building := true, drains := s.drains + [Finished]), |s.drains|, []);
    }
  }

  lemma {:induction false} BuildEndDrops(s: State, d: nat, ok: bool)
    requires Inv(s) && Enabled(s, BuildEnds(d, ok))
    ensures Weight(Apply(s, BuildEnds(d, ok))) < Weight(s)
  {
    assert d == |s.drains| - 1 && Active(s) == s.drains[d];
    ContinueWeighs(Record(s, Built(s.drains[d].kind, ok)), d, s.drains[d].rest);
  }

  lemma {:induction false} ReplacedDrops(s: State, d: nat)
    requires Inv(s) && Enabled(s, Replaced(d))
    ensures Weight(Apply(s, Replaced(d))) < Weight(s)
  {
    assert d == |s.drains| - 1 && Active(s) == s.drains[d];
    assert (s.procs + [Running])[..|s.procs|] == s.procs;
    ContinueWeighs(if s.stopping then s else WithServer(s), d, s.drains[d].rest);
  }

  lemma StepDropsWeight(s: State, e: Event)
    requires Inv(s) && Enabled(s, e) && !e.Edit? && !e.Signal?
    ensures Weight(Apply(s, e)) < Weight(s)
  {
    match e
    case Fire => FireDrops(s);
    case BuildEnds(d, ok) => BuildEndDrops(s, d, ok);
    case Replaced(d) => ReplacedDrops(s, d);
    case Die(p) => LifeWeightDrops(s.procs, p, Dead);
    case ExitEvent(p) => LifeWeightDrops(s.procs, p, Reaped);
    case ShutdownEnds =>
  }

  predicate Quiet(es: seq<Event>) {
    forall i :: 0 <= i < |es| ==> !es[i].Edit? && !es[i].Signal?
  }

  /** Without new edits or signals the watcher runs out of things to do. */
  lemma {:induction false} QuietRunsAreShort(s: State, es: seq<Event>)
    requires Inv(s) && IsRun(s, es) && Quiet(es)
    ensures |es| <= Weight(s)
    decreases |es|
  {
    if es != [] {
      StepDropsWeight(s, es[0]);
      StepKeeps(s, es[0]);
      QuietRunsAreShort(Apply(s, es[0]), es[1..]);
    }
  }

  /** What it stops at is rest: a watcher that is not stopping and has a timer or
      a drain always has a next event (a timer, a build's end, or the end of a
      server it has told to stop). */
  lemma {:induction false} NeverStuck(es: seq<Event>)
    requires IsRun(START, es)
    requires var s := After(START, es); !s.stopping && (s.timer || s.building)
    ensures exists e: Event :: !e.Edit? && !e.Signal? && Enabled(After(START, es), e)
  {
    StartInv();
    RunKeeps(START, es);
    var s := After(START, es);
    if s.timer {
      assert Enabled(s, Fire);
    } else {
      var d := |s.drains| - 1;
      match s.drains[d]
      case Building(_, _) => assert Enabled(s, BuildEnds(d, true));
      case Replacing(awaited, _) =>
        if Gone(s, awaited) {
          assert Enabled(s, Replaced(d));
        } else {
          var p := awaited.value;
          assert Enabled(s, if s.procs[p].Running? then Die(p) else ExitEvent(p));
        }
    }
  }

  // ── The program ───────────────────────────────────────────────────────────

  /** The script itself: its module variables, and one method for each stretch of
      code that runs without an await. */
  class Watcher {
    var pending: set<Kind>
    var timer: bool
    var building: bool
    var stopping: bool
    var server: Option<Pid>
    var drains: seq<Drain>
    var procs: seq<Life>
    var shut: Shutdown
    ghost var log: seq<Note>

    ghost function View(): State
      reads this
    {
      State(pending, timer, building, stopping, server, drains, procs, shut, log)
    }

    constructor ()
      ensures View() == START
    {
      pending, timer, building, stopping := {}, false, false, false;
      server, drains, procs, shut, log := None, [], [], NotAsked, [];
      new;
      StartServer();
    }

    method StartServer()
      modifies this
      ensures View() == WithServer(old(View()))
    {
      server := Some(|procs|);
      procs := procs + [Running];
      log := log + [Spawned];
    }

    /** Returns the process whose exit the caller must await. */
    method StopServer() returns (awaited: Option<Pid>)
      modifies this`server
      ensures awaited == ToAwait(old(View())) && View() == old(View()).(server := None)
    {
      awaited := server;
      server := None;
      if awaited.Some? && awaited.value < |procs| && procs[awaited.value].Reaped? {
        awaited := None;
      }
    }

    method Schedule(kind: Kind)
      requires Enabled(View(), Edit(kind))
      modifies this
      ensures View() == Apply(old(View()), Edit(kind))
    {
      pending := pending + {kind};
      timer := true;
      log := log + [Edited(kind)];
    }

    /** The body of `drain`, up to its first await, when the debounce timer fires. */
    method OnTimer()
      requires Enabled(View(), Fire)
      modifies this
      ensures View() == Apply(old(View()), Fire)
    {
      timer := false;
      if building {
        return;
      }
      building := true;
      drains := drains + [Finished];
      Resume(|drains| - 1, []);
    }

    /** The two loops of `drain`: the rest of the batch, then a fresh batch. */
    method Resume(d: nat, batch: seq<Kind>)
      requires d < |drains|
      modifies this
      ensures View() == Continue(old(View()), d, batch)
    {
      var rest := batch;
      if rest == [] && pending != {} && !stopping {
        rest := InOrder(pending);
        pending := {};
      }
      if rest == [] || stopping {
        building := false;
        drains := drains[d := Finished];
        return;
      }
      drains := drains[d := Building(rest[0], rest[1..])];
      log := log + [Started(rest[0])];
    }

    method OnBuildEnd(d: nat, ok: bool)
      requires Enabled(View(), BuildEnds(d, ok))
      modifies this
      ensures View() == Apply(old(View()), BuildEnds(d, ok))
    {
      var Building(kind, rest) := drains[d];
      log := log + [Built(kind, ok)];
      if ok && kind == Go {
        var awaited := StopServer();
        drains := drains[d := Replacing(awaited, rest)];
      } else {
        Resume(d, rest);
      }
    }

    method OnReplaced(d: nat)
      requires Enabled(View(), Replaced(d))
      modifies this
      ensures View() == Apply(old(View()), Replaced(d))
    {
      var rest := drains[d].rest;
      if !stopping {
        StartServer();
      }
      Resume(d, rest);
    }

    method OnExit(p: Pid)
      requires Enabled(View(), ExitEvent(p))
      modifies this
      ensures View() == Apply(old(View()), ExitEvent(p))
    {
      procs := procs[p := Reaped];
      if server == Some(p) {
        server := None;
      }
    }

    method OnSignal()
      requires Enabled(View(), Signal)
      modifies this
      ensures View() == Apply(old(View()), Signal)
    {
      if stopping {
        return;
      }
      stopping := true;
      timer := false;
      var awaited := StopServer();
      shut := Awaiting(awaited);
    }
  }
}
