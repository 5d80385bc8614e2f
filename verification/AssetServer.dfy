/** The code of api/cmd/api/assets.go as it runs, with other goroutines and builds
    acting before each of its own accesses: every execution is a run of the state
    machine of LiveAssets. */
module AssetServer {
  import opened Prelude
  import opened LiveAssets

  predicate OfCall(e: Step, t: Tid) {
    match e
    case Write(_, _) => false
    case Begin(u) => u == t
    case Stat(u) => u == t
    case Decide(u) => u == t
    case Lock(u) => u == t
    case LockedStat(u) => u == t
    case LockedDecide(u) => u == t
    case Read(u) => u == t
    case Publish(u) => u == t
    case Unlock(u) => u == t
  }

  lemma {:induction false} RunGrows(s: State, es: seq<Step>, e: Step)
    requires IsRun(s, es) && Enabled(After(s, es), e)
    ensures IsRun(s, es + [e]) && After(s, es + [e]) == Apply(After(s, es), e)
    decreases |es|
  {
    if es == [] {
      assert es + [e] == [e];
      assert After(Apply(s, e), []) == Apply(s, e);
    } else {
      assert (es + [e])[1..] == es[1..] + [e];
      RunGrows(Apply(s, es[0]), es[1..], e);
    }
  }

  /** `now` goes on from `was`, and call t did not begin anew. */
  ghost predicate GoesOn(was: seq<Step>, now: seq<Step>, t: Tid) {
    was <= now && Begin(t) !in now[|was|..]
  }

  lemma GoesOnTwice(a: seq<Step>, b: seq<Step>, c: seq<Step>, t: Tid)
    requires GoesOn(a, b, t) && GoesOn(b, c, t)
    ensures GoesOn(a, c, t)
  {
    assert c[|a|..] == b[|a|..] + c[|b|..];
  }

  /** A run in which call t began once after `was`, and returned, kept the promise. */
  lemma {:induction false} ReturnedFresh(
      stamps: seq<Stamp>, boot: Tid, t: Tid, s: Snapshot, was: seq<Step>, now: seq<Step>)
    requires |stamps| == FILES && was + [Begin(t)] <= now && Begin(t) !in now[|was| + 1..]
    requires IsRun(Start(true, stamps, boot), was) && IsRun(Start(true, stamps, boot), now)
    requires var end := After(Start(true, stamps, boot), now);
             Distinct(end.disk) && t in end.calls && end.calls[t].pc == Returned(s)
    ensures var began, end := After(Start(true, stamps, boot), was), After(Start(true, stamps, boot), now);
            DiskOk(began.disk) && DiskOk(end.disk) &&
            forall f :: 0 <= f < FILES ==> Now(began.disk, f) <= s.read[f] <= Now(end.disk, f)
  {
    var during := now[|was| + 1..];
    assert now == was + [Begin(t)] + during;
    ServesFreshFiles(stamps, boot, t, was, during);
  }

  function Statting(cur: Option<Snapshot>, got: seq<Seen>): Pc {
    match cur
    case None => LockedStating(got)
    case Some(s) => Stating(s, got)
  }

  /** liveAssets, with the disk it watches. `calls` is where every request is; the
      last of `published` is what `cur` points to. */
  class Server {
    const reload: bool
    var disk: Disk
    var published: seq<Snapshot>
    var mu: Option<Tid>
    var calls: map<Tid, Call>
    /** What others do before this code's accesses, a batch for each. */
    var others: seq<seq<Step>>
    const stamps: seq<Stamp>
    const boot: Tid
    ghost const start: State
    ghost var trace: seq<Step>

    function View(): State
      reads this
    {
      State(reload, disk, published, mu, calls)
    }

    ghost predicate Valid()
      reads this
    {
      DiskOk(disk) && |stamps| == FILES && start == Start(reload, stamps, boot) &&
      IsRun(start, trace) && After(start, trace) == View()
    }

    ghost predicate At(t: Tid, pc: Pc)
      reads this
    {
      Valid() && t in calls && calls[t].pc == pc
    }

    /** newLiveAssets, up to its first access: no request can see it yet. */
    constructor (reload: bool, stamps: seq<Stamp>, boot: Tid, others: seq<seq<Step>>)
      requires |stamps| == FILES
      ensures start == Start(reload, stamps, boot) && trace == [] && this.reload == reload
      ensures At(boot, LockedStating([])) && published == []
    {
      this.reload, this.stamps, this.boot := reload, stamps, boot;
      disk := [[stamps[0]], [stamps[1]], [stamps[2]]];
      published, mu := [], Some(boot);
      calls := map[boot := Call(LockedStating([]), [0, 0, 0])];
      this.others := others;
      start, trace := Start(reload, stamps, boot), [];
    }

    method Do(e: Step)
      requires Valid() && Enabled(View(), e)
      modifies this
      ensures Valid() && View() == Apply(old(View()), e) && trace == old(trace) + [e] && others == old(others)
    {
      RunGrows(start, trace, e);
      var s := Apply(View(), e);
      disk, published, mu, calls := s.disk, s.published, s.mu, s.calls;
      trace := trace + [e];
    }

    /** Others act: whatever of the next batch can happen, happens. */
    method Interfere(t: Tid)
      requires Valid() && t in calls
      modifies this
      ensures At(t, old(calls[t].pc)) && old(published) <= published
      ensures GoesOn(old(trace), trace, t)
      ensures old(others) == [] ==> others == [] && View() == old(View())
    {
      if others == [] {
        return;
      }
      var batch := others[0];
      others := others[1..];
      for i := 0 to |batch|
        invariant At(t, old(calls[t].pc)) && old(published) <= published
        invariant GoesOn(old(trace), trace, t)
      {
        if Enabled(View(), batch[i]) && !OfCall(batch[i], t) {
          Do(batch[i]);
        }
      }
    }

    /** os.Stat on each watched file in turn, without the lock or under it. */
    method StatFiles(t: Tid, ghost cur: Option<Snapshot>, locked: bool) returns (out: seq<Seen>)
      requires locked == cur.None? && At(t, Statting(cur, []))
      modifies this
      ensures At(t, Statting(cur, out)) && |out| == FILES && old(published) <= published
      ensures GoesOn(old(trace), trace, t)
      ensures old(others) == [] ==> others == [] && mu == old(mu)
    {
      out := [];
      for i := 0 to FILES
        invariant At(t, Statting(cur, out)) && |out| == i && old(published) <= published
        invariant GoesOn(old(trace), trace, t)
        invariant old(others) == [] ==> others == [] && mu == old(mu)
      {
        Interfere(t);
        out := out + [StatOf(disk, i)];
        Do(if locked then LockedStat(t) else Stat(t));
      }
    }

    /** `load`: the files in the order it opens them. */
    method Load(t: Tid, stamp: seq<Seen>) returns (s: Snapshot, ghost files: seq<nat>)
      requires At(t, Loading(stamp, []))
      modifies this
      ensures |files| == FILES && At(t, Loading(stamp, files)) && s == Snapshot(stamp, Assemble(files))
      ensures old(published) <= published && GoesOn(old(trace), trace, t)
    {
      var got: seq<nat> := [];
      for i := 0 to FILES
        invariant At(t, Loading(stamp, got)) && |got| == i && old(published) <= published
        invariant GoesOn(old(trace), trace, t)
      {
        Interfere(t);
        got := got + [Now(disk, READ_ORDER[i])];
        Do(Read(t));
      }
      s, files := Snapshot(stamp, Assemble(got)), got;
    }

    /** A new snapshot, unless another call has published these stamps already. */
    method Rebuild(t: Tid, stamp: seq<Seen>) returns (s: Snapshot)
      requires At(t, LockedStating(stamp)) && |stamp| == FILES
      modifies this
      ensures At(t, Leaving(s)) && published != [] && GoesOn(old(trace), trace, t)
      ensures old(published) <= published && s == published[|published| - 1]
    {
      if published != [] && SameStamps(stamp, published[|published| - 1].seen) {
        s := published[|published| - 1];
        Do(LockedDecide(t));
        return;
      }
      Do(LockedDecide(t));
      ghost var decided := trace;
      ghost var files;
      s, files := Load(t, stamp);
      GoesOnTwice(old(trace), decided, trace, t);
      Do(Publish(t));
    }

    /** forShell from the lock to the unlock; also the whole of newLiveAssets, which
        finds nothing published. */
    method Reload(t: Tid) returns (s: Snapshot)
      requires At(t, LockedStating([]))
      modifies this
      ensures At(t, Returned(s)) && published != [] && GoesOn(old(trace), trace, t)
      ensures old(published) <= published && s in published
    {
      var stamp := StatFiles(t, None, true);
      ghost var a := trace;
      Interfere(t);
      GoesOnTwice(old(trace), a, trace, t);
      a := trace;
      s := Rebuild(t, stamp);
      GoesOnTwice(old(trace), a, trace, t);
      a := trace;
      Interfere(t);
      GoesOnTwice(old(trace), a, trace, t);
      Do(Unlock(t));
    }

    /** forShell. None: the call is still waiting for the lock, which another call
        holds. What it returns was stored, and is as new as the files were when it
        began. */
    method ForShell(t: Tid) returns (s: Option<Snapshot>)
      requires Valid() && published != [] && (t in calls ==> calls[t].pc.Returned?)
      modifies this
      ensures At(t, if s.Some? then Returned(s.value) else Waiting)
      ensures s.Some? ==> s.value in published
      ensures s.None? ==> mu.Some? && (LockInUse(View()) ==> mu.value != t)
      ensures old(others) == [] && old(mu) == None ==> s.Some?
      ensures old(trace) + [Begin(t)] <= trace && Begin(t) !in trace[|old(trace)| + 1..]
      ensures reload && s.Some? && Distinct(disk) ==>
                forall f :: 0 <= f < FILES ==> Now(old(disk), f) <= s.value.read[f] <= Now(disk, f)
    {
      s := ForShellRun(t);
      if reload && s.Some? && Distinct(disk) {
        ReturnedFresh(stamps, boot, t, s.value, old(trace), trace);
      }
    }

    method ForShellRun(t: Tid) returns (s: Option<Snapshot>)
      requires Valid() && published != [] && (t in calls ==> calls[t].pc.Returned?)
      modifies this
      ensures At(t, if s.Some? then Returned(s.value) else Waiting)
      ensures s.Some? ==> s.value in published
      ensures s.None? ==> mu.Some? && (LockInUse(View()) ==> mu.value != t)
      ensures old(others) == [] && old(mu) == None ==> s.Some?
      ensures old(trace) + [Begin(t)] <= trace && Begin(t) !in trace[|old(trace)| + 1..]
    {
      var cur := published[|published| - 1];
      Do(Begin(t));
      if !reload {
        return Some(cur);
      }
      ghost var began := trace;
      var stamp := StatFiles(t, Some(cur), false);
      Do(Decide(t));
      if SameStamps(stamp, cur.seen) {
        return Some(cur);
      }
      ghost var a := trace;
      Interfere(t);
      GoesOnTwice(began, a, trace, t);
      if mu != None {
        return None;
      }
      Do(Lock(t));
      a := trace;
      cur := Reload(t);
      GoesOnTwice(began, a, trace, t);
      s := Some(cur);
    }
  }
}
