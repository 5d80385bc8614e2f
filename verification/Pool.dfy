/** The bounded pool of the demo generator (demo/scripts/generate-content.ts): a
    fixed set of runners share one cursor over the items. A runner is suspended
    while its worker is busy; the workers answer in any order, with a value or an
    error. */
module Pool {
  import opened Prelude

  datatype Outcome<R, E> = Value(value: R) | Failure(error: E)

  /** A runner waits for the answer of one call, or has left its loop. */
  datatype Runner = Busy(index: nat) | Done

  /** What the runners share, with every call made so far in order. */
  datatype State<R, E> = State(
    cursor: nat,
    runners: seq<Runner>,
    results: map<nat, Outcome<R, E>>,
    calls: seq<nat>)

  function UpTo(n: nat): (r: seq<nat>)
    ensures |r| == n && forall i :: 0 <= i < n ==> r[i] == i
  {
    seq(n, (i: nat) => i)
  }

  function Min(a: nat, b: nat): nat {
    if a < b then a else b
  }

  /** Runner k at the head of its loop: it takes the next item, or leaves. */
  function Take<R, E>(s: State<R, E>, n: nat, k: nat): State<R, E>
    requires k < |s.runners|
  {
    if s.cursor < n then
      s.(cursor := s.cursor + 1, runners := s.runners[k := Busy(s.cursor)], calls := s.calls + [s.cursor])
    else
      s.(runners := s.runners[k := Done])
  }

  predicate Waiting<R, E>(s: State<R, E>, k: nat) {
    k < |s.runners| && s.runners[k].Busy?
  }

  /** The worker of runner k answers: the answer is kept under the index of its
      item, and the runner goes round. */
  function Answer<I, R, E>(s: State<R, E>, items: seq<I>, worker: (I, nat) -> Outcome<R, E>, k: nat): State<R, E>
    requires Waiting(s, k) && s.runners[k].index < |items|
  {
    var i := s.runners[k].index;
    Take(s.(results := s.results[i := worker(items[i], i)]), |items|, k)
  }

  /** All runners have made their first call by the time the pool first waits. */
  function Start<R, E>(n: nat, limit: nat): State<R, E> {
    var k := Min(limit, n);
    State(k, seq(k, (i: nat) => Busy(i)), map[], UpTo(k))
  }

  ghost predicate InFlight<R, E>(s: State<R, E>, i: nat) {
    exists k: nat :: Waiting(s, k) && s.runners[k].index == i
  }

  /** Every index below the cursor was handed out once; it is being worked on by one
      runner, or its result is what the worker answered for it. */
  ghost predicate Inv<I, R, E>(s: State<R, E>, items: seq<I>, worker: (I, nat) -> Outcome<R, E>) {
    && s.cursor <= |items| && s.calls == UpTo(s.cursor)
    && (forall k: nat, l: nat :: Waiting(s, k) && Waiting(s, l) && s.runners[k].index == s.runners[l].index ==> k == l)
    && (forall i: nat :: i < s.cursor <==> i in s.results || InFlight(s, i))
    && (forall i: nat :: i in s.results ==> i < |items| && !InFlight(s, i) && s.results[i] == worker(items[i], i))
    && (forall k :: 0 <= k < |s.runners| && s.runners[k].Done? ==> s.cursor == |items|)
  }

  lemma StartKeeps<I, R, E>(items: seq<I>, limit: nat, worker: (I, nat) -> Outcome<R, E>)
    ensures Inv(Start(|items|, limit), items, worker)
  {
    var s: State<R, E> := Start(|items|, limit);
    forall i: nat | i < s.cursor
      ensures InFlight(s, i)
    {
      assert Waiting(s, i);
    }
  }

  lemma AnswerFlight<I, R, E>(s: State<R, E>, items: seq<I>, worker: (I, nat) -> Outcome<R, E>, k: nat, i: nat)
    requires Inv(s, items, worker) && Waiting(s, k) && s.runners[k].index < |items|
    ensures InFlight(Answer(s, items, worker, k), i) <==>
      (InFlight(s, i) && i != s.runners[k].index) || (i == s.cursor && s.cursor < |items|)
  {
    var t := Answer(s, items, worker, k);
    if InFlight(s, i) && i != s.runners[k].index {
      var l: nat :| Waiting(s, l) && s.runners[l].index == i;
      assert Waiting(t, l) && t.runners[l].index == i;
    }
    if i == s.cursor && s.cursor < |items| {
      assert Waiting(t, k) && t.runners[k].index == i;
    }
    if InFlight(t, i) {
      var l: nat :| Waiting(t, l) && t.runners[l].index == i;
      if l != k {
        assert Waiting(s, l) && s.runners[l].index == i;
      }
    }
  }

  /** Two runners never work on the same item. */
  lemma NoTwoOnOne<I, R, E>(s: State<R, E>, items: seq<I>, worker: (I, nat) -> Outcome<R, E>, k: nat, a: nat, b: nat)
    requires Inv(s, items, worker) && Waiting(s, k) && s.runners[k].index < |items|
    requires var t := Answer(s, items, worker, k);
      Waiting(t, a) && Waiting(t, b) && t.runners[a].index == t.runners[b].index
    ensures a == b
  {
    assert a == k || (Waiting(s, a) && InFlight(s, s.runners[a].index));
    assert b == k || (Waiting(s, b) && InFlight(s, s.runners[b].index));
  }

  lemma AnswerKeeps<I, R, E>(s: State<R, E>, items: seq<I>, worker: (I, nat) -> Outcome<R, E>, k: nat)
    requires Inv(s, items, worker) && Waiting(s, k)
    ensures s.runners[k].index < |items| && Inv(Answer(s, items, worker, k), items, worker)
  {
    assert InFlight(s, s.runners[k].index);
    var t := Answer(s, items, worker, k);
    forall i: nat
      ensures InFlight(t, i) <==>
        (InFlight(s, i) && i != s.runners[k].index) || (i == s.cursor && s.cursor < |items|)
    {
      AnswerFlight(s, items, worker, k, i);
    }
    forall a: nat, b: nat | Waiting(t, a) && Waiting(t, b) && t.runners[a].index == t.runners[b].index
      ensures a == b
    {
      NoTwoOnOne(s, items, worker, k, a, b);
    }
  }

  // ── Whole runs ────────────────────────────────────────────────────────────

  /** The state after the answers in the order `ks`, or None if an answer came from
      a runner that was not waiting. */
  function Run<I, R, E>(s: State<R, E>, items: seq<I>, worker: (I, nat) -> Outcome<R, E>, ks: seq<nat>)
    : Option<State<R, E>>
    decreases |ks|
  {
    if ks == [] then Some(s)
    else if Waiting(s, ks[0]) && s.runners[ks[0]].index < |items| then
      Run(Answer(s, items, worker, ks[0]), items, worker, ks[1..])
    else None
  }

  lemma {:induction false} RunKeeps<I, R, E>(s: State<R, E>, items: seq<I>, worker: (I, nat) -> Outcome<R, E>,
                                             ks: seq<nat>)
    requires Inv(s, items, worker) && Run(s, items, worker, ks).Some?
    ensures Inv(Run(s, items, worker, ks).value, items, worker)
    ensures |Run(s, items, worker, ks).value.runners| == |s.runners|
    ensures |Run(s, items, worker, ks).value.results| == |s.results| + |ks|
    decreases |ks|
  {
    if ks != [] {
      AnswerKeeps(s, items, worker, ks[0]);
      assert InFlight(s, s.runners[ks[0]].index);
      RunKeeps(Answer(s, items, worker, ks[0]), items, worker, ks[1..]);
    }
  }

  function Below(n: nat): (r: set<nat>)
    ensures |r| == n && forall i: nat :: i in r <==> i < n
  {
    if n == 0 then {} else Below(n - 1) + {n - 1}
  }

  function BusyRunners(runners: seq<Runner>): set<nat> {
    set k | k in Below(|runners|) && runners[k].Busy?
  }

  predicate Finished<R, E>(s: State<R, E>) {
    forall k :: 0 <= k < |s.runners| ==> s.runners[k].Done?
  }

  /** In any order of answers, whatever the workers answer: indices are handed out
      in order and each once, and no more than `limit` at a time. */
  lemma {:induction false} EachIndexOnce<I, R, E>(items: seq<I>, limit: nat, worker: (I, nat) -> Outcome<R, E>, ks: seq<nat>)
    requires Run(Start(|items|, limit), items, worker, ks).Some?
    ensures var s := Run(Start(|items|, limit), items, worker, ks).value;
      && s.calls == UpTo(|s.calls|) && |s.calls| <= |items|
      && |BusyRunners(s.runners)| <= limit
  {
    StartKeeps(items, limit, worker);
    RunKeeps(Start(|items|, limit), items, worker, ks);
    var s := Run(Start(|items|, limit), items, worker, ks).value;
    BusyAtMost(s.runners);
  }

  lemma BusyAtMost(runners: seq<Runner>)
    ensures |BusyRunners(runners)| <= |runners|
  {
    CardOfSubset(BusyRunners(runners), Below(|runners|));
  }

  lemma {:induction false} CardOfSubset<T>(a: set<T>, b: set<T>)
    requires a <= b
    ensures |a| <= |b|
  {
    if a != {} {
      var x :| x in a;
      CardOfSubset(a - {x}, b - {x});
    }
  }

  lemma NoneInFlight<R, E>(s: State<R, E>)
    requires Finished(s)
    ensures forall i: nat :: !InFlight(s, i)
  {
    forall i: nat
      ensures !InFlight(s, i)
    {
      assert forall k: nat :: !Waiting(s, k);
    }
  }

  lemma {:induction false} CursorMovesOn<I, R, E>(s: State<R, E>, items: seq<I>, worker: (I, nat) -> Outcome<R, E>, ks: seq<nat>)
    requires s.cursor <= |items| && Run(s, items, worker, ks).Some?
    ensures Run(s, items, worker, ks).value.cursor == if s.cursor + |ks| < |items| then s.cursor + |ks| else |items|
    decreases |ks|
  {
    if ks != [] {
      CursorMovesOn(Answer(s, items, worker, ks[0]), items, worker, ks[1..]);
    }
  }

  /** No runner is idle while there is work: after so many answers there have been as
      many calls as answers and `limit` more, or one for every item. */
  lemma {:induction false} AllRunnersWork<I, R, E>(items: seq<I>, limit: nat, worker: (I, nat) -> Outcome<R, E>, ks: seq<nat>)
    requires Run(Start(|items|, limit), items, worker, ks).Some?
    ensures var calls := |Run(Start(|items|, limit), items, worker, ks).value.calls|;
            if limit + |ks| < |items| then calls == limit + |ks|
            else if limit >= 1 || items == [] then calls == |items|
            else calls == 0
  {
    StartKeeps(items, limit, worker);
    var s: State<R, E> := Start(|items|, limit);
    RunKeeps(s, items, worker, ks);
    CursorMovesOn(s, items, worker, ks);
  }

  function AllAnswers<I, R, E>(items: seq<I>, worker: (I, nat) -> Outcome<R, E>): map<nat, Outcome<R, E>> {
    map i: nat | i < |items| :: worker(items[i], i)
  }

  /** The pool waits until every runner has left. By then every item has its answer,
      unless there were items but no runner. */
  lemma {:induction false} AllResultsAtTheEnd<I, R, E>(items: seq<I>, limit: nat, worker: (I, nat) -> Outcome<R, E>, ks: seq<nat>)
    requires Run(Start(|items|, limit), items, worker, ks).Some?
    requires Finished(Run(Start(|items|, limit), items, worker, ks).value)
    ensures var s := Run(Start(|items|, limit), items, worker, ks).value;
      s.results == AllAnswers(items, worker) <==> limit >= 1 || items == []
  {
    StartKeeps(items, limit, worker);
    var s0: State<R, E> := Start(|items|, limit);
    RunKeeps(s0, items, worker, ks);
    var s := Run(s0, items, worker, ks).value;
    NoneInFlight(s);
    if limit >= 1 && items != [] {
      assert s.runners[0].Done?;
      assert forall i: nat :: i < |items| <==> i in s.results;
    } else if items != [] {
      assert ks == [];
      assert 0 in AllAnswers(items, worker);
    } else {
      assert s.cursor == 0;
    }
  }

  lemma AnswersAreItems<I, R, E>(s: State<R, E>, items: seq<I>, worker: (I, nat) -> Outcome<R, E>)
    requires Inv(s, items, worker)
    ensures |s.results| <= |items|
    ensures |s.results| == |items| <==> s.results.Keys == Below(|items|)
  {
    var all := Below(|items|);
    assert s.results.Keys <= all;
    CardOfSubset(s.results.Keys, all);
    if |s.results| == |items| {
      assert |all - s.results.Keys| == 0;
    }
  }

  lemma FinishedByCount<I, R, E>(s: State<R, E>, items: seq<I>, worker: (I, nat) -> Outcome<R, E>)
    requires Inv(s, items, worker) && (s.runners != [] || items == [])
    ensures Finished(s) <==> s.results.Keys == Below(|items|) && s.cursor == |items|
  {
    if Finished(s) {
      NoneInFlight(s);
      assert s.runners != [] ==> s.runners[0].Done?;
    }
    if s.results.Keys == Below(|items|) {
      forall k: nat | k < |s.runners|
        ensures s.runners[k].Done?
      {
        assert Waiting(s, k) ==> InFlight(s, s.runners[k].index);
      }
    }
  }

  lemma CursorByCount<I, R, E>(s: State<R, E>, items: seq<I>, worker: (I, nat) -> Outcome<R, E>)
    requires Inv(s, items, worker) && s.results.Keys == Below(|items|)
    ensures s.cursor == |items|
  {
    assert items == [] || |items| - 1 in s.results;
  }

  lemma FinishedAfterAll<I, R, E>(s: State<R, E>, items: seq<I>, worker: (I, nat) -> Outcome<R, E>)
    requires Inv(s, items, worker) && (s.runners != [] || items == [])
    ensures |s.results| <= |items|
    ensures Finished(s) <==> |s.results| == |items|
  {
    AnswersAreItems(s, items, worker);
    FinishedByCount(s, items, worker);
    if |s.results| == |items| {
      CursorByCount(s, items, worker);
    }
  }

  lemma {:induction false} FinishedAfterRun<I, R, E>(s: State<R, E>, items: seq<I>, worker: (I, nat) -> Outcome<R, E>, ks: seq<nat>)
    requires Inv(s, items, worker) && (s.runners != [] || items == [])
    requires Run(s, items, worker, ks).Some?
    ensures |s.results| + |ks| <= |items|
    ensures Finished(Run(s, items, worker, ks).value) <==> |s.results| + |ks| == |items|
  {
    RunKeeps(s, items, worker, ks);
    var t := Run(s, items, worker, ks).value;
    assert s.runners != [] ==> t.runners != [];
    FinishedAfterAll(t, items, worker);
  }

  /** The pool ends after one answer for each item, no sooner and no later: until then
      some runner is waiting for an answer. */
  lemma {:induction false} OneAnswerPerItem<I, R, E>(items: seq<I>, limit: nat, worker: (I, nat) -> Outcome<R, E>, ks: seq<nat>)
    requires Run(Start(|items|, limit), items, worker, ks).Some? && limit >= 1
    ensures |ks| <= |items|
    ensures Finished(Run(Start(|items|, limit), items, worker, ks).value) <==> |ks| == |items|
  {
    var s: State<R, E> := Start(|items|, limit);
    StartKeeps(items, limit, worker);
    assert |s.results| == 0 && |s.runners| == Min(limit, |items|);
    FinishedAfterRun(s, items, worker, ks);
  }

  // ── The shared variables ──────────────────────────────────────────────────

  /** The closure: `cursor` and `results` are what the runners share. What a runner
      does between two waits is one call of Begin or Settle. */
  class SharedPool<I, R(0), E> {
    const items: seq<I>
    ghost const worker: (I, nat) -> Outcome<R, E>
    var cursor: nat
    var results: map<nat, Outcome<R, E>>
    var runners: seq<Runner>
    ghost var calls: seq<nat>

    ghost function View(): State<R, E>
      reads this
    {
      State(cursor, runners, results, calls)
    }

    /** Array.from starts the runners one by one, each up to its first wait. */
    constructor (items: seq<I>, limit: nat, ghost worker: (I, nat) -> Outcome<R, E>)
      ensures this.items == items && this.worker == worker
      ensures View() == Start(|items|, limit)
    {
      this.items, this.worker := items, worker;
      cursor, results, runners, calls := 0, map[], [], [];
      new;
      for k := 0 to Min(limit, |items|)
        invariant View() == Start<R, E>(|items|, k)
      {
        runners := runners + [Done];
        Begin(k);
      }
    }

    /** The head of runner k's loop, up to the wait for its worker. */
    method Begin(k: nat)
      requires k < |runners|
      modifies this
      ensures View() == Take(old(View()), |items|, k)
    {
      if cursor < |items| {
        var index := cursor;
        cursor := cursor + 1;
        runners, calls := runners[k := Busy(index)], calls + [index];
      } else {
        runners := runners[k := Done];
      }
    }

    /** The worker of runner k has answered, with a value or an error. */
    method Settle(k: nat, outcome: Outcome<R, E>)
      requires Waiting(View(), k) && runners[k].index < |items|
      requires outcome == worker(items[runners[k].index], runners[k].index)
      modifies this
      ensures View() == Answer(old(View()), items, worker, k)
    {
      results := results[runners[k].index := outcome];
      Begin(k);
    }
  }
}
