/** The frontend's publish/subscribe store (frontend/src/store.ts).

    A callback may do anything: read, subscribe, unsubscribe, set again. A
    dispatch is therefore a frame on a stack, and a run is any sequence of steps
    the running code (the top frame's callback, or the page when the stack is
    empty) and the dispatch loops can take. */
module ReactiveStore {
  import opened Prelude

  type Key = string

  /** A listener, by identity. */
  type Fn = nat

  /** A JavaScript value up to Object.is: objects are references. */
  datatype Val = Undefined | Prim(n: int) | Obj(ref: nat)

  /** One `set` that is dispatching. `called` and `missed` record what its loop
      did with the listeners before `next`; no branch reads them. */
  datatype Frame = Frame(
    key: Key,
    value: Val,
    snapshot: seq<Fn>,
    next: nat,
    running: bool,
    called: seq<Fn>,
    missed: set<Fn>)

  /** A Set of listeners is kept in insertion order. */
  datatype State = State(state: map<Key, Val>, listeners: map<Key, seq<Fn>>, stack: seq<Frame>)

  datatype Step =
    | Set(key: Key, value: Val)
    | Subscribe(key: Key, fn: Fn)
    | Unsubscribe(key: Key, fn: Fn)
    | Advance
    | Return

  function Top(s: State): Frame
    requires s.stack != []
  {
    s.stack[|s.stack| - 1]
  }

  function WithTop(s: State, f: Frame): State
    requires s.stack != []
  {
    s.(stack := s.stack[|s.stack| - 1 := f])
  }

  /** Some code of the page is running, so it can call the store. */
  predicate CodeRuns(s: State) {
    s.stack == [] || Top(s).running
  }

  predicate Enabled(s: State, e: Step) {
    match e
    case Set(_, _) => CodeRuns(s)
    case Subscribe(_, _) => CodeRuns(s)
    case Unsubscribe(key, _) => CodeRuns(s) && key in s.listeners
    case Advance => s.stack != [] && !Top(s).running
    case Return => s.stack != [] && Top(s).running
  }

  /** The write `set` would drop: the value is already in place. */
  predicate InPlace(s: State, key: Key, value: Val) {
    key in s.state && s.state[key] == value
  }

  predicate Has(s: State, key: Key, fn: Fn) {
    key in s.listeners && fn in s.listeners[key]
  }

  function Apply(s: State, e: Step): State
    requires Enabled(s, e)
  {
    match e
    case Set(key, value) =>
      if InPlace(s, key, value) then s
      else if key !in s.listeners then s.(state := s.state[key := value])
      else s.(state := s.state[key := value],
              stack := s.stack + [Frame(key, value, s.listeners[key], 0, false, [], {})])
    case Subscribe(key, fn) =>
      var now := if key in s.listeners then s.listeners[key] else [];
      s.(listeners := s.listeners[key := if fn in now then now else now + [fn]])
    case Unsubscribe(key, fn) =>
      s.(listeners := s.listeners[key := Filter(s.listeners[key], (x: Fn) => x != fn)])
    case Advance =>
      var f := Top(s);
      if f.next >= |f.snapshot| then s.(stack := s.stack[..|s.stack| - 1])
      else
        var fn := f.snapshot[f.next];
        if Has(s, f.key, fn) then WithTop(s, f.(next := f.next + 1, running := true, called := f.called + [fn]))
        else WithTop(s, f.(next := f.next + 1, missed := f.missed + {fn}))
    case Return => WithTop(s, Top(s).(running := false))
  }

  predicate IsRun(s: State, es: seq<Step>)
    decreases |es|
  {
    es == [] || (Enabled(s, es[0]) && IsRun(Apply(s, es[0]), es[1..]))
  }

  function After(s: State, es: seq<Step>): State
    requires IsRun(s, es)
    decreases |es|
  {
    if es == [] then s else After(Apply(s, es[0]), es[1..])
  }

  /** The frame at depth `n` has not ended anywhere along the run. */
  predicate Within(s: State, es: seq<Step>, n: nat)
    requires IsRun(s, es)
    decreases |es|
  {
    |s.stack| > n && (es == [] || Within(Apply(s, es[0]), es[1..], n))
  }

  /** `fn` is subscribed to `key` in every state of the run. */
  predicate StaysOn(s: State, es: seq<Step>, key: Key, fn: Fn)
    requires IsRun(s, es)
    decreases |es|
  {
    Has(s, key, fn) && (es == [] || StaysOn(Apply(s, es[0]), es[1..], key, fn))
  }

  /** `fn` is subscribed to `key` in no state of the run. */
  predicate StaysOff(s: State, es: seq<Step>, key: Key, fn: Fn)
    requires IsRun(s, es)
    decreases |es|
  {
    !Has(s, key, fn) && (es == [] || StaysOff(Apply(s, es[0]), es[1..], key, fn))
  }

  predicate ListenersOk(s: State) {
    forall k :: k in s.listeners ==> NoDup(s.listeners[k])
  }

  lemma StepKeepsListeners(s: State, e: Step)
    requires ListenersOk(s) && Enabled(s, e)
    ensures ListenersOk(Apply(s, e))
  {
    if e.Unsubscribe? {
      FilterNoDup(s.listeners[e.key], (x: Fn) => x != e.fn);
    }
  }

  lemma {:induction false} RunKeepsListeners(s: State, es: seq<Step>)
    requires ListenersOk(s) && IsRun(s, es)
    ensures ListenersOk(After(s, es))
    decreases |es|
  {
    if es != [] {
      StepKeepsListeners(s, es[0]);
      RunKeepsListeners(Apply(s, es[0]), es[1..]);
    }
  }

  // ── One dispatch ──────────────────────────────────────────────────────────

  /** The loop of frame `f` so far: the listeners before `next`, in order, less
      the missed ones, have been called. */
  predicate LoopOk(f: Frame) {
    NoDup(f.snapshot) && f.next <= |f.snapshot| &&
    f.called == Filter(f.snapshot[..f.next], (x: Fn) => x !in f.missed) &&
    forall x :: x in f.missed ==> x in f.snapshot[..f.next]
  }

  lemma AdvanceKeepsLoop(s: State)
    requires Enabled(s, Advance) && LoopOk(Top(s)) && Top(s).next < |Top(s).snapshot|
    ensures LoopOk(Top(Apply(s, Advance)))
  {
    var f := Top(s);
    var fn := f.snapshot[f.next];
    var f' := Top(Apply(s, Advance));
    assert f.snapshot[..f.next + 1] == f.snapshot[..f.next] + [fn];
    assert fn !in f.snapshot[..f.next];
    FilterAppend(f.snapshot[..f.next], [fn], (x: Fn) => x !in f'.missed);
    FilterSame(f.snapshot[..f.next], (x: Fn) => x !in f.missed, (x: Fn) => x !in f'.missed);
  }

  /** A step inside a dispatch either belongs to a deeper frame or is this frame's
      own loop; either way what is settled stays settled. */
  lemma StepInFrame(s: State, e: Step, n: nat)
    requires Enabled(s, e) && n < |s.stack| && LoopOk(s.stack[n]) && n < |Apply(s, e).stack|
    ensures LoopOk(Apply(s, e).stack[n])
    ensures var f, f' := s.stack[n], Apply(s, e).stack[n];
            f'.key == f.key && f'.value == f.value && f'.snapshot == f.snapshot &&
            f.next <= f'.next && f.called <= f'.called
  {
    if e.Advance? && n == |s.stack| - 1 {
      AdvanceKeepsLoop(s);
    }
  }

  lemma {:induction false} RunInFrame(s: State, es: seq<Step>, n: nat)
    requires IsRun(s, es) && Within(s, es, n) && LoopOk(s.stack[n])
    ensures |After(s, es).stack| > n && LoopOk(After(s, es).stack[n])
    ensures var f, f' := s.stack[n], After(s, es).stack[n];
            f'.key == f.key && f'.value == f.value && f'.snapshot == f.snapshot &&
            f.next <= f'.next && f.called <= f'.called
    decreases |es|
  {
    if es != [] {
      StepInFrame(s, es[0], n);
      RunInFrame(Apply(s, es[0]), es[1..], n);
    }
  }

  lemma {:induction false} NeverMissed(s: State, es: seq<Step>, n: nat, fn: Fn)
    requires IsRun(s, es) && Within(s, es, n) && LoopOk(s.stack[n])
    requires StaysOn(s, es, s.stack[n].key, fn) && fn !in s.stack[n].missed
    ensures |After(s, es).stack| > n && fn !in After(s, es).stack[n].missed
    decreases |es|
  {
    if es != [] {
      StepInFrame(s, es[0], n);
      NeverMissed(Apply(s, es[0]), es[1..], n, fn);
    }
  }

  lemma {:induction false} NeverCalled(s: State, es: seq<Step>, n: nat, fn: Fn)
    requires IsRun(s, es) && Within(s, es, n) && LoopOk(s.stack[n])
    requires StaysOff(s, es, s.stack[n].key, fn) && fn !in s.stack[n].called
    ensures |After(s, es).stack| > n && fn !in After(s, es).stack[n].called
    decreases |es|
  {
    if es != [] {
      StepInFrame(s, es[0], n);
      NeverCalled(Apply(s, es[0]), es[1..], n, fn);
    }
  }

  /** The state after the first `k` steps. */
  function StateAt(s: State, es: seq<Step>, k: nat): State
    requires IsRun(s, es) && k <= |es|
    decreases k
  {
    if k == 0 then s else StateAt(Apply(s, es[0]), es[1..], k - 1)
  }

  /** What frame `n` has called by then. */
  function CalledBy(s: State, es: seq<Step>, k: nat, n: nat): seq<Fn>
    requires IsRun(s, es) && k <= |es|
  {
    if n < |StateAt(s, es, k).stack| then StateAt(s, es, k).stack[n].called else []
  }

  /** `fn` is unsubscribed after the first `k` steps, and stays so to the end. */
  predicate OffFrom(s: State, es: seq<Step>, k: nat, key: Key, fn: Fn)
    requires IsRun(s, es) && k <= |es|
    decreases k
  {
    if k == 0 then StaysOff(s, es, key, fn) else OffFrom(Apply(s, es[0]), es[1..], k - 1, key, fn)
  }

  /** Torn down before its turn, a listener is not called. */
  lemma {:induction false} NotCalledOnceGone(s: State, es: seq<Step>, n: nat, k: nat, fn: Fn)
    requires IsRun(s, es) && Within(s, es, n) && LoopOk(s.stack[n]) && k <= |es|
    requires OffFrom(s, es, k, s.stack[n].key, fn) && fn !in CalledBy(s, es, k, n)
    ensures |After(s, es).stack| > n && fn !in After(s, es).stack[n].called
    decreases k
  {
    if k == 0 {
      NeverCalled(s, es, n, fn);
    } else {
      StepInFrame(s, es[0], n);
      NotCalledOnceGone(Apply(s, es[0]), es[1..], n, k - 1, fn);
    }
  }

  /** Step `k` is the one in which frame `n` calls `fn`, which is subscribed then. */
  predicate CalledAt(s: State, es: seq<Step>, k: nat, n: nat, key: Key, fn: Fn)
    requires IsRun(s, es) && k < |es|
  {
    es[k] == Advance && Has(StateAt(s, es, k), key, fn) &&
    CalledBy(s, es, k + 1, n) == CalledBy(s, es, k, n) + [fn]
  }

  /** One step adds to a frame's calls only its own loop's turn, to a subscriber. */
  lemma StepCallsASubscriber(s: State, e: Step, n: nat, fn: Fn)
    requires Enabled(s, e) && n < |s.stack| && n < |Apply(s, e).stack|
    requires fn in Apply(s, e).stack[n].called && fn !in s.stack[n].called
    ensures e == Advance && Has(s, s.stack[n].key, fn)
    ensures Apply(s, e).stack[n].called == s.stack[n].called + [fn]
  {
  }

  /** Whoever was called was subscribed at the moment of the call. */
  lemma {:induction false} CalledWhileSubscribed(s: State, es: seq<Step>, n: nat, fn: Fn) returns (k: nat)
    requires IsRun(s, es) && Within(s, es, n) && LoopOk(s.stack[n]) && fn !in s.stack[n].called
    requires |After(s, es).stack| > n && fn in After(s, es).stack[n].called
    ensures k < |es| && CalledAt(s, es, k, n, s.stack[n].key, fn)
    decreases |es|
  {
    var s' := Apply(s, es[0]);
    StepInFrame(s, es[0], n);
    if fn in s'.stack[n].called {
      k := 0;
      StepCallsASubscriber(s, es[0], n, fn);
      assert StateAt(s, es, 1) == StateAt(s', es[1..], 0);
    } else {
      var j := CalledWhileSubscribed(s', es[1..], n, fn);
      k := j + 1;
      assert StateAt(s, es, k) == StateAt(s', es[1..], j) && StateAt(s, es, k + 1) == StateAt(s', es[1..], j + 1);
    }
  }

  /** A changing `set` on a key with listeners, then anything its callbacks do up
      to the end of its loop: the listeners it called are those of the moment of
      the set, in order, each at most once, and each subscribed when it was called;
      one that was subscribed all along was called, one that was gone before its
      turn and stayed so was not. */
  lemma DispatchCallsItsSnapshot(s: State, key: Key, value: Val, es: seq<Step>)
    requires ListenersOk(s) && CodeRuns(s) && !InPlace(s, key, value) && key in s.listeners
    requires var s1 := Apply(s, Set(key, value));
             IsRun(s1, es) && Within(s1, es, |s.stack|)
    ensures |After(Apply(s, Set(key, value)), es).stack| > |s.stack|
    ensures var s1 := Apply(s, Set(key, value));
            var f := After(s1, es).stack[|s.stack|];
            f.key == key && f.value == value && f.snapshot == s.listeners[key] &&
            f.next <= |f.snapshot| && NoDup(f.called) &&
            f.called == Filter(f.snapshot[..f.next], (x: Fn) => x !in f.missed) &&
            (forall fn :: fn in f.called ==> exists k: nat :: k < |es| && CalledAt(s1, es, k, |s.stack|, key, fn)) &&
            (forall fn :: fn in f.snapshot[..f.next] && StaysOn(s1, es, key, fn) ==> fn in f.called) &&
            (forall fn, k: nat | k <= |es| && OffFrom(s1, es, k, key, fn) ::
               fn !in CalledBy(s1, es, k, |s.stack|) ==> fn !in f.called)
  {
    var s1 := Apply(s, Set(key, value));
    var n := |s.stack|;
    assert LoopOk(s1.stack[n]);
    RunInFrame(s1, es, n);
    var f := After(s1, es).stack[n];
    FilterNoDup(f.snapshot[..f.next], (x: Fn) => x !in f.missed);
    forall fn | fn in f.called
      ensures exists k: nat :: k < |es| && CalledAt(s1, es, k, n, key, fn)
    {
      var k := CalledWhileSubscribed(s1, es, n, fn);
    }
    forall fn | fn in f.snapshot[..f.next] && StaysOn(s1, es, key, fn)
      ensures fn in f.called
    {
      NeverMissed(s1, es, n, fn);
    }
    forall fn, k: nat | k <= |es| && OffFrom(s1, es, k, key, fn) && fn !in CalledBy(s1, es, k, n)
      ensures fn !in f.called
    {
      NotCalledOnceGone(s1, es, n, k, fn);
    }
  }

  /** A frame goes away by its own loop's turn only, and only at the end of the snapshot. */
  lemma FramesEndAtTheEnd(s: State, e: Step)
    requires Enabled(s, e)
    ensures |Apply(s, e).stack| >= |s.stack| - 1
    ensures |Apply(s, e).stack| < |s.stack| ==>
              e == Advance && Top(s).next >= |Top(s).snapshot| && Apply(s, e).stack == s.stack[..|s.stack| - 1]
  {
  }

  /** The dispatch as a whole. When it ends, the loop has gone through all the listeners
      there were when the value was set: whoever was subscribed all along has been
      called, everyone who was called was so in that order, and the frames below are
      as they were. */
  lemma {:induction false} DispatchReachesEveryListener(s: State, key: Key, value: Val, es: seq<Step>, e: Step)
    requires ListenersOk(s) && CodeRuns(s) && !InPlace(s, key, value) && key in s.listeners
    requires var s1 := Apply(s, Set(key, value));
             IsRun(s1, es) && Within(s1, es, |s.stack|) && Enabled(After(s1, es), e) &&
             |Apply(After(s1, es), e).stack| <= |s.stack|
    ensures |After(Apply(s, Set(key, value)), es).stack| == |s.stack| + 1
    ensures var s1 := Apply(s, Set(key, value));
            var f := Top(After(s1, es));
            f.called == Filter(s.listeners[key], (x: Fn) => x !in f.missed) &&
            (forall fn :: fn in s.listeners[key] && StaysOn(s1, es, key, fn) ==> fn in f.called) &&
            Apply(After(s1, es), e).stack == s.stack
  {
    var s1 := Apply(s, Set(key, value));
    var end := After(s1, es);
    DispatchCallsItsSnapshot(s, key, value, es);
    FramesEndAtTheEnd(end, e);
    LowerFramesWait(s1, es, |s.stack|);
    assert s1.stack[..|s.stack|] == s.stack;
    var f := Top(end);
    assert f.snapshot[..f.next] == s.listeners[key];
  }

  function Advances(es: seq<Step>): nat {
    if es == [] then 0 else (if es[0].Advance? then 1 else 0) + Advances(es[1..])
  }

  /** No `set` along the run changes a value that has listeners. */
  predicate NoNested(s: State, es: seq<Step>)
    requires IsRun(s, es)
    decreases |es|
  {
    es == [] ||
    ((es[0].Set? ==> |Apply(s, es[0]).stack| == |s.stack|) && NoNested(Apply(s, es[0]), es[1..]))
  }

  lemma {:induction false} LoopTurns(s: State, es: seq<Step>, n: nat)
    requires IsRun(s, es) && Within(s, es, n) && NoNested(s, es)
    requires |s.stack| == n + 1 && LoopOk(s.stack[n])
    ensures |After(s, es).stack| == n + 1
    ensures Advances(es) == After(s, es).stack[n].next - s.stack[n].next
    ensures After(s, es).stack[n].snapshot == s.stack[n].snapshot && LoopOk(After(s, es).stack[n])
    decreases |es|
  {
    if es != [] {
      StepInFrame(s, es[0], n);
      LoopTurns(Apply(s, es[0]), es[1..], n);
    }
  }

  /** If callbacks change no watched value, the dispatch is over within one turn
      per snapshot listener, whatever they subscribe meanwhile. */
  lemma DispatchEnds(s: State, key: Key, value: Val, es: seq<Step>)
    requires ListenersOk(s) && CodeRuns(s) && !InPlace(s, key, value) && key in s.listeners
    requires var s1 := Apply(s, Set(key, value));
             IsRun(s1, es) && Within(s1, es, |s.stack|) && NoNested(s1, es)
    ensures Advances(es) <= |s.listeners[key]|
    ensures var end := After(Apply(s, Set(key, value)), es);
            end.stack != [] &&
            (Advances(es) == |s.listeners[key]| && !Top(end).running ==>
               Enabled(end, Advance) && Apply(end, Advance).stack == s.stack)
  {
    var s1 := Apply(s, Set(key, value));
    assert LoopOk(s1.stack[|s.stack|]);
    LoopTurns(s1, es, |s.stack|);
    LowerFramesWait(s1, es, |s.stack|);
    assert s1.stack[..|s.stack|] == s.stack;
  }

  lemma {:induction false} LowerFramesWait(s: State, es: seq<Step>, n: nat)
    requires IsRun(s, es) && Within(s, es, n)
    ensures |After(s, es).stack| > n && After(s, es).stack[..n] == s.stack[..n]
    decreases |es|
  {
    if es != [] {
      assert Apply(s, es[0]).stack[..n] == s.stack[..n];
      LowerFramesWait(Apply(s, es[0]), es[1..], n);
    }
  }

  // ── What is stored, and who listens ───────────────────────────────────────

  /** get: undefined for a key never written. */
  function ReadState(s: State, key: Key): Val {
    if key in s.state then s.state[key] else Undefined
  }

  /** After `set` the key reads as the value, whether or not anyone listens, and every
      other key as before. A dispatch starts exactly if the key did not already hold
      the value and somebody has subscribed to it. */
  lemma SetWrites(s: State, key: Key, value: Val)
    requires CodeRuns(s)
    ensures var s' := Apply(s, Set(key, value));
            key in s'.state && ReadState(s', key) == value && s'.listeners == s.listeners &&
            (forall k :: k != key ==> ReadState(s', k) == ReadState(s, k)) &&
            (key in s.listeners && !(key in s.state && s.state[key] == value) <==> s'.stack != s.stack) &&
            (s'.stack != s.stack ==>
               |s'.stack| == |s.stack| + 1 && s'.stack[..|s.stack|] == s.stack &&
               s'.stack[|s.stack|].snapshot == s.listeners[key] && s'.stack[|s.stack|].next == 0)
  {
    var s' := Apply(s, Set(key, value));
    if key in s.listeners && !(key in s.state && s.state[key] == value) {
      assert |s'.stack| == |s.stack| + 1;
    }
  }

  /** The value of the last `set` on a key, or `was` if there is none. */
  function LastSet(es: seq<Step>, key: Key, was: Val): Val {
    if es == [] then was
    else LastSet(es[1..], key, if es[0].Set? && es[0].key == key then es[0].value else was)
  }

  /** In every run a key reads as the last `set` has left it. */
  lemma {:induction false} ReadsTheLastSet(s: State, es: seq<Step>, key: Key)
    requires IsRun(s, es)
    ensures ReadState(After(s, es), key) == LastSet(es, key, ReadState(s, key))
    decreases |es|
  {
    if es != [] {
      if es[0].Set? {
        SetWrites(s, es[0].key, es[0].value);
      }
      ReadsTheLastSet(Apply(s, es[0]), es[1..], key);
    }
  }

  /** A new listener comes last; one that is there already keeps its place. */
  lemma SubscribeAdds(s: State, key: Key, fn: Fn)
    requires CodeRuns(s)
    ensures var s' := Apply(s, Subscribe(key, fn));
            s'.state == s.state && s'.stack == s.stack && key in s'.listeners &&
            (forall k, x :: Has(s', k, x) <==> Has(s, k, x) || (k == key && x == fn)) &&
            (Has(s, key, fn) ==> s'.listeners == s.listeners) &&
            (!Has(s, key, fn) ==>
               s'.listeners[key] == (if key in s.listeners then s.listeners[key] else []) + [fn])
  {
  }

  lemma UnsubscribeRemoves(s: State, key: Key, fn: Fn)
    requires Enabled(s, Unsubscribe(key, fn))
    ensures var s' := Apply(s, Unsubscribe(key, fn));
            s'.state == s.state && s'.stack == s.stack && s'.listeners.Keys == s.listeners.Keys &&
            (forall k, x :: Has(s', k, x) <==> Has(s, k, x) && !(k == key && x == fn))
  {
  }

  /** Whether the last call that concerns `fn` and the key subscribed it. */
  predicate LastSubscribed(es: seq<Step>, key: Key, fn: Fn, was: bool) {
    if es == [] then was
    else LastSubscribed(es[1..], key, fn,
           if es[0] == Subscribe(key, fn) then true else if es[0] == Unsubscribe(key, fn) then false else was)
  }

  /** In every run a listener is subscribed if the last call about it said so. */
  lemma {:induction false} ListensSinceTheLastSubscribe(s: State, es: seq<Step>, key: Key, fn: Fn)
    requires IsRun(s, es)
    ensures Has(After(s, es), key, fn) <==> LastSubscribed(es, key, fn, Has(s, key, fn))
    decreases |es|
  {
    if es != [] {
      if es[0].Subscribe? {
        SubscribeAdds(s, es[0].key, es[0].fn);
      } else if es[0].Unsubscribe? {
        UnsubscribeRemoves(s, es[0].key, es[0].fn);
      }
      ListensSinceTheLastSubscribe(Apply(s, es[0]), es[1..], key, fn);
    }
  }

  // ── Selectors ─────────────────────────────────────────────────────────────

  /** `xs` without the elements equal to the one just before them, where `p`
      stands before the first. */
  function Compact<T(==)>(p: T, xs: seq<T>): seq<T> {
    if xs == [] then []
    else (if xs[0] == p then [] else [xs[0]]) + Compact(xs[0], xs[1..])
  }

  function LastOf<T>(p: T, xs: seq<T>): T {
    if xs == [] then p else xs[|xs| - 1]
  }

  lemma {:induction false} CompactAppend<T>(p: T, xs: seq<T>, x: T)
    ensures Compact(p, xs + [x]) == Compact(p, xs) + if x == LastOf(p, xs) then [] else [x]
  {
    if xs == [] {
      assert xs + [x] == [x];
    } else {
      var head, tail := if xs[0] == p then [] else [xs[0]], if x == LastOf(p, xs) then [] else [x];
      assert (xs + [x])[1..] == xs[1..] + [x];
      assert LastOf(xs[0], xs[1..]) == LastOf(p, xs);
      CompactAppend(xs[0], xs[1..], x);
      assert head + (Compact(xs[0], xs[1..]) + tail) == head + Compact(xs[0], xs[1..]) + tail;
    }
  }

  /** Nothing is delivered twice in a row, and the last delivery is the last slice. */
  lemma {:induction false} CompactHasNoRepeats<T>(p: T, xs: seq<T>)
    ensures var r := [p] + Compact(p, xs);
            (forall i :: 0 <= i < |r| - 1 ==> r[i] != r[i + 1]) && r[|r| - 1] == LastOf(p, xs)
  {
    if xs != [] {
      CompactHasNoRepeats(xs[0], xs[1..]);
      var r := [xs[0]] + Compact(xs[0], xs[1..]);
      if xs[0] == p {
        assert [p] + Compact(p, xs) == r;
      } else {
        assert [p] + Compact(p, xs) == [p] + r;
        forall i | 0 <= i < |[p] + r| - 1
          ensures ([p] + r)[i] != ([p] + r)[i + 1]
        {
          if i > 0 {
            assert r[i - 1] != r[i - 1 + 1];
          }
        }
      }
    }
  }

  /** The wrapper subscribeSelector registers. `previous` is written before the
      callback runs, so a nested `set` finds it up to date. */
  class SelectorListener {
    var previous: Val
    const initial: Val
    ghost var slices: seq<Val>
    ghost var delivered: seq<Val>

    ghost predicate Valid()
      reads this
    {
      previous == LastOf(initial, slices) && delivered == Compact(initial, slices)
    }

    constructor (slice: Val)
      ensures Valid() && initial == slice && slices == [] && delivered == []
    {
      previous, initial, slices, delivered := slice, slice, [], [];
    }

    /** One call of the wrapper; `notify` says whether the callback is run. */
    method Call(slice: Val) returns (notify: bool)
      requires Valid()
      modifies this
      ensures Valid() && slices == old(slices) + [slice]
      ensures delivered == old(delivered) + if notify then [slice] else []
    {
      CompactAppend(initial, slices, slice);
      slices := slices + [slice];
      notify := previous != slice;
      if notify {
        previous := slice;
        delivered := delivered + [slice];
      }
    }
  }

  // ── merge ─────────────────────────────────────────────────────────────────

  type Fields = map<string, Val>

  datatype Heap = Heap(objects: seq<Fields>)

  /** A property read: undefined when there is none. */
  function Read(a: Fields, k: string): Val {
    if k in a then a[k] else Undefined
  }

  /** shallowEqual: as many keys, and every key of `a` equal in `b`. */
  method ShallowEqual(a: Fields, b: Fields) returns (r: bool)
    ensures r <==> |a| == |b| && forall k :: k in a ==> a[k] == Read(b, k)
  {
    if |a| != |b| {
      return false;
    }
    var keys := a.Keys;
    while keys != {}
      invariant keys <= a.Keys
      invariant forall k :: k in a && k !in keys ==> a[k] == Read(b, k)
    {
      var k :| k in keys;
      if a[k] != Read(b, k) {
        return false;
      }
      keys := keys - {k};
    }
    r := true;
  }

  predicate ShallowlyEqual(a: Fields, b: Fields) {
    |a| == |b| && forall k :: k in a ==> a[k] == Read(b, k)
  }

  lemma SubsetOfEqualSize(a: set<string>, b: set<string>)
    requires a <= b && |a| == |b|
    ensures a == b
  {
    assert b == a + (b - a);
  }

  /** shallowEqual decides equality with a `b` that has every key under which `a`
      holds undefined. */
  lemma ShallowEqualIsEquality(a: Fields, b: Fields)
    requires forall k :: k in a && a[k] == Undefined ==> k in b
    ensures ShallowlyEqual(a, b) <==> a == b
  {
    if ShallowlyEqual(a, b) {
      SubsetOfEqualSize(a.Keys, b.Keys);
    }
  }

  /** A key that is longer than every key of a set. */
  lemma {:induction false} FreshKey(keys: set<string>) returns (longer: string)
    ensures forall k :: k in keys ==> |k| < |longer|
  {
    longer := "-";
    if keys != {} {
      var k :| k in keys;
      longer := FreshKey(keys - {k});
      if |longer| <= |k| {
        longer := k + "-";
      }
    }
  }

  /** If `a` holds undefined under a key, some other object passes for it. */
  lemma UndefinedHidesAKey(a: Fields, k: string) returns (b: Fields)
    requires k in a && a[k] == Undefined
    ensures ShallowlyEqual(a, b) && a != b
  {
    var longer := FreshKey(a.Keys);
    var rest := a - {k};
    b := rest[longer := Undefined];
    assert longer !in a && rest.Keys == a.Keys - {k} && b.Keys == rest.Keys + {longer};
    assert |a.Keys| == |a| && |b.Keys| == |b|;
  }

  /** Against every second object, shallowEqual decides equality if and only if the
      first one holds undefined under no key. */
  lemma ShallowEqualIsExact(a: Fields)
    ensures (forall b: Fields :: ShallowlyEqual(a, b) <==> a == b) <==> (forall k :: k in a ==> a[k] != Undefined)
  {
    if forall k :: k in a ==> a[k] != Undefined {
      forall b: Fields
        ensures ShallowlyEqual(a, b) <==> a == b
      {
        ShallowEqualIsEquality(a, b);
      }
    } else {
      var k :| k in a && a[k] == Undefined;
      var b := UndefinedHidesAKey(a, k);
      assert !(ShallowlyEqual(a, b) <==> a == b);
    }
  }

  lemma ShallowEqualMissesAKey()
    ensures ShallowlyEqual(map["x" := Undefined], map["y" := Prim(1)])
    ensures map["x" := Undefined] != map["y" := Prim(1)]
  {
    assert "x" in map["x" := Undefined] && "x" !in map["y" := Prim(1)];
  }

  function Contents(h: Heap, v: Val): Fields {
    if v.Obj? && v.ref < |h.objects| then h.objects[v.ref] else map[]
  }

  predicate HeapOk(h: Heap, s: State) {
    forall k :: k in s.state && s.state[k].Obj? ==> s.state[k].ref < |h.objects|
  }

  /** Some patched field is new or different. */
  predicate Patches(old_: Fields, patch: Fields) {
    exists k :: k in patch && (k !in old_ || old_[k] != patch[k])
  }

  /** merge: the overlay goes into a fresh object, unless it changes nothing. The
      result is the heap and the value to `set`, if any. */
  method Merge(h: Heap, s: State, key: Key, patch: Fields) returns (h': Heap, write: Option<Val>)
    requires HeapOk(h, s)
    ensures write.None? <==> ReadState(s, key).Obj? && !Patches(Contents(h, ReadState(s, key)), patch)
    ensures write.None? ==> h' == h
    ensures write.Some? ==> !InPlace(s, key, write.value) && HeapOk(h', s)
    ensures write.Some? ==> write.value.Obj? && |h.objects| <= write.value.ref < |h'.objects|
    ensures Contents(h', if write.Some? then write.value else ReadState(s, key))
         == Contents(h, ReadState(s, key)) + patch
    ensures h.objects <= h'.objects
  {
    var current := ReadState(s, key);
    var next := Contents(h, current) + patch;
    if current.Obj? {
      var same := ShallowEqual(Contents(h, current), next);
      OverlayIsSame(Contents(h, current), patch);
      if same {
        return h, None;
      }
    }
    h' := Heap(h.objects + [next]);
    write := Some(Obj(|h.objects|));
  }

  lemma OverlayIsSame(old_: Fields, patch: Fields)
    ensures ShallowlyEqual(old_, old_ + patch) <==> !Patches(old_, patch)
    ensures ShallowlyEqual(old_, old_ + patch) <==> old_ == old_ + patch
  {
    ShallowEqualIsEquality(old_, old_ + patch);
    if !Patches(old_, patch) {
      assert old_ + patch == old_;
    } else {
      var k :| k in patch && (k !in old_ || old_[k] != patch[k]);
      assert (old_ + patch)[k] == patch[k];
    }
  }

  // ── The class ─────────────────────────────────────────────────────────────

  class Store {
    var state: map<Key, Val>
    var listeners: map<Key, seq<Fn>>
    /** The activations of `Set` that are still dispatching. */
    var stack: seq<Frame>

    ghost function View(): State
      reads this
    {
      State(state, listeners, stack)
    }

    constructor ()
      ensures View() == State(map[], map[], [])
    {
      state, listeners, stack := map[], map[], [];
    }

    /** The code of `set` up to its loop. */
    method Set(key: Key, value: Val)
      requires CodeRuns(View())
      modifies this
      ensures View() == Apply(old(View()), Step.Set(key, value))
    {
      if key in state && state[key] == value {
        return;
      }
      state := state[key := value];
      if key !in listeners {
        return;
      }
      stack := stack + [Frame(key, value, listeners[key], 0, false, [], {})];
    }

    /** `merge`. Afterwards the key's object holds the overlay, every other key reads as
        before and holds what it held; a patch that changes nothing changes nothing. */
    method MergeInto(h: Heap, key: Key, patch: Fields) returns (h': Heap)
      requires CodeRuns(View()) && HeapOk(h, View())
      modifies this
      ensures HeapOk(h', View()) && h.objects <= h'.objects
      ensures Contents(h', ReadState(View(), key)) == Contents(h, ReadState(old(View()), key)) + patch
      ensures forall k :: k != key ==>
                ReadState(View(), k) == ReadState(old(View()), k) &&
                Contents(h', ReadState(View(), k)) == Contents(h, ReadState(old(View()), k))
      ensures ReadState(old(View()), key).Obj? && !Patches(Contents(h, ReadState(old(View()), key)), patch) ==>
                h' == h && View() == old(View())
      ensures !(ReadState(old(View()), key).Obj? && !Patches(Contents(h, ReadState(old(View()), key)), patch)) ==>
                (|stack| > |old(stack)| <==> key in listeners)
    {
      var write;
      h', write := Merge(h, State(state, listeners, stack), key, patch);
      if write.Some? {
        SetWrites(View(), key, write.value);
        Set(key, write.value);
      }
    }

    /** One turn of the loop: the listener to call now, if it still is one. */
    method NextListener() returns (fn: Option<Fn>)
      requires Enabled(View(), Advance)
      modifies this
      ensures View() == Apply(old(View()), Advance)
      ensures fn.Some? ==> stack != [] && Top(View()).running && Has(View(), Top(View()).key, fn.value)
    {
      fn := None;
      var f := stack[|stack| - 1];
      if f.next >= |f.snapshot| {
        stack := stack[..|stack| - 1];
        return;
      }
      var candidate := f.snapshot[f.next];
      f := f.(next := f.next + 1);
      if f.key in listeners && candidate in listeners[f.key] {
        fn := Some(candidate);
        f := f.(running := true, called := f.called + [candidate]);
      } else {
        f := f.(missed := f.missed + {candidate});
      }
      stack := stack[|stack| - 1 := f];
    }

    method SubscribeTo(key: Key, fn: Fn)
      requires CodeRuns(View())
      modifies this
      ensures View() == Apply(old(View()), Subscribe(key, fn))
    {
      if key !in listeners {
        listeners := listeners[key := []];
      }
      if fn !in listeners[key] {
        listeners := listeners[key := listeners[key] + [fn]];
      }
    }

    /** The function `subscribe` returned. */
    method UnsubscribeFrom(key: Key, fn: Fn)
      requires CodeRuns(View()) && key in listeners
      modifies this
      ensures View() == Apply(old(View()), Unsubscribe(key, fn))
    {
      listeners := listeners[key := Filter(listeners[key], (x: Fn) => x != fn)];
    }
  }
}
