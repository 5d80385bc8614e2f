/** The demo's content across page loads (demo/mock/store.ts, shim.ts): each
    document seeds its own store, and a snapshot in sessionStorage carries the
    posts, details and tags from one document to the next.

    `C` is that content and `W` a mutating request; `apply` is what the handler
    of a request does to the content. */
module Persistence {
  import opened Prelude

  /** What tells two builds of the fixtures apart. */
  datatype Stamp = Stamp(version: int, recordedAt: Option<string>)

  datatype Bundle<C> = Bundle(stamp: Stamp, content: C)

  datatype Snapshot<C> = Snapshot(stamp: Stamp, content: C)

  /** One browser tab: its sessionStorage, and the current document's fixtures and
      store. */
  datatype Tab<C> = Tab(storage: Option<Snapshot<C>>, fixtures: Bundle<C>, state: C)

  datatype Event<C, W> =
    | Read                            // any GET
    | Ignored                         // a request no route matches
    | Write(w: W)                     // any other request
    | Navigate(bundle: Bundle<C>)     // a page load that is not a reload
    | Reload(bundle: Bundle<C>)
    | Reset

  /** storedContent: the snapshot, if it was taken from this build. */
  function StoredContent<C>(storage: Option<Snapshot<C>>, fx: Bundle<C>): Option<C> {
    if storage.Some? && storage.value.stamp == fx.stamp then Some(storage.value.content) else None
  }

  /** seed: the snapshot wholesale, else the fixture. */
  function Seed<C>(storage: Option<Snapshot<C>>, fx: Bundle<C>): C {
    match StoredContent(storage, fx)
    case Some(edited) => edited
    case None => fx.content
  }

  function Load<C>(storage: Option<Snapshot<C>>, fx: Bundle<C>): Tab<C> {
    Tab(storage, fx, Seed(storage, fx))
  }

  function Apply<C, W>(apply: (W, C) -> C, t: Tab<C>, e: Event<C, W>): Tab<C> {
    match e
    case Read => t
    case Ignored => t
    case Write(w) =>
      var edited := apply(w, t.state);
      Tab(Some(Snapshot(t.fixtures.stamp, edited)), t.fixtures, edited)
    case Navigate(bundle) => Load(t.storage, bundle)
    case Reload(bundle) => Load(None, bundle)
    case Reset => Load(None, t.fixtures)
  }

  function After<C, W>(apply: (W, C) -> C, t: Tab<C>, es: seq<Event<C, W>>): Tab<C> {
    if es == [] then t
    else Apply(apply, After(apply, t, es[..|es| - 1]), es[|es| - 1])
  }

  /** A tab that has just opened the demo. */
  function Opened<C>(bundle: Bundle<C>): Tab<C> {
    Load(None, bundle)
  }

  // ── One long-lived store ──────────────────────────────────────────────────

  /** The build in force after the events. */
  function Current<C, W>(first: Bundle<C>, es: seq<Event<C, W>>): Bundle<C> {
    if es == [] then first
    else
      var before := Current(first, es[..|es| - 1]);
      match es[|es| - 1]
      case Navigate(bundle) => bundle
      case Reload(bundle) => bundle
      case _ => before
  }

  /** The writes since the last reload, reset or change of build. */
  function WritesSince<C, W>(first: Bundle<C>, es: seq<Event<C, W>>): seq<W> {
    if es == [] then []
    else
      var before := es[..|es| - 1];
      match es[|es| - 1]
      case Write(w) => WritesSince(first, before) + [w]
      case Navigate(bundle) =>
        if bundle.stamp == Current(first, before).stamp then WritesSince(first, before) else []
      case Reload(_) => []
      case Reset => []
      case _ => WritesSince(first, before)
  }

  function Replay<C, W>(apply: (W, C) -> C, c: C, ws: seq<W>): C {
    if ws == [] then c else apply(ws[|ws| - 1], Replay(apply, c, ws[..|ws| - 1]))
  }

  /** The store a visitor would have if one had lived all along. */
  function OneStore<C, W>(apply: (W, C) -> C, first: Bundle<C>, es: seq<Event<C, W>>): C {
    Replay(apply, Current(first, es).content, WritesSince(first, es))
  }

  /** A navigation to a build the tab is not on but has a snapshot of. */
  predicate Revives<C, W>(t: Tab<C>, e: Event<C, W>) {
    e.Navigate? && e.bundle.stamp != t.fixtures.stamp &&
    t.storage.Some? && t.storage.value.stamp == e.bundle.stamp
  }

  predicate NeverRevives<C, W>(apply: (W, C) -> C, t: Tab<C>, es: seq<Event<C, W>>) {
    forall i :: 0 <= i < |es| ==> !Revives(After(apply, t, es[..i]), es[i])
  }

  /** A revival brings back nothing but what the build holds anyway. */
  predicate Harmless<C(==), W>(t: Tab<C>, e: Event<C, W>) {
    Revives(t, e) ==> t.storage.value.content == e.bundle.content
  }

  predicate OnlyHarmless<C(==), W>(apply: (W, C) -> C, t: Tab<C>, es: seq<Event<C, W>>) {
    forall i :: 0 <= i < |es| ==> Harmless(After(apply, t, es[..i]), es[i])
  }

  /** Builds with one stamp have one content. */
  ghost predicate StampsIdentify<C, W>(first: Bundle<C>, es: seq<Event<C, W>>) {
    forall i, j :: 0 <= i <= |es| && 0 <= j <= |es| ==>
      var a, b := Current(first, es[..i]), Current(first, es[..j]);
      a.stamp == b.stamp ==> a.content == b.content
  }

  lemma {:induction false} PrefixStamps<C, W>(first: Bundle<C>, es: seq<Event<C, W>>, n: nat)
    requires n <= |es| && StampsIdentify(first, es)
    ensures StampsIdentify(first, es[..n])
  {
    forall i, j | 0 <= i <= n && 0 <= j <= n
      ensures var a, b := Current(first, es[..n][..i]), Current(first, es[..n][..j]);
              a.stamp == b.stamp ==> a.content == b.content
    {
      assert es[..n][..i] == es[..i] && es[..n][..j] == es[..j];
    }
  }

  /** What a tab and the long-lived store agree on. */
  ghost predicate InStep<C, W>(apply: (W, C) -> C, first: Bundle<C>, es: seq<Event<C, W>>, t: Tab<C>) {
    t.fixtures.stamp == Current(first, es).stamp && t.fixtures.content == Current(first, es).content &&
    t.state == OneStore(apply, first, es) &&
    (StoredContent(t.storage, t.fixtures).Some? ==> t.storage.value.content == t.state) &&
    (StoredContent(t.storage, t.fixtures).None? ==> t.state == t.fixtures.content)
  }

  lemma {:induction false} WriteInStep<C, W>(apply: (W, C) -> C, first: Bundle<C>, es: seq<Event<C, W>>)
    requires es != [] && es[|es| - 1].Write?
    requires InStep(apply, first, es[..|es| - 1], After(apply, Opened(first), es[..|es| - 1]))
    ensures InStep(apply, first, es, After(apply, Opened(first), es))
  {
    var n := |es| - 1;
    var ws, w := WritesSince(first, es[..n]), es[n].w;
    assert (ws + [w])[..|ws|] == ws;
    assert WritesSince(first, es) == ws + [w] && Current(first, es) == Current(first, es[..n]);
  }

  lemma {:induction false} NavigateInStep<C, W>(apply: (W, C) -> C, first: Bundle<C>, es: seq<Event<C, W>>)
    requires es != [] && es[|es| - 1].Navigate? && StampsIdentify(first, es)
    requires var n := |es| - 1;
             var t := After(apply, Opened(first), es[..n]);
             InStep(apply, first, es[..n], t) && Harmless(t, es[n])
    ensures InStep(apply, first, es, After(apply, Opened(first), es))
  {
    var n := |es| - 1;
    var bundle := es[n].bundle;
    assert es[..n + 1] == es;
    assert Current(first, es[..n + 1]) == bundle;
    assert Current(first, es[..n]).stamp == bundle.stamp ==> Current(first, es[..n]).content == bundle.content;
  }

  lemma {:induction false} StepInStep<C, W>(apply: (W, C) -> C, first: Bundle<C>, es: seq<Event<C, W>>)
    requires es != [] && StampsIdentify(first, es)
    requires var n := |es| - 1;
             var t := After(apply, Opened(first), es[..n]);
             InStep(apply, first, es[..n], t) && Harmless(t, es[n])
    ensures InStep(apply, first, es, After(apply, Opened(first), es))
  {
    match es[|es| - 1]
    case Write(_) => WriteInStep(apply, first, es);
    case Navigate(_) => NavigateInStep(apply, first, es);
    case _ =>
  }

  /** A tab that is in step shows the fixture after a change of build exactly when
      the navigation revives nothing, or revives what the fixture holds anyway. */
  lemma {:induction false} ChangeOfBuildShowsTheFixture<C, W>(
      apply: (W, C) -> C, first: Bundle<C>, es: seq<Event<C, W>>, bundle: Bundle<C>)
    requires bundle.stamp != Current(first, es).stamp
    requires InStep(apply, first, es, After(apply, Opened(first), es))
    ensures var t := After(apply, Opened(first), es);
            var e: Event<C, W> := Navigate(bundle);
            Apply(apply, t, e).state == OneStore(apply, first, es + [e]) <==>
            (Revives(t, e) ==> t.storage.value.content == bundle.content)
  {
    var e: Event<C, W> := Navigate(bundle);
    assert (es + [e])[..|es|] == es;
  }

  lemma {:induction false} HarmlessPrefix<C, W>(apply: (W, C) -> C, t: Tab<C>, es: seq<Event<C, W>>, n: nat)
    requires n <= |es| && OnlyHarmless(apply, t, es)
    ensures OnlyHarmless(apply, t, es[..n])
  {
    forall i | 0 <= i < n
      ensures Harmless(After(apply, t, es[..n][..i]), es[..n][i])
    {
      assert es[..n][..i] == es[..i];
    }
  }

  lemma {:induction false} HarmlessStaysInStep<C, W>(apply: (W, C) -> C, first: Bundle<C>, es: seq<Event<C, W>>)
    requires StampsIdentify(first, es) && OnlyHarmless(apply, Opened(first), es)
    ensures InStep(apply, first, es, After(apply, Opened(first), es))
    decreases |es|
  {
    if es != [] {
      var n := |es| - 1;
      PrefixStamps(first, es, n);
      HarmlessPrefix(apply, Opened(first), es, n);
      HarmlessStaysInStep(apply, first, es[..n]);
      assert Harmless(After(apply, Opened(first), es[..n]), es[n]);
      StepInStep(apply, first, es);
    }
  }

  /** After the first `n` events the visitor sees what one store would hold. */
  predicate ShowsOneStore<C(==), W>(apply: (W, C) -> C, first: Bundle<C>, es: seq<Event<C, W>>, n: nat)
    requires n <= |es|
  {
    After(apply, Opened(first), es[..n]).state == OneStore(apply, first, es[..n])
  }

  /** The first harmful revival is seen at once. */
  lemma {:induction false} NeverHarmed<C, W>(apply: (W, C) -> C, first: Bundle<C>, es: seq<Event<C, W>>)
    requires StampsIdentify(first, es)
    requires forall n :: 0 <= n <= |es| ==> ShowsOneStore(apply, first, es, n)
    ensures OnlyHarmless(apply, Opened(first), es)
    decreases |es|
  {
    if es != [] {
      var n := |es| - 1;
      var t := After(apply, Opened(first), es[..n]);
      PrefixStamps(first, es, n);
      forall i | 0 <= i <= n
        ensures ShowsOneStore(apply, first, es[..n], i)
      {
        assert es[..n][..i] == es[..i];
        assert ShowsOneStore(apply, first, es, i);
      }
      NeverHarmed(apply, first, es[..n]);
      HarmlessStaysInStep(apply, first, es[..n]);
      LastIsHarmless(apply, first, es);
      forall i | 0 <= i < |es|
        ensures Harmless(After(apply, Opened(first), es[..i]), es[i])
      {
        if i < n {
          assert es[..n][..i] == es[..i];
          assert Harmless(After(apply, Opened(first), es[..n][..i]), es[..n][i]);
        }
      }
    }
  }

  lemma {:induction false} LastIsHarmless<C, W>(apply: (W, C) -> C, first: Bundle<C>, es: seq<Event<C, W>>)
    requires es != [] && ShowsOneStore(apply, first, es, |es|)
    requires InStep(apply, first, es[..|es| - 1], After(apply, Opened(first), es[..|es| - 1]))
    ensures Harmless(After(apply, Opened(first), es[..|es| - 1]), es[|es| - 1])
  {
    var n := |es| - 1;
    assert es[..|es|] == es && es[..n] + [es[n]] == es;
    var e := es[n];
    if Revives(After(apply, Opened(first), es[..n]), e) {
      assert e == Navigate(e.bundle);
      ChangeOfBuildShowsTheFixture(apply, first, es[..n], e.bundle);
    }
  }

  /** Over any run of writes, navigations, reloads, resets and new builds, the visitor
      sees all along the fixture with exactly the writes since the last reload, reset
      or change of build, if and only if no navigation brings back a snapshot that
      differs from what its build holds. */
  lemma {:induction false} TabIsOneStore<C, W>(apply: (W, C) -> C, first: Bundle<C>, es: seq<Event<C, W>>)
    requires StampsIdentify(first, es)
    ensures (forall n :: 0 <= n <= |es| ==> ShowsOneStore(apply, first, es, n)) <==>
            OnlyHarmless(apply, Opened(first), es)
  {
    if OnlyHarmless(apply, Opened(first), es) {
      forall n | 0 <= n <= |es|
        ensures ShowsOneStore(apply, first, es, n)
      {
        PrefixStamps(first, es, n);
        HarmlessPrefix(apply, Opened(first), es, n);
        HarmlessStaysInStep(apply, first, es[..n]);
      }
    }
    if forall n :: 0 <= n <= |es| ==> ShowsOneStore(apply, first, es, n) {
      NeverHarmed(apply, first, es);
    }
  }

  // ── The one way it fails ──────────────────────────────────────────────────

  /** The failing case happens: an edit, a new build, and the old build again bring
      the edit back, because the snapshot of a rejected build is not removed. */
  lemma RolledBackBuildRevivesEdits<C, W>(apply: (W, C) -> C, a: Bundle<C>, b: Bundle<C>, w: W)
    requires a.stamp != b.stamp && apply(w, a.content) != a.content
    ensures var es: seq<Event<C, W>> := [Write(w), Navigate(b), Navigate(a)];
            After(apply, Opened(a), es).state == apply(w, a.content) &&
            OneStore(apply, a, es) == a.content
  {
    var e0: seq<Event<C, W>>, e1: seq<Event<C, W>>, e2: seq<Event<C, W>> :=
      [Write(w)], [Write(w), Navigate(b)], [Write(w), Navigate(b), Navigate(a)];
    assert e0[..0] == [] && e1[..1] == e0 && e2[..2] == e1;
    assert After(apply, Opened(a), e0).state == apply(w, a.content);
    assert After(apply, Opened(a), e1).storage.value.stamp == a.stamp;
  }

  /** Builds are told apart by their stamp alone. If a second build carries the stamp of
      the first, as all builds without a recording date do, an edit hides its content:
      the visitor goes on with the edited content of the first. */
  lemma UndatedBuildStaysHidden<C, W>(apply: (W, C) -> C, a: Bundle<C>, b: Bundle<C>, w: W)
    requires a.stamp == b.stamp
    ensures var es: seq<Event<C, W>> := [Write(w), Navigate(b)];
            After(apply, Opened(a), es).state == apply(w, a.content) &&
            OneStore(apply, a, es) == apply(w, b.content)
  {
    var e0: seq<Event<C, W>>, e1: seq<Event<C, W>> := [Write(w)], [Write(w), Navigate(b)];
    assert e0[..0] == [] && e1[..1] == e0;
    assert After(apply, Opened(a), e0) == Apply(apply, Opened(a), Write(w));
    assert After(apply, Opened(a), e0).storage == Some(Snapshot(a.stamp, apply(w, a.content)));
    assert WritesSince(a, e0) == [] + [w] == [w];
    assert Current(a, e0) == a && e1[1] == Navigate(b);
    assert WritesSince(a, e1) == WritesSince(a, e0);
    assert [w][..0] == [];
    assert Replay(apply, b.content, [w]) == apply(w, Replay(apply, b.content, []));
  }

  /** Something was written since the last reload or reset. */
  predicate Edited<C, W>(es: seq<Event<C, W>>) {
    es != [] &&
    match es[|es| - 1]
    case Write(_) => true
    case Reload(_) => false
    case Reset => false
    case _ => Edited(es[..|es| - 1])
  }

  /** A snapshot is stored by writes only, under the stamp of the build they are made on,
      and goes away with a reload or a reset only. */
  lemma {:induction false} OnlyWritesAreStored<C, W>(apply: (W, C) -> C, first: Bundle<C>, es: seq<Event<C, W>>)
    ensures After(apply, Opened(first), es).storage.Some? <==> Edited(es)
    ensures es != [] ==>
              var before, t := After(apply, Opened(first), es[..|es| - 1]), After(apply, Opened(first), es);
              match es[|es| - 1]
              case Write(w) => t.storage == Some(Snapshot(before.fixtures.stamp, t.state)) && t.state == apply(w, before.state)
              case Reload(_) => t.storage == None
              case Reset => t.storage == None
              case _ => t.storage == before.storage
  {
    if es != [] {
      OnlyWritesAreStored(apply, first, es[..|es| - 1]);
    }
  }

  /** Builds that never come back revive nothing. */
  lemma {:induction false} NewBuildsNeverRevive<C, W>(apply: (W, C) -> C, first: Bundle<C>, es: seq<Event<C, W>>)
    requires forall i, j | 0 <= i < j < |es| && es[j].Navigate? ::
               es[j].bundle.stamp != Current(first, es[..j]).stamp ==>
                 es[j].bundle.stamp != Current(first, es[..i]).stamp
    ensures NeverRevives(apply, Opened(first), es)
    ensures OnlyHarmless(apply, Opened(first), es)
  {
    forall j | 0 <= j < |es|
      ensures !Revives(After(apply, Opened(first), es[..j]), es[j])
    {
      SnapshotIsOfAPastBuild(apply, first, es[..j]);
      var t := After(apply, Opened(first), es[..j]);
      if t.storage.Some? {
        var i :| 0 <= i < j && t.storage.value.stamp == Current(first, es[..j][..i]).stamp;
        assert es[..j][..i] == es[..i];
      }
    }
  }

  lemma {:induction false} SnapshotIsOfAPastBuild<C, W>(apply: (W, C) -> C, first: Bundle<C>, es: seq<Event<C, W>>)
    ensures var t := After(apply, Opened(first), es);
            t.fixtures == Current(first, es) &&
            (t.storage.Some? ==>
               exists i :: 0 <= i < |es| && t.storage.value.stamp == Current(first, es[..i]).stamp)
  {
    if es != [] {
      var n := |es| - 1;
      SnapshotIsOfAPastBuild(apply, first, es[..n]);
      var before := After(apply, Opened(first), es[..n]);
      var t := After(apply, Opened(first), es);
      if t.storage.Some? {
        if es[n].Write? {
          assert t.storage.value.stamp == Current(first, es[..n]).stamp;
        } else {
          var i :| 0 <= i < n && before.storage.value.stamp == Current(first, es[..n][..i]).stamp;
          assert es[..n][..i] == es[..i];
        }
      }
    }
  }

  // ── The module ────────────────────────────────────────────────────────────

  /** The store module of one tab: `storage` outlives the documents, the other two
      variables are set anew by each. */
  class DemoTab<C, W> {
    const apply: (W, C) -> C
    var storage: Option<Snapshot<C>>
    var fixtures: Bundle<C>
    var state: C

    ghost function View(): Tab<C>
      reads this
    {
      Tab(storage, fixtures, state)
    }

    constructor (apply: (W, C) -> C, bundle: Bundle<C>)
      ensures this.apply == apply && View() == Opened(bundle)
    {
      this.apply := apply;
      storage, fixtures, state := None, bundle, bundle.content;
    }

    method ClearContent()
      modifies this`storage
      ensures storage == None
    {
      storage := None;
    }

    /** The module's evaluation in a new document, and its first getState. */
    method LoadDocument(bundle: Bundle<C>, isReload: bool)
      modifies this
      ensures View() == Apply(apply, old(View()), if isReload then Reload(bundle) else Navigate(bundle))
    {
      if isReload {
        ClearContent();
      }
      fixtures := bundle;
      state := Seed(storage, fixtures);
    }

    method ResetState()
      modifies this
      ensures View() == Apply(apply, old(View()), Reset)
    {
      ClearContent();
      state := Seed(storage, fixtures);
    }

    /** dispatch: a matched handler runs, and anything but a read is stored. */
    method Dispatch(matched: bool, isGet: bool, w: W)
      modifies this
      ensures View() == Apply(apply, old(View()), if !matched then Ignored else if isGet then Read else Write(w))
    {
      if !matched {
        return;
      }
      if !isGet {
        state := apply(w, state);
        storage := Some(Snapshot(fixtures.stamp, state));
      }
    }
  }
}
