/**
 * The effect hooks built on `use_hook`: `use_effect` and `use_effect_with_deps`.
 *
 * Each keeps, in its hook slot, the destructor the last callback returned
 * (and, for the dependency-aware hook, the dependencies it last ran with).
 * After every render a post-render step decides whether to run the old
 * destructor and call the callback again; at teardown the stored destructor
 * runs.  Callbacks and destructors are opaque: what they do is recorded as
 * events, `Callback(deps, made)` when a callback is called and returns the
 * destructor `made`, and `Cleanup(d)` when destructor `d` runs.
 *
 * The module gives the slot states as values with their transitions, the
 * lemmas about event logs and render sequences, and the two cells the
 * post-render and teardown closures mutate in place, proved against the
 * transitions.
 */
module Effects {
  import opened Wrappers

  /** Identity of a destructor closure returned by an effect callback. */
  type Destructor = nat

  /** What an effect hook does to the outside world. */
  datatype Event<D> =
    | Callback(deps: D, made: Destructor)   // the callback ran with `deps` and returned `made`
    | Cleanup(ran: Destructor)              // destructor `ran` was run

  /** The slot state of `use_effect`. */
  datatype UseEffect = UseEffect(destructor: Option<Destructor>)

  /** The slot state of `use_effect_with_deps`. */
  datatype UseEffectDeps<D> = UseEffectDeps(destructor: Option<Destructor>, deps: D)

  /** A new slot state and the events that produced it. */
  datatype Step<S, D> = Step(next: S, events: seq<Event<D>>)

  // ---------------------------------------------------------------------------
  // Well-formed event logs

  /**
   * Replays an event log from a slot with no destructor.  The log is
   * well-formed when each callback is called while no destructor is pending
   * and each cleanup runs exactly the pending destructor; the result is then
   * the destructor still pending at the end.  `None` marks a log that breaks
   * this discipline.
   */
  function Replay<D>(log: seq<Event<D>>): Option<Option<Destructor>> {
    if log == [] then Some(None)
    else
      match Replay(log[..|log| - 1])
      case None => None
      case Some(pending) =>
        match log[|log| - 1]
        case Callback(_, made) => if pending.None? then Some(Some(made)) else None
        case Cleanup(ran) => if pending == Some(ran) then Some(None) else None
  }

  /** Replaying an extended log is replaying the log, then the new event. */
  lemma ReplaySnoc<D>(log: seq<Event<D>>, e: Event<D>)
    ensures Replay(log + [e]) ==
      match Replay(log)
      case None => None
      case Some(pending) =>
        match e
        case Callback(_, made) => if pending.None? then Some(Some(made)) else None
        case Cleanup(ran) => if pending == Some(ran) then Some(None) else None
  {
    assert (log + [e])[..|log + [e]| - 1] == log;
  }

  /** The number of callback calls in a log. */
  function Callbacks<D>(log: seq<Event<D>>): nat {
    if log == [] then 0 else (if log[0].Callback? then 1 else 0) + Callbacks(log[1..])
  }

  /** The number of destructor runs in a log. */
  function Cleanups<D>(log: seq<Event<D>>): nat {
    if log == [] then 0 else (if log[0].Cleanup? then 1 else 0) + Cleanups(log[1..])
  }

  /** Counting distributes over concatenation. */
  lemma {:induction false} CountsAppend<D>(a: seq<Event<D>>, b: seq<Event<D>>)
    ensures Callbacks(a + b) == Callbacks(a) + Callbacks(b)
    ensures Cleanups(a + b) == Cleanups(a) + Cleanups(b)
    decreases |a|
  {
    if a == [] {
      assert a + b == b;
    } else {
      assert (a + b)[1..] == a[1..] + b;
      CountsAppend(a[1..], b);
    }
  }

  /** A single event counts as one callback or one cleanup. */
  lemma CountsSingle<D>(e: Event<D>)
    ensures Callbacks([e]) == (if e.Callback? then 1 else 0)
    ensures Cleanups([e]) == (if e.Cleanup? then 1 else 0)
  {
    assert [e][1..] == [];
  }

  /**
   * In a well-formed log every destructor run is paired with an earlier
   * callback: the runs equal the calls, minus one when a destructor is still
   * pending.  So no destructor runs twice and at most one is ever pending.
   */
  lemma {:induction false} ReplayBalanced<D>(log: seq<Event<D>>)
    requires Replay(log).Some?
    ensures Callbacks(log) == Cleanups(log) + (if Replay(log).value.Some? then 1 else 0)
    decreases |log|
  {
    if log != [] {
      var front := log[..|log| - 1];
      var e := log[|log| - 1];
      assert log == front + [e];
      ReplaySnoc(front, e);
      ReplayBalanced(front);
      CountsAppend(front, [e]);
      CountsSingle(e);
    }
  }

  // ---------------------------------------------------------------------------
  // use_effect

  /** The initializer of `use_effect`: a slot with no destructor. */
  function NewEffect(): (s: UseEffect)
    ensures s.destructor.None? && Replay<()>([]) == Some(s.destructor)
  {
    UseEffect(None)
  }

  /**
   * The post-render closure of `use_effect`: run the stored destructor if
   * there is one, call this render's callback (which returns `made`), store
   * the new destructor.  The second component is the closure's answer to
   * "render again?".
   */
  function EffectPostRender(s: UseEffect, made: Destructor): (Step<UseEffect, ()>, bool) {
    var cleanup := if s.destructor.Some? then [Cleanup(s.destructor.value)] else [];
    (Step(UseEffect(Some(made)), cleanup + [Callback((), made)]), false)
  }

  /** The destructor closure of `use_effect`: take the stored destructor and run it. */
  function EffectTeardown(s: UseEffect): Step<UseEffect, ()> {
    match s.destructor
    case Some(d) => Step(UseEffect(None), [Cleanup(d)])
    case None => Step(s, [])
  }

  /**
   * After a `use_effect` post-render the old destructor (if any) has run
   * before the callback, exactly one callback was called, a destructor is
   * always stored, no re-render is requested, and a well-formed log stays
   * well-formed with the new destructor pending.
   */
  lemma EffectPostRenderPairs(s: UseEffect, made: Destructor, log: seq<Event<()>>)
    requires Replay(log) == Some(s.destructor)
    ensures var (st, rerender) := EffectPostRender(s, made);
      && !rerender
      && st.next.destructor == Some(made)
      && Callbacks(st.events) == 1
      && Cleanups(st.events) == (if s.destructor.Some? then 1 else 0)
      && st.events[|st.events| - 1] == Callback((), made)
      && (s.destructor.Some? ==> st.events[0] == Cleanup(s.destructor.value))
      && Replay(log + st.events) == Some(st.next.destructor)
  {
    var st := EffectPostRender(s, made).0;
    CountsSingle(Callback((), made));
    if s.destructor.Some? {
      var c := Cleanup(s.destructor.value);
      CountsSingle(c);
      CountsAppend([c], [Callback((), made)]);
      ReplaySnoc(log, c);
      assert log + st.events == (log + [c]) + [Callback((), made)];
      ReplaySnoc(log + [c], Callback((), made));
    } else {
      assert st.events == [Callback((), made)];
      ReplaySnoc(log, Callback((), made));
    }
  }

  /**
   * Teardown of `use_effect` runs the stored destructor exactly once and
   * leaves none, so a second teardown does nothing; a well-formed log stays
   * well-formed with nothing pending.
   */
  lemma EffectTeardownPairs(s: UseEffect, log: seq<Event<()>>)
    requires Replay(log) == Some(s.destructor)
    ensures var st := EffectTeardown(s);
      && st.next.destructor.None?
      && st.events == (if s.destructor.Some? then [Cleanup(s.destructor.value)] else [])
      && EffectTeardown(st.next).events == []
      && Replay(log + st.events) == Some(None)
  {
    if s.destructor.Some? {
      ReplaySnoc(log, Cleanup(s.destructor.value));
    } else {
      assert log + [] == log;
    }
  }

  /** Post-renders of `use_effect` for a sequence of renders; render `i`'s callback returns `made[i]`. */
  function EffectRenders(s: UseEffect, made: seq<Destructor>): Step<UseEffect, ()>
    decreases |made|
  {
    if made == [] then Step(s, [])
    else
      var st := EffectPostRender(s, made[0]).0;
      var rest := EffectRenders(st.next, made[1..]);
      Step(rest.next, st.events + rest.events)
  }

  /** The whole life of a `use_effect` slot: initializer, one post-render per render, teardown. */
  function EffectLifetime(made: seq<Destructor>): Step<UseEffect, ()> {
    var rendered := EffectRenders(NewEffect(), made);
    var torn := EffectTeardown(rendered.next);
    Step(torn.next, rendered.events + torn.events)
  }

  /** Each destructor returned by a callback, run right before the next callback (or at teardown). */
  function CallThenClean(made: seq<Destructor>): seq<Event<()>> {
    if made == [] then [] else [Callback((), made[0]), Cleanup(made[0])] + CallThenClean(made[1..])
  }

  /**
   * Post-renders on a slot whose pending destructor is `s.destructor`: the
   * old destructor runs first, then every render calls its callback and every
   * destructor but the last is run before the next callback.
   */
  lemma {:induction false} EffectRendersEvents(s: UseEffect, made: seq<Destructor>)
    requires made != []
    ensures var r := EffectRenders(s, made);
      && r.next.destructor == Some(made[|made| - 1])
      && r.events == (if s.destructor.Some? then [Cleanup(s.destructor.value)] else [])
                     + CallThenClean(made[..|made| - 1]) + [Callback((), made[|made| - 1])]
    decreases |made|
  {
    var (st, _) := EffectPostRender(s, made[0]);
    if |made| == 1 {
      assert made[..0] == [];
      assert EffectRenders(st.next, made[1..]) == Step(st.next, []);
    } else {
      EffectRendersEvents(st.next, made[1..]);
      var tail := made[1..];
      assert tail[..|tail| - 1] == made[1..|made| - 1];
      assert made[..|made| - 1] == [made[0]] + made[1..|made| - 1];
      assert CallThenClean(made[..|made| - 1])
          == [Callback((), made[0]), Cleanup(made[0])] + CallThenClean(made[1..|made| - 1]);
    }
  }

  /**
   * Over its whole life, a `use_effect` slot calls its callback once per
   * render, and each returned destructor runs exactly once: right before the
   * next render's callback, or at teardown for the last one.
   */
  lemma {:induction false} EffectLifetimeEvents(made: seq<Destructor>)
    ensures var life := EffectLifetime(made);
      && life.next.destructor.None?
      && life.events == CallThenClean(made)
      && Callbacks(life.events) == |made|
      && Cleanups(life.events) == |made|
  {
    var rendered := EffectRenders(NewEffect(), made);
    if made != [] {
      EffectRendersEvents(NewEffect(), made);
      var last := made[|made| - 1];
      CallThenCleanSnoc(made[..|made| - 1], last);
      assert made[..|made| - 1] + [last] == made;
    }
    CallThenCleanCounts(made);
  }

  /** Appending a destructor appends its call and its cleanup. */
  lemma {:induction false} CallThenCleanSnoc(made: seq<Destructor>, last: Destructor)
    ensures CallThenClean(made + [last]) == CallThenClean(made) + [Callback((), last), Cleanup(last)]
    decreases |made|
  {
    if made == [] {
      assert made + [last] == [last];
    } else {
      assert (made + [last])[1..] == made[1..] + [last];
      CallThenCleanSnoc(made[1..], last);
    }
  }

  /** A call-then-clean log has one callback and one cleanup per destructor. */
  lemma {:induction false} CallThenCleanCounts(made: seq<Destructor>)
    ensures Callbacks(CallThenClean(made)) == |made| && Cleanups(CallThenClean(made)) == |made|
    decreases |made|
  {
    if made != [] {
      var pair := [Callback((), made[0]), Cleanup(made[0])];
      CountsAppend(pair, CallThenClean(made[1..]));
      CallThenCleanCounts(made[1..]);
      assert pair[1..] == [Cleanup(made[0])];
    }
  }

  // ---------------------------------------------------------------------------
  // use_effect_with_deps

  /** The initializer of `use_effect_with_deps`: no destructor, the first render's dependencies. */
  function NewEffectDeps<D>(deps: D): (s: UseEffectDeps<D>)
    ensures s.destructor.None? && s.deps == deps
  {
    UseEffectDeps(None, deps)
  }

  /**
   * The post-render closure of `use_effect_with_deps` with this render's
   * dependencies `deps` and a callback returning `made`: on changed
   * dependencies run the old destructor, call the callback with the new
   * dependencies and store both; on equal dependencies with no destructor
   * call the callback with the stored dependencies; otherwise do nothing.
   */
  function DepsPostRender<D(==)>(s: UseEffectDeps<D>, deps: D, made: Destructor): (Step<UseEffectDeps<D>, D>, bool) {
    if s.deps != deps then
      var cleanup := if s.destructor.Some? then [Cleanup(s.destructor.value)] else [];
      (Step(UseEffectDeps(Some(made), deps), cleanup + [Callback(deps, made)]), false)
    else if s.destructor.None? then
      (Step(UseEffectDeps(Some(made), s.deps), [Callback(s.deps, made)]), false)
    else
      (Step(s, []), false)
  }

  /** The destructor closure of `use_effect_with_deps`: take the stored destructor and run it. */
  function DepsTeardown<D>(s: UseEffectDeps<D>): Step<UseEffectDeps<D>, D> {
    match s.destructor
    case Some(d) => Step(s.(destructor := None), [Cleanup(d)])
    case None => Step(s, [])
  }

  /**
   * The three branches of the dependency-aware post-render.  Changed
   * dependencies: the old destructor runs, then the callback with the new
   * dependencies, and both are stored.  Equal dependencies and no destructor:
   * one callback with the stored dependencies, which stay.  Equal
   * dependencies and a destructor: no event, nothing changes.  In every case
   * no re-render is requested, afterwards a destructor is stored, and a
   * well-formed log stays well-formed.
   */
  lemma DepsPostRenderPairs<D>(s: UseEffectDeps<D>, deps: D, made: Destructor, log: seq<Event<D>>)
    requires Replay(log) == Some(s.destructor)
    ensures var (st, rerender) := DepsPostRender(s, deps, made);
      && !rerender
      && st.next.destructor.Some?
      && st.next.deps == deps
      && (s.deps != deps ==>
            && st.next.destructor == Some(made)
            && st.events == (if s.destructor.Some? then [Cleanup(s.destructor.value)] else []) + [Callback(deps, made)])
      && (s.deps == deps && s.destructor.None? ==>
            st.next == UseEffectDeps(Some(made), s.deps) && st.events == [Callback(s.deps, made)])
      && (s.deps == deps && s.destructor.Some? ==> st.next == s && st.events == [])
      && Replay(log + st.events) == Some(st.next.destructor)
  {
    var (st, _) := DepsPostRender(s, deps, made);
    if s.deps != deps {
      if s.destructor.Some? {
        ReplaySnoc(log, Cleanup(s.destructor.value));
        assert log + st.events == (log + [Cleanup(s.destructor.value)]) + [Callback(deps, made)];
        ReplaySnoc(log + [Cleanup(s.destructor.value)], Callback(deps, made));
      } else {
        ReplaySnoc(log, Callback(deps, made));
      }
    } else if s.destructor.None? {
      ReplaySnoc(log, Callback(s.deps, made));
    } else {
      assert log + [] == log;
    }
  }

  /**
   * Teardown of `use_effect_with_deps` runs the stored destructor exactly
   * once and leaves none (so a second teardown does nothing); the stored
   * dependencies stay; a well-formed log stays well-formed with nothing
   * pending.
   */
  lemma DepsTeardownPairs<D>(s: UseEffectDeps<D>, log: seq<Event<D>>)
    requires Replay(log) == Some(s.destructor)
    ensures var st := DepsTeardown(s);
      && st.next == s.(destructor := None)
      && st.events == (if s.destructor.Some? then [Cleanup(s.destructor.value)] else [])
      && DepsTeardown(st.next).events == []
      && Replay(log + st.events) == Some(None)
  {
    if s.destructor.Some? {
      ReplaySnoc(log, Cleanup(s.destructor.value));
    } else {
      assert log + [] == log;
    }
  }

  /** One render of a component using `use_effect_with_deps`: its dependencies and what its callback returns. */
  datatype Render<D> = Render(deps: D, made: Destructor)

  /** Post-renders of `use_effect_with_deps` for a sequence of renders. */
  function DepsRenders<D(==)>(s: UseEffectDeps<D>, renders: seq<Render<D>>): Step<UseEffectDeps<D>, D>
    decreases |renders|
  {
    if renders == [] then Step(s, [])
    else
      var st := DepsPostRender(s, renders[0].deps, renders[0].made).0;
      var rest := DepsRenders(st.next, renders[1..]);
      Step(rest.next, st.events + rest.events)
  }

  /** How many renders bring dependencies different from the render before (the first compared with `prev`). */
  function Changes<D(==)>(prev: D, renders: seq<Render<D>>): nat
    decreases |renders|
  {
    if renders == [] then 0
    else (if renders[0].deps != prev then 1 else 0) + Changes(renders[0].deps, renders[1..])
  }

  /**
   * Once a destructor is stored, post-renders call the callback exactly when
   * the dependencies change, each time after running the pending destructor;
   * a destructor stays stored and the stored dependencies are the last
   * render's.
   */
  lemma {:induction false} DepsRendersCount<D>(s: UseEffectDeps<D>, renders: seq<Render<D>>)
    requires s.destructor.Some?
    ensures var r := DepsRenders(s, renders);
      && r.next.destructor.Some?
      && r.next.deps == (if renders == [] then s.deps else renders[|renders| - 1].deps)
      && Callbacks(r.events) == Changes(s.deps, renders)
      && Cleanups(r.events) == Changes(s.deps, renders)
    decreases |renders|
  {
    if renders != [] {
      var r0 := renders[0];
      var st := DepsPostRender(s, r0.deps, r0.made).0;
      DepsStepCounts(s, r0.deps, r0.made);
      DepsRendersCount(st.next, renders[1..]);
      var rest := DepsRenders(st.next, renders[1..]);
      assert DepsRenders(s, renders) == Step(rest.next, st.events + rest.events);
      CountsAppend(st.events, rest.events);
      if |renders| > 1 {
        assert renders[1..][|renders[1..]| - 1] == renders[|renders| - 1];
      }
    }
  }

  /** Post-renders keep a well-formed log well-formed, with the stored destructor pending. */
  lemma {:induction false} DepsRendersReplay<D>(s: UseEffectDeps<D>, renders: seq<Render<D>>, log: seq<Event<D>>)
    requires Replay(log) == Some(s.destructor)
    ensures var r := DepsRenders(s, renders);
      Replay(log + r.events) == Some(r.next.destructor)
    decreases |renders|
  {
    if renders == [] {
      assert log + [] == log;
    } else {
      var r0 := renders[0];
      var st := DepsPostRender(s, r0.deps, r0.made).0;
      DepsPostRenderPairs(s, r0.deps, r0.made, log);
      DepsRendersReplay(st.next, renders[1..], log + st.events);
      var rest := DepsRenders(st.next, renders[1..]);
      assert DepsRenders(s, renders) == Step(rest.next, st.events + rest.events);
      assert log + (st.events + rest.events) == (log + st.events) + rest.events;
    }
  }

  /** With a destructor stored, one post-render runs the callback and the destructor once each on a change, else neither. */
  lemma DepsStepCounts<D>(s: UseEffectDeps<D>, deps: D, made: Destructor)
    requires s.destructor.Some?
    ensures var st := DepsPostRender(s, deps, made).0;
      && Callbacks(st.events) == (if s.deps != deps then 1 else 0)
      && Cleanups(st.events) == (if s.deps != deps then 1 else 0)
  {
    if s.deps != deps {
      var c, k := Cleanup(s.destructor.value), Callback(deps, made);
      CountsSingle(c);
      CountsSingle(k);
      CountsAppend([c], [k]);
      assert [c] + [k] == [c, k];
    }
  }

  /** The whole life of a `use_effect_with_deps` slot: mounted with the first render's dependencies, then post-renders. */
  function DepsMount<D(==)>(renders: seq<Render<D>>): Step<UseEffectDeps<D>, D>
    requires renders != []
  {
    DepsRenders(NewEffectDeps(renders[0].deps), renders)
  }

  /**
   * From mount, the callback runs once for the first render and once more
   * for each change of dependencies; the destructor runs once per change;
   * then teardown runs the last destructor, so every destructor runs exactly
   * once over the slot's life.
   */
  lemma {:induction false} DepsMountCount<D>(renders: seq<Render<D>>)
    requires renders != []
    ensures var r := DepsMount(renders);
      && Callbacks(r.events) == 1 + Changes(renders[0].deps, renders[1..])
      && Cleanups(r.events) == Changes(renders[0].deps, renders[1..])
      && var torn := DepsTeardown(r.next);
      && Cleanups(r.events + torn.events) == Callbacks(r.events + torn.events)
  {
    var s0 := NewEffectDeps(renders[0].deps);
    var (st, _) := DepsPostRender(s0, renders[0].deps, renders[0].made);
    DepsPostRenderPairs(s0, renders[0].deps, renders[0].made, []);
    assert [] + st.events == st.events;
    DepsRendersCount(st.next, renders[1..]);
    DepsRendersReplay(st.next, renders[1..], st.events);
    var rest := DepsRenders(st.next, renders[1..]);
    CountsAppend(st.events, rest.events);
    var r := DepsMount(renders);
    assert r.events == st.events + rest.events;
    var torn := DepsTeardown(r.next);
    DepsTeardownPairs(r.next, r.events);
    CountsAppend(r.events, torn.events);
    ReplayBalanced(r.events + torn.events);
  }

  /**
   * Dependencies [a, a, b, b] over four renders, with a != b: the callback
   * runs on render 1 with a, not on render 2, on render 3 with b after
   * render 1's destructor ran, not on render 4: two callbacks and one cleanup
   * before teardown, and teardown runs render 3's destructor.
   */
  lemma DepsSequenceAABB<D>(a: D, b: D, m1: Destructor, m2: Destructor, m3: Destructor, m4: Destructor)
    requires a != b
    ensures var r := DepsMount([Render(a, m1), Render(a, m2), Render(b, m3), Render(b, m4)]);
      && r.events == [Callback(a, m1), Cleanup(m1), Callback(b, m3)]
      && Callbacks(r.events) == 2
      && Cleanups(r.events) == 1
      && DepsTeardown(r.next).events == [Cleanup(m3)]
  {
    var rs := [Render(a, m1), Render(a, m2), Render(b, m3), Render(b, m4)];
    var s0 := NewEffectDeps(a);
    var (st1, _) := DepsPostRender(s0, a, m1);
    var (st2, _) := DepsPostRender(st1.next, a, m2);
    var (st3, _) := DepsPostRender(st2.next, b, m3);
    var (st4, _) := DepsPostRender(st3.next, b, m4);
    assert rs[1..][1..][1..][1..] == [];
    assert DepsRenders(st4.next, []) == Step(st4.next, []);
    assert DepsRenders(st3.next, rs[1..][1..][1..]).events == [];
    assert DepsRenders(st2.next, rs[1..][1..]).events == [Cleanup(m1), Callback(b, m3)];
    assert DepsRenders(st1.next, rs[1..]).events == [Cleanup(m1), Callback(b, m3)];
    var r := DepsMount(rs);
    assert r.events == [Callback(a, m1), Cleanup(m1), Callback(b, m3)];
    assert r.next.destructor == Some(m3);
    var k1, c1, k3 := Callback(a, m1), Cleanup(m1), Callback(b, m3);
    CountsSingle(k1);
    CountsSingle(c1);
    CountsSingle(k3);
    CountsAppend([k1], [c1]);
    CountsAppend([k1, c1], [k3]);
    assert r.events == [k1, c1] + [k3];
  }

  // ---------------------------------------------------------------------------
  // The cells the closures mutate in place

  /**
   * The `RefCell<UseEffect>` in a `use_effect` slot.  `log` records, for
   * reasoning only, what the closures have done to the outside world.
   */
  class EffectCell {
    var destructor: Option<Destructor>
    ghost var log: seq<Event<()>>

    /** The log is well-formed and its pending destructor is the stored one. */
    ghost predicate Valid()
      reads this
    {
      Replay(log) == Some(destructor)
    }

    /** The initializer: no destructor yet. */
    constructor ()
      ensures UseEffect(destructor) == NewEffect() && log == [] && Valid()
    {
      destructor := None;
      log := [];
    }

    /** The post-render closure, with this render's callback returning `made`. */
    method PostRender(made: Destructor) returns (rerender: bool)
      requires Valid()
      modifies this
      ensures var (st, again) := EffectPostRender(UseEffect(old(destructor)), made);
        && UseEffect(destructor) == st.next
        && log == old(log) + st.events
        && rerender == again
      ensures Valid()
    {
      EffectPostRenderPairs(UseEffect(destructor), made, log);
      var taken := destructor;
      destructor := None;
      if taken.Some? {
        log := log + [Cleanup(taken.value)];
      }
      log := log + [Callback((), made)];
      destructor := Some(made);
      rerender := false;
    }

    /** The destructor closure registered with `use_hook`. */
    method Teardown()
      requires Valid()
      modifies this
      ensures var st := EffectTeardown(UseEffect(old(destructor)));
        UseEffect(destructor) == st.next && log == old(log) + st.events
      ensures Valid() && destructor.None?
    {
      EffectTeardownPairs(UseEffect(destructor), log);
      var taken := destructor;
      destructor := None;
      if taken.Some? {
        log := log + [Cleanup(taken.value)];
      }
    }
  }

  /** The `RefCell<UseEffectDeps>` in a `use_effect_with_deps` slot. */
  class EffectDepsCell<D(==)> {
    var destructor: Option<Destructor>
    var deps: D
    ghost var log: seq<Event<D>>

    /** The log is well-formed and its pending destructor is the stored one. */
    ghost predicate Valid()
      reads this
    {
      Replay(log) == Some(destructor)
    }

    /** The initializer, with the first render's dependencies. */
    constructor (initial: D)
      ensures UseEffectDeps(destructor, deps) == NewEffectDeps(initial) && log == [] && Valid()
    {
      destructor := None;
      deps := initial;
      log := [];
    }

    /** The post-render closure, with this render's dependencies and a callback returning `made`. */
    method PostRender(current: D, made: Destructor) returns (rerender: bool)
      requires Valid()
      modifies this
      ensures var (st, again) := DepsPostRender(UseEffectDeps(old(destructor), old(deps)), current, made);
        && UseEffectDeps(destructor, deps) == st.next
        && log == old(log) + st.events
        && rerender == again
      ensures Valid()
    {
      ghost var st := DepsPostRender(UseEffectDeps(destructor, deps), current, made).0;
      ghost var log0 := log;
      DepsPostRenderPairs(UseEffectDeps(destructor, deps), current, made, log);
      if deps != current {
        var taken := destructor;
        destructor := None;
        if taken.Some? {
          log := log + [Cleanup(taken.value)];
        }
        log := log + [Callback(current, made)];
        deps := current;
        destructor := Some(made);
      } else if destructor.None? {
        log := log + [Callback(deps, made)];
        destructor := Some(made);
      }
      assert log == log0 + st.events;
      rerender := false;
    }

    /** The destructor closure registered with `use_hook`. */
    method Teardown()
      requires Valid()
      modifies this
      ensures var st := DepsTeardown(UseEffectDeps(old(destructor), old(deps)));
        UseEffectDeps(destructor, deps) == st.next && log == old(log) + st.events
      ensures Valid() && destructor.None?
    {
      DepsTeardownPairs(UseEffectDeps(destructor, deps), log);
      var taken := destructor;
      destructor := None;
      if taken.Some? {
        log := log + [Cleanup(taken.value)];
      }
    }
  }
}
