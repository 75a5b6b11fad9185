/**
 * The effect hooks as callers of `use_hook`.
 *
 * `use_effect` and `use_effect_with_deps` each call `use_hook` with an
 * initializer that creates their slot state, a runner that registers a
 * post-render closure for the slot, and a destructor.  Here the runner's
 * output is that closure, as a `Job`, and a render cycle is a render pass
 * followed by running the registered closures, in registration order, each
 * on the slot it was registered for.
 */
module EffectHooks {
  import opened Wrappers
  import opened Hooks
  import opened Effects

  /** The slot payloads of a component whose hooks are effect hooks. */
  datatype HookData<D> = EffectData(effect: UseEffect) | DepsData(effectDeps: UseEffectDeps<D>)

  /** A post-render closure: what it will do to its slot, with the values it captured. */
  datatype Job<D> = RunEffect(made: Destructor) | RunDeps(deps: D, made: Destructor)

  /** A registered post-render closure and the position of the slot it acts on. */
  datatype Queued<D> = Queued(pos: nat, job: Job<D>)

  /** An effect event, with the position of the hook whose closure caused it. */
  datatype Fired<D> = EffectFired(pos: nat, plain: Event<()>) | DepsFired(pos: nat, withDeps: Event<D>)

  /** The events of the `use_effect` hook at `pos`. */
  function AtEffect<D>(pos: nat, events: seq<Event<()>>): (r: seq<Fired<D>>)
    ensures |r| == |events|
  {
    seq(|events|, i requires 0 <= i < |events| => EffectFired(pos, events[i]))
  }

  /** The events of the `use_effect_with_deps` hook at `pos`. */
  function AtDeps<D>(pos: nat, events: seq<Event<D>>): (r: seq<Fired<D>>)
    ensures |r| == |events|
  {
    seq(|events|, i requires 0 <= i < |events| => DepsFired(pos, events[i]))
  }

  /** Tagging events with their hook's position commutes with concatenation. */
  lemma AtDepsAppend<D>(pos: nat, a: seq<Event<D>>, b: seq<Event<D>>)
    ensures AtDeps(pos, a + b) == AtDeps(pos, a) + AtDeps(pos, b)
  {
    var l, r := AtDeps<D>(pos, a + b), AtDeps<D>(pos, a) + AtDeps<D>(pos, b);
    forall i | 0 <= i < |l| ensures l[i] == r[i] {
      if i < |a| {
        assert (a + b)[i] == a[i];
      } else {
        assert (a + b)[i] == b[i - |a|];
      }
    }
  }

  /** The outcome of running registered closures: the store, what they did, and whether any asked for a re-render. */
  datatype Drained<D> = Drained(store: Store<HookData<D>>, events: seq<Fired<D>>, rerender: bool)

  /**
   * The runtime type of a `use_effect` slot, `RefCell<UseEffect<Destructor>>`,
   * where `types` numbers the callback's destructor type.  Callbacks that
   * return closure literals of their own have distinct destructor types;
   * callbacks returning the same named function or the same boxed trait
   * object share one.
   */
  function EffectSlotType(types: nat): TypeTag {
    2 * types
  }

  /**
   * The runtime type of a `use_effect_with_deps` slot,
   * `RefCell<UseEffectDeps<Destructor, Dependents>>`, where `types` numbers
   * the pair of destructor and dependency types.  It is never the type of a
   * `use_effect` slot.
   */
  function DepsSlotType(types: nat): TypeTag {
    2 * types + 1
  }

  /** The `use_hook` call of `use_effect`, in a render whose callback will return `made`. */
  function UseEffectCall<D>(types: nat, made: Destructor, tear: TearId): Call<HookData<D>, Job<D>> {
    Call(EffectSlotType(types), () => EffectData(NewEffect()), (_: HookData<D>) => RunEffect(made), tear)
  }

  /** The `use_hook` call of `use_effect_with_deps` with this render's dependencies. */
  function UseEffectDepsCall<D>(types: nat, deps: D, made: Destructor, tear: TearId): Call<HookData<D>, Job<D>> {
    Call(DepsSlotType(types), () => DepsData(NewEffectDeps(deps)), (_: HookData<D>) => RunDeps(deps, made), tear)
  }

  /**
   * Runs one registered closure on the slot it holds a handle to.  In the
   * source a closure holds the slot itself and the type check of `use_hook`
   * has already passed, so it always finds a state of its own kind; here the
   * slot is found by position, and a missing slot or a slot of the other
   * kind is given no effect so that the function is total.  That the
   * closures of a successful pass do find their slots is proved for the
   * components below, not for every call list.
   */
  function RunJob<D(==)>(s: Store<HookData<D>>, q: Queued<D>): Drained<D> {
    if q.pos >= |s.hooks| then Drained(s, [], false)
    else
      var slot := s.hooks[q.pos];
      match q.job
      case RunEffect(made) =>
        if slot.state.EffectData? then
          var (st, again) := EffectPostRender(slot.state.effect, made);
          Drained(s.(hooks := s.hooks[q.pos := Slot(slot.tag, EffectData(st.next))]), AtEffect(q.pos, st.events), again)
        else Drained(s, [], false)
      case RunDeps(deps, made) =>
        if slot.state.DepsData? then
          var (st, again) := DepsPostRender(slot.state.effectDeps, deps, made);
          Drained(s.(hooks := s.hooks[q.pos := Slot(slot.tag, DepsData(st.next))]), AtDeps(q.pos, st.events), again)
        else Drained(s, [], false)
  }

  /** Runs the registered closures in registration order; a re-render is asked for if any closure asks. */
  function Drain<D(==)>(s: Store<HookData<D>>, queue: seq<Queued<D>>): Drained<D>
    decreases |queue|
  {
    if queue == [] then Drained(s, [], false)
    else
      var first := RunJob(s, queue[0]);
      var rest := Drain(first.store, queue[1..]);
      Drained(rest.store, first.events + rest.events, first.rerender || rest.rerender)
  }

  /** The closures a render pass registered: the output of the hook at position `i` acts on slot `i`. */
  function QueueOf<D>(jobs: seq<Job<D>>): (q: seq<Queued<D>>)
    ensures |q| == |jobs|
  {
    seq(|jobs|, i requires 0 <= i < |jobs| => Queued(i, jobs[i]))
  }

  /** One render cycle: the render pass, then the closures it registered; `None` when the pass failed fast. */
  function Cycle<D(==)>(s: Store<HookData<D>>, calls: seq<Call<HookData<D>, Job<D>>>): Option<Drained<D>> {
    match RenderPass(s, calls)
    case Failed(_, _, _) => None
    case Rendered(next, jobs) => Some(Drain(next, QueueOf(jobs)))
  }

  /**
   * Draining the queue in two parts is draining the first part, then the
   * second from where the first left the store: closures run in exactly the
   * order they were registered, each once.
   */
  lemma {:induction false} DrainInOrder<D>(s: Store<HookData<D>>, q1: seq<Queued<D>>, q2: seq<Queued<D>>)
    ensures var d1 := Drain(s, q1);
      var d2 := Drain(d1.store, q2);
      Drain(s, q1 + q2) == Drained(d2.store, d1.events + d2.events, d1.rerender || d2.rerender)
    decreases |q1|
  {
    if q1 == [] {
      assert q1 + q2 == q2;
    } else {
      var first := RunJob(s, q1[0]);
      assert (q1 + q2)[0] == q1[0];
      assert (q1 + q2)[1..] == q1[1..] + q2;
      DrainInOrder(first.store, q1[1..], q2);
      var m := Drain(first.store, q1[1..]);
      var d2 := Drain(m.store, q2);
      assert first.events + (m.events + d2.events) == (first.events + m.events) + d2.events;
    }
  }

  /** No post-render closure of the effect hooks ever asks for a re-render. */
  lemma {:induction false} DrainNeverRerenders<D>(s: Store<HookData<D>>, queue: seq<Queued<D>>)
    ensures !Drain(s, queue).rerender
    decreases |queue|
  {
    if queue != [] {
      DrainNeverRerenders(RunJob(s, queue[0]).store, queue[1..]);
    }
  }

  /** A component whose only hook is `use_effect_with_deps`, after it has rendered at least once. */
  function OneDepsHook<D>(tag: TypeTag, state: UseEffectDeps<D>, tear: TearId): Store<HookData<D>> {
    Store(1, [Slot(tag, DepsData(state))], [Listener(tear, 0)])
  }

  /** Running the one registered closure of the one-hook component after a pass that left its slot holding `state`. */
  lemma DrainOneDepsHook<D>(tag: TypeTag, state: UseEffectDeps<D>, deps: D, made: Destructor, tear: TearId)
    ensures var st := DepsPostRender(state, deps, made).0;
      Drain(OneDepsHook(tag, state, tear), [Queued(0, RunDeps(deps, made))])
        == Drained(OneDepsHook(tag, st.next, tear), AtDeps(0, st.events), false)
  {
    var s := OneDepsHook(tag, state, tear);
    var q := [Queued(0, RunDeps(deps, made))];
    var st := DepsPostRender(state, deps, made).0;
    var first := RunJob(s, q[0]);
    assert first == Drained(OneDepsHook(tag, st.next, tear), AtDeps(0, st.events), false);
    assert q[1..] == [];
    assert first.events + [] == first.events;
  }

  /** The first render cycle of that component creates its slot and runs the post-render on it. */
  lemma MountCycle<D>(types: nat, r: Render<D>, tear: TearId)
    ensures var st := DepsPostRender(NewEffectDeps(r.deps), r.deps, r.made).0;
      Cycle(Empty(), [UseEffectDepsCall(types, r.deps, r.made, tear)])
        == Some(Drained(OneDepsHook(DepsSlotType(types), st.next, tear), AtDeps(0, st.events), false))
  {
    var call := UseEffectDepsCall(types, r.deps, r.made, tear);
    var s0 := BeginPass(Empty<HookData<D>>());
    RunCallsInitializes(s0, [call]);
    FreshSlotsAt([call], 0);
    FreshListenersAt([call], 0, 0);
    var pass := RenderPass(Empty(), [call]);
    assert pass.store == OneDepsHook(DepsSlotType(types), NewEffectDeps(r.deps), tear);
    assert pass.outputs == [RunDeps(r.deps, r.made)];
    assert QueueOf(pass.outputs) == [Queued(0, RunDeps(r.deps, r.made))];
    DrainOneDepsHook(DepsSlotType(types), NewEffectDeps(r.deps), r.deps, r.made, tear);
  }

  /** A later render cycle reuses the slot and runs the post-render on its state. */
  lemma RerenderCycle<D>(types: nat, state: UseEffectDeps<D>, r: Render<D>, tear: TearId)
    ensures var st := DepsPostRender(state, r.deps, r.made).0;
      Cycle(OneDepsHook(DepsSlotType(types), state, tear), [UseEffectDepsCall(types, r.deps, r.made, tear)])
        == Some(Drained(OneDepsHook(DepsSlotType(types), st.next, tear), AtDeps(0, st.events), false))
  {
    var call := UseEffectDepsCall(types, r.deps, r.made, tear);
    var s1 := BeginPass(OneDepsHook(DepsSlotType(types), state, tear));
    assert call.tag == s1.hooks[s1.counter + 0].tag;
    RunCallsReuses(s1, [call]);
    var pass := RenderPass(OneDepsHook(DepsSlotType(types), state, tear), [call]);
    assert pass.store == OneDepsHook(DepsSlotType(types), state, tear);
    assert pass.outputs == [RunDeps(r.deps, r.made)];
    assert QueueOf(pass.outputs) == [Queued(0, RunDeps(r.deps, r.made))];
    DrainOneDepsHook(DepsSlotType(types), state, r.deps, r.made, tear);
  }

  /** A component that calls `use_effect`, then `use_effect_with_deps`, after it has rendered at least once. */
  function EffectThenDeps<D>(tag1: TypeTag, e: UseEffect, tag2: TypeTag, d: UseEffectDeps<D>, tear1: TearId, tear2: TearId): Store<HookData<D>> {
    Store(2, [Slot(tag1, EffectData(e)), Slot(tag2, DepsData(d))], [Listener(tear1, 0), Listener(tear2, 1)])
  }

  /**
   * A render cycle of that component reuses both slots, then runs the
   * closures in the order the hooks were called: first `use_effect`'s on
   * slot 0, then `use_effect_with_deps`'s on slot 1.
   */
  lemma EffectThenDepsCycle<D>(types1: nat, e: UseEffect, types2: nat, d: UseEffectDeps<D>,
                               made1: Destructor, deps: D, made2: Destructor, tear1: TearId, tear2: TearId)
    ensures var st1 := EffectPostRender(e, made1).0;
      var st2 := DepsPostRender(d, deps, made2).0;
      Cycle(EffectThenDeps(EffectSlotType(types1), e, DepsSlotType(types2), d, tear1, tear2),
            [UseEffectCall(types1, made1, tear1), UseEffectDepsCall(types2, deps, made2, tear2)])
        == Some(Drained(EffectThenDeps(EffectSlotType(types1), st1.next, DepsSlotType(types2), st2.next, tear1, tear2),
                        AtEffect(0, st1.events) + AtDeps(1, st2.events), false))
  {
    var calls := [UseEffectCall<D>(types1, made1, tear1), UseEffectDepsCall(types2, deps, made2, tear2)];
    var s := EffectThenDeps(EffectSlotType(types1), e, DepsSlotType(types2), d, tear1, tear2);
    var s1 := BeginPass(s);
    assert calls[0].tag == s1.hooks[s1.counter + 0].tag;
    assert calls[1].tag == s1.hooks[s1.counter + 1].tag;
    RunCallsReuses(s1, calls);
    var pass := RenderPass(s, calls);
    assert pass.store == s;
    assert pass.outputs == [RunEffect(made1), RunDeps(deps, made2)];
    var q := QueueOf(pass.outputs);
    assert q == [Queued(0, RunEffect(made1))] + [Queued(1, RunDeps(deps, made2))];
    DrainInOrder(s, [Queued(0, RunEffect(made1))], [Queued(1, RunDeps(deps, made2))]);
    var st1 := EffectPostRender(e, made1).0;
    var st2 := DepsPostRender(d, deps, made2).0;
    var mid := EffectThenDeps(EffectSlotType(types1), st1.next, DepsSlotType(types2), d, tear1, tear2);
    var j1 := RunJob(s, Queued(0, RunEffect(made1)));
    assert j1 == Drained(mid, AtEffect(0, st1.events), false);
    assert Drain(s, [Queued(0, RunEffect(made1))]) == j1 by {
      var one: seq<Queued<D>> := [Queued(0, RunEffect(made1))];
      assert one[1..] == [];
      assert j1.events + [] == j1.events;
    }
    var j2 := RunJob(mid, Queued(1, RunDeps(deps, made2)));
    assert j2 == Drained(EffectThenDeps(EffectSlotType(types1), st1.next, DepsSlotType(types2), st2.next, tear1, tear2), AtDeps(1, st2.events), false);
    assert Drain(mid, [Queued(1, RunDeps(deps, made2))]) == j2 by {
      assert [Queued(1, RunDeps(deps, made2))][1..] == [];
      assert j2.events + [] == j2.events;
    }
  }

  /**
   * Two `use_effect` call sites whose destructor types differ (each returns
   * its own closure literal, say) have distinct slot types.  A component that
   * mounted calling them in one order and calls them in the other order on a
   * later render fails fast with an incompatible hook type at position 0:
   * the pass registers no closure, so the cycle runs none, and no slot is
   * added or replaced.
   */
  lemma SwappedEffectsFail<D>(types1: nat, types2: nat, m1: Destructor, m2: Destructor,
                              n1: Destructor, n2: Destructor, tear1: TearId, tear2: TearId)
    requires types1 != types2
    ensures var mount := RenderPass(Empty(), [UseEffectCall<D>(types1, m1, tear1), UseEffectCall<D>(types2, m2, tear2)]);
      && mount.Rendered?
      && var swapped := [UseEffectCall<D>(types2, n2, tear2), UseEffectCall<D>(types1, n1, tear1)];
      && var again := RenderPass(mount.store, swapped);
      && again.Failed? && again.at == 0 && again.error == IncompatibleHookType
      && again.store.hooks == mount.store.hooks
      && Cycle(mount.store, swapped) == None
  {
    var first := [UseEffectCall<D>(types1, m1, tear1), UseEffectCall<D>(types2, m2, tear2)];
    var swapped := [UseEffectCall<D>(types2, n2, tear2), UseEffectCall<D>(types1, n1, tear1)];
    RunCallsInitializes(BeginPass(Empty<HookData<D>>()), first);
    var mount := RenderPass(Empty(), first);
    FreshSlotsAt(first, 0);
    assert mount.store.hooks[0].tag == EffectSlotType(types1);
    RunCallsFailsOnMismatch(BeginPass(mount.store), swapped, 0);
  }

  /**
   * A `use_effect` slot is never taken for a `use_effect_with_deps` call:
   * whatever the destructor and dependency types, a component that mounted
   * with `use_effect` and calls `use_effect_with_deps` first on a later
   * render fails fast at position 0, and no closure runs on the slot.
   */
  lemma EffectSlotRefusesDeps<D>(types1: nat, types2: nat, m1: Destructor, deps: D, m2: Destructor,
                                 tear1: TearId, tear2: TearId)
    ensures var mount := RenderPass(Empty(), [UseEffectCall<D>(types1, m1, tear1)]);
      && mount.Rendered?
      && var again := RenderPass(mount.store, [UseEffectDepsCall(types2, deps, m2, tear2)]);
      && again.Failed? && again.at == 0 && again.error == IncompatibleHookType
      && again.store.hooks == mount.store.hooks
      && Cycle(mount.store, [UseEffectDepsCall(types2, deps, m2, tear2)]) == None
  {
    var first := [UseEffectCall<D>(types1, m1, tear1)];
    RunCallsInitializes(BeginPass(Empty<HookData<D>>()), first);
    var mount := RenderPass(Empty(), first);
    FreshSlotsAt(first, 0);
    assert mount.store.hooks[0].tag == EffectSlotType(types1);
    RunCallsFailsOnMismatch(BeginPass(mount.store), [UseEffectDepsCall(types2, deps, m2, tear2)], 0);
  }

  /** Render cycles of the one-hook component from store `s`, one per render; `None` once a pass fails. */
  function DepsComponentLife<D(==)>(s: Store<HookData<D>>, renders: seq<Render<D>>, types: nat, tear: TearId): Option<Drained<D>>
    decreases |renders|
  {
    if renders == [] then Some(Drained(s, [], false))
    else
      match Cycle(s, [UseEffectDepsCall(types, renders[0].deps, renders[0].made, tear)])
      case None => None
      case Some(first) =>
        match DepsComponentLife(first.store, renders[1..], types, tear)
        case None => None
        case Some(rest) => Some(Drained(rest.store, first.events + rest.events, first.rerender || rest.rerender))
  }

  /** Once mounted, the component's render cycles do exactly what the post-renders on its one slot do. */
  lemma {:induction false} DepsComponentFollowsSlot<D>(types: nat, state: UseEffectDeps<D>, renders: seq<Render<D>>, tear: TearId)
    ensures var r := DepsRenders(state, renders);
      DepsComponentLife(OneDepsHook(DepsSlotType(types), state, tear), renders, types, tear)
        == Some(Drained(OneDepsHook(DepsSlotType(types), r.next, tear), AtDeps(0, r.events), false))
    decreases |renders|
  {
    if renders != [] {
      var st := DepsPostRender(state, renders[0].deps, renders[0].made).0;
      RerenderCycle(types, state, renders[0], tear);
      DepsComponentFollowsSlot(types, st.next, renders[1..], tear);
      AtDepsAppend(0, st.events, DepsRenders(st.next, renders[1..]).events);
    }
  }

  /**
   * A component whose render calls `use_effect_with_deps` once, run through
   * `use_hook` and the post-render queue from mount, produces exactly the
   * events of the slot-level model, and never asks for a re-render.
   */
  lemma DepsComponentMatchesSlot<D>(renders: seq<Render<D>>, types: nat, tear: TearId)
    requires renders != []
    ensures var m := DepsMount(renders);
      DepsComponentLife(Empty(), renders, types, tear) == Some(Drained(OneDepsHook(DepsSlotType(types), m.next, tear), AtDeps(0, m.events), false))
  {
    var r0 := renders[0];
    var st := DepsPostRender(NewEffectDeps(r0.deps), r0.deps, r0.made).0;
    MountCycle(types, r0, tear);
    DepsComponentFollowsSlot(types, st.next, renders[1..], tear);
    AtDepsAppend(0, st.events, DepsRenders(st.next, renders[1..]).events);
  }

  /**
   * Through the whole engine, dependencies [a, a, b, b] (a != b) over four
   * renders give two callback calls and one destructor run.
   */
  lemma DepsComponentAABB<D>(a: D, b: D, m1: Destructor, m2: Destructor, m3: Destructor, m4: Destructor,
                                  types: nat, tear: TearId)
    requires a != b
    ensures var life := DepsComponentLife(Empty(), [Render(a, m1), Render(a, m2), Render(b, m3), Render(b, m4)], types, tear);
      && life.Some?
      && life.value.events == [DepsFired(0, Callback(a, m1)), DepsFired(0, Cleanup(m1)), DepsFired(0, Callback(b, m3))]
      && !life.value.rerender
  {
    DepsComponentMatchesSlot([Render(a, m1), Render(a, m2), Render(b, m3), Render(b, m4)], types, tear);
    DepsSequenceAABB(a, b, m1, m2, m3, m4);
  }
}
