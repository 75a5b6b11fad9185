/**
 * The hook slot engine behind function components (`use_hook`).
 *
 * A component instance owns a position counter, an append-only sequence of
 * type-erased hook states and a parallel sequence of destroy listeners.  Each
 * hook call during a render pass takes the slot at the current position,
 * creating it with the hook's initializer the first time that position is
 * reached, checks that the slot holds the type the hook asks for, and hands
 * the state to the hook's runner.
 *
 * The module has two layers: a value model (`Store`, `UseHookStep`, render
 * passes and the lemmas about them) and the object the component owns
 * (`HookState`), whose `UseHook` method is proved against `UseHookStep`.
 */
module Hooks {
  import opened Wrappers

  /** Runtime type identity of a hook's internal state (its `TypeId`). */
  type TypeTag = nat

  /** Identity of the destructor closure a hook registered for teardown. */
  type TearId = nat

  /** A type-erased hook state: the runtime type tag and the payload. */
  datatype Slot<P> = Slot(tag: TypeTag, state: P)

  /** A destroy listener: destructor `tear`, closed over the state pushed at index `pos`. */
  datatype Listener = Listener(tear: TearId, pos: nat)

  /** The two fail-fast conditions of `use_hook`. */
  datatype HookError =
    | NotSameNumberOfHooks   // the slot lookup after initialisation found nothing
    | IncompatibleHookType   // the slot holds another type than the one requested

  /** The per-component hook state, as a value. */
  datatype Store<P> = Store(counter: nat, hooks: seq<Slot<P>>, destroyListeners: seq<Listener>)

  /**
   * One `use_hook` call: the type the hook asks for, its initializer, its
   * runner (the output it computes from the slot's state) and its destructor.
   */
  datatype Call<!P, O> = Call(tag: TypeTag, init: () -> P, runner: P -> O, tear: TearId)

  /** The store after one call, whether the initializer ran, and the call's result. */
  datatype Outcome<P, O> = Outcome(store: Store<P>, initialized: bool, result: Result<O, HookError>)

  /** A component that has not rendered yet. */
  function Empty<P>(): Store<P> {
    Store(0, [], [])
  }

  /** The start of a render pass puts the position counter back to 0. */
  function BeginPass<P>(s: Store<P>): Store<P> {
    s.(counter := 0)
  }

  /**
   * What every reachable store satisfies: the counter never passes the end of
   * the slots, and listener `i` is the destroy listener of slot `i`.
   */
  ghost predicate WellFormed<P>(s: Store<P>) {
    && s.counter <= |s.hooks|
    && |s.hooks| == |s.destroyListeners|
    && forall i :: 0 <= i < |s.destroyListeners| ==> s.destroyListeners[i].pos == i
  }

  /**
   * One `use_hook` call on store `s`.  The counter is read and advanced first;
   * a position past the end gets a fresh slot, pushed at the end, and a
   * destroy listener closed over that pushed slot; the
   * slot is then looked up and its tag compared with the requested one.  The
   * store changes even when the call then fails, as the source mutates the
   * hook state before its checks.
   */
  function UseHookStep<P, O>(s: Store<P>, c: Call<P, O>): (r: Outcome<P, O>)
    ensures r.store.counter == s.counter + 1
    ensures r.initialized <==> s.counter >= |s.hooks|
    ensures r.initialized ==>
              && r.store.hooks == s.hooks + [Slot(c.tag, c.init())]
              && r.store.destroyListeners == s.destroyListeners + [Listener(c.tear, |s.hooks|)]
    ensures !r.initialized ==> r.store.hooks == s.hooks && r.store.destroyListeners == s.destroyListeners
    ensures r.result.Err? && r.result.error == NotSameNumberOfHooks <==> s.counter > |s.hooks|
    ensures r.result.Err? && r.result.error == IncompatibleHookType <==>
              s.counter < |s.hooks| && s.hooks[s.counter].tag != c.tag
    ensures r.result.Ok? <==> s.counter == |s.hooks| || (s.counter < |s.hooks| && s.hooks[s.counter].tag == c.tag)
    ensures r.result.Ok? ==>
              && s.counter < |r.store.hooks|
              && r.store.hooks[s.counter].tag == c.tag
              && r.result.value == c.runner(r.store.hooks[s.counter].state)
  {
    var pos := s.counter;
    var isNew := pos >= |s.hooks|;
    var hooks := if isNew then s.hooks + [Slot(c.tag, c.init())] else s.hooks;
    var listeners := if isNew then s.destroyListeners + [Listener(c.tear, |s.hooks|)] else s.destroyListeners;
    var next := Store(pos + 1, hooks, listeners);
    if pos >= |hooks| then
      Outcome(next, isNew, Err(NotSameNumberOfHooks))
    else if hooks[pos].tag != c.tag then
      Outcome(next, isNew, Err(IncompatibleHookType))
    else
      Outcome(next, isNew, Ok(c.runner(hooks[pos].state)))
  }

  /** A call never replaces or removes a slot or a listener: the old ones are a prefix of the new. */
  lemma UseHookAppendOnly<P, O>(s: Store<P>, c: Call<P, O>)
    ensures var r := UseHookStep(s, c);
      && s.hooks <= r.store.hooks
      && s.destroyListeners <= r.store.destroyListeners
      && |r.store.hooks| - |s.hooks| == |r.store.destroyListeners| - |s.destroyListeners| <= 1
      && forall i :: 0 <= i < |s.hooks| ==> r.store.hooks[i] == s.hooks[i]
  {
  }

  /**
   * On a well-formed store a call keeps the store well-formed, and the lookup
   * that follows initialisation never fails: the only possible error is a
   * type mismatch on a reused slot.
   */
  lemma UseHookKeepsWellFormed<P, O>(s: Store<P>, c: Call<P, O>)
    requires WellFormed(s)
    ensures var r := UseHookStep(s, c);
      && WellFormed(r.store)
      && (r.result.Err? ==> r.result.error == IncompatibleHookType && !r.initialized)
  {
  }

  /** The outcome of a whole render pass: every output, or the first failure. */
  datatype PassOutcome<P, O> =
    | Rendered(store: Store<P>, outputs: seq<O>)
    | Failed(store: Store<P>, at: nat, error: HookError)

  /** The hook calls of a render function, run in order from the current position; a failure stops the pass. */
  function RunCalls<P, O>(s: Store<P>, calls: seq<Call<P, O>>): PassOutcome<P, O>
    decreases |calls|
  {
    if calls == [] then Rendered(s, [])
    else
      var o := UseHookStep(s, calls[0]);
      if o.result.Err? then Failed(o.store, s.counter, o.result.error)
      else
        match RunCalls(o.store, calls[1..])
        case Rendered(last, outs) => Rendered(last, [o.result.value] + outs)
        case Failed(last, at, e) => Failed(last, at, e)
  }

  /** A render pass: the counter is reset to 0, then the hooks are called in order. */
  function RenderPass<P, O>(s: Store<P>, calls: seq<Call<P, O>>): PassOutcome<P, O> {
    RunCalls(BeginPass(s), calls)
  }

  /** The slots a first render of `calls` creates, in call order. */
  function FreshSlots<P, O>(calls: seq<Call<P, O>>): (r: seq<Slot<P>>)
    ensures |r| == |calls|
  {
    if calls == [] then [] else [Slot(calls[0].tag, calls[0].init())] + FreshSlots(calls[1..])
  }

  /** The destroy listeners a first render of `calls` registers, starting at position `from`. */
  function FreshListeners<P, O>(calls: seq<Call<P, O>>, from: nat): (r: seq<Listener>)
    ensures |r| == |calls|
    decreases |calls|
  {
    if calls == [] then [] else [Listener(calls[0].tear, from)] + FreshListeners(calls[1..], from + 1)
  }

  /** The type tags requested by a sequence of calls. */
  function CallTags<P, O>(calls: seq<Call<P, O>>): (r: seq<TypeTag>)
    ensures |r| == |calls| && forall i :: 0 <= i < |calls| ==> r[i] == calls[i].tag
  {
    seq(|calls|, i requires 0 <= i < |calls| => calls[i].tag)
  }

  /**
   * Hook calls at positions past the end of the slots (a first render) each
   * run their initializer once and append one slot and one destroy listener;
   * every call succeeds and returns its runner's output on the fresh state.
   */
  lemma {:induction false} RunCallsInitializes<P, O>(s: Store<P>, calls: seq<Call<P, O>>)
    requires s.counter == |s.hooks|
    ensures var r := RunCalls(s, calls);
      && r.Rendered?
      && r.store.counter == s.counter + |calls|
      && r.store.hooks == s.hooks + FreshSlots(calls)
      && r.store.destroyListeners == s.destroyListeners + FreshListeners(calls, s.counter)
      && |r.outputs| == |calls|
      && forall i :: 0 <= i < |calls| ==> r.outputs[i] == calls[i].runner(calls[i].init())
    decreases |calls|
  {
    if calls != [] {
      var o := UseHookStep(s, calls[0]);
      RunCallsInitializes(o.store, calls[1..]);
      var r := RunCalls(s, calls);
      var rest := RunCalls(o.store, calls[1..]);
      assert r.outputs == [o.result.value] + rest.outputs;
      assert o.store.hooks + FreshSlots(calls[1..]) == s.hooks + FreshSlots(calls);
      assert o.store.destroyListeners + FreshListeners(calls[1..], s.counter + 1)
          == s.destroyListeners + FreshListeners(calls, s.counter);
      forall i | 0 <= i < |calls|
        ensures r.outputs[i] == calls[i].runner(calls[i].init())
      {
        if i > 0 {
          assert r.outputs[i] == rest.outputs[i - 1];
          assert calls[1..][i - 1] == calls[i];
        }
      }
    }
  }

  /**
   * Hook calls that request, position by position, the types already stored
   * there reuse those slots: no initializer runs, no slot or listener is
   * added or changed, and each output is the runner applied to the state
   * already in the slot.  This holds also when fewer hooks are called than
   * slots exist.
   */
  lemma {:induction false} RunCallsReuses<P, O>(s: Store<P>, calls: seq<Call<P, O>>)
    requires s.counter + |calls| <= |s.hooks|
    requires forall i :: 0 <= i < |calls| ==> calls[i].tag == s.hooks[s.counter + i].tag
    ensures var r := RunCalls(s, calls);
      && r.Rendered?
      && r.store == s.(counter := s.counter + |calls|)
      && |r.outputs| == |calls|
      && forall i :: 0 <= i < |calls| ==> r.outputs[i] == calls[i].runner(s.hooks[s.counter + i].state)
    decreases |calls|
  {
    if calls != [] {
      var o := UseHookStep(s, calls[0]);
      assert calls[0].tag == s.hooks[s.counter + 0].tag;
      forall i | 0 <= i < |calls[1..]|
        ensures calls[1..][i].tag == o.store.hooks[o.store.counter + i].tag
      {
        assert calls[1..][i] == calls[i + 1];
      }
      RunCallsReuses(o.store, calls[1..]);
      var r := RunCalls(s, calls);
      var rest := RunCalls(o.store, calls[1..]);
      assert r.outputs == [o.result.value] + rest.outputs;
      forall i | 0 <= i < |calls|
        ensures r.outputs[i] == calls[i].runner(s.hooks[s.counter + i].state)
      {
        if i > 0 {
          assert r.outputs[i] == rest.outputs[i - 1];
          assert calls[1..][i - 1] == calls[i];
        }
      }
    }
  }

  /**
   * A call that requests, at an existing position, another type than the one
   * stored there stops the pass with `IncompatibleHookType` at that position,
   * after the matching calls before it; no slot or listener is created.
   */
  lemma {:induction false} RunCallsFailsOnMismatch<P, O>(s: Store<P>, calls: seq<Call<P, O>>, k: nat)
    requires k < |calls| && s.counter + k < |s.hooks|
    requires forall i :: 0 <= i < k ==> calls[i].tag == s.hooks[s.counter + i].tag
    requires calls[k].tag != s.hooks[s.counter + k].tag
    ensures var r := RunCalls(s, calls);
      && r.Failed?
      && r.at == s.counter + k
      && r.error == IncompatibleHookType
      && r.store.hooks == s.hooks
      && r.store.destroyListeners == s.destroyListeners
    decreases k
  {
    if k > 0 {
      var o := UseHookStep(s, calls[0]);
      assert calls[0].tag == s.hooks[s.counter + 0].tag;
      forall i | 0 <= i < k - 1
        ensures calls[1..][i].tag == o.store.hooks[o.store.counter + i].tag
      {
        assert calls[1..][i] == calls[i + 1];
      }
      assert calls[1..][k - 1] == calls[k];
      RunCallsFailsOnMismatch(o.store, calls[1..], k - 1);
    }
  }

  /**
   * Any sequence of hook calls on a well-formed store leaves it well-formed,
   * keeps every existing slot and listener, and can only fail on a type
   * mismatch: the "not the same number of hooks" lookup never fails.
   */
  lemma {:induction false} RunCallsKeepsWellFormed<P, O>(s: Store<P>, calls: seq<Call<P, O>>)
    requires WellFormed(s)
    ensures var r := RunCalls(s, calls);
      && WellFormed(r.store)
      && s.hooks <= r.store.hooks
      && s.destroyListeners <= r.store.destroyListeners
      && (r.Failed? ==> r.error == IncompatibleHookType)
    decreases |calls|
  {
    if calls != [] {
      var o := UseHookStep(s, calls[0]);
      UseHookKeepsWellFormed(s, calls[0]);
      if o.result.Ok? {
        RunCallsKeepsWellFormed(o.store, calls[1..]);
      }
    }
  }

  /**
   * Mount, then re-render with hooks of the same types in the same order:
   * the first pass creates one slot per hook from its initializer; the second
   * creates nothing, keeps every slot (so state persists across renders), and
   * hands each runner the state its position was initialised with.
   */
  lemma RerenderKeepsSlots<P, O>(first: seq<Call<P, O>>, second: seq<Call<P, O>>)
    requires CallTags(second) == CallTags(first)
    ensures var mount := RenderPass(Empty<P>(), first);
      && mount.Rendered?
      && |mount.store.hooks| == |first|
      && (forall i :: 0 <= i < |first| ==> mount.store.hooks[i] == Slot(first[i].tag, first[i].init()))
      && WellFormed(mount.store)
      && var again := RenderPass(mount.store, second);
      && again.Rendered?
      && again.store == mount.store
      && |again.outputs| == |second|
      && forall i :: 0 <= i < |second| ==> again.outputs[i] == second[i].runner(first[i].init())
  {
    var s0 := BeginPass(Empty<P>());
    RunCallsInitializes(s0, first);
    RunCallsKeepsWellFormed(s0, first);
    var mount := RunCalls(s0, first);
    var hooks := mount.store.hooks;
    assert hooks == FreshSlots(first);
    forall i | 0 <= i < |first|
      ensures hooks[i] == Slot(first[i].tag, first[i].init())
    {
      FreshSlotsAt(first, i);
    }
    var s1 := BeginPass(mount.store);
    forall i | 0 <= i < |second|
      ensures second[i].tag == s1.hooks[s1.counter + i].tag
    {
      assert CallTags(second)[i] == CallTags(first)[i];
    }
    RunCallsReuses(s1, second);
  }

  /** Slot `i` of a first render is the initial state of call `i`, with its tag. */
  lemma {:induction false} FreshSlotsAt<P, O>(calls: seq<Call<P, O>>, i: nat)
    requires i < |calls|
    ensures FreshSlots(calls)[i] == Slot(calls[i].tag, calls[i].init())
    decreases i
  {
    if i > 0 {
      FreshSlotsAt(calls[1..], i - 1);
      assert calls[1..][i - 1] == calls[i];
    }
  }

  /** Listener `i` of a first render from position `from` belongs to call `i` and position `from + i`. */
  lemma {:induction false} FreshListenersAt<P, O>(calls: seq<Call<P, O>>, from: nat, i: nat)
    requires i < |calls|
    ensures FreshListeners(calls, from)[i] == Listener(calls[i].tear, from + i)
    decreases i
  {
    if i > 0 {
      FreshListenersAt(calls[1..], from + 1, i - 1);
      assert calls[1..][i - 1] == calls[i];
    }
  }

  /** What the component's hook state records about each call, for reasoning only. */
  datatype HookEvent = Initialized(pos: nat) | Ran(pos: nat)

  /** The positions whose initializer ran, in the order they ran. */
  function InitPositions(log: seq<HookEvent>): seq<nat> {
    if log == [] then []
    else InitPositions(log[..|log| - 1]) + (if log[|log| - 1].Initialized? then [log[|log| - 1].pos] else [])
  }

  /** The positions `0 .. n - 1` in order. */
  function Positions(n: nat): (r: seq<nat>)
    ensures |r| == n && forall i :: 0 <= i < n ==> r[i] == i
  {
    seq(n, i requires 0 <= i < n => i)
  }

  /** Appending events adds their initialisations at the end of the initialised positions. */
  lemma {:induction false} InitPositionsAppend(log: seq<HookEvent>, more: seq<HookEvent>)
    ensures InitPositions(log + more) == InitPositions(log) + InitPositions(more)
    decreases |more|
  {
    if more != [] {
      var front := more[..|more| - 1];
      assert (log + more)[..|log + more| - 1] == log + front;
      InitPositionsAppend(log, front);
    } else {
      assert log + more == log;
    }
  }

  /**
   * The hook state a component instance owns.  `log` records, for reasoning
   * only, which initializers and runners ran.
   */
  class HookState<P> {
    var counter: nat
    var hooks: seq<Slot<P>>
    var destroyListeners: seq<Listener>
    ghost var log: seq<HookEvent>

    /** The hook state as a value. */
    function View(): Store<P>
      reads this
    {
      Store(counter, hooks, destroyListeners)
    }

    /**
     * The object invariant: the store is well-formed, and the initializer of
     * every slot ran exactly once, in position order, and no other ran.
     */
    ghost predicate Valid()
      reads this
    {
      WellFormed(View()) && InitPositions(log) == Positions(|hooks|)
    }

    /** A freshly mounted component has no slots. */
    constructor ()
      ensures View() == Empty() && log == [] && Valid()
    {
      counter := 0;
      hooks := [];
      destroyListeners := [];
      log := [];
    }

    /** The start of a render pass. */
    method BeginRender()
      requires Valid()
      modifies this
      ensures View() == BeginPass(old(View())) && log == old(log)
      ensures Valid()
    {
      counter := 0;
    }

    /**
     * `use_hook`: the new state is the one `UseHookStep` describes; the log
     * gains the initialisation of the slot when it was created and the run of
     * the runner when the call succeeded; the invariant is kept, and with it
     * the lookup of the slot never fails.
     */
    method UseHook<O>(c: Call<P, O>) returns (r: Result<O, HookError>)
      requires Valid()
      modifies this
      ensures var o := UseHookStep(old(View()), c); View() == o.store && r == o.result
      ensures log == old(log)
                     + (if old(counter) >= old(|hooks|) then [Initialized(old(counter))] else [])
                     + (if r.Ok? then [Ran(old(counter))] else [])
      ensures Valid()
      ensures r.Err? ==> r.error == IncompatibleHookType
    {
      ghost var before := View();
      UseHookKeepsWellFormed(before, c);
      var hookPos := counter;
      counter := counter + 1;
      if hookPos >= |hooks| {
        var initial := c.init();
        var pushedAt := |hooks|;
        hooks := hooks + [Slot(c.tag, initial)];
        destroyListeners := destroyListeners + [Listener(c.tear, pushedAt)];
        InitPositionsAppend(log, [Initialized(hookPos)]);
        log := log + [Initialized(hookPos)];
        assert Positions(|hooks|) == Positions(hookPos) + [hookPos];
      }
      if hookPos >= |hooks| {
        return Err(NotSameNumberOfHooks);
      }
      var hook := hooks[hookPos];
      if hook.tag != c.tag {
        return Err(IncompatibleHookType);
      }
      r := Ok(c.runner(hook.state));
      InitPositionsAppend(log, [Ran(hookPos)]);
      log := log + [Ran(hookPos)];
    }
  }
}
