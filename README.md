# Hook slot engine and effect hooks of Yew function components

This project models, in Dafny, the engine that gives Yew's function components
their persistent per-instance state. It also models the two effect hooks built
on that engine.

- **`use_hook`** (`Hooks`, `hooks.dfy`). A component instance owns three things:
  - a position counter;
  - an append-only sequence of type-erased hook states ("slots");
  - a parallel sequence of destroy listeners.

  Each hook call reads the position and advances the counter. The first time a
  position is reached, the call runs the initializer once and appends a slot and
  a destroy listener. Later calls reuse the slot already there. The call then
  fails fast if the stored type is not the one requested, and returns the
  runner's output on the slot's state.

  The value model is `Store` with `UseHookStep`, plus render passes (`RunCalls`,
  `RenderPass`). The object the component owns is the class `HookState`. Its
  `UseHook` method mutates `counter`, `hooks` and `destroyListeners` in place and
  is proved against `UseHookStep`.
- **`use_effect` and `use_effect_with_deps`** (`Effects`, `effects.dfy`). Each
  hook's slot keeps the destructor returned by the last callback. The
  dependency-aware hook also keeps the dependencies it last ran with.
  - The post-render closure decides whether to run the old destructor and call
    the callback again.
  - The teardown closure takes the stored destructor and runs it.

  Callbacks and destructors are opaque and recorded as events:
  - `Callback(deps, made)`: the callback ran and returned destructor `made`;
  - `Cleanup(d)`: destructor `d` ran.

  `Replay` defines when an event log is well-formed: each cleanup runs the one
  pending destructor, and each callback runs while none is pending. The
  transitions are value functions. The `RefCell` states they act on are the
  classes `EffectCell` and `EffectDepsCell`. The methods of these classes follow
  the closures' statements and are proved against the functions.
- **The effect hooks as `use_hook` callers** (`EffectHooks`, `effect_hooks.dfy`).
  The runner of each effect hook registers a post-render closure. Here that
  closure is the runner's output (a `Job`). A render cycle is a render pass
  followed by running the registered closures in registration order, each on its
  own slot.

## Model

| member | source | states |
|---|---|---|
| `Hooks.UseHookStep` | packages/yew/src/functional/hooks/mod.rs:29-83 | The call works at position p = old counter and leaves the counter at p + 1. The initializer runs exactly when p >= the number of slots; it appends exactly one slot, with the requested type, and one destroy listener closed over the pushed slot, whose index is the old number of slots (p itself whenever the store is well-formed). Otherwise slots and listeners are unchanged. The call fails with "not the same number of hooks" exactly when p is more than one past the end. It fails with "incompatible hook type" exactly when an existing slot at p has another type. On success the output is the runner applied to the state at p. |
| `Hooks.UseHookAppendOnly` | packages/yew/src/functional/hooks/mod.rs:41-47 | Slots and listeners are only appended, never replaced or removed. Old ones form a prefix of the new ones, both grow by the same amount (at most one), and every existing slot keeps its value. |
| `Hooks.UseHookKeepsWellFormed` | packages/yew/src/functional/hooks/mod.rs:37-53 | The invariant "counter <= number of slots, one listener per slot, listener i for slot i" is preserved. Under it the `.get(hook_pos)` lookup never fails, so the only possible error is a type mismatch on a reused slot. |
| `Hooks.RunCallsKeepsWellFormed` | packages/yew/src/functional/hooks/mod.rs:37-53 | Any sequence of hook calls on a well-formed store keeps it well-formed and keeps every existing slot and listener. It can fail only with an incompatible hook type. |
| `Hooks.RunCallsInitializes` | packages/yew/src/functional/hooks/mod.rs:41-47 | Calls at positions past the end (a first render) each run their initializer once. They append one slot and one listener per call, in call order, and all succeed, each returning its runner's output on the fresh state. |
| `Hooks.FreshListenersAt` | packages/yew/src/functional/hooks/mod.rs:44-46 | Listener i registered by a first render from position `from` is call i's destructor, closed over the state at position `from + i`. |
| `Hooks.RunCallsReuses` | packages/yew/src/functional/hooks/mod.rs:49-53 | Calls that request the stored types position by position, possibly fewer than there are slots, reuse the slots. No initializer runs, the store is unchanged except for the counter, and each output is the runner applied to the state already stored. |
| `Hooks.RunCallsFailsOnMismatch` | packages/yew/src/functional/hooks/mod.rs:64-67 | The first call that requests another type than the one stored at its position stops the pass with "incompatible hook type" at that position. No slot or listener is created. |
| `Hooks.RerenderKeepsSlots` | packages/yew/src/functional/hooks/mod.rs:37-82 | Mount creates one slot per hook, slot i holding call i's type and initial state, and a well-formed store. A re-render with the same types in the same order succeeds and leaves the store as it was, so state persists. Each runner receives the state its position was initialised with. |
| `Hooks.HookState.UseHook` | packages/yew/src/functional/hooks/mod.rs:29-83 | The in-place update yields the state `UseHookStep` gives. The log gains one initialisation exactly when a slot was created, and one runner run on success. The object invariant is kept: well-formed store, and each slot's initializer ran exactly once, in position order. Failure is only ever a type mismatch. |
| `Effects.NewEffect` | packages/yew/src/functional/hooks/use_effect.rs:44-47 | A fresh `use_effect` slot holds no destructor. This agrees with the empty event log. |
| `Effects.EffectPostRenderPairs` | packages/yew/src/functional/hooks/use_effect.rs:50-60 | The old destructor, if any, runs first. Then exactly one callback runs, the destructor it returned is stored, and no re-render is requested. A well-formed log stays well-formed, with the new destructor pending. |
| `Effects.EffectTeardownPairs` | packages/yew/src/functional/hooks/use_effect.rs:62-66 | Teardown runs the stored destructor exactly once and leaves none, so a second teardown does nothing. The log stays well-formed with nothing pending. |
| `Effects.ReplayBalanced` | packages/yew/src/functional/hooks/use_effect.rs:50-66 | In a well-formed log, destructor runs equal callback calls, minus one while a destructor is pending. No destructor runs twice and at most one is ever pending. |
| `Effects.EffectRendersEvents` | packages/yew/src/functional/hooks/use_effect.rs:50-60 | Over consecutive renders, the pending destructor runs first. Then every render calls its callback, and each destructor except the last runs just before the next callback. |
| `Effects.EffectLifetimeEvents` | packages/yew/src/functional/hooks/use_effect.rs:38-68 | Over a slot's life (initializer, n renders, teardown) the log is callback, then cleanup of that callback's destructor, for each render in turn. That gives n callbacks and n cleanups, and no destructor is left. |
| `Effects.NewEffectDeps` | packages/yew/src/functional/hooks/use_effect.rs:90-96 | A fresh `use_effect_with_deps` slot holds no destructor and the first render's dependencies. |
| `Effects.DepsPostRenderPairs` | packages/yew/src/functional/hooks/use_effect.rs:99-115 | Three branches. Changed deps: the old destructor runs, then the callback with the new deps, and both are stored. Equal deps and no destructor: one callback with the stored deps, which stay. Equal deps with a destructor: no event, no change. In every branch no re-render is requested, a destructor is stored afterwards, and the log stays well-formed. |
| `Effects.DepsTeardownPairs` | packages/yew/src/functional/hooks/use_effect.rs:118-122 | Teardown runs the stored destructor exactly once and leaves none, so a second teardown does nothing. The stored deps stay and the log stays well-formed. |
| `Effects.DepsStepCounts` | packages/yew/src/functional/hooks/use_effect.rs:100-113 | Once a destructor is stored, a post-render makes one callback and one cleanup when the deps changed, and none otherwise. |
| `Effects.DepsRendersCount` | packages/yew/src/functional/hooks/use_effect.rs:99-115 | Once a destructor is stored, callbacks and cleanups over a render sequence both equal the number of dependency changes. A destructor stays stored, and the stored deps are the last render's. |
| `Effects.DepsRendersReplay` | packages/yew/src/functional/hooks/use_effect.rs:99-115 | Any sequence of post-renders keeps a well-formed log well-formed, with the stored destructor pending. |
| `Effects.DepsMountCount` | packages/yew/src/functional/hooks/use_effect.rs:80-124 | From mount, the callback runs once for the first render plus once per dependency change, and the destructor runs once per change. After teardown, cleanups equal callbacks: every destructor ran exactly once. |
| `Effects.DepsSequenceAABB` | packages/yew/src/functional/hooks/use_effect.rs:90-113 | Deps [a, a, b, b] with a != b give callback(a), cleanup of its destructor, then callback(b): exactly 2 callbacks and 1 cleanup. Teardown then runs render 3's destructor. |
| `Effects.EffectCell.PostRender` | packages/yew/src/functional/hooks/use_effect.rs:50-60 | The in-place `take`/call/`replace` sequence yields exactly `EffectPostRender`'s state, events and answer, and keeps the log well-formed. |
| `Effects.EffectCell.Teardown` | packages/yew/src/functional/hooks/use_effect.rs:62-66 | The in-place `take` and run yields `EffectTeardown`'s state and events and leaves no destructor. |
| `Effects.EffectCell.constructor` | packages/yew/src/functional/hooks/use_effect.rs:44-47 | The initializer's cell holds no destructor, with an empty log. |
| `Effects.EffectDepsCell.PostRender` | packages/yew/src/functional/hooks/use_effect.rs:99-115 | The in-place branches yield exactly `DepsPostRender`'s state, events and answer, and keep the log well-formed. |
| `Effects.EffectDepsCell.Teardown` | packages/yew/src/functional/hooks/use_effect.rs:118-122 | The in-place `take` and run yields `DepsTeardown`'s state and events and leaves no destructor. |
| `Effects.EffectDepsCell.constructor` | packages/yew/src/functional/hooks/use_effect.rs:90-96 | The initializer's cell holds no destructor and the given deps. |
| `EffectHooks.SwappedEffectsFail` | packages/yew/src/functional/hooks/use_effect.rs:38-47 | A `use_effect` slot's type names the callback's destructor type, so two call sites whose destructor types differ (each returning its own closure literal, say) have distinct slot types. A component that mounted calling them in one order and calls them in the other order on a later render fails with "incompatible hook type" at position 0, replaces no slot, and runs no post-render closure. |
| `EffectHooks.EffectSlotRefusesDeps` | packages/yew/src/functional/hooks/mod.rs:64-67 | A `use_effect` slot and a `use_effect_with_deps` slot never have the same type. A component that mounted with `use_effect` and calls `use_effect_with_deps` at that position on a later render fails with "incompatible hook type" at position 0, whatever the destructor and dependency types. No slot is replaced and no closure runs. |
| `EffectHooks.DrainNeverRerenders` | packages/yew/src/functional/hooks/use_effect.rs:50-114 | Running any queue of the effect hooks' post-render closures never asks for a re-render. |
| `EffectHooks.EffectThenDepsCycle` | packages/yew/src/functional/hooks/use_effect.rs:43-117 | In a component that calls `use_effect` and then `use_effect_with_deps`, a re-render reuses both slots. It then runs `use_effect`'s closure on slot 0 before `use_effect_with_deps`'s closure on slot 1, each doing exactly what its slot-level transition does. |
| `EffectHooks.MountCycle` | packages/yew/src/functional/hooks/use_effect.rs:89-117 | The first render of a one-hook `use_effect_with_deps` component creates its slot with no destructor and the render's deps, registers one destroy listener, then runs the post-render on it. |
| `EffectHooks.RerenderCycle` | packages/yew/src/functional/hooks/use_effect.rs:97-115 | A later render cycle of that component reuses its slot and runs the post-render closure on the stored state. |
| `EffectHooks.DepsComponentMatchesSlot` | packages/yew/src/functional/hooks/use_effect.rs:80-124 | Driven through `use_hook` and the post-render queue from mount, the component produces exactly the slot-level events of `DepsMount`, on slot 0, and never asks for a re-render. |
| `EffectHooks.DepsComponentAABB` | packages/yew/src/functional/hooks/use_effect.rs:80-124 | Through the whole engine, deps [a, a, b, b] with a != b give exactly callback(a), cleanup, callback(b). |

## Left out

- `CURRENT_HOOK`, `HookUpdater`, `process_message` and the post-render queue are
  defined in `crate::functional`, which is not part of this model.
  - The model passes the store explicitly.
  - A render pass starts by setting the counter to 0 (`BeginPass`,
    `HookState.BeginRender`).
  - Running the registered closures is modelled as applying each one once, in
    order, to its slot (`EffectHooks.Drain`).
  - Calling a hook outside a render is not modelled.
- Running the destroy listeners at component teardown is also in
  `crate::functional`. The model registers the listeners (`Listener`), and
  proves each effect hook's destructor closure on its own (`EffectTeardownPairs`,
  `DepsTeardownPairs`). It does not model the component-level loop over the
  listeners.
- The `Rc::into_raw`/`from_raw` cast in `mod.rs` is a memory-representation
  detail. It is modelled as a comparison of type tags followed by passing the
  payload to the runner. Runtime type identity is a natural number (`TypeTag`).
  The slot type of an effect hook includes the type of its callback's
  destructor (and, for `use_effect_with_deps`, of its dependencies), so
  `EffectHooks.UseEffectCall` and `EffectHooks.UseEffectDepsCall` take a number
  for those types. `EffectHooks.EffectSlotType` and `EffectHooks.DepsSlotType`
  map it to a tag so that the two hooks' slot types never coincide. Call sites
  whose callbacks return closure literals of their own get different numbers;
  callbacks that return the same named function or the same boxed trait object
  share one.
- User closures (initializer, runner, callback, destructor) are opaque:
  - initializers and runners are Dafny function values;
  - what a callback returns is a parameter (`made`) identifying the destructor;
  - callback and destructor calls appear only as events.

  Panics inside them and the effects they have on the page are not modelled.
- Equality of dependencies (`PartialEq`) is modelled as Dafny equality, so a
  `PartialEq` that is not an equivalence relation is not covered.
- Hooks that are not shown (state, reducer, context, ref), re-render scheduling
  and coalescing, and DOM event adaptation (`html/listener`) are not part of
  this model.
- In a component, each hook has its own output type. Here a render pass uses
  one output type for all of its hooks, and a component built from effect hooks
  uses one dependency type.
- The source does not detect calling hooks in a different order when the types
  at each position still agree. This includes swapping two effect hooks of equal
  slot type, such as two `use_effect` calls whose callbacks return the same
  destructor type. It also does not detect calling fewer or more hooks than on
  the previous render. The model follows the source on all of these:
  - only a type mismatch fails (`RunCallsFailsOnMismatch`);
  - a shorter pass just reuses a prefix of the slots (`RunCallsReuses`);
  - a longer pass pushes fresh slots for the extra positions (`UseHookStep`).

  The broader "order or count changed fails fast" promise is therefore not
  stated.
- RunCallsReuses, RerenderKeepsSlots: the source hands each runner a shared
  `Rc` handle to its slot, through which the runner (or a closure it keeps) can
  mutate the state or which it can return. Here `Call.runner` receives the
  state by value and cannot write through it; only the post-render closures
  of `EffectHooks.Drain` write slots. So "the store is unchanged" and "each
  runner receives the state its position was initialised with" are stated as
  equality of contents, standing for the source's "the same `Rc` object".
  Aliasing between the slot and handles held elsewhere is not modelled.
- A panic stops the component where it happens. `Hooks.RenderPass` reports a
  failure as `Failed`, carrying the store as the source left it, with the
  counter already advanced past the failing position. On the reachable failure,
  a type mismatch on a reused slot, no slot or listener was added. Only the
  "not the same number of hooks" failure comes after a fresh slot was pushed,
  and it cannot happen on a well-formed store (`UseHookKeepsWellFormed`).
  `EffectHooks.Cycle` reports a failed pass as `None`, with no store, because
  no closure runs after it. Unwinding is not modelled further.
