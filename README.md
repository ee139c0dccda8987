# TaskOption: deferred optional computations and array sequencing

This project models the `TaskOption` part of fp-ts. A `TaskOption<A>` is a
deferred asynchronous computation that resolves to an `Option<A>`. The model
covers its constructors, combinators and destructors, and the two ways of
sequencing an array of them: `sequenceArray` (parallel policy) and
`sequenceSeqArray` (sequential policy). It is written from the behaviour the
test suite `test/TaskOption.ts` asserts. The implementation module
`src/TaskOption.ts` is not part of this model.

How the model represents things:

- `Options` (options.dfy) holds `Option`, `Nullable` (a value that may be
  `null` or `undefined`), and the option-level combinators, including the
  option-level `SequenceArray`.
- `Tasks` (tasks.dfy) represents one invocation of a deferred computation as a
  value `Task(effects, value)`. `effects` are the labels that invocation
  appends to the shared log, in order; `value` is what it resolves to. Building
  a task emits nothing. Effects happen only when `EffectLog.Run` invokes it.
  Invoking the same task twice appends its effects twice, because nothing is
  memoised. `EffectLog` is the shared mutable log (the test's `log` array,
  with `log.push`). `IO` is a synchronous effectful thunk. `Settled` is how a
  promise settles: `Fulfilled(value)` or `Rejected(reason)`.
- `TaskOptions` (task_options.dfy) defines `TaskOption<L, A> = Task<L, Option<A>>`
  and its combinators in terms of the Task and Option ones. `map` is a Task
  map of an Option map. `chain` and `alt` are `T.chain(O.fold(...))`, so a
  branch's effects appear only when that branch is taken. `ap` is the
  parallel apply: it runs the effects of both sides and combines the two
  Options with `O.ap`.
- `Sequencing` (sequencing.dfy) defines the two policies as pure reference
  functions (`SequenceArray`, `SequenceSeqArray`). Their contracts state when
  each resolves to Some and which elements each initiates.
  Two methods (`RunSequenceArray`, `RunSequenceSeqArray`) loop over the
  elements, invoke each one against a shared `EffectLog`, and are proved
  against those functions. The sequential method's loop (`RunWhileSome`)
  stops right after the first element that resolves to `None`.
- `Scenarios` (scenarios.dfy) replays the test's two sequencing cases. Each
  runs three arrays against one log and checks all three results and the
  final log.

The combinator functions carry no contracts of their own. Each one's
behaviour is stated by the lemma named next to it in the table below.

Lazy arguments (`alt(() => that)`, `fold(() => onNone, ...)`,
`getOrElse(() => onNone)`) are passed as the Task value the thunk would return.
Building a task description has no effects in this model, so the thunk adds
nothing. Curried combinators such as `fromNullableK(f)(x)` take all their
arguments at once: `FromNullableK(f, x)`. `of` is the same as `some`, so it is
not defined separately.

## Model

| member | source | states |
|---|---|---|
| `Options.SequenceArray` | test/TaskOption.ts:187-189 | combining results gives Some exactly when every element is Some; its values then match the elements in index order |
| `Tasks.OfLeftIdentity` | test/TaskOption.ts:128-152 | `of` (`Tasks.Of`) adds no effect: chaining from it is the continuation itself (a law of this model; the test checks only the instances on these lines) |
| `Tasks.MapIsChainOf` | test/TaskOption.ts:185 | Task `map` (`Tasks.Map`) keeps the task's effects and transforms only its value, like chaining into `of` (a law of this model; the test checks only the instances on these lines) |
| `Tasks.FromIOMap` | test/TaskOption.ts:181-185 | mapping a task lifted by `fromIO` (`Tasks.FromIO`) equals lifting the IO with its result mapped; the IO's effects are unchanged (a law of this model; the test checks only the instances on these lines) |
| `Tasks.EffectLog.constructor` | test/TaskOption.ts:173 | a new log is empty |
| `Tasks.EffectLog.Run` | test/TaskOption.ts:174-186 | invoking a task appends exactly its effects to the log and returns what it resolves to |
| `TaskOptions.MapInsideSome` | test/TaskOption.ts:13-16 | `map` (`TaskOptions.Map`) applies `f` inside Some, keeps None, and runs exactly the original's effects |
| `TaskOptions.MapIdentity` | test/TaskOption.ts:13-16 | mapping the identity changes nothing (a law of this model; the test checks no instance of this law) |
| `TaskOptions.MapComposition` | test/TaskOption.ts:13-16 | mapping `f` then `g` equals mapping their composition (a law of this model; the test checks no instance of this law) |
| `TaskOptions.ApBothPresent` | test/TaskOption.ts:18-24 | `ap` (`TaskOptions.Ap`) is Some(f(a)) exactly when both sides are Some, and runs both sides' effects, function side first |
| `TaskOptions.ApAgreesWithChain` | test/TaskOption.ts:18-33 | parallel `ap` resolves to the same Option as applying through `chain`; the effects differ only when the function side is None (a law of this model; the test checks only the instances on these lines) |
| `TaskOptions.ChainNoneShortCircuits` | test/TaskOption.ts:30-32 | `chain` (`TaskOptions.Chain`) from None is None and emits none of the continuation's effects |
| `TaskOptions.ChainSomeContinues` | test/TaskOption.ts:29-31 | `chain` from Some(a) resolves to what `f(a)` resolves to, None included, after both effects |
| `TaskOptions.ChainLeftIdentity` | test/TaskOption.ts:26-33 | `chain` of `some(a)` (`TaskOptions.Some`) with `f` is `f(a)` (a law of this model; the test checks only the instances on these lines) |
| `TaskOptions.ChainRightIdentity` | test/TaskOption.ts:26-33 | `chain` with `some` changes nothing (a law of this model; the test checks no instance of this law) |
| `TaskOptions.ChainAssociative` | test/TaskOption.ts:26-33 | nested chains associate, effects included (a law of this model; the test checks no instance of this law) |
| `TaskOptions.AltKeepsSome` | test/TaskOption.ts:36-49 | `alt` (`TaskOptions.Alt`) on Some keeps the original whatever the alternative is, and never runs the alternative |
| `TaskOptions.AltFallsBack` | test/TaskOption.ts:50-63 | `alt` on None resolves to the alternative's result, after both effects |
| `TaskOptions.AltZeroNeutral` | test/TaskOption.ts:35-68 | `zero` is neutral for `alt` on both sides (a law of this model; the test checks only the instances on these lines) |
| `TaskOptions.AltAssociative` | test/TaskOption.ts:35-64 | `alt` is associative (a law of this model; the test checks no instance of this law) |
| `TaskOptions.ZeroIsNone` | test/TaskOption.ts:66-68 | `zero` (`TaskOptions.Zero`) and `none` (`TaskOptions.None`) resolve to None with no effects |
| `TaskOptions.FromIOWrapsSome` | test/TaskOption.ts:70-72 | `fromIO` (`TaskOptions.FromIO`) runs the IO's effects and resolves to Some of its result |
| `TaskOptions.TryCatchSettles` | test/TaskOption.ts:92-95 | `tryCatch` (`TaskOptions.TryCatch`): fulfilment becomes Some of the value, rejection becomes None with the reason discarded; the promise's effects are kept |
| `TaskOptions.TryCatchKSettles` | test/TaskOption.ts:215-220 | `tryCatchK(f)(x)` (`TaskOptions.TryCatchK`) is Some exactly when `f(x)` fulfils, and then holds the fulfilled value |
| `TaskOptions.FromNullableAbsent` | test/TaskOption.ts:97-101 | `fromNullable` (`TaskOptions.FromNullable`) is None exactly for null and undefined, otherwise Some of the value, with no effects |
| `TaskOptions.FromNullableKAbsent` | test/TaskOption.ts:103-108 | `fromNullableK(f)(x)` (`TaskOptions.FromNullableK`) is None exactly when `f(x)` is null or undefined, otherwise Some of it |
| `TaskOptions.ChainNullableKAbsent` | test/TaskOption.ts:110-115 | `chainNullableK` (`TaskOptions.ChainNullableK`) keeps None, and on Some(a) gives None for a null or undefined `f(a)` and Some otherwise |
| `TaskOptions.FromPredicateIff` | test/TaskOption.ts:117-122 | `fromPredicate(p)(a)` (`TaskOptions.FromPredicate`) is Some(a) if and only if `p(a)`, and None if and only if not |
| `TaskOptions.FromOptionKPassesThrough` | test/TaskOption.ts:158-162 | `fromOptionK(f)(x)` (`TaskOptions.FromOptionK`) resolves to `f(x)` unchanged, with no effects |
| `TaskOptions.ChainOptionKPassesThrough` | test/TaskOption.ts:164-169 | `chainOptionK` (`TaskOptions.ChainOptionK`) on None stays None; on Some(a) it resolves to `f(a)` |
| `TaskOptions.FoldSelectsBranch` | test/TaskOption.ts:128-135 | `fold` (`TaskOptions.Fold`) takes `onNone` for None and `onSome(a)` for Some(a), after the original's effects |
| `TaskOptions.GetOrElseFallback` | test/TaskOption.ts:137-152 | `getOrElse` (`TaskOptions.GetOrElse`) gives the contained value without running the fallback, or the fallback's value on None |
| `Sequencing.AllEffectsAppend` | test/TaskOption.ts:171-190 | the effects of two arrays run one after the other are the first array's effects followed by the second's |
| `Sequencing.AllEffectsExtend` | test/TaskOption.ts:171-190 | invoking one more element appends exactly its effects after those of the elements before it |
| `Sequencing.AllEffectsAround` | test/TaskOption.ts:171-190 | element i's effects come after those of every earlier element and before those of every later one |
| `Sequencing.FirstNone` | test/TaskOption.ts:209-212 | the index where the sequential policy halts: every earlier element is Some and this one, if it exists, is None |
| `Sequencing.FirstNoneAt` | test/TaskOption.ts:210-212 | an element that is None with only Somes before it is the first None, and the sequential policy initiates exactly the elements up to it |
| `Sequencing.AllPresentCount` | test/TaskOption.ts:209 | when no element is None, the sequential policy initiates every element |
| `Sequencing.SequenceArray` | test/TaskOption.ts:187-190 | `sequenceArray` initiates every element, in index order, whatever they resolve to; the aggregate is Some exactly when every element is, holding the values in original index order; any None, first or last, gives None |
| `Sequencing.SequenceSeqArray` | test/TaskOption.ts:193-212 | `sequenceSeqArray` resolves to the same Option as `sequenceArray` for every array, and initiates exactly the elements up to and including the first None |
| `Sequencing.SequentialStep` | test/TaskOption.ts:193-212 | putting one more element in front with `chain` keeps both halves of the sequential policy's contract |
| `Sequencing.SequenceSeqArrayAnyNone` | test/TaskOption.ts:210-211 | under the sequential policy, any None element gives None |
| `Sequencing.SequenceSeqArrayStopsAtFirstNone` | test/TaskOption.ts:210-212 | when element k is the first None, the sequential log holds exactly the effects of elements 0..k |
| `Sequencing.SequenceSeqArrayCollects` | test/TaskOption.ts:209 | when every element is Some, the sequential policy runs all their effects and resolves to Some of exactly their values, in order |
| `Sequencing.SequenceSeqArrayAllPresent` | test/TaskOption.ts:209 | when every element is Some, the policies are indistinguishable in both effects and result |
| `Sequencing.SequentialSkipsRest` | test/TaskOption.ts:171-212 | the parallel log is the sequential log followed by the effects of the elements the sequential policy skips; so the sequential log is a prefix of the parallel one |
| `Sequencing.RunSequenceArray` | test/TaskOption.ts:171-190 | invoking every element in order appends all their effects to the shared log and returns the parallel aggregate |
| `Sequencing.RunWhileSome` | test/TaskOption.ts:193-212 | invoking elements in order while they are Some: the values collected match the elements, a halt happens exactly on a None, and the log gains the effects of the elements up to and including it |
| `Sequencing.RunSequenceSeqArray` | test/TaskOption.ts:193-212 | invoking elements in order and stopping after the first None appends the effects of elements up to that one and returns the sequential aggregate |
| `Scenarios.LoggedElements` | test/TaskOption.ts:174-186 | the test's `some(n)` (`Scenarios.Logged`) logs `n` and resolves to Some(n); its `none(s)` (`Scenarios.LoggedNone`) logs `s` and resolves to None |
| `Scenarios.ParallelScenario` | test/TaskOption.ts:171-190 | the three parallel runs give Some([1, 2]), None, None, and the log [1, 2, 3, 'a', 'b', 4] |
| `Scenarios.SequentialScenario` | test/TaskOption.ts:193-212 | the three sequential runs give Some([1, 2]), None, None, and the log [1, 2, 3, 'a', 'b'] |

## Left out

- The implementation file `src/TaskOption.ts`, and `src/Task.ts` and `src/Option.ts`, are not part of this model. Every combinator is defined to match what the tests assert, in the way fp-ts composes Task and Option.
- The `ApplicativeSeq` and `ApplicativePar` instance checks (test/TaskOption.ts:78-86): their assertions live in `test/util`, which is not part of this model.
- The benchmark `perf/Task/sequenceArray.ts`: it only times runs and prints results. It states no functional behaviour.
- Real promise scheduling, microtask interleaving and completion order under the parallel policy are concurrency, and there is no model of them. The parallel policy is modelled only by what the test observes: every element's effects run, in index order.
- A JavaScript promise rejection is represented by the settled outcome `Rejected(reason)`, not by exception mechanics.
- The order of the two sides' effects in `ap`: the model runs the function side first, as fp-ts's parallel apply initiates it first. The test does not assert this order.
- The empty array gives `Some([])` with no effects under both policies in this model. No property is claimed for it, because the test does not assert it.
- Combinators with several arguments (`fromNullableK`, `fromOptionK`, `tryCatchK` over functions of any arity) are modelled for one-argument functions.
- The laws marked "a law of this model" (identity, composition, associativity, neutrality, and how Task `of`, `map` and `fromIO` relate) are proved for all inputs. The test asserts only the concrete instances on the cited lines. The laws come from the `Functor`, `Monad` and `Alt` structure that fp-ts gives TaskOption.
