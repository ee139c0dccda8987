/**
  TaskOption: a deferred computation that resolves to an Option. The
  combinators are built from the Task and Option ones: `map` is a Task map of
  an Option map, `chain` and `alt` chain into an Option fold, and `ap` is the
  parallel apply, which runs both sides' effects and combines the two Options.
  So the effects of a composite are those of the parts that actually run, in
  the order they run.
  Combinators that take a lazy argument (`alt`, `fold`, `getOrElse`) take the
  Task value it would produce: building a task description is pure, so the thunk
  adds nothing, and its effects appear only when the branch is taken.
  Curried combinators such as `fromNullableK(f)(x)` take all arguments at once.
 */
module TaskOptions {
  import O = Options
  import T = Tasks

  type TaskOption<L, A> = T.Task<L, O.Option<A>>

  // ---------------------------------------------------------------------------
  // constructors
  // ---------------------------------------------------------------------------

  /** `some(a)`, also exported as `of`. */
  function Some<L, A>(a: A): TaskOption<L, A> {
    T.Of(O.Some(a))
  }

  function None<L, A>(): TaskOption<L, A> {
    T.Of(O.None)
  }

  function Zero<L, A>(): TaskOption<L, A> {
    None()
  }

  function FromIO<L, A>(io: T.IO<L, A>): TaskOption<L, A> {
    T.Map(T.FromIO(io), (a: A) => O.Some(a))
  }

  /** A fulfilled promise becomes Some of its value, a rejected one None; the reason is dropped. */
  function TryCatch<L, A, R>(f: T.Task<L, T.Settled<A, R>>): TaskOption<L, A> {
    T.Map(f, (s: T.Settled<A, R>) =>
      match s
      case Fulfilled(a) => O.Some(a)
      case Rejected(_) => O.None)
  }

  function TryCatchK<L, X, A, R>(f: X -> T.Task<L, T.Settled<A, R>>, x: X): TaskOption<L, A> {
    TryCatch(f(x))
  }

  function FromNullable<L, A>(x: O.Nullable<A>): TaskOption<L, A> {
    T.Of(O.FromNullable(x))
  }

  function FromNullableK<L, X, A>(f: X -> O.Nullable<A>, x: X): TaskOption<L, A> {
    FromNullable(f(x))
  }

  function FromPredicate<L, A>(p: A -> bool, a: A): TaskOption<L, A> {
    T.Of(O.FromPredicate(p, a))
  }

  function FromOptionK<L, X, A>(f: X -> O.Option<A>, x: X): TaskOption<L, A> {
    T.Of(f(x))
  }

  // ---------------------------------------------------------------------------
  // type class members and combinators
  // ---------------------------------------------------------------------------

  function Map<L, A, B>(fa: TaskOption<L, A>, f: A -> B): TaskOption<L, B> {
    T.Map(fa, (o: O.Option<A>) => O.Map(o, f))
  }

  /**
    Parallel application: both tasks are initiated, the function side first,
    and the option-level results are combined.
   */
  function Ap<L, A, B>(fab: TaskOption<L, A -> B>, fa: TaskOption<L, A>): TaskOption<L, B> {
    T.Task(fab.effects + fa.effects, O.Ap(fab.value, fa.value))
  }

  /** The continuation runs only when `ma` resolves to Some. */
  function Chain<L, A, B>(ma: TaskOption<L, A>, f: A -> TaskOption<L, B>): TaskOption<L, B> {
    T.Chain(ma, (o: O.Option<A>) => O.Fold(o, None(), f))
  }

  /** The alternative runs only when `ma` resolves to None. */
  function Alt<L, A>(ma: TaskOption<L, A>, that: TaskOption<L, A>): TaskOption<L, A> {
    T.Chain(ma, (o: O.Option<A>) => O.Fold(o, that, (a: A) => Some(a)))
  }

  function ChainNullableK<L, A, B>(f: A -> O.Nullable<B>, ma: TaskOption<L, A>): TaskOption<L, B> {
    Chain(ma, (a: A) => FromNullableK(f, a))
  }

  function ChainOptionK<L, A, B>(f: A -> O.Option<B>, ma: TaskOption<L, A>): TaskOption<L, B> {
    Chain(ma, (a: A) => FromOptionK(f, a))
  }

  // ---------------------------------------------------------------------------
  // destructors
  // ---------------------------------------------------------------------------

  function Fold<L, A, B>(ma: TaskOption<L, A>, onNone: T.Task<L, B>, onSome: A -> T.Task<L, B>): T.Task<L, B> {
    T.Chain(ma, (o: O.Option<A>) => O.Fold(o, onNone, onSome))
  }

  function GetOrElse<L, A>(ma: TaskOption<L, A>, onNone: T.Task<L, A>): T.Task<L, A> {
    T.Chain(ma, (o: O.Option<A>) => O.Fold(o, onNone, (a: A) => T.Of(a)))
  }

  // ---------------------------------------------------------------------------
  // properties
  // ---------------------------------------------------------------------------

  /** `map` applies `f` inside Some, leaves None alone, and runs exactly the effects of `fa`. */
  lemma {:induction false} MapInsideSome<L, A, B>(fa: TaskOption<L, A>, f: A -> B)
    ensures Map(fa, f).effects == fa.effects
    ensures Map(fa, f).value.Some? <==> fa.value.Some?
    ensures fa.value.Some? ==> Map(fa, f).value.value == f(fa.value.value)
  {
  }

  lemma {:induction false} MapIdentity<L, A>(fa: TaskOption<L, A>)
    ensures Map(fa, (a: A) => a) == fa
  {
  }

  lemma {:induction false} MapComposition<L, A, B, C>(fa: TaskOption<L, A>, f: A -> B, g: B -> C)
    ensures Map(Map(fa, f), g) == Map(fa, (a: A) => g(f(a)))
  {
  }

  /** `ap` is Some(f(a)) exactly when both sides are Some, and always runs both sides. */
  lemma {:induction false} ApBothPresent<L, A, B>(fab: TaskOption<L, A -> B>, fa: TaskOption<L, A>)
    ensures Ap(fab, fa).value.Some? <==> fab.value.Some? && fa.value.Some?
    ensures Ap(fab, fa).value.Some? ==> Ap(fab, fa).value.value == fab.value.value(fa.value.value)
    ensures Ap(fab, fa).effects == fab.effects + fa.effects
  {
  }

  /**
    Parallel application resolves to what sequential application through
    `chain` resolves to; they differ only in that the sequential one skips
    the argument's effects when the function side is None.
   */
  lemma {:induction false} ApAgreesWithChain<L, A, B>(fab: TaskOption<L, A -> B>, fa: TaskOption<L, A>)
    ensures Ap(fab, fa).value == Chain(fab, (f: A -> B) => Map(fa, f)).value
    ensures fab.value.Some? ==> Ap(fab, fa) == Chain(fab, (f: A -> B) => Map(fa, f))
    ensures fab.value.None? ==> Chain(fab, (f: A -> B) => Map(fa, f)).effects == fab.effects
  {
  }

  /** From None, `chain` is None and the continuation's effects never happen. */
  lemma {:induction false} ChainNoneShortCircuits<L, A, B>(ma: TaskOption<L, A>, f: A -> TaskOption<L, B>)
    requires ma.value.None?
    ensures Chain(ma, f) == T.Task(ma.effects, O.None)
  {
  }

  /** From Some(a), `chain` resolves to whatever `f(a)` resolves to, None included. */
  lemma {:induction false} ChainSomeContinues<L, A, B>(ma: TaskOption<L, A>, f: A -> TaskOption<L, B>)
    requires ma.value.Some?
    ensures Chain(ma, f).value == f(ma.value.value).value
    ensures Chain(ma, f).effects == ma.effects + f(ma.value.value).effects
  {
  }

  lemma {:induction false} ChainLeftIdentity<L, A, B>(a: A, f: A -> TaskOption<L, B>)
    ensures Chain(Some(a), f) == f(a)
  {
  }

  lemma {:induction false} ChainRightIdentity<L, A>(ma: TaskOption<L, A>)
    ensures Chain(ma, (a: A) => Some(a)) == ma
  {
  }

  lemma {:induction false} ChainAssociative<L, A, B, C>(ma: TaskOption<L, A>, f: A -> TaskOption<L, B>, g: B -> TaskOption<L, C>)
    ensures Chain(Chain(ma, f), g) == Chain(ma, (a: A) => Chain(f(a), g))
  {
  }

  /** A Some is kept and the alternative never runs, whatever it would give. */
  lemma {:induction false} AltKeepsSome<L, A>(ma: TaskOption<L, A>, that: TaskOption<L, A>)
    requires ma.value.Some?
    ensures Alt(ma, that) == ma
  {
  }

  /** On None, `alt` resolves to the alternative, after the effects of both. */
  lemma {:induction false} AltFallsBack<L, A>(ma: TaskOption<L, A>, that: TaskOption<L, A>)
    requires ma.value.None?
    ensures Alt(ma, that) == T.Task(ma.effects + that.effects, that.value)
  {
  }

  /** `zero` is a neutral element of `alt` on both sides. */
  lemma {:induction false} AltZeroNeutral<L, A>(ma: TaskOption<L, A>)
    ensures Alt(Zero(), ma) == ma
    ensures Alt(ma, Zero()) == ma
  {
  }

  lemma {:induction false} AltAssociative<L, A>(a: TaskOption<L, A>, b: TaskOption<L, A>, c: TaskOption<L, A>)
    ensures Alt(Alt(a, b), c) == Alt(a, Alt(b, c))
  {
  }

  lemma {:induction false} ZeroIsNone<L, A>()
    ensures Zero<L, A>() == T.Task([], O.None)
    ensures None<L, A>() == T.Task([], O.None)
  {
  }

  /** `fromIO` runs the IO's effects and wraps its result in Some. */
  lemma {:induction false} FromIOWrapsSome<L, A>(io: T.IO<L, A>)
    ensures FromIO(io) == T.Task(io.effects, O.Some(io.value))
  {
  }

  lemma {:induction false} TryCatchSettles<L, A, R>(f: T.Task<L, T.Settled<A, R>>)
    ensures TryCatch(f).effects == f.effects
    ensures f.value.Fulfilled? ==> TryCatch(f).value == O.Some(f.value.value)
    ensures f.value.Rejected? ==> TryCatch(f).value == O.None
  {
  }

  lemma {:induction false} TryCatchKSettles<L, X, A, R>(f: X -> T.Task<L, T.Settled<A, R>>, x: X)
    ensures TryCatchK(f, x).effects == f(x).effects
    ensures TryCatchK(f, x).value.Some? <==> f(x).value.Fulfilled?
    ensures f(x).value.Fulfilled? ==> TryCatchK(f, x).value.value == f(x).value.value
  {
  }

  /** `null` and `undefined` become None, any other value Some of it. */
  lemma {:induction false} FromNullableAbsent<L, A>(x: O.Nullable<A>)
    ensures FromNullable<L, A>(x).effects == []
    ensures FromNullable<L, A>(x).value.None? <==> x.Null? || x.Undefined?
    ensures x.Present? ==> FromNullable<L, A>(x).value == O.Some(x.value)
  {
  }

  lemma {:induction false} FromNullableKAbsent<L, X, A>(f: X -> O.Nullable<A>, x: X)
    ensures FromNullableK<L, X, A>(f, x).value.None? <==> f(x).Null? || f(x).Undefined?
    ensures f(x).Present? ==> FromNullableK<L, X, A>(f, x).value == O.Some(f(x).value)
  {
  }

  lemma {:induction false} ChainNullableKAbsent<L, A, B>(f: A -> O.Nullable<B>, ma: TaskOption<L, A>)
    ensures ChainNullableK(f, ma).effects == ma.effects
    ensures ma.value.None? ==> ChainNullableK(f, ma).value.None?
    ensures ma.value.Some? ==> ChainNullableK(f, ma).value == O.FromNullable(f(ma.value.value))
  {
  }

  /** `fromPredicate(p)(a)` is Some(a) exactly when `p(a)` holds, None otherwise. */
  lemma {:induction false} FromPredicateIff<L, A>(p: A -> bool, a: A)
    ensures FromPredicate<L, A>(p, a).value == O.Some(a) <==> p(a)
    ensures FromPredicate<L, A>(p, a).value == O.None <==> !p(a)
  {
  }

  lemma {:induction false} FromOptionKPassesThrough<L, X, A>(f: X -> O.Option<A>, x: X)
    ensures FromOptionK<L, X, A>(f, x) == T.Task([], f(x))
  {
  }

  lemma {:induction false} ChainOptionKPassesThrough<L, A, B>(f: A -> O.Option<B>, ma: TaskOption<L, A>)
    ensures ChainOptionK(f, ma).effects == ma.effects
    ensures ma.value.None? ==> ChainOptionK(f, ma).value.None?
    ensures ma.value.Some? ==> ChainOptionK(f, ma).value == f(ma.value.value)
  {
  }

  /** `fold` takes the `onNone` branch for None and `onSome(a)` for Some(a), after `ma`'s effects. */
  lemma {:induction false} FoldSelectsBranch<L, A, B>(ma: TaskOption<L, A>, onNone: T.Task<L, B>, onSome: A -> T.Task<L, B>)
    ensures ma.value.None? ==> Fold(ma, onNone, onSome) == T.Task(ma.effects + onNone.effects, onNone.value)
    ensures ma.value.Some? ==>
      Fold(ma, onNone, onSome) == T.Task(ma.effects + onSome(ma.value.value).effects, onSome(ma.value.value).value)
  {
  }

  /** `getOrElse` yields the contained value without running the fallback, or the fallback's value. */
  lemma {:induction false} GetOrElseFallback<L, A>(ma: TaskOption<L, A>, onNone: T.Task<L, A>)
    ensures ma.value.Some? ==> GetOrElse(ma, onNone) == T.Task(ma.effects, ma.value.value)
    ensures ma.value.None? ==> GetOrElse(ma, onNone) == T.Task(ma.effects + onNone.effects, onNone.value)
  {
  }
}
