/**
  Deferred computations. A `Task` value describes ONE invocation of a
  deferred unit of work: the effect labels that invocation appends to the
  shared log, in order, and the value it resolves to. Building a Task emits
  nothing; only `EffectLog.Run` (invocation) touches the log, and running the
  same Task twice appends its effects twice, since nothing is memoised.
 */
module Tasks {

  datatype Task<L, +A> = Task(effects: seq<L>, value: A)

  /** A synchronous effectful thunk: what it writes when called, and what it returns. */
  datatype IO<L, +A> = IO(effects: seq<L>, value: A)

  /** How a promise settles; the rejection reason is kept here so that its loss is visible. */
  datatype Settled<+A, +R> = Fulfilled(value: A) | Rejected(reason: R)

  /** A task that resolves to `a` and emits nothing. */
  function Of<L, A>(a: A): Task<L, A> {
    Task([], a)
  }

  function Map<L, A, B>(t: Task<L, A>, f: A -> B): Task<L, B> {
    Task(t.effects, f(t.value))
  }

  /** Runs `t`, then the Task that `f` builds from its value; the effects of both, in that order. */
  function Chain<L, A, B>(t: Task<L, A>, f: A -> Task<L, B>): Task<L, B> {
    var u := f(t.value);
    Task(t.effects + u.effects, u.value)
  }

  /** The IO's effects happen when the resulting Task is invoked, not when it is built. */
  function FromIO<L, A>(io: IO<L, A>): Task<L, A> {
    Task(io.effects, io.value)
  }

  /** `of` is a left identity of `chain`: it contributes no effect and passes its value on. */
  lemma {:induction false} OfLeftIdentity<L, A, B>(a: A, f: A -> Task<L, B>)
    ensures Chain(Of(a), f) == f(a)
  {
    assert [] + f(a).effects == f(a).effects;
  }

  /** `map` is `chain` into a task built by `of`: same effects, transformed value. */
  lemma {:induction false} MapIsChainOf<L, A, B>(t: Task<L, A>, f: A -> B)
    ensures Map(t, f) == Chain(t, (a: A) => Of(f(a)))
  {
    assert t.effects + [] == t.effects;
  }

  /** Mapping a task lifted from an IO is the same as lifting the IO whose result is mapped. */
  lemma {:induction false} FromIOMap<L, A, B>(io: IO<L, A>, f: A -> B)
    ensures Map(FromIO(io), f) == FromIO(IO(io.effects, f(io.value)))
  {
  }

  /** The shared, mutable log that the effects of invoked tasks append to. */
  class EffectLog<L> {
    var entries: seq<L>

    constructor ()
      ensures entries == []
    {
      entries := [];
    }

    /** Invokes `t` once: its effects are appended to the log and its value is returned. */
    method Run<A>(t: Task<L, A>) returns (a: A)
      modifies this
      ensures entries == old(entries) + t.effects
      ensures a == t.value
    {
      entries := entries + t.effects;
      a := t.value;
    }
  }
}
