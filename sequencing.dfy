/**
  The array-sequencing engine: reduces an ordered sequence of TaskOptions to
  one TaskOption of a sequence, under the parallel policy (`sequenceArray`)
  or the sequential one (`sequenceSeqArray`). The two pure functions are the
  reference definitions; the methods invoke the elements one by one
  against a shared log and are proved to do what the functions describe.
 */
module Sequencing {
  import O = Options
  import T = Tasks
  import TO = TaskOptions

  /** What each element resolves to, in index order. */
  function Results<L, A>(ts: seq<TO.TaskOption<L, A>>): seq<O.Option<A>> {
    seq(|ts|, i requires 0 <= i < |ts| => ts[i].value)
  }

  /** The effects of every task, task by task in index order. */
  function AllEffects<L, A>(ts: seq<T.Task<L, A>>): seq<L> {
    if |ts| == 0 then [] else ts[0].effects + AllEffects(ts[1..])
  }

  lemma {:induction false} AllEffectsAppend<L, A>(ts: seq<T.Task<L, A>>, us: seq<T.Task<L, A>>)
    ensures AllEffects(ts + us) == AllEffects(ts) + AllEffects(us)
  {
    if |ts| == 0 {
      assert ts + us == us;
    } else {
      assert (ts + us)[1..] == ts[1..] + us;
      AllEffectsAppend(ts[1..], us);
    }
  }

  /** One more task in the prefix adds exactly its effects at the end. */
  lemma {:induction false} AllEffectsExtend<L, A>(ts: seq<T.Task<L, A>>, i: nat)
    requires i < |ts|
    ensures AllEffects(ts[..i + 1]) == AllEffects(ts[..i]) + ts[i].effects
  {
    assert ts[..i + 1] == ts[..i] + [ts[i]];
    AllEffectsAppend(ts[..i], [ts[i]]);
  }

  /** Task `i`'s effects come after those of every earlier task and before those of every later one. */
  lemma {:induction false} AllEffectsAround<L, A>(ts: seq<T.Task<L, A>>, i: nat)
    requires i < |ts|
    ensures AllEffects(ts) == AllEffects(ts[..i]) + ts[i].effects + AllEffects(ts[i + 1..])
  {
    assert ts == ts[..i] + ts[i..];
    AllEffectsAppend(ts[..i], ts[i..]);
    assert ts[i..][1..] == ts[i + 1..];
  }

  /** The index of the first element that resolves to None, or `|ts|` when none does. */
  function FirstNone<L, A>(ts: seq<TO.TaskOption<L, A>>): (k: nat)
    ensures k <= |ts|
    ensures forall i :: 0 <= i < k ==> ts[i].value.Some?
    ensures k < |ts| ==> ts[k].value.None?
  {
    if |ts| == 0 || ts[0].value.None? then 0
    else
      var k := FirstNone(ts[1..]);
      assert forall i :: 1 <= i < k + 1 ==> ts[i] == ts[1..][i - 1];
      1 + k
  }

  /** An index before which every element is Some and at which the element is None is the first None. */
  lemma {:induction false} FirstNoneAt<L, A>(ts: seq<TO.TaskOption<L, A>>, k: nat)
    requires k < |ts| && ts[k].value.None?
    requires forall i :: 0 <= i < k ==> ts[i].value.Some?
    ensures FirstNone(ts) == k
    ensures SequentialCount(ts) == k + 1
  {
  }

  /** How many elements the sequential policy initiates: up to and including the first None. */
  function SequentialCount<L, A>(ts: seq<TO.TaskOption<L, A>>): nat {
    if FirstNone(ts) < |ts| then FirstNone(ts) + 1 else |ts|
  }

  /** When no element resolves to None, the sequential policy initiates all of them. */
  lemma {:induction false} AllPresentCount<L, A>(ts: seq<TO.TaskOption<L, A>>)
    requires forall i :: 0 <= i < |ts| ==> ts[i].value.Some?
    ensures SequentialCount(ts) == |ts|
  {
  }

  /**
    Parallel policy: every element is initiated, in index order, whatever
    the others resolve to; the results are then combined. The aggregate is
    Some exactly when every element is, and then holds the elements' values
    in index order.
   */
  function SequenceArray<L, A>(ts: seq<TO.TaskOption<L, A>>): (r: TO.TaskOption<L, seq<A>>)
    ensures r.effects == AllEffects(ts)
    ensures r.value.Some? <==> forall i :: 0 <= i < |ts| ==> ts[i].value.Some?
    ensures r.value.Some? ==>
      |r.value.value| == |ts| && forall i :: 0 <= i < |ts| ==> ts[i].value == O.Some(r.value.value[i])
  {
    var rs := Results(ts);
    assert forall i :: 0 <= i < |ts| ==> rs[i] == ts[i].value;
    T.Task(AllEffects(ts), O.SequenceArray(rs))
  }

  /** The continuation of the sequential policy: puts the head's value in front of the rest's. */
  function Prepend<L, A>(rest: TO.TaskOption<L, seq<A>>): A -> TO.TaskOption<L, seq<A>> {
    (a: A) => TO.Map(rest, (vs: seq<A>) => [a] + vs)
  }

  /**
    Sequential policy: the head is initiated, and the rest only once the
    head has resolved to Some; the head's value goes in front of theirs.
    It resolves to the same Option as the parallel policy, and runs exactly
    the elements up to and including the first None.
   */
  function SequenceSeqArray<L, A>(ts: seq<TO.TaskOption<L, A>>): (r: TO.TaskOption<L, seq<A>>)
    ensures r.value == SequenceArray(ts).value
    ensures r.effects == AllEffects(ts[..SequentialCount(ts)])
  {
    if |ts| == 0 then TO.Some([])
    else
      var rest := SequenceSeqArray(ts[1..]);
      SequentialStep(ts, rest);
      TO.Chain(ts[0], Prepend(rest))
  }

  /**
    One step of the sequential policy: if the policy is right for the tail,
    putting the head in front with `chain` makes it right for the whole array.
   */
  lemma {:induction false} SequentialStep<L, A>(ts: seq<TO.TaskOption<L, A>>, rest: TO.TaskOption<L, seq<A>>)
    requires |ts| > 0
    requires rest.value == SequenceArray(ts[1..]).value
    requires rest.effects == AllEffects(ts[1..][..SequentialCount(ts[1..])])
    ensures TO.Chain(ts[0], Prepend(rest)).value == SequenceArray(ts).value
    ensures TO.Chain(ts[0], Prepend(rest)).effects == AllEffects(ts[..SequentialCount(ts)])
  {
    var n := SequentialCount(ts);
    assert Results(ts)[1..] == Results(ts[1..]);
    match ts[0].value
    case None =>
      TO.ChainNoneShortCircuits(ts[0], Prepend(rest));
      assert n == 1;
      assert ts[..1][1..] == [];
    case Some(a) =>
      TO.ChainSomeContinues(ts[0], Prepend(rest));
      assert n == SequentialCount(ts[1..]) + 1;
      assert ts[..n][1..] == ts[1..][..n - 1];
  }

  // ---------------------------------------------------------------------------
  // properties of the two policies
  // ---------------------------------------------------------------------------

  /** Under the sequential policy too, one None anywhere, first or last, makes the aggregate None. */
  lemma {:induction false} SequenceSeqArrayAnyNone<L, A>(ts: seq<TO.TaskOption<L, A>>, k: nat)
    requires k < |ts| && ts[k].value.None?
    ensures SequenceSeqArray(ts).value.None?
  {
  }

  /**
    When element `k` is the first to resolve to None, the sequential policy
    initiates the elements up to `k` and no element after it.
   */
  lemma {:induction false} SequenceSeqArrayStopsAtFirstNone<L, A>(ts: seq<TO.TaskOption<L, A>>, k: nat)
    requires k < |ts| && ts[k].value.None?
    requires forall i :: 0 <= i < k ==> ts[i].value.Some?
    ensures SequenceSeqArray(ts).effects == AllEffects(ts[..k + 1])
  {
    FirstNoneAt(ts, k);
  }

  /** When every element resolves to Some, the sequential policy collects exactly their values. */
  lemma {:induction false} SequenceSeqArrayCollects<L, A>(ts: seq<TO.TaskOption<L, A>>, vs: seq<A>)
    requires |vs| == |ts|
    requires forall i :: 0 <= i < |ts| ==> ts[i].value == O.Some(vs[i])
    ensures SequentialCount(ts) == |ts|
    ensures SequenceSeqArray(ts) == T.Task(AllEffects(ts), O.Some(vs))
  {
    SequenceSeqArrayAllPresent(ts);
    assert SequenceArray(ts).value.value == vs;
  }

  /** When every element resolves to Some, the two policies are indistinguishable. */
  lemma {:induction false} SequenceSeqArrayAllPresent<L, A>(ts: seq<TO.TaskOption<L, A>>)
    requires forall i :: 0 <= i < |ts| ==> ts[i].value.Some?
    ensures SequenceSeqArray(ts) == SequenceArray(ts)
  {
    AllPresentCount(ts);
    assert ts[..|ts|] == ts;
  }

  /**
    The parallel log is the sequential log followed by the effects of the
    elements the sequential policy never initiates.
   */
  lemma {:induction false} SequentialSkipsRest<L, A>(ts: seq<TO.TaskOption<L, A>>)
    ensures SequenceArray(ts).effects ==
      SequenceSeqArray(ts).effects + AllEffects(ts[SequentialCount(ts)..])
    ensures SequenceSeqArray(ts).effects <= SequenceArray(ts).effects
  {
    var n := SequentialCount(ts);
    assert ts == ts[..n] + ts[n..];
    AllEffectsAppend(ts[..n], ts[n..]);
  }

  // ---------------------------------------------------------------------------
  // invoking an aggregate against a shared log
  // ---------------------------------------------------------------------------

  /** Invokes every element in index order, then combines their results. */
  method RunSequenceArray<L, A>(ts: seq<TO.TaskOption<L, A>>, log: T.EffectLog<L>) returns (r: O.Option<seq<A>>)
    modifies log
    ensures log.entries == old(log.entries) + AllEffects(ts)
    ensures r == SequenceArray(ts).value
  {
    var results: seq<O.Option<A>> := [];
    for i := 0 to |ts|
      invariant |results| == i
      invariant forall j :: 0 <= j < i ==> results[j] == ts[j].value
      invariant log.entries == old(log.entries) + AllEffects(ts[..i])
    {
      var o := log.Run(ts[i]);
      AllEffectsExtend(ts, i);
      results := results + [o];
    }
    assert ts[..|ts|] == ts;
    assert results == Results(ts);
    r := O.SequenceArray(results);
  }

  /**
    Invokes the elements in index order while they resolve to Some, and
    stops right after the first that resolves to None (`halted`). `acc`
    holds the values of the elements before that one.
   */
  method RunWhileSome<L, A>(ts: seq<TO.TaskOption<L, A>>, log: T.EffectLog<L>) returns (acc: seq<A>, halted: bool)
    modifies log
    ensures |acc| <= |ts| && (halted <==> |acc| < |ts|)
    ensures forall j :: 0 <= j < |acc| ==> ts[j].value == O.Some(acc[j])
    ensures halted ==> ts[|acc|].value.None?
    ensures log.entries == old(log.entries) + AllEffects(ts[..if halted then |acc| + 1 else |acc|])
  {
    acc := [];
    var i := 0;
    while i < |ts|
      invariant i <= |ts| && |acc| == i
      invariant forall j :: 0 <= j < i ==> ts[j].value == O.Some(acc[j])
      invariant log.entries == old(log.entries) + AllEffects(ts[..i])
    {
      var o := log.Run(ts[i]);
      AllEffectsExtend(ts, i);
      if o.None? {
        halted := true;
        return;
      }
      acc := acc + [o.value];
      i := i + 1;
    }
    halted := false;
  }

  /** Invokes the elements in index order and stops right after the first that resolves to None. */
  method RunSequenceSeqArray<L, A>(ts: seq<TO.TaskOption<L, A>>, log: T.EffectLog<L>) returns (r: O.Option<seq<A>>)
    modifies log
    ensures log.entries == old(log.entries) + AllEffects(ts[..SequentialCount(ts)])
    ensures r == SequenceSeqArray(ts).value
  {
    var acc, halted := RunWhileSome(ts, log);
    if halted {
      FirstNoneAt(ts, |acc|);
      SequenceSeqArrayAnyNone(ts, |acc|);
      r := O.None;
    } else {
      SequenceSeqArrayCollects(ts, acc);
      assert ts[..|ts|] == ts;
      r := O.Some(acc);
    }
  }
}
