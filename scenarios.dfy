/**
  The two array-sequencing scenarios of the TaskOption test suite, replayed
  against one shared log each: the same three arrays, once under each
  policy, with the log compared after the third run.
 */
module Scenarios {
  import O = Options
  import T = Tasks
  import TO = TaskOptions
  import S = Sequencing

  /** A log entry is a number or a string. */
  datatype Label = Num(n: int) | Str(s: string)

  /** An element that logs `n` when invoked and resolves to Some(n). */
  function Logged(n: int): TO.TaskOption<Label, int> {
    TO.FromIO(T.IO([Num(n)], n))
  }

  /** An element that logs `s` when invoked and resolves to None. */
  function LoggedNone(s: string): TO.TaskOption<Label, int> {
    T.Map(T.FromIO(T.IO([Str(s)], s)), (_: string) => O.None)
  }

  /** Invoking `Logged(n)` logs `n` and gives Some(n); invoking `LoggedNone(s)` logs `s` and gives None. */
  lemma {:induction false} LoggedElements(n: int, s: string)
    ensures Logged(n) == T.Task([Num(n)], O.Some(n))
    ensures LoggedNone(s) == T.Task([Str(s)], O.None)
  {
  }

  /** Parallel policy: every element runs, including the one after a None. */
  method ParallelScenario() returns (r1: O.Option<seq<int>>, r2: O.Option<seq<int>>, r3: O.Option<seq<int>>, entries: seq<Label>)
    ensures r1 == O.Some([1, 2])
    ensures r2.None? && r3.None?
    ensures entries == [Num(1), Num(2), Num(3), Str("a"), Str("b"), Num(4)]
  {
    var log := new T.EffectLog<Label>();
    var ts1 := [Logged(1), Logged(2)];
    r1 := S.RunSequenceArray(ts1, log);
    assert ts1[0].value == O.Some(1) && ts1[1].value == O.Some(2);
    assert r1.value == [1, 2];
    r2 := S.RunSequenceArray([Logged(3), LoggedNone("a")], log);
    r3 := S.RunSequenceArray([LoggedNone("b"), Logged(4)], log);
    entries := log.entries;
  }

  /** Sequential policy: same results, but the element after the None never runs. */
  method SequentialScenario() returns (r1: O.Option<seq<int>>, r2: O.Option<seq<int>>, r3: O.Option<seq<int>>, entries: seq<Label>)
    ensures r1 == O.Some([1, 2])
    ensures r2.None? && r3.None?
    ensures entries == [Num(1), Num(2), Num(3), Str("a"), Str("b")]
  {
    var log := new T.EffectLog<Label>();
    var ts1 := [Logged(1), Logged(2)];
    r1 := S.RunSequenceSeqArray(ts1, log);
    assert ts1[0].value == O.Some(1) && ts1[1].value == O.Some(2);
    assert r1.value == [1, 2];
    r2 := S.RunSequenceSeqArray([Logged(3), LoggedNone("a")], log);
    r3 := S.RunSequenceSeqArray([LoggedNone("b"), Logged(4)], log);
    entries := log.entries;
  }
}
