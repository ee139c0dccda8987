/**
  The present/absent container that every TaskOption combinator is lifted
  over, with the pure combinators the lifted ones delegate to.
 */
module Options {

  /** Either no value or exactly one value; compared structurally. */
  datatype Option<+A> = None | Some(value: A)

  /** A JavaScript value that may be `null` or `undefined`. */
  datatype Nullable<+A> = Null | Undefined | Present(value: A)

  function Map<A, B>(o: Option<A>, f: A -> B): Option<B> {
    match o
    case None => None
    case Some(a) => Some(f(a))
  }

  function Chain<A, B>(o: Option<A>, f: A -> Option<B>): Option<B> {
    match o
    case None => None
    case Some(a) => f(a)
  }

  /** Applies a present function to a present argument. */
  function Ap<A, B>(mf: Option<A -> B>, ma: Option<A>): Option<B> {
    match mf
    case None => None
    case Some(f) => Map(ma, f)
  }

  /** The total destructor: `onNone` for absence, `onSome` of the value otherwise. */
  function Fold<A, B>(o: Option<A>, onNone: B, onSome: A -> B): B {
    match o
    case None => onNone
    case Some(a) => onSome(a)
  }

  function FromNullable<A>(x: Nullable<A>): Option<A> {
    match x
    case Present(a) => Some(a)
    case _ => None
  }

  function FromPredicate<A>(p: A -> bool, a: A): Option<A> {
    if p(a) then Some(a) else None
  }

  /**
    Combines a sequence of options into an option of a sequence: present,
    with the values in their original order, exactly when every element is
    present.
   */
  function SequenceArray<A>(os: seq<Option<A>>): (r: Option<seq<A>>)
    ensures r.Some? <==> forall i :: 0 <= i < |os| ==> os[i].Some?
    ensures r.Some? ==> |r.value| == |os|
    ensures r.Some? ==> forall i :: 0 <= i < |os| ==> os[i] == Some(r.value[i])
  {
    if |os| == 0 then Some([])
    else
      match (os[0], SequenceArray(os[1..]))
      case (Some(a), Some(rest)) =>
        assert forall i :: 1 <= i < |os| ==> os[i] == os[1..][i - 1];
        Some([a] + rest)
      case (None, _) => None
      case (_, None) =>
        assert exists i :: 0 <= i < |os[1..]| && os[1..][i].None?;
        None
  }
}
