/** Option and Result, the failure-carrying values used across the model, and
    Sequence, which runs steps that may raise the way an exception leaves a
    loop: at the first failing step. */
module Wrappers {

  /** A value that may be absent: Python's `None` next to a number. */
  datatype Option<+T> = None | Some(value: T)

  /** The outcome of a step that may raise: `Err` stands for the raised exception. */
  datatype Result<+T, +E> = Ok(value: T) | Err(error: E)

  /** Runs steps left to right the way an exception does: the first step that
      fails stops the run with its error, otherwise all values are collected. */
  function Sequence<T, E>(steps: seq<Result<T, E>>): Result<seq<T>, E>
  {
    if steps == [] then Ok([])
    else
      match steps[0]
      case Err(e) => Err(e)
      case Ok(v) =>
        match Sequence(steps[1..])
        case Err(e) => Err(e)
        case Ok(vs) => Ok([v] + vs)
  }

  /** The run succeeds exactly when every step does, and then holds every
      step's value in order; otherwise it holds the error of the first failing
      step. */
  lemma {:induction false} SequenceMeaning<T, E>(steps: seq<Result<T, E>>)
    ensures Sequence(steps).Ok? <==> forall i | 0 <= i < |steps| :: steps[i].Ok?
    ensures Sequence(steps).Ok? ==>
      && |Sequence(steps).value| == |steps|
      && forall i | 0 <= i < |steps| :: Sequence(steps).value[i] == steps[i].value
    ensures Sequence(steps).Err? ==>
      exists i | 0 <= i < |steps| ::
        steps[i] == Err(Sequence(steps).error) && forall j | 0 <= j < i :: steps[j].Ok?
  {
    if steps != [] {
      SequenceMeaning(steps[1..]);
      assert forall j | 1 <= j < |steps| :: steps[j] == steps[1..][j - 1];
      match steps[0]
      case Err(e) =>
      case Ok(v) =>
        match Sequence(steps[1..])
        case Err(e) =>
          var k :| 0 <= k < |steps[1..]| && steps[1..][k] == Err(e) && forall j | 0 <= j < k :: steps[1..][j].Ok?;
          assert steps[k + 1] == Err(e);
        case Ok(vs) =>
    }
  }

  /** Running a single step. */
  lemma SequenceSingle<T, E>(step: Result<T, E>)
    ensures Sequence([step]) == match step case Err(e) => Err(e) case Ok(v) => Ok([v])
  {
    assert [step][1..] == [];
    assert Sequence<T, E>([]) == Ok([]);
    match step
    case Err(e) =>
    case Ok(v) => assert [v] + [] == [v];
  }

  /** Running two blocks of steps one after the other. */
  lemma {:induction false} SequenceAppend<T, E>(a: seq<Result<T, E>>, b: seq<Result<T, E>>)
    ensures Sequence(a + b) ==
      match Sequence(a)
      case Err(e) => Err(e)
      case Ok(x) =>
        match Sequence(b)
        case Err(e) => Err(e)
        case Ok(y) => Ok(x + y)
  {
    if a == [] {
      assert a + b == b;
      assert Sequence(a) == Ok([]);
      match Sequence(b)
      case Err(e) =>
      case Ok(y) => assert [] + y == y;
    } else {
      assert (a + b)[1..] == a[1..] + b;
      assert (a + b)[0] == a[0];
      SequenceAppend(a[1..], b);
      match a[0]
      case Err(e) =>
      case Ok(v) =>
        match Sequence(a[1..])
        case Err(e) =>
        case Ok(x) =>
          match Sequence(b)
          case Err(e) =>
          case Ok(y) => assert [v] + (x + y) == ([v] + x) + y;
    }
  }
}
