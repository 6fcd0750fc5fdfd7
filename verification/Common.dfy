/**
  Notions that several parts of the model share.
*/
module Common {

  datatype Option<+T> = None | Some(value: T)

  type ThreadId = nat

  /** The states of a thread, for the scheduler and the dispatcher alike. */
  datatype ThreadState = Ready | Running | Terminated | Waiting

  predicate Distinct<T(==)>(list: seq<T>) {
    forall i, j :: 0 <= i < j < |list| ==> list[i] != list[j]
  }

  /** A list without the first occurrence of an element. */
  function Without<T(==)>(list: seq<T>, x: T): (rest: seq<T>)
    ensures multiset(rest) == multiset(list) - multiset{x}
  {
    if list == [] then []
    else if list[0] == x then
      assert list == [x] + list[1..];
      list[1..]
    else
      assert list == [list[0]] + list[1..];
      [list[0]] + Without(list[1..], x)
  }
}
