/** Small vocabulary shared by every module. */
module Basics {
  /** Identifiers: only their order and equality matter. */
  type Id = int

  datatype Option<+T> = None | Some(value: T)

  datatype Result<+T, +E> = Ok(value: T) | Err(error: E)

  lemma Member<T>(s: set<T>) returns (x: T)
    requires s != {}
    ensures x in s
  {
    x :| x in s;
  }

  ghost function AnyOf<T>(s: set<T>): (x: T)
    requires s != {}
    ensures x in s
  {
    var x :| x in s; x
  }

  method Pick<T(==)>(s: set<T>) returns (x: T)
    requires s != {}
    ensures x in s
  {
    x :| x in s;
  }

  function Abs(x: int): nat { if x < 0 then -x else x }

  /** The latest row of a log that satisfies a condition. */
  function Latest<R>(log: seq<R>, wanted: R -> bool): (found: Option<R>)
    ensures found.Some? ==> found.value in log && wanted(found.value)
    ensures found.None? ==> forall r :: r in log ==> !wanted(r)
  {
    if log == [] then None
    else
      var last := log[|log| - 1];
      assert log == log[..|log| - 1] + [last];
      if wanted(last) then Some(last) else Latest(log[..|log| - 1], wanted)
  }
}
