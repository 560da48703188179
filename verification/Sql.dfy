/** The parts of SQL that the queries depend on: three-valued conditions and ORDER BY ... LIMIT 1. */
module Sql {
  import opened Common

  /** A condition is true, false or unknown; a WHERE clause keeps the rows for which it is true. */
  datatype Truth = True | False | Unknown

  function Of(b: bool): Truth {
    if b then True else False
  }

  function Not(a: Truth): Truth {
    match a
    case True => False
    case False => True
    case Unknown => Unknown
  }

  function And(a: Truth, b: Truth): Truth {
    if a.False? || b.False? then False else if a.True? && b.True? then True else Unknown
  }

  function Or(a: Truth, b: Truth): Truth {
    if a.True? || b.True? then True else if a.False? && b.False? then False else Unknown
  }

  /** Comparisons with NULL are unknown. */
  function Equal<T(==)>(a: Option<T>, b: Option<T>): Truth {
    if a.None? || b.None? then Unknown else Of(a.value == b.value)
  }

  function AtMost(a: Option<int>, b: int): Truth {
    if a.None? then Unknown else Of(a.value <= b)
  }

  function Above(a: Option<int>, b: int): Truth {
    if a.None? then Unknown else Of(a.value > b)
  }

  function Coalesce<T>(a: Option<T>, b: T): T {
    if a.Some? then a.value else b
  }

  predicate Less(a: (int, int), b: (int, int)) {
    a.0 < b.0 || (a.0 == b.0 && a.1 < b.1)
  }

  /** ORDER BY key DESC LIMIT 1 over the rows that a condition keeps. */
  function Top<R>(rows: seq<R>, keep: R -> bool, key: R -> (int, int)): (top: Option<R>)
    ensures top.Some? ==> top.value in rows && keep(top.value)
    ensures top.Some? ==> forall r | r in rows && keep(r) :: !Less(key(top.value), key(r))
    ensures top.None? ==> forall r | r in rows :: !keep(r)
  {
    if rows == [] then None
    else
      var rest := Top(rows[1..], keep, key);
      if keep(rows[0]) && (rest.None? || !Less(key(rows[0]), key(rest.value))) then Some(rows[0]) else rest
  }

  ghost predicate UniqueIds<R>(rows: seq<R>, id: R -> nat) {
    forall i, j | 0 <= i < j < |rows| :: id(rows[i]) != id(rows[j])
  }

  function IdOf<R>(row: Option<R>, id: R -> nat): Option<nat> {
    if row.None? then None else Some(id(row.value))
  }

  lemma SameId<R>(rows: seq<R>, id: R -> nat, a: R, b: R)
    requires UniqueIds(rows, id) && a in rows && b in rows && id(a) == id(b)
    ensures a == b
  {
    var i, j :| 0 <= i < |rows| && 0 <= j < |rows| && rows[i] == a && rows[j] == b;
  }

  /**
   * EXISTS over the row whose id a scalar subquery selects says the same as a LEFT JOIN LATERAL on the
   * row itself, also when there is no such row.
   */
  lemma ScalarIsLateral<R(!new)>(rows: seq<R>, keep: R -> bool, key: R -> (int, int), id: R -> nat, holds: R -> bool)
    requires UniqueIds(rows, id)
    ensures var top := Top(rows, keep, key);
      (exists r :: r in rows && Equal(Some(id(r)), IdOf(top, id)).True? && holds(r)) <==> top.Some? && holds(top.value)
  {
    var top := Top(rows, keep, key);
    forall r | r in rows && top.Some? && id(r) == id(top.value) ensures r == top.value {
      SameId(rows, id, r, top.value);
    }
  }
}
