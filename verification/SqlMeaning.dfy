/** The truth tables of three-valued logic, and the order of rows. */
module SqlMeaning {
  import opened Common
  import opened Sql

  lemma Tables(a: Truth)
    ensures Not(True) == False && Not(False) == True && Not(Unknown) == Unknown
    ensures And(True, a) == a && And(a, True) == a && And(False, a) == False && And(a, False) == False
    ensures And(Unknown, Unknown) == Unknown
    ensures Or(False, a) == a && Or(a, False) == a && Or(True, a) == True && Or(a, True) == True
    ensures Or(Unknown, Unknown) == Unknown
    ensures Of(true) == True && Of(false) == False
  {
  }

  /** A comparison with no value is unknown, and any other says what it says. */
  lemma Comparisons(a: Option<int>, x: int, b: int)
    ensures Equal(None, a) == Unknown && Equal(a, None) == Unknown
    ensures Equal(Some(x), Some(b)) == Of(x == b)
    ensures AtMost(None, b) == Unknown && AtMost(Some(x), b) == Of(x <= b)
    ensures Above(None, b) == Unknown && Above(Some(x), b) == Of(b < x)
    ensures Coalesce(None, b) == b && Coalesce(Some(x), b) == x
  {
  }

  lemma Ids<R>(row: R, id: R -> nat)
    ensures IdOf(None, id) == None && IdOf(Some(row), id) == Some(id(row))
  {
  }

  /** By the first part, and by the second where the first are equal. */
  lemma LessExactly(a: (int, int), b: (int, int))
    ensures a.0 < b.0 ==> Less(a, b)
    ensures a.0 == b.0 ==> (Less(a, b) <==> a.1 < b.1)
    ensures a.0 > b.0 ==> !Less(a, b)
  {
  }
}
