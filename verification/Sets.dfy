/** Counting the elements of sets. */
module Sets {

  /** Two sets matched one to one by `f` have the same size. */
  lemma {:induction false} SameSize<A, B>(a: set<A>, b: set<B>, f: A -> B)
    requires forall x, y | x in a && y in a && f(x) == f(y) :: x == y
    requires forall x | x in a :: f(x) in b
    requires forall y | y in b :: exists x :: x in a && f(x) == y
    ensures |a| == |b|
    decreases |a|
  {
    if a == {} {
      assert b == {};
    } else {
      var x :| x in a;
      forall y | y in b - {f(x)} ensures exists z :: z in a - {x} && f(z) == y {
        var z :| z in a && f(z) == y;
      }
      SameSize(a - {x}, b - {f(x)}, f);
    }
  }

  lemma {:induction false} SubsetSize<A>(a: set<A>, b: set<A>)
    requires a <= b
    ensures |a| <= |b|
    ensures |a| == |b| ==> a == b
  {
    assert b == a + (b - a);
    assert |b| == |a| + |b - a|;
  }

  ghost predicate Distinct<A>(s: seq<A>) {
    forall i, j | 0 <= i < j < |s| :: s[i] != s[j]
  }

  function Elements<A>(s: seq<A>): set<A> {
    set x | x in s
  }

  lemma DistinctTail<A>(s: seq<A>)
    requires Distinct(s) && s != []
    ensures Distinct(s[1..]) && s[0] !in Elements(s[1..]) && Elements(s) == {s[0]} + Elements(s[1..])
  {
    assert s == [s[0]] + s[1..];
  }

  lemma {:induction false} DistinctElements<A>(s: seq<A>)
    requires Distinct(s)
    ensures |Elements(s)| == |s|
    ensures s != [] ==>
      && Distinct(s[1..]) && s[0] !in Elements(s[1..]) && Elements(s) == {s[0]} + Elements(s[1..])
    decreases |s|
  {
    if s != [] {
      DistinctTail(s);
      DistinctElements(s[1..]);
    }
  }

  function Union<A>(parts: seq<set<A>>): set<A> {
    if parts == [] then {} else Union(parts[..|parts| - 1]) + parts[|parts| - 1]
  }

  function Sizes<A>(parts: seq<set<A>>): nat {
    if parts == [] then 0 else Sizes(parts[..|parts| - 1]) + |parts[|parts| - 1]|
  }

  predicate InSome<A>(parts: seq<set<A>>, x: A) {
    exists i | 0 <= i < |parts| :: x in parts[i]
  }

  lemma {:induction false} UnionMember<A>(parts: seq<set<A>>, x: A)
    ensures x in Union(parts) <==> InSome(parts, x)
    decreases |parts|
  {
    if parts != [] {
      var init := parts[..|parts| - 1];
      UnionMember(init, x);
      if InSome(init, x) {
        var i :| 0 <= i < |init| && x in init[i];
        assert x in parts[i];
      }
      if InSome(parts, x) && x !in parts[|parts| - 1] {
        var i :| 0 <= i < |parts| && x in parts[i];
        assert x in init[i];
      }
    }
  }

  /** A union of disjoint parts has the sum of their sizes. */
  lemma {:induction false} UnionSize<A>(parts: seq<set<A>>)
    requires forall i, j | 0 <= i < j < |parts| :: parts[i] !! parts[j]
    ensures |Union(parts)| == Sizes(parts)
    decreases |parts|
  {
    if parts != [] {
      var init, last := parts[..|parts| - 1], parts[|parts| - 1];
      UnionSize(init);
      forall x | x in Union(init) ensures x !in last {
        UnionMember(init, x);
      }
      assert Union(init) !! last;
    }
  }
}
