/** Generic facts about finite collections used by the enumerators and by the
    termination argument of the subset construction. */
module Collections {

  /** No element occurs twice. */
  ghost predicate Distinct<T>(xs: seq<T>)
  {
    forall i, j :: 0 <= i < j < |xs| ==> xs[i] != xs[j]
  }

  /** The set of members of a sequence. */
  ghost function Elements<T>(xs: seq<T>): set<T>
  {
    set x | x in xs
  }

  /** A duplicate-free sequence is as long as its set of members is large. */
  lemma {:induction false} DistinctCard<T>(xs: seq<T>)
    requires Distinct(xs)
    ensures |Elements(xs)| == |xs|
  {
    if xs != [] {
      var last := xs[|xs| - 1];
      var init := xs[..|xs| - 1];
      assert xs == init + [last];
      DistinctCard(init);
      assert Elements(xs) == Elements(init) + {last};
      assert last !in Elements(init);
    }
  }

  /** A non-empty sequence is its prefix followed by its last member. */
  lemma SplitLast<T>(xs: seq<T>)
    requires xs != []
    ensures xs == xs[..|xs| - 1] + [xs[|xs| - 1]]
    ensures Elements(xs) == Elements(xs[..|xs| - 1]) + {xs[|xs| - 1]}
  {
    assert xs == xs[..|xs| - 1] + [xs[|xs| - 1]];
  }

  /** Extending a prefix by one member adds that member. */
  lemma ElementsStep<T>(xs: seq<T>, i: nat)
    requires i < |xs|
    ensures Elements(xs[..i + 1]) == Elements(xs[..i]) + {xs[i]}
  {
    assert xs[..i + 1] == xs[..i] + [xs[i]];
  }

  /** The whole sequence is its longest prefix. */
  lemma ElementsAll<T>(xs: seq<T>)
    ensures Elements(xs[..|xs|]) == Elements(xs)
  {
    assert xs[..|xs|] == xs;
  }

  /** Two duplicate-free sequences with no common member concatenate to a
      duplicate-free sequence of the union of their members. */
  lemma DistinctAppend<T>(xs: seq<T>, ys: seq<T>)
    requires Distinct(xs) && Distinct(ys)
    requires Elements(xs) !! Elements(ys)
    ensures Distinct(xs + ys)
    ensures Elements(xs + ys) == Elements(xs) + Elements(ys)
  {
    forall i, j | 0 <= i < j < |xs + ys|
      ensures (xs + ys)[i] != (xs + ys)[j]
    {
      if j >= |xs| && i < |xs| {
        assert (xs + ys)[i] in Elements(xs);
        assert (xs + ys)[j] in Elements(ys);
      }
    }
  }

  /** Lists the members of a set, each exactly once and in no particular
      order: the shape of every `Foreach*` traversal of the library. */
  method Enumerate<T>(s: set<T>) returns (xs: seq<T>)
    ensures Distinct(xs) && Elements(xs) == s
    ensures |xs| == |s|
  {
    xs := [];
    var rest := s;
    while rest != {}
      invariant rest <= s
      invariant Distinct(xs)
      invariant Elements(xs) == s - rest
      invariant |xs| + |rest| == |s|
      decreases |rest|
    {
      var x :| x in rest;
      assert x !in Elements(xs);
      assert Elements(xs + [x]) == Elements(xs) + {x};
      xs := xs + [x];
      rest := rest - {x};
    }
  }

  /** The powerset of `u`: a finite bound on the subsets a construction can
      ever produce from the states in `u`. */
  ghost function Subsets(u: set<nat>): (r: set<set<nat>>)
    ensures forall s :: s in r <==> s <= u
    decreases u
  {
    if u == {} then
      assert forall s: set<nat> :: s <= u ==> s == {};
      {{}}
    else
      var x :| x in u;
      var smaller := Subsets(u - {x});
      var r := smaller + set s | s in smaller :: s + {x};
      assert forall s :: s <= u ==> s in r by {
        forall s | s <= u
          ensures s in r
        {
          if x in s {
            assert s - {x} in smaller;
            assert s == (s - {x}) + {x};
          } else {
            assert s in smaller;
          }
        }
      }
      r
  }

  /** The largest member of a set of naturals, or 0 for the empty set. */
  ghost function Max(S: set<nat>): (m: nat)
    ensures S == {} ==> m == 0
    ensures S != {} ==> m in S
    ensures forall x :: x in S ==> x <= m
    decreases S
  {
    if S == {} then 0
    else
      var x :| x in S;
      var rest := Max(S - {x});
      assert forall y :: y in S ==> y == x || y in S - {x};
      if x > rest then x else rest
  }

  /** A subset is no larger than its superset. */
  lemma {:induction false} SubsetCard<T>(A: set<T>, B: set<T>)
    requires A <= B
    ensures |A| <= |B|
    decreases B
  {
    if A != {} {
      var x :| x in A;
      SubsetCard(A - {x}, B - {x});
    }
  }

  /** A proper subset is strictly smaller than its superset. */
  lemma StrictSubsetCard<T>(A: set<T>, B: set<T>)
    requires A < B
    ensures |A| < |B|
  {
    assert A != B;
    var x :| x in B && x !in A;
    SubsetCard(A, B - {x});
  }

  /** A member that bounds every member from above is the maximum. */
  lemma MaxUnique(S: set<nat>, m: nat)
    requires m in S && forall x :: x in S ==> x <= m
    ensures Max(S) == m
  {
  }

  /** A set of more than one element has two distinct members. */
  lemma TwoMembers<T>(S: set<T>) returns (a: T, b: T)
    requires |S| > 1
    ensures a in S && b in S && a != b
  {
    a :| a in S;
    assert |S - {a}| > 0;
    b :| b in S - {a};
  }

  /** In a set of at most one element all members coincide. */
  lemma AtMostOne<T>(S: set<T>, a: T, b: T)
    requires |S| <= 1 && a in S && b in S
    ensures a == b
  {
    assert |S - {a}| == 0;
    assert b !in S - {a};
  }
}
