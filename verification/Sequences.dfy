/** Facts about finite sequences that several modules need: distinct elements, counting and summing. */
module Sequences {

  ghost predicate Distinct<T>(s: seq<T>) {
    forall i, j :: 0 <= i < j < |s| ==> s[i] != s[j]
  }

  function Elements<T>(s: seq<T>): set<T> {
    set x | x in s
  }

  // A list without repeats has as many elements as positions.
  lemma {:induction false} DistinctSize<T>(s: seq<T>)
    requires Distinct(s)
    ensures |Elements(s)| == |s|
  {
    if s == [] {
      assert Elements(s) == {};
    } else {
      var last := |s| - 1;
      DistinctSize(s[..last]);
      assert s == s[..last] + [s[last]];
      assert Elements(s) == Elements(s[..last]) + {s[last]};
    }
  }

  // A subset at least as large as the list without repeats it is taken from leaves nothing out.
  lemma FullSubset<T>(part: set<T>, s: seq<T>)
    requires Distinct(s) && part <= Elements(s) && |part| >= |s|
    ensures part == Elements(s)
  {
    DistinctSize(s);
    var rest := Elements(s) - part;
    assert Elements(s) == part + rest;
    assert |Elements(s)| == |part| + |rest|;
  }

  // A subset smaller than the list without repeats it is taken from leaves something out.
  lemma PartialSubset<T>(part: set<T>, s: seq<T>)
    requires Distinct(s) && |part| < |s|
    ensures exists x :: x in s && x !in part
  {
    DistinctSize(s);
    if forall x :: x in s ==> x in part {
      SubsetSize(Elements(s), part);
    }
  }

  lemma SubsetSize<T>(a: set<T>, b: set<T>)
    requires a <= b
    ensures |a| <= |b|
  {
    assert b == a + (b - a);
  }

  lemma DistinctAppend<T>(a: seq<T>, b: seq<T>)
    requires Distinct(a) && Distinct(b) && forall x :: x in b ==> x !in a
    ensures Distinct(a + b)
  {
    forall i, j | 0 <= i < j < |a + b| ensures (a + b)[i] != (a + b)[j] {
      if i < |a| <= j {
        assert b[j - |a|] in b;
      }
    }
  }

  function Sum<T>(s: seq<T>, weight: T -> nat): nat {
    if s == [] then 0 else weight(s[0]) + Sum(s[1..], weight)
  }

  lemma {:induction false} SumAppend<T>(a: seq<T>, b: seq<T>, weight: T -> nat)
    ensures Sum(a + b, weight) == Sum(a, weight) + Sum(b, weight)
  {
    if a == [] {
      assert a + b == b;
    } else {
      assert (a + b)[0] == a[0] && (a + b)[1..] == a[1..] + b;
      SumAppend(a[1..], b, weight);
    }
  }

  // Replacing one element changes the sum by the difference of the two weights.
  lemma {:induction false} SumUpdate<T>(s: seq<T>, i: nat, x: T, weight: T -> nat)
    requires i < |s|
    ensures Sum(s[i := x], weight) + weight(s[i]) == Sum(s, weight) + weight(x)
  {
    var front, back := s[..i], s[i + 1..];
    assert s == front + ([s[i]] + back);
    assert s[i := x] == front + ([x] + back);
    SumAppend(front, [s[i]] + back, weight);
    SumAppend(front, [x] + back, weight);
    assert ([s[i]] + back)[1..] == back && ([x] + back)[1..] == back;
  }

}
