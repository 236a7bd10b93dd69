/** Generic sequence helpers: the in-order filter that models Rust's
    `retain` / `filter(..).collect()`, duplicate-freedom, and reversal. */
module Seqs {

  /** The in-order sub-sequence of `s` whose elements satisfy `p`. */
  function Filter<T(==,!new)>(s: seq<T>, p: T -> bool): (r: seq<T>)
    ensures |r| <= |s|
    ensures forall x :: x in r <==> x in s && p(x)
  {
    if s == [] then []
    else (if p(s[0]) then [s[0]] else []) + Filter(s[1..], p)
  }

  lemma {:induction false} FilterConcat<T(!new)>(a: seq<T>, b: seq<T>, p: T -> bool)
    ensures Filter(a + b, p) == Filter(a, p) + Filter(b, p)
  {
    if a == [] {
      assert a + b == b;
    } else {
      assert (a + b)[1..] == a[1..] + b;
      FilterConcat(a[1..], b, p);
    }
  }

  /** One step of the filter, taken at position `i`. */
  lemma FilterStep<T(!new)>(s: seq<T>, i: nat, p: T -> bool)
    requires i < |s|
    ensures Filter(s[i..], p) == (if p(s[i]) then [s[i]] else []) + Filter(s[i+1..], p)
  {
    assert s[i..][1..] == s[i+1..];
  }

  /** The filter as a loop over the sequence, keeping the elements that
      satisfy `p` in order. */
  method FilterLoop<T(==,!new)>(s: seq<T>, p: T -> bool) returns (r: seq<T>)
    ensures r == Filter(s, p)
  {
    r := [];
    var i := 0;
    while i < |s|
      invariant 0 <= i <= |s|
      invariant r + Filter(s[i..], p) == Filter(s, p)
    {
      var keep := if p(s[i]) then [s[i]] else [];
      FilterStep(s, i, p);
      AppendAssoc(r, keep, Filter(s[i+1..], p));
      r := r + keep;
      i := i + 1;
    }
    assert s[i..] == [];
  }

  lemma AppendAssoc<T>(a: seq<T>, b: seq<T>, c: seq<T>)
    ensures (a + b) + c == a + (b + c)
  {
  }

  /** A sequence is its part before `i`, its element at `i` and its part after. */
  lemma SplitAt<T>(s: seq<T>, i: nat)
    requires i < |s|
    ensures s == s[..i] + ([s[i]] + s[i+1..])
    ensures multiset(s) == multiset(s[..i] + s[i+1..]) + multiset{s[i]}
  {
    assert s == s[..i] + s[i..];
    assert s[i..] == [s[i]] + s[i+1..];
    assert multiset(s) == multiset(s[..i]) + multiset{s[i]} + multiset(s[i+1..]);
  }

  function Ind(b: bool): nat {
    if b then 1 else 0
  }

  /** How many elements of `s` satisfy `p`. */
  function CountIf<T>(s: seq<T>, p: T -> bool): nat {
    if s == [] then 0 else Ind(p(s[0])) + CountIf(s[1..], p)
  }

  /** The filter keeps exactly the elements that `CountIf` counts. */
  lemma {:induction false} FilterLengthIsCount<T(!new)>(s: seq<T>, p: T -> bool)
    ensures |Filter(s, p)| == CountIf(s, p)
  {
    if s != [] {
      FilterLengthIsCount(s[1..], p);
    }
  }

  /** The count of an eight-element sequence, element by element. */
  lemma CountIf8<T>(c: seq<T>, p: T -> bool)
    requires |c| == 8
    ensures CountIf(c, p) == Ind(p(c[0])) + Ind(p(c[1])) + Ind(p(c[2])) + Ind(p(c[3]))
                           + Ind(p(c[4])) + Ind(p(c[5])) + Ind(p(c[6])) + Ind(p(c[7]))
  {
    var c4 := c[4..];
    assert c4[0] == c[4] && c4[1] == c[5] && c4[2] == c[6] && c4[3] == c[7];
    assert c == c[..4] + c4;
    CountConcat(c[..4], c4, p);
    CountIf4(c[..4], p);
    CountIf4(c4, p);
  }

  /** The count of a four-element sequence, element by element. */
  lemma CountIf4<T>(c: seq<T>, p: T -> bool)
    requires |c| == 4
    ensures CountIf(c, p) == Ind(p(c[0])) + Ind(p(c[1])) + Ind(p(c[2])) + Ind(p(c[3]))
  {
    var c1, c2, c3 := c[1..], c[2..], c[3..];
    assert c1[1..] == c2 && c2[1..] == c3 && c3[1..] == [];
    assert CountIf(c3, p) == Ind(p(c[3]));
    assert CountIf(c2, p) == Ind(p(c[2])) + CountIf(c3, p);
    assert CountIf(c1, p) == Ind(p(c[1])) + CountIf(c2, p);
  }

  lemma {:induction false} CountConcat<T>(a: seq<T>, b: seq<T>, p: T -> bool)
    ensures CountIf(a + b, p) == CountIf(a, p) + CountIf(b, p)
  {
    if a == [] {
      assert a + b == b;
    } else {
      assert (a + b)[1..] == a[1..] + b;
      CountConcat(a[1..], b, p);
    }
  }

  lemma FilterConcatLength<T(!new)>(a: seq<T>, b: seq<T>, p: T -> bool)
    ensures |Filter(a + b, p)| == |Filter(a, p)| + |Filter(b, p)|
  {
    FilterConcat(a, b, p);
  }

  /** A duplicate-free sequence whose elements all occur in `t` is a
      sub-multiset of `t`. */
  lemma DistinctSubMultiset<T>(s: seq<T>, t: seq<T>)
    requires Distinct(s)
    requires forall i :: 0 <= i < |s| ==> s[i] in t
    ensures multiset(s) <= multiset(t)
  {
    forall x
      ensures multiset(s)[x] <= multiset(t)[x]
    {
      DistinctMultiplicity(s, x);
      if x in s {
        var i :| 0 <= i < |s| && s[i] == x;
        assert x in multiset(t);
      }
    }
  }

  /** A filter that keeps nothing returns the empty sequence. */
  lemma {:induction false} FilterNone<T(!new)>(s: seq<T>, p: T -> bool)
    requires forall i :: 0 <= i < |s| ==> !p(s[i])
    ensures Filter(s, p) == []
  {
    if s != [] {
      FilterNone(s[1..], p);
    }
  }

  /** Two filters that agree on every element of `s` give the same result. */
  lemma {:induction false} FilterCongruent<T(!new)>(s: seq<T>, p: T -> bool, q: T -> bool)
    requires forall i :: 0 <= i < |s| ==> p(s[i]) == q(s[i])
    ensures Filter(s, p) == Filter(s, q)
  {
    if s != [] {
      FilterCongruent(s[1..], p, q);
    }
  }

  /** Filtering preserves multiplicities of kept elements and drops the rest. */
  lemma {:induction false} FilterMultiset<T(!new)>(s: seq<T>, p: T -> bool)
    ensures multiset(Filter(s, p)) <= multiset(s)
  {
    if s != [] {
      FilterMultiset(s[1..], p);
      assert s == [s[0]] + s[1..];
    }
  }

  /** Two permutations of each other hold the same elements. */
  lemma PermutationMembers<T>(a: seq<T>, b: seq<T>, x: T)
    requires multiset(a) == multiset(b)
    requires x in b
    ensures x in a
  {
    assert x in multiset(b);
  }

  /** Two duplicate-free sequences with the same elements are permutations
      of each other. */
  lemma DistinctSameElements<T>(a: seq<T>, b: seq<T>)
    requires Distinct(a) && Distinct(b)
    requires forall i :: 0 <= i < |a| ==> a[i] in b
    requires forall i :: 0 <= i < |b| ==> b[i] in a
    ensures multiset(a) == multiset(b)
  {
    DistinctSubMultiset(a, b);
    DistinctSubMultiset(b, a);
  }

  /** A permutation of a duplicate-free sequence is duplicate-free. */
  lemma PermutationDistinct<T>(a: seq<T>, b: seq<T>)
    requires multiset(a) == multiset(b)
    requires Distinct(b)
    ensures Distinct(a)
  {
    forall x
      ensures multiset(a)[x] <= 1
    {
      DistinctMultiplicity(b, x);
    }
    MultiplicityDistinct(a);
  }

  /** No element occurs twice. */
  predicate Distinct<T(==)>(s: seq<T>) {
    forall i, j :: 0 <= i < j < |s| ==> s[i] != s[j]
  }

  /** A duplicate-free sequence holds each value at most once. */
  lemma {:induction false} DistinctMultiplicity<T>(s: seq<T>, x: T)
    requires Distinct(s)
    ensures multiset(s)[x] <= 1
  {
    if s != [] {
      assert s == [s[0]] + s[1..];
      DistinctMultiplicity(s[1..], x);
      if s[0] == x {
        assert x !in s[1..];
        assert multiset(s[1..])[x] == 0;
      }
    }
  }

  /** A sequence holding each value at most once is duplicate-free. */
  lemma {:induction false} MultiplicityDistinct<T>(s: seq<T>)
    requires forall x :: multiset(s)[x] <= 1
    ensures Distinct(s)
  {
    forall i, j | 0 <= i < j < |s|
      ensures s[i] != s[j]
    {
      var x := s[i];
      assert s == s[..i] + [s[i]] + s[i+1..];
      assert s[i+1..][j - i - 1] == s[j];
      assert multiset(s)[x] == multiset(s[..i])[x] + 1 + multiset(s[i+1..])[x];
    }
  }

  /** Filtering a duplicate-free sequence gives a duplicate-free sequence. */
  lemma {:induction false} FilterDistinct<T(!new)>(s: seq<T>, p: T -> bool)
    requires Distinct(s)
    ensures Distinct(Filter(s, p))
  {
    FilterMultiset(s, p);
    forall x
      ensures multiset(Filter(s, p))[x] <= 1
    {
      DistinctMultiplicity(s, x);
    }
    MultiplicityDistinct(Filter(s, p));
  }

  /** The elements of `s` in reverse order. */
  function Reverse<T>(s: seq<T>): (r: seq<T>)
    ensures |r| == |s|
    ensures forall i :: 0 <= i < |s| ==> r[i] == s[|s| - 1 - i]
  {
    if s == [] then [] else Reverse(s[1..]) + [s[0]]
  }

  lemma {:induction false} ReverseMultiset<T>(s: seq<T>)
    ensures multiset(Reverse(s)) == multiset(s)
  {
    if s != [] {
      ReverseMultiset(s[1..]);
      assert s == [s[0]] + s[1..];
    }
  }
}
