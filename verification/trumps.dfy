/** How many cards each contract makes trump, and `get_trump_order`: the
    trumps of a (shuffled) pack sorted by value, then suit. */
module Trumps {
  import opened Seqs
  import opened Cards

  /** The number of trumps a contract makes. */
  function TrumpTotal(k: Contract): nat {
    match k
    case Wenz => 4
    case NoContract => 0
    case _ => 14
  }

  /** Over the 32 cards of `Card::all`, `is_trump` selects 14 cards for a
      Call, Ramsch or Solo, 4 for a Wenz and none without a contract. */
  lemma TrumpCount(k: Contract)
    ensures |Filter(All(), IsTrumpUnder(k))| == TrumpTotal(k)
  {
    AllFilterLength(IsTrumpUnder(k));
    TrumpSuitSum(k);
  }

  lemma TrumpSuitSum(k: Contract)
    ensures SuitCount(Bells, IsTrumpUnder(k)) + SuitCount(Hearts, IsTrumpUnder(k))
          + SuitCount(Leaves, IsTrumpUnder(k)) + SuitCount(Acorns, IsTrumpUnder(k)) == TrumpTotal(k)
  {
    SuitTrumpCount(Bells, k);
    SuitTrumpCount(Hearts, k);
    SuitTrumpCount(Leaves, k);
    SuitTrumpCount(Acorns, k);
    match k
    case Solo(t) => assert t == Bells || t == Hearts || t == Leaves || t == Acorns;
    case _ =>
  }

  /** Trumps among the eight cards of suit `s`. */
  function SuitTrumps(s: Suit, k: Contract): nat {
    match k
    case Call(_) => if s == Hearts then 8 else 2
    case Ramsch => if s == Hearts then 8 else 2
    case Solo(t) => if s == t then 8 else 2
    case Wenz => 1
    case NoContract => 0
  }

  lemma SuitTrumpCount(s: Suit, k: Contract)
    ensures SuitCount(s, IsTrumpUnder(k)) == SuitTrumps(s, k)
  {
    var p := IsTrumpUnder(k);
    assert p(Card(s, Under)) && p(Card(s, Ober)) <==> !k.Wenz? && !k.NoContract?;
  }

  /** Without a contract nothing is trump. */
  lemma NoContractHasNoTrumps(d: seq<Card>)
    ensures Filter(d, IsTrumpUnder(NoContract)) == []
  {
    FilterNone(d, IsTrumpUnder(NoContract));
  }

  /** The comparator of `get_trump_order`: value first, suit to break ties.
      It ties only a card with itself. */
  function CompareTrumps(a: Card, b: Card): (r: Ordering)
    ensures r == Equal <==> a == b
    ensures ValueRank(a.value) < ValueRank(b.value) ==> r == Less
    ensures a.value == b.value && SuitRank(a.suit) > SuitRank(b.suit) ==> r == Greater
  {
    var cmp := CompareValues(a.value, b.value);
    if cmp == Equal then CompareSuits(a.suit, b.suit) else cmp
  }

  /** A card's place in the value-then-suit order. */
  function TrumpRank(c: Card): nat {
    4 * ValueRank(c.value) + SuitRank(c.suit)
  }

  /** The comparator is the order of `TrumpRank`, which tells cards apart. */
  lemma CompareTrumpsIsRankOrder(a: Card, b: Card)
    ensures CompareTrumps(a, b) == CompareNat(TrumpRank(a), TrumpRank(b))
    ensures TrumpRank(a) == TrumpRank(b) ==> a == b
  {
  }

  predicate Sorted(s: seq<Card>) {
    forall i, j :: 0 <= i < j < |s| ==> TrumpRank(s[i]) <= TrumpRank(s[j])
  }

  predicate StrictlySorted(s: seq<Card>) {
    forall i, j :: 0 <= i < j < |s| ==> TrumpRank(s[i]) < TrumpRank(s[j])
  }

  /** Inserts `x` after every element that does not compare greater than it,
      so that equal elements keep their order (as the stable `sort_by`). */
  function Insert(x: Card, s: seq<Card>): (r: seq<Card>)
    ensures multiset(r) == multiset(s) + multiset{x}
    ensures |r| == |s| + 1
  {
    if s == [] then [x]
    else if CompareTrumps(x, s[0]) == Less then [x] + s
    else
      assert s == [s[0]] + s[1..];
      [s[0]] + Insert(x, s[1..])
  }

  /** Inserting into a sorted sequence keeps it sorted. */
  lemma {:induction false} InsertSorted(x: Card, s: seq<Card>)
    requires Sorted(s)
    ensures Sorted(Insert(x, s))
  {
    if s != [] {
      CompareTrumpsIsRankOrder(x, s[0]);
      if CompareTrumps(x, s[0]) == Less {
        ConsSorted(x, s);
      } else {
        InsertSorted(x, s[1..]);
        InsertAbove(x, s[1..], s[0]);
        ConsSorted(s[0], Insert(x, s[1..]));
      }
    }
  }

  /** A card no higher than every element of a sorted sequence may go in front. */
  lemma ConsSorted(b: Card, s: seq<Card>)
    requires Sorted(s)
    requires forall j :: 0 <= j < |s| ==> TrumpRank(b) <= TrumpRank(s[j])
    ensures Sorted([b] + s)
  {
    var r := [b] + s;
    forall i, j | 0 <= i < j < |r|
      ensures TrumpRank(r[i]) <= TrumpRank(r[j])
    {
      assert r[j] == s[j - 1];
      if i > 0 {
        assert r[i] == s[i - 1];
      }
    }
  }

  /** A lower bound of `x` and of the elements of `s` bounds `Insert(x, s)`. */
  lemma InsertAbove(x: Card, s: seq<Card>, b: Card)
    requires TrumpRank(b) <= TrumpRank(x)
    requires forall j :: 0 <= j < |s| ==> TrumpRank(b) <= TrumpRank(s[j])
    ensures forall j :: 0 <= j < |Insert(x, s)| ==> TrumpRank(b) <= TrumpRank(Insert(x, s)[j])
  {
    var r := Insert(x, s);
    forall j | 0 <= j < |r|
      ensures TrumpRank(b) <= TrumpRank(r[j])
    {
      assert r[j] in multiset(r);
      if r[j] != x {
        assert r[j] in multiset(s);
        var m :| 0 <= m < |s| && s[m] == r[j];
      }
    }
  }

  /** `sort_by` with the value-then-suit comparator, as an insertion sort. */
  function Sort(s: seq<Card>): (r: seq<Card>)
    ensures multiset(r) == multiset(s)
    ensures Sorted(r)
  {
    if s == [] then []
    else
      assert s == s[..|s| - 1] + [s[|s| - 1]];
      InsertSorted(s[|s| - 1], Sort(s[..|s| - 1]));
      Insert(s[|s| - 1], Sort(s[..|s| - 1]))
  }

  /** `get_trump_order`: filter the trumps out of a shuffled pack and sort
      them. The shuffle is the parameter `deck`. */
  function TrumpOrder(deck: seq<Card>, k: Contract): (r: seq<Card>)
    requires IsDeck(deck)
    ensures forall c: Card :: c in r <==> IsTrump(c, k)
    ensures StrictlySorted(r)
  {
    var trumps := Filter(deck, IsTrumpUnder(k));
    FilterDistinct(deck, IsTrumpUnder(k));
    var r := Sort(trumps);
    SortedDistinctIsStrict(r, trumps);
    forall c: Card
      ensures c in r <==> IsTrump(c, k)
    {
      assert c in r <==> c in multiset(trumps);
      assert c in deck;
    }
    r
  }

  lemma SortedDistinctIsStrict(r: seq<Card>, s: seq<Card>)
    requires Sorted(r)
    requires Distinct(s)
    requires multiset(r) == multiset(s)
    ensures StrictlySorted(r)
  {
    forall x
      ensures multiset(r)[x] <= 1
    {
      DistinctMultiplicity(s, x);
    }
    MultiplicityDistinct(r);
    forall i, j | 0 <= i < j < |r|
      ensures TrumpRank(r[i]) < TrumpRank(r[j])
    {
      CompareTrumpsIsRankOrder(r[i], r[j]);
    }
  }

  /** Two strictly sorted sequences with the same elements are equal. */
  lemma {:induction false} StrictlySortedUnique(a: seq<Card>, b: seq<Card>)
    requires StrictlySorted(a) && StrictlySorted(b)
    requires forall c :: c in a <==> c in b
    ensures a == b
  {
    assert b == [] || b[0] in b;
    assert a == [] || a[0] in a;
    if a != [] && b != [] {
      assert b[0] in b && a[0] in a;
      assert b[0] in a && a[0] in b;
      var i :| 0 <= i < |a| && a[i] == b[0];
      var j :| 0 <= j < |b| && b[j] == a[0];
      assert TrumpRank(a[0]) <= TrumpRank(a[i]);
      assert TrumpRank(b[0]) <= TrumpRank(b[j]);
      CompareTrumpsIsRankOrder(a[0], b[0]);
      assert a[0] == b[0];
      assert a == [a[0]] + a[1..];
      assert b == [b[0]] + b[1..];
      forall c
        ensures c in a[1..] <==> c in b[1..]
      {
        if c in a[1..] {
          var m :| 0 <= m < |a| - 1 && a[1..][m] == c;
          assert TrumpRank(a[0]) < TrumpRank(a[m + 1]);
          assert c in a && c != b[0];
          assert c in b;
        }
        if c in b[1..] {
          var m :| 0 <= m < |b| - 1 && b[1..][m] == c;
          assert TrumpRank(b[0]) < TrumpRank(b[m + 1]);
          assert c in b && c != a[0];
          assert c in a;
        }
      }
      StrictlySortedUnique(a[1..], b[1..]);
    }
  }

  /** `get_trump_order` does not depend on the shuffle. */
  lemma TrumpOrderShuffleInvariant(d1: seq<Card>, d2: seq<Card>, k: Contract)
    requires IsDeck(d1) && IsDeck(d2)
    ensures TrumpOrder(d1, k) == TrumpOrder(d2, k)
  {
    StrictlySortedUnique(TrumpOrder(d1, k), TrumpOrder(d2, k));
  }

  /** `get_trump_order` returns every trump of the contract once:
      14 for a Call, Ramsch or Solo, 4 for a Wenz, none without a contract. */
  lemma TrumpOrderSize(d: seq<Card>, k: Contract)
    requires IsDeck(d)
    ensures |TrumpOrder(d, k)| == TrumpTotal(k)
  {
    var r := TrumpOrder(d, k);
    var f := Filter(d, IsTrumpUnder(k));
    assert r == Sort(f);
    assert |r| == |multiset(r)| == |multiset(f)| == |f|;
    AllIsDeck();
    FilterOnDecks(d, All(), IsTrumpUnder(k));
    TrumpCount(k);
  }

  /** Under a Wenz, `get_trump_order` gives the four Unders in suit order. */
  lemma WenzTrumpOrder(d: seq<Card>)
    requires IsDeck(d)
    ensures TrumpOrder(d, Wenz) == Unders()
  {
    var r := TrumpOrder(d, Wenz);
    UndersAreTheWenzTrumps();
    assert forall c :: c in r <==> c in Unders();
    StrictlySortedUnique(r, Unders());
  }

  function Unders(): seq<Card> {
    [Card(Bells, Under), Card(Hearts, Under), Card(Leaves, Under), Card(Acorns, Under)]
  }

  lemma UndersAreTheWenzTrumps()
    ensures StrictlySorted(Unders())
    ensures forall c: Card :: c in Unders() <==> IsTrump(c, Wenz)
  {
    forall c: Card | c.value == Under
      ensures c in Unders()
    {
      assert c == Unders()[SuitRank(c.suit)];
    }
  }
}
