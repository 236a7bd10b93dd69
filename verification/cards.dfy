/** The card model shared by the library engine and its legacy copy:
    suits, values, cards, the 32-card pack, card points, contracts and the
    contract-dependent trump predicate. */
module Cards {
  import opened Seqs

  /** Result of a three-way comparison, as Rust's `std::cmp::Ordering`. */
  datatype Ordering = Less | Equal | Greater

  function CompareNat(a: nat, b: nat): Ordering {
    if a < b then Less else if a == b then Equal else Greater
  }

  /** Declaration order gives the derived `Ord`: Bells < Hearts < Leaves < Acorns. */
  datatype Suit = Bells | Hearts | Leaves | Acorns

  /** Declaration order gives the derived `Ord`: Seven < ... < Ace. */
  datatype Value = Seven | Eight | Nine | King | Ten | Under | Ober | Ace

  datatype Card = Card(suit: Suit, value: Value)

  /** Position of a suit in its declaration. */
  function SuitRank(s: Suit): (r: nat)
    ensures r < 4
  {
    match s
    case Bells => 0
    case Hearts => 1
    case Leaves => 2
    case Acorns => 3
  }

  /** Position of a value in its declaration. */
  function ValueRank(v: Value): (r: nat)
    ensures r < 8
  {
    match v
    case Seven => 0
    case Eight => 1
    case Nine => 2
    case King => 3
    case Ten => 4
    case Under => 5
    case Ober => 6
    case Ace => 7
  }

  function SuitAt(i: nat): (s: Suit)
    requires i < 4
    ensures SuitRank(s) == i
  {
    [Bells, Hearts, Leaves, Acorns][i]
  }

  function ValueAt(i: nat): (v: Value)
    requires i < 8
    ensures ValueRank(v) == i
  {
    [Seven, Eight, Nine, King, Ten, Under, Ober, Ace][i]
  }

  /** The derived `Ord` on suits. */
  function CompareSuits(a: Suit, b: Suit): Ordering {
    CompareNat(SuitRank(a), SuitRank(b))
  }

  /** The derived `Ord` on values. */
  function CompareValues(a: Value, b: Value): Ordering {
    CompareNat(ValueRank(a), ValueRank(b))
  }

  /** The eight cards of one suit, in value order. */
  function SuitCards(s: Suit): seq<Card> {
    [Card(s, Seven), Card(s, Eight), Card(s, Nine), Card(s, King),
     Card(s, Ten), Card(s, Under), Card(s, Ober), Card(s, Ace)]
  }

  /** `Card::all`: suit by suit, value by value. */
  function All(): (r: seq<Card>)
    ensures |r| == 32
    ensures forall i :: 0 <= i < |r| ==> r[i].suit == SuitAt(i / 8)
  {
    SuitCards(Bells) + SuitCards(Hearts) + SuitCards(Leaves) + SuitCards(Acorns)
  }

  /** Where a card sits in `All()`. */
  function Index(c: Card): (i: nat)
    ensures i < 32
  {
    8 * SuitRank(c.suit) + ValueRank(c.value)
  }

  lemma AllAt(i: nat)
    requires i < 32
    ensures |All()| == 32
    ensures All()[i] == Card(SuitAt(i / 8), ValueAt(i % 8))
    ensures Index(All()[i]) == i
  {
    assert SuitCards(SuitAt(i / 8))[i % 8] == Card(SuitAt(i / 8), ValueAt(i % 8));
  }

  /** `Card::all` has 32 cards, each card exactly once. */
  lemma AllIsThePack()
    ensures |All()| == 32
    ensures Distinct(All())
    ensures forall c: Card :: c in All() && All()[Index(c)] == c
  {
    AllAt(0);
    forall i, j | 0 <= i < j < |All()|
      ensures All()[i] != All()[j]
    {
      AllAt(i);
      AllAt(j);
    }
    forall c: Card
      ensures c in All() && All()[Index(c)] == c
    {
      AllAt(Index(c));
    }
  }

  /** How many of the eight cards of suit `s` satisfy `p`. */
  function SuitCount(s: Suit, p: Card -> bool): nat {
    Ind(p(Card(s, Seven))) + Ind(p(Card(s, Eight))) + Ind(p(Card(s, Nine))) + Ind(p(Card(s, King)))
    + Ind(p(Card(s, Ten))) + Ind(p(Card(s, Under))) + Ind(p(Card(s, Ober))) + Ind(p(Card(s, Ace)))
  }

  lemma SuitCountIsCount(s: Suit, p: Card -> bool)
    ensures CountIf(SuitCards(s), p) == SuitCount(s, p)
  {
    var c := SuitCards(s);
    assert c[0] == Card(s, Seven) && c[1] == Card(s, Eight) && c[2] == Card(s, Nine) && c[3] == Card(s, King);
    assert c[4] == Card(s, Ten) && c[5] == Card(s, Under) && c[6] == Card(s, Ober) && c[7] == Card(s, Ace);
    CountIf8(c, p);
  }

  /** How many cards of `Card::all` satisfy `p`, suit by suit. */
  lemma AllFilterLength(p: Card -> bool)
    ensures |Filter(All(), p)|
         == SuitCount(Bells, p) + SuitCount(Hearts, p) + SuitCount(Leaves, p) + SuitCount(Acorns, p)
  {
    var b, h, l, a := SuitCards(Bells), SuitCards(Hearts), SuitCards(Leaves), SuitCards(Acorns);
    FilterLengthIsCount(All(), p);
    CountConcat(b + h + l, a, p);
    CountConcat(b + h, l, p);
    CountConcat(b, h, p);
    SuitCountIsCount(Bells, p);
    SuitCountIsCount(Hearts, p);
    SuitCountIsCount(Leaves, p);
    SuitCountIsCount(Acorns, p);
  }

  function OfSuit(s: Suit): Card -> bool {
    (c: Card) => c.suit == s
  }

  /** `Card::all` has 8 cards of each suit. */
  lemma AllSuitCounts(s: Suit)
    ensures |Filter(All(), OfSuit(s))| == 8
  {
    AllFilterLength(OfSuit(s));
    SuitCountOfSuit(Bells, s);
    SuitCountOfSuit(Hearts, s);
    SuitCountOfSuit(Leaves, s);
    SuitCountOfSuit(Acorns, s);
  }

  lemma SuitCountOfSuit(t: Suit, s: Suit)
    ensures SuitCount(t, OfSuit(s)) == if t == s then 8 else 0
  {
  }

  /** `Card::points`: only the Seven, Eight and Nine score nothing, and no
      card scores more than the Ace's 11. */
  function Points(c: Card): (r: nat)
    ensures r <= 11
    ensures r == 0 <==> c.value == Seven || c.value == Eight || c.value == Nine
  {
    match c.value
    case Ten => 10
    case Under => 2
    case Ober => 3
    case King => 4
    case Ace => 11
    case _ => 0
  }

  /** Total card points of a sequence of cards. */
  function SumPoints(s: seq<Card>): nat {
    if s == [] then 0 else Points(s[0]) + SumPoints(s[1..])
  }

  lemma {:induction false} SumPointsConcat(a: seq<Card>, b: seq<Card>)
    ensures SumPoints(a + b) == SumPoints(a) + SumPoints(b)
  {
    if a == [] {
      assert a + b == b;
    } else {
      assert (a + b)[1..] == a[1..] + b;
      SumPointsConcat(a[1..], b);
    }
  }

  /** Each suit is worth 30 points, so the pack is worth 120. */
  lemma PointsOfSuit(s: Suit)
    ensures SumPoints(SuitCards(s)) == 30
  {
    var c := SuitCards(s);
    var lo, hi := c[..4], c[4..];
    assert c == lo + hi;
    assert lo == [Card(s, Seven), Card(s, Eight), Card(s, Nine), Card(s, King)];
    assert hi == [Card(s, Ten), Card(s, Under), Card(s, Ober), Card(s, Ace)];
    SumPointsConcat(lo, hi);
    SumPoints4(lo);
    SumPoints4(hi);
  }

  lemma SumPoints4(c: seq<Card>)
    requires |c| == 4
    ensures SumPoints(c) == Points(c[0]) + Points(c[1]) + Points(c[2]) + Points(c[3])
  {
    var c1, c2, c3 := c[1..], c[2..], c[3..];
    assert c1[1..] == c2 && c2[1..] == c3 && c3[1..] == [];
    assert SumPoints(c3) == Points(c[3]);
    assert SumPoints(c2) == Points(c[2]) + SumPoints(c3);
    assert SumPoints(c1) == Points(c[1]) + SumPoints(c2);
  }

  lemma PointsOfAll()
    ensures SumPoints(All()) == 120
  {
    PointsOfSuit(Bells);
    PointsOfSuit(Hearts);
    PointsOfSuit(Leaves);
    PointsOfSuit(Acorns);
    SumPointsConcat(SuitCards(Bells) + SuitCards(Hearts) + SuitCards(Leaves), SuitCards(Acorns));
    SumPointsConcat(SuitCards(Bells) + SuitCards(Hearts), SuitCards(Leaves));
    SumPointsConcat(SuitCards(Bells), SuitCards(Hearts));
  }

  /** Points never decrease when moving to a larger multiset of cards. */
  lemma {:induction false} SumPointsMonotone(a: seq<Card>, b: seq<Card>)
    requires multiset(a) <= multiset(b)
    ensures SumPoints(a) <= SumPoints(b)
    decreases |a|
  {
    if a != [] {
      var x := a[0];
      assert x in multiset(b);
      var i :| 0 <= i < |b| && b[i] == x;
      var rest := b[..i] + b[i+1..];
      SumPointsRemove(b, i);
      assert a == [x] + a[1..];
      assert multiset(a) == multiset(a[1..]) + multiset{x};
      SubMultisetRemove(multiset(a[1..]), multiset(rest), x);
      SumPointsMonotone(a[1..], rest);
    }
  }

  /** Taking out the card at `i` takes out its points and its one copy. */
  lemma SumPointsRemove(b: seq<Card>, i: nat)
    requires i < |b|
    ensures SumPoints(b) == SumPoints(b[..i] + b[i+1..]) + Points(b[i])
    ensures multiset(b) == multiset(b[..i] + b[i+1..]) + multiset{b[i]}
  {
    SplitAt(b, i);
    SumPointsCons(b[i], b[i+1..]);
    SumPointsConcat(b[..i], [b[i]] + b[i+1..]);
    SumPointsConcat(b[..i], b[i+1..]);
  }

  lemma SumPointsCons(x: Card, s: seq<Card>)
    ensures SumPoints([x] + s) == Points(x) + SumPoints(s)
  {
    assert ([x] + s)[1..] == s;
  }

  lemma SubMultisetRemove(a: multiset<Card>, r: multiset<Card>, x: Card)
    requires a + multiset{x} <= r + multiset{x}
    ensures a <= r
  {
    forall y
      ensures a[y] <= r[y]
    {
      assert (a + multiset{x})[y] <= (r + multiset{x})[y];
    }
  }

  /** Reordering cards does not change their points. */
  lemma SumPointsPermutation(a: seq<Card>, b: seq<Card>)
    requires multiset(a) == multiset(b)
    ensures SumPoints(a) == SumPoints(b)
  {
    SumPointsMonotone(a, b);
    SumPointsMonotone(b, a);
  }

  /** A shuffled pack: every card exactly once, as a permutation of
      `Card::all` holds them (see `DeckIsPermutation`). */
  ghost predicate IsDeck(d: seq<Card>) {
    Distinct(d) && forall c: Card :: c in d
  }

  lemma AllIsDeck()
    ensures IsDeck(All())
  {
    AllIsThePack();
  }

  /** The shuffled packs are exactly the permutations of `Card::all`. */
  lemma DeckIsPermutation(d: seq<Card>)
    ensures IsDeck(d) <==> multiset(d) == multiset(All())
  {
    if IsDeck(d) {
      DeckIsAllPermuted(d);
    }
    if multiset(d) == multiset(All()) {
      AllIsThePack();
      PermutationDistinct(d, All());
      forall c: Card
        ensures c in d
      {
        PermutationMembers(d, All(), c);
      }
    }
  }

  lemma DeckIsAllPermuted(d: seq<Card>)
    requires IsDeck(d)
    ensures multiset(d) == multiset(All())
  {
    AllIsThePack();
    DistinctSameElements(d, All());
  }

  /** A shuffled pack has 32 cards. */
  lemma DeckLength(d: seq<Card>)
    requires IsDeck(d)
    ensures |d| == 32
  {
    DeckIsAllPermuted(d);
    AllAt(0);
    assert |d| == |multiset(d)| == |multiset(All())| == |All()|;
  }

  /** Any two shuffled packs have equally many cards satisfying `p`. */
  lemma FilterOnDecks(d1: seq<Card>, d2: seq<Card>, p: Card -> bool)
    requires IsDeck(d1) && IsDeck(d2)
    ensures |Filter(d1, p)| == |Filter(d2, p)|
  {
    var f1, f2 := Filter(d1, p), Filter(d2, p);
    FilterDistinct(d1, p);
    FilterDistinct(d2, p);
    forall i | 0 <= i < |f1|
      ensures f1[i] in f2
    {
      assert f1[i] in f1;
    }
    forall i | 0 <= i < |f2|
      ensures f2[i] in f1
    {
      assert f2[i] in f2;
    }
    DistinctSameElements(f1, f2);
    assert |f1| == |multiset(f1)| == |multiset(f2)| == |f2|;
  }

  /** A shuffled pack is worth 120 points. */
  lemma DeckPoints(d: seq<Card>)
    requires IsDeck(d)
    ensures SumPoints(d) == 120
  {
    DeckIsAllPermuted(d);
    SumPointsPermutation(d, All());
    PointsOfAll();
  }

  /** Duplicate-free cards are worth at most the 120 points of the pack. */
  lemma DistinctPointsBound(s: seq<Card>)
    requires Distinct(s)
    ensures SumPoints(s) <= 120
  {
    AllIsThePack();
    DistinctSubMultiset(s, All());
    SumPointsMonotone(s, All());
    PointsOfAll();
  }

  /** The source's `Contract`; `NoContract` is its `Contract::None`, the
      "undecided" sentinel that also serves as the pass bid. */
  datatype Contract = Call(suit: Suit) | Solo(suit: Suit) | Wenz | Ramsch | NoContract

  /** `is_trump`: nothing is trump without a contract; otherwise every
      Under is, and every Ober too except under a Wenz; the Hearts are trump
      under a Call and a Ramsch, the Solo suit under a Solo. */
  function IsTrump(c: Card, k: Contract): (r: bool)
    ensures k == NoContract ==> !r
    ensures k != NoContract && c.value == Under ==> r
    ensures k.Wenz? ==> (r <==> c.value == Under)
    ensures !k.Wenz? && k != NoContract && c.value == Ober ==> r
    ensures (k.Call? || k.Ramsch?) && c.suit == Hearts ==> r
    ensures k.Solo? && c.suit == k.suit ==> r
    ensures r && c.value != Under && c.value != Ober ==>
      c.suit == (if k.Solo? then k.suit else Hearts)
  {
    match k
    case Call(_) => c.suit == Hearts || c.value == Ober || c.value == Under
    case Ramsch => c.suit == Hearts || c.value == Ober || c.value == Under
    case Solo(s) => c.suit == s || c.value == Ober || c.value == Under
    case Wenz => c.value == Under
    case NoContract => false
  }

  function IsTrumpUnder(k: Contract): Card -> bool {
    (c: Card) => IsTrump(c, k)
  }

  /** A player's cards: `cards` still held, `played` already played. */
  datatype Hand = Hand(cards: seq<Card>, played: seq<Card>)

  /** Rust's `u8`. */
  type Byte = x: nat | x < 256
}
