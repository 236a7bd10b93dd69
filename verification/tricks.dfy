/** Who wins a complete trick: the comparator of `determine_trick_winner`
    and the `max_by` fold over the four cards, shared by the library engine
    and its legacy copy. */
module Tricks {
  import opened Seqs
  import opened Cards
  import opened Trumps

  /** The closure passed to `max_by`: a trump beats a non-trump, two trumps
      compare by value then suit, a card of the lead suit beats one that is
      not, two lead-suit cards compare by value, and two other cards are equal. */
  function CompareInTrick(a: Card, b: Card, k: Contract, lead: Suit): (r: Ordering)
    ensures r == Greater ==> IsTrump(a, k) || a.suit == lead
    ensures r == Less ==> IsTrump(b, k) || b.suit == lead
    ensures r == Equal ==> a == b || (!IsTrump(a, k) && !IsTrump(b, k) && a.suit != lead && b.suit != lead)
  {
    var aTrump := IsTrump(a, k);
    var bTrump := IsTrump(b, k);
    var aLead := a.suit == lead;
    var bLead := b.suit == lead;
    if aTrump && !bTrump then Greater
    else if !aTrump && bTrump then Less
    else if aTrump && bTrump then CompareTrumps(a, b)
    else if aLead && !bLead then Greater
    else if !aLead && bLead then Less
    else if aLead && bLead then CompareValues(a.value, b.value)
    else Equal
  }

  /** A card's strength in a trick: trumps above lead-suit cards above the rest. */
  function Strength(c: Card, k: Contract, lead: Suit): nat {
    if IsTrump(c, k) then 100 + TrumpRank(c)
    else if c.suit == lead then 50 + ValueRank(c.value)
    else 0
  }

  /** The comparator is the order of `Strength`, hence a total preorder. */
  lemma CompareIsStrengthOrder(a: Card, b: Card, k: Contract, lead: Suit)
    ensures CompareInTrick(a, b, k, lead) == CompareNat(Strength(a, k, lead), Strength(b, k, lead))
  {
    CompareTrumpsIsRankOrder(a, b);
  }

  /** Two different cards of positive strength never tie. */
  lemma StrengthSeparates(a: Card, b: Card, k: Contract, lead: Suit)
    requires a != b
    requires Strength(a, k, lead) > 0
    ensures Strength(a, k, lead) != Strength(b, k, lead)
  {
    CompareTrumpsIsRankOrder(a, b);
  }

  /** `std::cmp::max_by` on positions `i` and `j`: the first is kept only
      when it compares greater, so ties go to the later card. */
  function MaxBy(cards: seq<Card>, k: Contract, i: nat, j: nat): (w: nat)
    requires i < |cards| && j < |cards|
    ensures w == i || w == j
  {
    if CompareInTrick(cards[i], cards[j], k, cards[0].suit) == Greater then i else j
  }

  /** No card of the trick compares greater than the one at `p`, and every
      later card compares less: `p` is the last strongest card. */
  predicate IsLastStrongest(cards: seq<Card>, k: Contract, p: nat)
    requires |cards| == 4
  {
    && p < 4
    && (forall j :: 0 <= j < 4 ==> CompareInTrick(cards[j], cards[p], k, cards[0].suit) != Greater)
    && (forall j :: p < j < 4 ==> CompareInTrick(cards[j], cards[p], k, cards[0].suit) == Less)
  }

  /** `max_by` over the four cards of a complete trick, as a position 0..3. */
  function WinnerPosition(cards: seq<Card>, k: Contract): (p: nat)
    requires |cards| == 4
    ensures IsLastStrongest(cards, k, p)
  {
    var w1 := MaxBy(cards, k, 0, 1);
    var w2 := MaxBy(cards, k, w1, 2);
    var w3 := MaxBy(cards, k, w2, 3);
    FoldIsLastStrongest(cards, k, w1, w2, w3);
    w3
  }

  /** The strengths of the four cards of a trick. */
  function Strengths(cards: seq<Card>, k: Contract): (s: seq<nat>)
    requires |cards| == 4
    ensures |s| == 4
    ensures forall i :: 0 <= i < 4 ==> s[i] == Strength(cards[i], k, cards[0].suit)
  {
    var lead := cards[0].suit;
    [Strength(cards[0], k, lead), Strength(cards[1], k, lead),
     Strength(cards[2], k, lead), Strength(cards[3], k, lead)]
  }

  /** The `max_by` fold, read through the strengths. */
  lemma FoldIsLastStrongest(cards: seq<Card>, k: Contract, w1: nat, w2: nat, w3: nat)
    requires |cards| == 4
    requires w1 == MaxBy(cards, k, 0, 1)
    requires w2 < 4 && w2 == MaxBy(cards, k, w1, 2)
    requires w3 < 4 && w3 == MaxBy(cards, k, w2, 3)
    ensures IsLastStrongest(cards, k, w3)
  {
    var s := Strengths(cards, k);
    var lead := cards[0].suit;
    CompareIsStrengthOrder(cards[0], cards[1], k, lead);
    assert w1 == (if s[0] > s[1] then 0 else 1);
    CompareIsStrengthOrder(cards[w1], cards[2], k, lead);
    assert w2 == (if s[w1] > s[2] then w1 else 2);
    CompareIsStrengthOrder(cards[w2], cards[3], k, lead);
    assert w3 == (if s[w2] > s[3] then w2 else 3);
    LastArgMax(s, w1, w2, w3);
    forall j | 0 <= j < 4
      ensures CompareInTrick(cards[j], cards[w3], k, lead) == CompareNat(s[j], s[w3])
    {
      CompareIsStrengthOrder(cards[j], cards[w3], k, lead);
    }
  }

  /** The fold on numbers: the position kept is a maximum, and every later
      position holds less. */
  lemma LastArgMax(s: seq<nat>, w1: nat, w2: nat, w3: nat)
    requires |s| == 4
    requires w1 == (if s[0] > s[1] then 0 else 1)
    requires w2 == (if s[w1] > s[2] then w1 else 2)
    requires w3 == (if s[w2] > s[3] then w2 else 3)
    ensures forall j :: 0 <= j < 4 ==> s[j] <= s[w3]
    ensures forall j :: w3 < j < 4 ==> s[j] < s[w3]
  {
  }

  /** The last strongest card is unique, so it characterises the winner. */
  lemma WinnerIsTheLastStrongest(cards: seq<Card>, k: Contract, q: nat)
    requires |cards| == 4
    ensures IsLastStrongest(cards, k, q) <==> q == WinnerPosition(cards, k)
  {
    var p := WinnerPosition(cards, k);
    if q < 4 {
      CompareIsStrengthOrder(cards[p], cards[q], k, cards[0].suit);
      CompareIsStrengthOrder(cards[q], cards[p], k, cards[0].suit);
    }
  }

  /** With four different cards, the winning card beats each of the other three. */
  lemma DistinctTrickHasStrictWinner(cards: seq<Card>, k: Contract)
    requires |cards| == 4
    requires Distinct(cards)
    ensures forall j :: 0 <= j < 4 && j != WinnerPosition(cards, k) ==>
      CompareInTrick(cards[WinnerPosition(cards, k)], cards[j], k, cards[0].suit) == Greater
  {
    var p := WinnerPosition(cards, k);
    var lead := cards[0].suit;
    CompareIsStrengthOrder(cards[0], cards[p], k, lead);
    assert Strength(cards[0], k, lead) > 0;
    forall j | 0 <= j < 4 && j != p
      ensures CompareInTrick(cards[p], cards[j], k, lead) == Greater
    {
      CompareIsStrengthOrder(cards[j], cards[p], k, lead);
      CompareIsStrengthOrder(cards[p], cards[j], k, lead);
      StrengthSeparates(cards[p], cards[j], k, lead);
    }
  }
}
