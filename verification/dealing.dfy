/** The dealer of the library engine: a shuffled pack from which each deal
    pops eight cards off the end. The shuffle is a parameter. */
module Dealing {
  import opened Seqs
  import opened Cards

  datatype Dealer = Dealer(deck: seq<Card>)

  /** `n` successive `pop`s: the deck that remains and the popped cards in
      the order they came off. */
  function PopCards(deck: seq<Card>, n: nat): (r: (seq<Card>, seq<Card>))
    requires n <= |deck|
    ensures r.0 == deck[..|deck| - n]
    ensures |r.1| == n
    ensures forall i :: 0 <= i < n ==> r.1[i] == deck[|deck| - 1 - i]
  {
    if n == 0 then (deck, [])
    else
      var last := |deck| - 1;
      var rest := PopCards(deck[..last], n - 1);
      assert deck[..last][..last - (n - 1)] == deck[..|deck| - n];
      (rest.0, [deck[last]] + rest.1)
  }

  /** Popping moves cards from the deck into the hand and loses none. */
  lemma PopCardsKeepsCards(deck: seq<Card>, n: nat)
    requires n <= |deck|
    ensures multiset(PopCards(deck, n).0) + multiset(PopCards(deck, n).1) == multiset(deck)
  {
    var r := PopCards(deck, n);
    assert r.1 == Reverse(deck[|deck| - n..]);
    ReverseMultiset(deck[|deck| - n..]);
    assert deck == deck[..|deck| - n] + deck[|deck| - n..];
  }

  /** `Dealer::deal`. A deck of fewer than eight cards is first replaced by
      `reshuffled`, the new shuffle `reset` would draw; then eight cards are popped
      into a hand with nothing played. */
  function Deal(d: Dealer, reshuffled: seq<Card>): (r: (Dealer, Hand))
    requires |d.deck| >= 8 || IsDeck(reshuffled)
    ensures var src := if |d.deck| < 8 then reshuffled else d.deck;
      |src| >= 8
      && r.0.deck == src[..|src| - 8]
      && |r.1.cards| == 8
      && (forall i :: 0 <= i < 8 ==> r.1.cards[i] == src[|src| - 1 - i])
      && r.1.played == []
  {
    var src := if |d.deck| < 8 then reshuffled else d.deck;
    assert |src| >= 8 by {
      if |d.deck| < 8 { DeckLength(reshuffled); }
    }
    var popped := PopCards(src, 8);
    (Dealer(popped.0), Hand(popped.1, []))
  }

  /** A deal takes the hand's cards out of the deck: together, the new deck
      and the hand hold exactly the cards the deck held before. */
  lemma DealKeepsCards(d: Dealer, reshuffled: seq<Card>)
    requires |d.deck| >= 8 || IsDeck(reshuffled)
    ensures var src := if |d.deck| < 8 then reshuffled else d.deck;
      multiset(Deal(d, reshuffled).0.deck) + multiset(Deal(d, reshuffled).1.cards) == multiset(src)
  {
    var src := if |d.deck| < 8 then reshuffled else d.deck;
    if |d.deck| < 8 { DeckLength(reshuffled); }
    PopCardsKeepsCards(src, 8);
  }

  /** The four `dealer.deal()` calls of `Game::new` on a new dealer holding
      the shuffled pack `deck`. The deck never runs short, so no reset. */
  function DealHands(deck: seq<Card>): (hands: seq<Hand>)
    requires IsDeck(deck)
    ensures |deck| == 32 && |hands| == 4
    ensures forall p :: 0 <= p < 4 ==> |hands[p].cards| == 8 && hands[p].played == []
    ensures forall p, i :: 0 <= p < 4 && 0 <= i < 8 ==> hands[p].cards[i] == deck[31 - 8 * p - i]
  {
    DeckLength(deck);
    var (d1, h0) := Deal(Dealer(deck), []);
    var (d2, h1) := Deal(d1, []);
    var (d3, h2) := Deal(d2, []);
    var (_, h3) := Deal(d3, []);
    [h0, h1, h2, h3]
  }

  /** The four hands of a deal split the pack: every card is in exactly one
      hand, once. */
  lemma DealHandsSplitsThePack(deck: seq<Card>, c: Card)
    requires IsDeck(deck)
    ensures exists p :: 0 <= p < 4 && c in DealHands(deck)[p].cards
    ensures forall p, q :: 0 <= p < q < 4 && c in DealHands(deck)[p].cards ==> c !in DealHands(deck)[q].cards
    ensures forall p :: 0 <= p < 4 ==> Distinct(DealHands(deck)[p].cards)
  {
    DeckLength(deck);
    var hands := DealHands(deck);
    assert c in deck;
    var j :| 0 <= j < 32 && deck[j] == c;
    var p := (31 - j) / 8;
    assert hands[p].cards[(31 - j) % 8] == c;
    forall p, q | 0 <= p < q < 4 && c in hands[p].cards
      ensures c !in hands[q].cards
    {
      var i :| 0 <= i < 8 && hands[p].cards[i] == c;
      forall i' | 0 <= i' < 8
        ensures hands[q].cards[i'] != c
      {
        assert 31 - 8 * q - i' < 31 - 8 * p - i;
      }
    }
  }
}
