/** The play-legality classifier `action_is_valid` and its filter
    `get_legal_actions` / `get_valid_actions`, shared by the library engine
    and its legacy copy (the two are written identically). */
module Legality {
  import opened Seqs
  import opened Options
  import opened Cards

  /** The hand holds the Ace of `s`. */
  predicate HoldsAce(h: Hand, s: Suit) {
    Card(s, Ace) in h.cards
  }

  /** The hand holds a card of suit `s`. */
  predicate HoldsSuit(h: Hand, s: Suit) {
    exists c :: c in h.cards && c.suit == s
  }

  /** The hand holds a trump of contract `k`. */
  predicate HoldsTrump(h: Hand, k: Contract) {
    exists c :: c in h.cards && IsTrump(c, k)
  }

  /** `action_is_valid`, given the cards of the current trick.

      Under a Call the first `match` returns at once: the action is valid
      exactly when a hand is given, the action is of the called suit and the
      hand holds the called Ace. The running and called-Ace rules further down
      in the source are therefore never reached and are not part of this model.

      Under any other contract the source indexes the first card of the trick
      unconditionally, which panics on an empty trick; hence the precondition.

      Without a hand every card is valid except under a Call; a hand that
      holds neither a trump nor the lead suit may play anything; a hand that
      holds the suit of a non-trump lead must follow it. */
  function ActionIsValid(k: Contract, trick: seq<Card>, action: Card, hand: Option<Hand>): (r: bool)
    requires k.Call? || |trick| > 0
    ensures hand.None? ==> (r <==> !k.Call?)
    ensures k.Call? && r ==> action.suit == k.suit
    ensures !k.Call? && hand.Some? && !HoldsTrump(hand.value, k) && !HoldsSuit(hand.value, trick[0].suit) ==> r
    ensures !k.Call? && hand.Some? && !IsTrump(trick[0], k) && HoldsSuit(hand.value, trick[0].suit) ==>
      (r <==> action.suit == trick[0].suit)
  {
    if k.Call? then
      hand.Some? && action.suit == k.suit && HoldsAce(hand.value, k.suit)
    else
      var lead := trick[0];
      var hasLeadingSuit := hand.Some? && HoldsSuit(hand.value, lead.suit);
      var hasTrump := hand.Some? && HoldsTrump(hand.value, k);
      if IsTrump(lead, k) && hasTrump then IsTrump(action, k)
      else if hasLeadingSuit then action.suit == lead.suit
      else true
  }

  /** The test `get_legal_actions` applies to each held card. */
  function ValidFor(k: Contract, trick: seq<Card>, h: Hand): Card -> bool
    requires k.Call? || |trick| > 0
  {
    (c: Card) => ActionIsValid(k, trick, c, Some(h))
  }

  /** `get_legal_actions`: the held cards that `action_is_valid` accepts for
      this hand, in hand order. An empty hand gives no cards without ever
      calling `action_is_valid`, so it needs no started trick. */
  method LegalActions(k: Contract, trick: seq<Card>, h: Hand) returns (legal: seq<Card>)
    requires k.Call? || |trick| > 0 || h.cards == []
    ensures h.cards == [] ==> legal == []
    ensures h.cards != [] ==> legal == Filter(h.cards, ValidFor(k, trick, h))
    ensures forall c :: c in legal <==> c in h.cards && ActionIsValid(k, trick, c, Some(h))
  {
    if h.cards == [] {
      legal := [];
    } else {
      legal := FilterLoop(h.cards, ValidFor(k, trick, h));
      ValidForMembers(k, trick, h);
    }
  }

  lemma ValidForMembers(k: Contract, trick: seq<Card>, h: Hand)
    requires k.Call? || |trick| > 0
    ensures forall c :: c in Filter(h.cards, ValidFor(k, trick, h)) <==>
      c in h.cards && ActionIsValid(k, trick, c, Some(h))
  {
    var valid := ValidFor(k, trick, h);
    assert forall c :: valid(c) == ActionIsValid(k, trick, c, Some(h));
  }

  /** Under a Call nothing but the called suit and the hand is consulted: the
      trick does not matter, no hand gives `false`, and with a hand the action
      is valid exactly when it is of the called suit and the Ace is held. */
  lemma CallIgnoresTrick(s: Suit, t1: seq<Card>, t2: seq<Card>, action: Card, hand: Option<Hand>)
    ensures ActionIsValid(Call(s), t1, action, hand) == ActionIsValid(Call(s), t2, action, hand)
    ensures hand.None? ==> !ActionIsValid(Call(s), t1, action, hand)
    ensures hand.Some? ==>
      (ActionIsValid(Call(s), t1, action, hand) <==> action.suit == s && Card(s, Ace) in hand.value.cards)
  {
  }

  /** Under a Call the legal plays are the called-suit cards of the holder of
      the called Ace; any other hand has no legal play at all. */
  lemma CallLegalActions(s: Suit, trick: seq<Card>, h: Hand)
    ensures HoldsAce(h, s) ==>
      Filter(h.cards, ValidFor(Call(s), trick, h)) == Filter(h.cards, OfSuit(s))
    ensures !HoldsAce(h, s) ==> Filter(h.cards, ValidFor(Call(s), trick, h)) == []
  {
    if HoldsAce(h, s) {
      FilterCongruent(h.cards, ValidFor(Call(s), trick, h), OfSuit(s));
    } else {
      FilterNone(h.cards, ValidFor(Call(s), trick, h));
    }
  }

  /** Without a hand, every card may follow under a contract other than a Call. */
  lemma UnknownHandMayPlayAnything(k: Contract, trick: seq<Card>, action: Card)
    requires !k.Call? && |trick| > 0
    ensures ActionIsValid(k, trick, action, None)
  {
  }

  /** The follow rules under a contract other than a Call, in their order of
      priority: trump is forced after a trump lead when the hand holds one;
      otherwise the lead suit is forced when the hand holds it; otherwise
      anything goes. */
  lemma FollowRules(k: Contract, trick: seq<Card>, action: Card, h: Hand)
    requires !k.Call? && |trick| > 0
    ensures IsTrump(trick[0], k) && HoldsTrump(h, k) ==>
      (ActionIsValid(k, trick, action, Some(h)) <==> IsTrump(action, k))
    ensures !(IsTrump(trick[0], k) && HoldsTrump(h, k)) && HoldsSuit(h, trick[0].suit) ==>
      (ActionIsValid(k, trick, action, Some(h)) <==> action.suit == trick[0].suit)
    ensures !(IsTrump(trick[0], k) && HoldsTrump(h, k)) && !HoldsSuit(h, trick[0].suit) ==>
      ActionIsValid(k, trick, action, Some(h))
  {
  }

  /** Under a contract other than a Call, a non-empty hand always has a legal
      play on a started trick. */
  lemma FollowerHasLegalAction(k: Contract, trick: seq<Card>, h: Hand)
    requires !k.Call? && |trick| > 0
    requires |h.cards| > 0
    ensures Filter(h.cards, ValidFor(k, trick, h)) != []
  {
    var lead := trick[0];
    var c: Card;
    if IsTrump(lead, k) && HoldsTrump(h, k) {
      c :| c in h.cards && IsTrump(c, k);
    } else if HoldsSuit(h, lead.suit) {
      c :| c in h.cards && c.suit == lead.suit;
    } else {
      c := h.cards[0];
    }
    assert c in h.cards && ValidFor(k, trick, h)(c);
  }

  /** The suit-following test looks at the printed suit only, so an Ober or
      Under of the lead suit counts as following it even though it is trump:
      in a Ramsch, after an Acorns Seven is led, a hand holding the Acorns
      Ober and the Bells Seven may play only the Ober. */
  lemma TrumpObersFollowTheirSuit()
    ensures var trick := [Card(Acorns, Seven)];
            var h := Hand([Card(Acorns, Ober), Card(Bells, Seven)], []);
            ActionIsValid(Ramsch, trick, Card(Acorns, Ober), Some(h))
            && !ActionIsValid(Ramsch, trick, Card(Bells, Seven), Some(h))
  {
    var h := Hand([Card(Acorns, Ober), Card(Bells, Seven)], []);
    assert h.cards[0].suit == Acorns;
  }

  /** After a trump lead, a hand without trumps must still follow the printed
      suit of the led card: in a Ramsch, after the Acorns Ober is led, a hand
      of the Acorns Seven and the Bells Seven may play only the Acorns Seven. */
  lemma TrumpLeadForcesPrintedSuit()
    ensures var trick := [Card(Acorns, Ober)];
            var h := Hand([Card(Acorns, Seven), Card(Bells, Seven)], []);
            ActionIsValid(Ramsch, trick, Card(Acorns, Seven), Some(h))
            && !ActionIsValid(Ramsch, trick, Card(Bells, Seven), Some(h))
  {
    var h := Hand([Card(Acorns, Seven), Card(Bells, Seven)], []);
    assert h.cards[0].suit == Acorns;
  }
}
