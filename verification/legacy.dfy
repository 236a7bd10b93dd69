/** The older copy of the engine in the application crate. It shares the
    cards, trumps, legality rules, dealer and auction with the library
    engine; its `Game` records bare cards, starts under a Call of the
    Acorns Ace, plays without a readiness guard, and names trick winners by
    their position in the trick. */
module LegacyGame {
  import opened Seqs
  import opened Options
  import opened Cards
  import opened Tricks
  import opened Legality
  import opened Dealing
  import opened Auctions
  import GameLogic

  datatype Game = Game(
    trick: Byte,
    ranAway: bool,
    nextPlayer: Byte,
    played: seq<Card>,
    hands: GameLogic.Hands,
    contract: Contract)

  /** `Game::new`: player 0 to move, the Acorns Ace called from the start. */
  function NewGame(deck: seq<Card>): (g: Game)
    requires IsDeck(deck)
    ensures g.trick == 0 && !g.ranAway && g.nextPlayer == 0 && g.played == []
    ensures g.contract == Call(Acorns)
    ensures forall p :: 0 <= p < 4 ==> |g.hands[p].cards| == 8 && g.hands[p].played == []
    ensures g.hands == DealHands(deck)
  {
    Game(0, false, 0, [], DealHands(deck), Call(Acorns))
  }

  /** The at most four cards from the start of trick `t` on. */
  function TrickCards(g: Game, t: Byte): (r: seq<Card>)
    ensures |r| <= 4
    ensures |r| == 4 <==> GameLogic.TrickStart(t) + 4 <= |g.played|
    ensures GameLogic.TrickStart(t) <= |g.played| ==> |r| == GameLogic.Min(4, |g.played| - GameLogic.TrickStart(t))
    ensures GameLogic.TrickStart(t) >= |g.played| ==> r == []
    ensures forall i :: 0 <= i < |r| ==> r[i] == g.played[GameLogic.TrickStart(t) + i]
  {
    var s := GameLogic.TrickStart(t);
    if s >= |g.played| then [] else g.played[s..GameLogic.Min(s + 4, |g.played|)]
  }

  /** `determine_trick_winner`: the position (0 to 3) within the trick of
      the card `max_by` picks, not the player who played it. */
  function DetermineTrickWinner(g: Game, t: Byte): (w: Option<nat>)
    ensures w.None? <==> |TrickCards(g, t)| < 4
    ensures w.Some? ==> IsLastStrongest(TrickCards(g, t), g.contract, w.value)
  {
    var trick := TrickCards(g, t);
    if |trick| < 4 then None else Some(WinnerPosition(trick, g.contract))
  }

  /** `update_next_player`, on a `u8` player; `(p + 1) % 4` is the same
      with or without wrap-around, as 256 is a multiple of 4. */
  function UpdateNextPlayer(g: Game): (r: Game)
    ensures r == g.(nextPlayer := r.nextPlayer)
    ensures |g.played| % 4 != 0 ==> r.nextPlayer == (g.nextPlayer + 1) % 4
    ensures |g.played| % 4 == 0 && |TrickCards(g, g.trick)| < 4 ==> r.nextPlayer == g.nextPlayer
    ensures |g.played| % 4 == 0 && |TrickCards(g, g.trick)| == 4 ==>
      IsLastStrongest(TrickCards(g, g.trick), g.contract, r.nextPlayer)
  {
    if |g.played| % 4 == 0 then
      match DetermineTrickWinner(g, g.trick)
      case Some(w) => g.(nextPlayer := w)
      case None => g
    else
      g.(nextPlayer := (g.nextPlayer + 1) % 4)
  }

  /** `is_ready_to_play`, the same test as in the library engine. */
  function IsReadyToPlay(g: Game): (r: bool)
    ensures r ==> DetermineTrickWinner(g, g.trick).None?
  {
    && |g.played| == 0
    && g.contract != NoContract
    && g.trick == 0
    && forall p :: 0 <= p < 4 ==> |g.hands[p].cards| == 8 && |g.hands[p].played| == 0
  }

  /** Because the contract starts as a Call, a new game is ready at once. */
  lemma NewGameIsReady(deck: seq<Card>)
    requires IsDeck(deck)
    ensures IsReadyToPlay(NewGame(deck))
  {
  }

  /** `play_card`, without any guard: the card is recorded, moved from the
      mover's held cards (every copy) to their played cards, and the move
      passes on. */
  function PlayCard(g: Game, card: Card): (r: Game)
    requires g.nextPlayer < 4
    ensures r.played == g.played + [card]
    ensures r.hands[g.nextPlayer].played == g.hands[g.nextPlayer].played + [card]
    ensures multiset(r.hands[g.nextPlayer].cards) == multiset(g.hands[g.nextPlayer].cards)[card := 0]
    ensures forall p :: 0 <= p < 4 && p != g.nextPlayer ==> r.hands[p] == g.hands[p]
    ensures r.trick == g.trick && r.contract == g.contract && r.ranAway == g.ranAway
    ensures |g.played| % 4 != 3 ==> r.nextPlayer == (g.nextPlayer + 1) % 4
    ensures |g.played| % 4 == 3 && |TrickCards(r, r.trick)| < 4 ==> r.nextPlayer == g.nextPlayer
    ensures |g.played| % 4 == 3 && |TrickCards(r, r.trick)| == 4 ==>
      IsLastStrongest(TrickCards(r, r.trick), r.contract, r.nextPlayer)
    ensures r.nextPlayer < 4
  {
    var m := MoveCard(g, card);
    assert |m.played| % 4 == 0 <==> |g.played| % 4 == 3;
    UpdateNextPlayer(m)
  }

  /** The first part of `play_card`: record the card and move it from the
      mover's held cards to their played cards. */
  function MoveCard(g: Game, card: Card): (r: Game)
    requires g.nextPlayer < 4
    ensures r.played == g.played + [card]
    ensures r.hands[g.nextPlayer].played == g.hands[g.nextPlayer].played + [card]
    ensures multiset(r.hands[g.nextPlayer].cards) == multiset(g.hands[g.nextPlayer].cards)[card := 0]
    ensures forall p :: 0 <= p < 4 && p != g.nextPlayer ==> r.hands[p] == g.hands[p]
    ensures r == g.(played := r.played, hands := r.hands)
  {
    var np := g.nextPlayer;
    var h := g.hands[np];
    GameLogic.RemoveMultiset(h.cards, card);
    var h' := Hand(Filter(h.cards, GameLogic.Other(card)), h.played + [card]);
    g.(played := g.played + [card], hands := g.hands[np := h'])
  }

  /** In a new game the four first cards are played by players 0, 1, 2, 3
      in turn, so the winning position is also the winning player, who
      moves next. */
  lemma FirstTrickWinnerMovesNext(deck: seq<Card>, c0: Card, c1: Card, c2: Card, c3: Card)
    requires IsDeck(deck)
    ensures var g := PlayCard(PlayCard(PlayCard(PlayCard(NewGame(deck), c0), c1), c2), c3);
      && g.played == [c0, c1, c2, c3]
      && g.nextPlayer == WinnerPosition([c0, c1, c2, c3], Call(Acorns))
      && g.hands[g.nextPlayer].played == [[c0, c1, c2, c3][g.nextPlayer]]
  {
    var g3 := PlayCard(PlayCard(PlayCard(NewGame(deck), c0), c1), c2);
    FirstThreePlays(NewGame(deck), c0, c1, c2);
    FourthPlay(g3, c0, c1, c2, c3);
    WinnerIsTheLastStrongest([c0, c1, c2, c3], Call(Acorns), PlayCard(g3, c3).nextPlayer);
  }

  /** Player 3 completes the first trick; the move goes to the position of
      its last strongest card, and each player has played their own card. */
  lemma FourthPlay(g3: Game, c0: Card, c1: Card, c2: Card, c3: Card)
    requires g3.played == [c0, c1, c2] && g3.nextPlayer == 3 && g3.trick == 0
    requires g3.hands[0].played == [c0] && g3.hands[1].played == [c1]
    requires g3.hands[2].played == [c2] && g3.hands[3].played == []
    ensures var g4 := PlayCard(g3, c3);
      && g4.played == [c0, c1, c2, c3]
      && IsLastStrongest([c0, c1, c2, c3], g3.contract, g4.nextPlayer)
      && forall p :: 0 <= p < 4 ==> g4.hands[p].played == [[c0, c1, c2, c3][p]]
  {
    var g4 := PlayCard(g3, c3);
    assert g4.played == [c0, c1, c2, c3];
    assert TrickCards(g4, 0) == [c0, c1, c2, c3];
  }

  /** Players 0, 1 and 2 each play one card from a fresh start. */
  lemma FirstThreePlays(g0: Game, c0: Card, c1: Card, c2: Card)
    requires g0.nextPlayer == 0 && g0.played == []
    requires forall p :: 0 <= p < 4 ==> g0.hands[p].played == []
    ensures var g3 := PlayCard(PlayCard(PlayCard(g0, c0), c1), c2);
      && g3.played == [c0, c1, c2] && g3.nextPlayer == 3
      && g3.trick == g0.trick && g3.contract == g0.contract
      && g3.hands[0].played == [c0] && g3.hands[1].played == [c1]
      && g3.hands[2].played == [c2] && g3.hands[3].played == []
  {
    FirstTwoPlays(g0, c0, c1);
    var g2 := PlayCard(PlayCard(g0, c0), c1);
    NextPlay(g2, [c0, c1], c2);
    assert [c0, c1] + [c2] == [c0, c1, c2];
  }

  lemma FirstTwoPlays(g0: Game, c0: Card, c1: Card)
    requires g0.nextPlayer == 0 && g0.played == []
    requires forall p :: 0 <= p < 4 ==> g0.hands[p].played == []
    ensures var g2 := PlayCard(PlayCard(g0, c0), c1);
      && g2.played == [c0, c1] && g2.nextPlayer == 2
      && g2.trick == g0.trick && g2.contract == g0.contract
      && g2.hands[0].played == [c0] && g2.hands[1].played == [c1]
      && g2.hands[2].played == [] && g2.hands[3].played == []
  {
    NextPlay(g0, [], c0);
    var g1 := PlayCard(g0, c0);
    assert [] + [c0] == [c0];
    NextPlay(g1, [c0], c1);
    assert [c0] + [c1] == [c0, c1];
  }

  /** A play that does not complete a trick: the card is appended to the
      plays and to the mover's played cards, and the next seat moves. */
  lemma NextPlay(g: Game, before: seq<Card>, c: Card)
    requires g.played == before && |before| < 3 && g.nextPlayer < 4
    ensures var r := PlayCard(g, c);
      && r.played == before + [c] && r.nextPlayer == (g.nextPlayer + 1) % 4
      && r.trick == g.trick && r.contract == g.contract
      && r.hands[g.nextPlayer].played == g.hands[g.nextPlayer].played + [c]
      && forall p :: 0 <= p < 4 && p != g.nextPlayer ==> r.hands[p] == g.hands[p]
  {
  }

  /** When the first mover is not player 0 the position is not the player:
      led by player 1, the Acorns Ace in second position wins for player 2,
      yet the move goes to player 1. */
  lemma WinnerPositionIsNotThePlayer(hands: GameLogic.Hands)
    ensures var g := Game(0, false, 1, [], hands, Call(Acorns));
      var g4 := PlayCard(PlayCard(PlayCard(PlayCard(g,
        Card(Acorns, Seven)), Card(Acorns, Ace)), Card(Acorns, Eight)), Card(Acorns, Nine));
      && g4.hands[2].played == hands[2].played + [Card(Acorns, Ace)]
      && g4.nextPlayer == 1
  {
    var g := Game(0, false, 1, [], hands, Call(Acorns));
    NextPlay(g, [], Card(Acorns, Seven));
    var g1 := PlayCard(g, Card(Acorns, Seven));
    NextPlay(g1, [Card(Acorns, Seven)], Card(Acorns, Ace));
    var g2 := PlayCard(g1, Card(Acorns, Ace));
    NextPlay(g2, [Card(Acorns, Seven), Card(Acorns, Ace)], Card(Acorns, Eight));
    var g3 := PlayCard(g2, Card(Acorns, Eight));
    var trick := [Card(Acorns, Seven), Card(Acorns, Ace), Card(Acorns, Eight), Card(Acorns, Nine)];
    LeadFromSeatOne(g3, hands[2].played, trick);
  }

  /** The fourth card of the trick, played by seat 0 after the Acorns Ace
      went to seat 2: the move goes to position 1. */
  lemma LeadFromSeatOne(g3: Game, before: seq<Card>, trick: seq<Card>)
    requires trick == [Card(Acorns, Seven), Card(Acorns, Ace), Card(Acorns, Eight), Card(Acorns, Nine)]
    requires g3.played == trick[..3] && g3.nextPlayer == 0 && g3.trick == 0 && g3.contract == Call(Acorns)
    ensures var g4 := PlayCard(g3, trick[3]);
      g4.hands[2] == g3.hands[2] && g4.nextPlayer == 1
  {
    var g4 := PlayCard(g3, trick[3]);
    assert g4.played == trick;
    assert TrickCards(g4, 0) == trick;
    AceWinsInSecondPosition();
    WinnerIsTheLastStrongest(trick, Call(Acorns), 1);
    WinnerIsTheLastStrongest(trick, Call(Acorns), g4.nextPlayer);
  }

  lemma AceWinsInSecondPosition()
    ensures IsLastStrongest([Card(Acorns, Seven), Card(Acorns, Ace), Card(Acorns, Eight), Card(Acorns, Nine)], Call(Acorns), 1)
  {
  }

  /** `action_is_valid`: the shared legality rules on the current trick. */
  function GameActionIsValid(g: Game, action: Card, hand: Option<Hand>): (r: bool)
    requires g.contract.Call? || |TrickCards(g, g.trick)| > 0
    ensures hand.None? ==> (r <==> !g.contract.Call?)
    ensures g.contract.Call? && r ==> action.suit == g.contract.suit
  {
    ActionIsValid(g.contract, TrickCards(g, g.trick), action, hand)
  }

  /** `get_valid_actions`: the held cards valid for this hand, in order. */
  method GetValidActions(g: Game, h: Hand) returns (legal: seq<Card>)
    requires g.contract.Call? || |TrickCards(g, g.trick)| > 0 || h.cards == []
    ensures h.cards == [] ==> legal == []
    ensures h.cards != [] ==> legal == Filter(h.cards, ValidFor(g.contract, TrickCards(g, g.trick), h))
    ensures forall c :: c in legal <==> c in h.cards && GameActionIsValid(g, c, Some(h))
    ensures |legal| <= |h.cards|
  {
    legal := LegalActions(g.contract, TrickCards(g, g.trick), h);
  }

  /** The legacy `valid_bids` takes no hand; it is the library's
      `valid_bids(None)`. The rest of the legacy auction is the library's. */
  function LegacyValidBids(a: Auction): (r: seq<Contract>)
    ensures r == ValidBids(a, None)
    ensures forall b :: b in r <==> Outbids(b, a.highestBid)
  {
    BidsOver(a.highestBid)
  }

  /** The legacy auction tests, for any auction: over a Call the hand-less
      list is the four Solos, the Wenz and passing; over a Solo it is empty;
      before the first bid it is all nine contracts. */
  lemma LegacyBidOptions(a: Auction)
    ensures a.highestBid.Call? ==>
      LegacyValidBids(a) == [Solo(Acorns), Solo(Bells), Solo(Leaves), Solo(Hearts), Wenz, NoContract]
    ensures a.highestBid.Solo? ==> LegacyValidBids(a) == []
    ensures a.highestBid == NoContract ==> LegacyValidBids(a) == AllBids()
  {
    ValidBidsTable(a);
  }
}
