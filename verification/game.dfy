/** The card-play state machine of the library engine (`Game`): tricks,
    their winners, the next player, playing a card and counting points. */
module GameLogic {
  import opened Seqs
  import opened Options
  import opened Cards
  import opened Tricks
  import opened Legality
  import opened Dealing

  /** `PlayedCard(card, player)`: a card and the index of the player who
      played it. Player indices are `usize` in the source, so any `nat`. */
  datatype PlayedCard = PlayedCard(card: Card, player: nat)

  /** The four hands, indexed by player. */
  type Hands = h: seq<Hand> | |h| == 4
    witness [Hand([], []), Hand([], []), Hand([], []), Hand([], [])]

  datatype Game = Game(
    trick: Byte,
    ranAway: bool,
    nextPlayer: nat,
    declarer: nat,
    played: seq<PlayedCard>,
    hands: Hands,
    contract: Contract)

  /** `Game::new`: nothing played, no contract, the forehand to move, and
      the four hands dealt from the shuffled pack `deck`. */
  function NewGame(forehand: nat, deck: seq<Card>): (g: Game)
    requires IsDeck(deck)
    ensures g.trick == 0 && !g.ranAway && g.nextPlayer == forehand && g.declarer == 0
    ensures g.played == [] && g.contract == NoContract
    ensures forall p :: 0 <= p < 4 ==> |g.hands[p].cards| == 8 && g.hands[p].played == []
    ensures g.hands == DealHands(deck)
  {
    Game(0, false, forehand, 0, [], DealHands(deck), NoContract)
  }

  /** The cards of a sequence of plays. */
  function CardsOf(ps: seq<PlayedCard>): (r: seq<Card>)
    ensures |r| == |ps|
    ensures forall i :: 0 <= i < |ps| ==> r[i] == ps[i].card
  {
    seq(|ps|, i requires 0 <= i < |ps| => ps[i].card)
  }

  lemma CardsOfSlice(ps: seq<PlayedCard>, a: nat, b: nat)
    requires a <= b <= |ps|
    ensures CardsOf(ps[a..b]) == CardsOf(ps)[a..b]
  {
  }

  lemma CardsOfConcat(a: seq<PlayedCard>, b: seq<PlayedCard>)
    ensures CardsOf(a + b) == CardsOf(a) + CardsOf(b)
  {
  }

  /** Where trick `t` starts: `(trick * 4) as usize` on a `u8`, which wraps
      around in a release build. */
  function TrickStart(t: Byte): (s: nat)
    ensures t < 64 ==> s == 4 * t
    ensures s < 256
  {
    (t * 4) % 256
  }

  /** `played.iter().skip(trick * 4).take(4)`: the at most four plays from
      the start of trick `t` on. */
  function TrickCards(g: Game, t: Byte): (r: seq<PlayedCard>)
    ensures |r| <= 4
    ensures |r| == 4 <==> TrickStart(t) + 4 <= |g.played|
    ensures TrickStart(t) <= |g.played| ==> |r| == Min(4, |g.played| - TrickStart(t))
    ensures TrickStart(t) >= |g.played| ==> r == []
    ensures forall i :: 0 <= i < |r| ==> r[i] == g.played[TrickStart(t) + i]
  {
    var s := TrickStart(t);
    if s >= |g.played| then [] else g.played[s..Min(s + 4, |g.played|)]
  }

  function Min(a: nat, b: nat): nat {
    if a <= b then a else b
  }

  /** `determine_trick_winner`: no winner while the trick is incomplete;
      otherwise the player of the card that `max_by` picks, the last of the
      strongest cards under the trick comparator. */
  function DetermineTrickWinner(g: Game, t: Byte): (w: Option<nat>)
    ensures w.None? <==> |TrickCards(g, t)| < 4
  {
    var trick := TrickCards(g, t);
    if |trick| < 4 then None
    else Some(trick[WinnerPosition(CardsOf(trick), g.contract)].player)
  }

  /** A complete trick is won by the player of the card that is last among
      the strongest under the trick comparator, and the card at any position
      `q` with that property is that card. */
  lemma TrickWinnerIsLastStrongest(g: Game, t: Byte, q: nat)
    requires |TrickCards(g, t)| == 4
    ensures exists p: nat :: IsLastStrongest(CardsOf(TrickCards(g, t)), g.contract, p)
                             && DetermineTrickWinner(g, t) == Some(TrickCards(g, t)[p].player)
    ensures IsLastStrongest(CardsOf(TrickCards(g, t)), g.contract, q) ==>
      DetermineTrickWinner(g, t) == Some(TrickCards(g, t)[q].player)
  {
    WinnerIsTheLastStrongest(CardsOf(TrickCards(g, t)), g.contract, q);
  }

  /** The `u8` multiplication wraps: trick 64 is read from the start of the
      game again, so it has the same cards and winner as trick 0. */
  lemma Trick64WrapsToTrick0(g: Game)
    ensures TrickCards(g, 64) == TrickCards(g, 0)
    ensures DetermineTrickWinner(g, 64) == DetermineTrickWinner(g, 0)
  {
  }

  /** `update_next_player`. After a multiple of four plays the move goes to
      the winner of the trick numbered by the `trick` field, if it has one;
      otherwise it passes to the next seat. */
  function UpdateNextPlayer(g: Game): (r: Game)
    ensures r == g.(nextPlayer := r.nextPlayer)
    ensures |g.played| % 4 != 0 ==> r.nextPlayer == (g.nextPlayer + 1) % 4
    ensures |g.played| % 4 == 0 && |TrickCards(g, g.trick)| < 4 ==> r.nextPlayer == g.nextPlayer
    ensures |g.played| % 4 == 0 && |TrickCards(g, g.trick)| == 4 ==>
      r.nextPlayer == DetermineTrickWinner(g, g.trick).value
  {
    if |g.played| % 4 == 0 then
      match DetermineTrickWinner(g, g.trick)
      case Some(w) => g.(nextPlayer := w)
      case None => g
    else
      g.(nextPlayer := (g.nextPlayer + 1) % 4)
  }

  /** After a complete trick the move goes to the player of its last
      strongest card. */
  lemma NextPlayerIsTrickWinner(g: Game, q: nat)
    requires |g.played| % 4 == 0 && |TrickCards(g, g.trick)| == 4
    requires IsLastStrongest(CardsOf(TrickCards(g, g.trick)), g.contract, q)
    ensures UpdateNextPlayer(g).nextPlayer == TrickCards(g, g.trick)[q].player
  {
    TrickWinnerIsLastStrongest(g, g.trick, q);
  }

  /** `trick` is never advanced (`update_trick` is never called), so once
      two tricks are complete the move still goes to the winner of the first
      trick, not of the second. */
  lemma NextPlayerFollowsFirstTrick(g: Game)
    requires g.trick == 0 && |g.played| == 8
    ensures UpdateNextPlayer(g).nextPlayer == DetermineTrickWinner(g, 0).value
  {
  }

  /** `update_trick`: the number of complete tricks, computed on the play
      count cast to `u8`. */
  function UpdateTrick(g: Game): (r: Game)
    ensures r == g.(trick := r.trick)
    ensures 4 * r.trick <= |g.played| % 256 < 4 * r.trick + 4
  {
    g.(trick := (|g.played| % 256) / 4)
  }

  /** With fewer than 256 plays, the trick `update_trick` selects holds
      exactly the plays after the last complete trick. */
  lemma UpdateTrickSelectsOpenTrick(g: Game)
    requires |g.played| < 256
    ensures var u := UpdateTrick(g);
      TrickCards(u, u.trick) == g.played[4 * (|g.played| / 4)..]
      && |TrickCards(u, u.trick)| < 4
  {
    var u := UpdateTrick(g);
    var n := |g.played| / 4;
    assert u.trick == n;
    assert TrickStart(u.trick) == 4 * n;
  }

  /** `is_ready_to_play`: nothing played, a contract set, trick zero and
      every hand full with nothing played. */
  function IsReadyToPlay(g: Game): (r: bool)
    ensures r ==> !IsOver(g) && DetermineTrickWinner(g, g.trick).None?
  {
    && |g.played| == 0
    && g.contract != NoContract
    && g.trick == 0
    && forall p :: 0 <= p < 4 ==> |g.hands[p].cards| == 8 && |g.hands[p].played| == 0
  }

  /** `is_over`: 32 plays, so the eighth trick is complete. */
  function IsOver(g: Game): (r: bool)
    ensures r ==> DetermineTrickWinner(g, 7).Some?
  {
    |g.played| == 32
  }

  /** A fresh game is not ready to play until a contract is assigned; then
      it is. */
  lemma NewGameReadyOnceContracted(forehand: nat, deck: seq<Card>, k: Contract)
    requires IsDeck(deck)
    ensures !IsReadyToPlay(NewGame(forehand, deck))
    ensures k != NoContract ==> IsReadyToPlay(NewGame(forehand, deck).(contract := k))
  {
  }

  function Other(card: Card): Card -> bool {
    (c: Card) => c != card
  }

  /** Keeping the cards different from `card` removes every copy of it. */
  lemma {:induction false} RemoveMultiset(s: seq<Card>, card: Card)
    ensures multiset(Filter(s, Other(card))) == multiset(s)[card := 0]
  {
    if s != [] {
      var t := s[1..];
      RemoveMultiset(t, card);
      assert s == [s[0]] + t;
      assert multiset(s) == multiset{s[0]} + multiset(t);
      assert Filter(s, Other(card)) == (if s[0] != card then [s[0]] else []) + Filter(t, Other(card));
    }
  }

  /** `play_card`. Unless the game is ready to play nothing happens. When it
      is, the card is recorded for the player to move, moved from that
      player's held cards (every copy) to their played cards, and the move
      passes on. The card is not checked against the hand. */
  function PlayCard(g: Game, card: Card): (r: Game)
    requires IsReadyToPlay(g) ==> g.nextPlayer < 4
    ensures !IsReadyToPlay(g) ==> r == g
    ensures IsReadyToPlay(g) ==>
      && r.played == [PlayedCard(card, g.nextPlayer)]
      && r.nextPlayer == (g.nextPlayer + 1) % 4
      && r.hands[g.nextPlayer].played == [card]
      && multiset(r.hands[g.nextPlayer].cards) == multiset(g.hands[g.nextPlayer].cards)[card := 0]
      && (forall p :: 0 <= p < 4 && p != g.nextPlayer ==> r.hands[p] == g.hands[p])
      && r.trick == g.trick && r.ranAway == g.ranAway && r.declarer == g.declarer
      && r.contract == g.contract
  {
    if !IsReadyToPlay(g) then g
    else
      var np := g.nextPlayer;
      var h := g.hands[np];
      RemoveMultiset(h.cards, card);
      var h' := Hand(Filter(h.cards, Other(card)), h.played + [card]);
      UpdateNextPlayer(g.(played := g.played + [PlayedCard(card, np)], hands := g.hands[np := h']))
  }

  /** The guard admits only the very first play: after it the game is never
      ready again, so every later `play_card` leaves it unchanged. */
  lemma OnlyFirstPlayCounts(g: Game, c1: Card, c2: Card)
    requires IsReadyToPlay(g) ==> g.nextPlayer < 4
    ensures !IsReadyToPlay(PlayCard(g, c1))
    ensures PlayCard(PlayCard(g, c1), c2) == PlayCard(g, c1)
  {
  }

  /** Playing a sequence of cards, one `play_card` after another. */
  function PlayCards(g: Game, cards: seq<Card>): Game
    requires IsReadyToPlay(g) ==> g.nextPlayer < 4
    decreases |cards|
  {
    if cards == [] then g
    else
      OnlyFirstPlayCounts(g, cards[0], cards[0]);
      PlayCards(PlayCard(g, cards[0]), cards[1..])
  }

  /** A whole sequence of plays has the effect of its first card alone. */
  lemma {:induction false} PlaySequence(g: Game, cards: seq<Card>)
    requires IsReadyToPlay(g) ==> g.nextPlayer < 4
    requires cards != []
    ensures PlayCards(g, cards) == PlayCard(g, cards[0])
  {
    var g1 := PlayCard(g, cards[0]);
    OnlyFirstPlayCounts(g, cards[0], cards[0]);
    StuckGame(g1, cards[1..]);
  }

  lemma {:induction false} StuckGame(g: Game, cards: seq<Card>)
    requires !IsReadyToPlay(g)
    ensures PlayCards(g, cards) == g
  {
    if cards != [] {
      StuckGame(g, cards[1..]);
    }
  }

  /** From a new game, however many cards are played, the game is never
      over: at most one card is ever recorded. */
  lemma NewGameNeverEnds(forehand: nat, deck: seq<Card>, k: Contract, cards: seq<Card>)
    requires IsDeck(deck) && forehand < 4
    ensures var g := NewGame(forehand, deck).(contract := k);
      |PlayCards(g, cards).played| <= 1 && !IsOver(PlayCards(g, cards))
  {
    var g := NewGame(forehand, deck).(contract := k);
    if cards != [] {
      PlaySequence(g, cards);
    }
  }

  /** `action_is_valid` on the game: the legality rules applied to the
      cards of the trick numbered by the `trick` field. */
  function GameActionIsValid(g: Game, action: Card, hand: Option<Hand>): (r: bool)
    requires g.contract.Call? || |TrickCards(g, g.trick)| > 0
    ensures hand.None? ==> (r <==> !g.contract.Call?)
    ensures g.contract.Call? && r ==> action.suit == g.contract.suit
  {
    ActionIsValid(g.contract, CardsOf(TrickCards(g, g.trick)), action, hand)
  }

  /** `get_legal_actions` on the game: the held cards valid for this hand. */
  method GetLegalActions(g: Game, h: Hand) returns (legal: seq<Card>)
    requires g.contract.Call? || |TrickCards(g, g.trick)| > 0 || h.cards == []
    ensures h.cards == [] ==> legal == []
    ensures h.cards != [] ==> legal == Filter(h.cards, ValidFor(g.contract, CardsOf(TrickCards(g, g.trick)), h))
    ensures forall c :: c in legal <==> c in h.cards && GameActionIsValid(g, c, Some(h))
    ensures |legal| <= |h.cards|
  {
    legal := LegalActions(g.contract, CardsOf(TrickCards(g, g.trick)), h);
  }

  /** Card points of trick `t`: `fold(0, |acc, c| acc + c.points())`. At
      most 44, so the `u8` fold never wraps. */
  function TrickPoints(g: Game, t: Byte): nat {
    SumPoints(CardsOf(TrickCards(g, t)))
  }

  /** Every complete trick among the first eight is won by a seat `0..3`,
      as indexing the four point totals requires. */
  predicate WinnersAreSeats(g: Game) {
    forall t: Byte :: t < 8 ==> SeatOrNone(DetermineTrickWinner(g, t))
  }

  predicate SeatOrNone(w: Option<nat>) {
    w.Some? ==> w.value < 4
  }

  /** `points[winner] += trick_points` on four totals, wrapping at 256 when
      `wrap` holds and unbounded otherwise; no winner, no change. */
  function Award(pts: seq<nat>, w: Option<nat>, points: nat, wrap: bool): (r: seq<nat>)
    requires |pts| == 4 && SeatOrNone(w)
    ensures |r| == 4
    ensures wrap && (forall p :: 0 <= p < 4 ==> pts[p] < 256) ==> forall p :: 0 <= p < 4 ==> r[p] < 256
    ensures !wrap ==> Sum4(r) == Sum4(pts) + (if w.Some? then points else 0)
    ensures !wrap ==> forall p :: 0 <= p < 4 ==> r[p] == pts[p] + (if w == Some(p) then points else 0)
  {
    match w
    case None => pts
    case Some(p) => pts[p := if wrap then (pts[p] + points) % 256 else pts[p] + points]
  }

  /** Wrapping each addition is wrapping the unbounded total once. */
  lemma AwardWraps(c: seq<nat>, u: seq<nat>, w: Option<nat>, points: nat)
    requires |c| == 4 && |u| == 4 && SeatOrNone(w)
    requires forall p :: 0 <= p < 4 ==> c[p] == u[p] % 256
    ensures forall p :: 0 <= p < 4 ==> Award(c, w, points, true)[p] == Award(u, w, points, false)[p] % 256
  {
    if w.Some? {
      ModAdd(u[w.value], points);
    }
  }

  lemma ModAdd(a: nat, b: nat)
    ensures (a % 256 + b) % 256 == (a + b) % 256
  {
    var q := a / 256;
    assert a == 256 * q + a % 256;
    assert a + b == 256 * q + (a % 256 + b);
  }

  /** The four point totals after the loop of `get_points` has run over
      tricks `0..n`, with `u8` totals when `wrap` holds. Unbounded, each
      seat's total is the points of the tricks it won. */
  function Credit(g: Game, n: nat, wrap: bool): (pts: seq<nat>)
    requires n <= 8 && WinnersAreSeats(g)
    ensures |pts| == 4
    ensures wrap ==> forall p :: 0 <= p < 4 ==> pts[p] < 256
    ensures !wrap ==> forall p :: 0 <= p < 4 ==> pts[p] == WonPoints(g, n, p)
  {
    if n == 0 then [0, 0, 0, 0]
    else
      var t: Byte := n - 1;
      Award(Credit(g, n - 1, wrap), DetermineTrickWinner(g, t), TrickPoints(g, t), wrap)
  }

  /** Reference for one total: the points of the complete tricks among the
      first `n` that seat `p` won. */
  function WonPoints(g: Game, n: nat, p: nat): nat
    requires n <= 8
  {
    if n == 0 then 0
    else
      var t: Byte := n - 1;
      WonPoints(g, n - 1, p) + (if DetermineTrickWinner(g, t) == Some(p) then TrickPoints(g, t) else 0)
  }

  /** `get_points`: four `u8` totals, seat `p` holding the points of the
      tricks it won, modulo 256. */
  function GetPoints(g: Game): (pts: seq<nat>)
    requires WinnersAreSeats(g)
    ensures |pts| == 4
    ensures forall p :: 0 <= p < 4 ==> pts[p] < 256
    ensures forall p :: 0 <= p < 4 ==> pts[p] == WonPoints(g, 8, p) % 256
  {
    CreditWraps(g, 8);
    Credit(g, 8, true)
  }

  /** The `u8` totals are the unbounded totals modulo 256. */
  lemma {:induction false} CreditWraps(g: Game, n: nat)
    requires n <= 8 && WinnersAreSeats(g)
    ensures forall p :: 0 <= p < 4 ==> Credit(g, n, true)[p] == Credit(g, n, false)[p] % 256
  {
    if n > 0 {
      CreditWraps(g, n - 1);
      var t: Byte := n - 1;
      AwardWraps(Credit(g, n - 1, true), Credit(g, n - 1, false), DetermineTrickWinner(g, t), TrickPoints(g, t));
    }
  }

  function Sum4(pts: seq<nat>): nat
    requires |pts| == 4
  {
    pts[0] + pts[1] + pts[2] + pts[3]
  }

  /** Number of complete tricks among the first `n`. */
  function Complete(g: Game, n: nat): nat {
    Min(n, |g.played| / 4)
  }

  /** The unbounded totals together are the card points of the complete
      tricks among the first `n`. */
  lemma {:induction false} CreditTotal(g: Game, n: nat)
    requires n <= 8 && WinnersAreSeats(g)
    ensures Sum4(Credit(g, n, false)) == SumPoints(CardsOf(g.played[..4 * Complete(g, n)]))
  {
    if n == 0 {
      assert CardsOf(g.played[..0]) == [];
    } else {
      CreditTotal(g, n - 1);
      var t: Byte := n - 1;
      var before := Credit(g, n - 1, false);
      assert Credit(g, n, false) == Award(before, DetermineTrickWinner(g, t), TrickPoints(g, t), false);
      if 4 * n <= |g.played| {
        PrefixPointsStep(g, n);
      } else {
        assert Complete(g, n) == Complete(g, n - 1);
      }
    }
  }

  /** The points of the first `n` tricks are those of the first `n - 1`
      plus those of trick `n - 1`. */
  lemma PrefixPointsStep(g: Game, n: nat)
    requires 0 < n <= 8 && 4 * n <= |g.played|
    ensures SumPoints(CardsOf(g.played[..4 * n]))
         == SumPoints(CardsOf(g.played[..4 * (n - 1)])) + TrickPoints(g, n - 1)
  {
    var t: Byte := n - 1;
    var pre, trick := g.played[..4 * (n - 1)], g.played[4 * (n - 1)..4 * n];
    assert TrickCards(g, t) == trick;
    assert g.played[..4 * n] == pre + trick;
    CardsOfConcat(pre, trick);
    SumPointsConcat(CardsOf(pre), CardsOf(trick));
  }

  /** When no card is recorded twice, no total wraps: `get_points` shares
      out exactly the points of the complete tricks, at most 120. */
  lemma GetPointsShareCompleteTricks(g: Game)
    requires WinnersAreSeats(g)
    requires Distinct(CardsOf(g.played))
    ensures Sum4(GetPoints(g)) == SumPoints(CardsOf(g.played[..4 * Complete(g, 8)]))
    ensures Sum4(GetPoints(g)) <= 120
  {
    CreditTotal(g, 8);
    PrefixPointsBound(g, 4 * Complete(g, 8));
    NoWrapBelow256(g);
  }

  /** A duplicate-free prefix of the plays is worth at most 120 points. */
  lemma PrefixPointsBound(g: Game, m: nat)
    requires m <= |g.played|
    requires Distinct(CardsOf(g.played))
    ensures SumPoints(CardsOf(g.played[..m])) <= 120
  {
    CardsOfSlice(g.played, 0, m);
    assert g.played[0..m] == g.played[..m];
    assert Distinct(CardsOf(g.played)[..m]);
    DistinctPointsBound(CardsOf(g.played)[..m]);
  }

  /** Unbounded totals that add up to less than 256 are the `u8` totals. */
  lemma NoWrapBelow256(g: Game)
    requires WinnersAreSeats(g)
    requires Sum4(Credit(g, 8, false)) < 256
    ensures Sum4(GetPoints(g)) == Sum4(Credit(g, 8, false))
  {
    CreditWraps(g, 8);
    SmallTotals(GetPoints(g), Credit(g, 8, false));
  }

  lemma SmallTotals(c: seq<nat>, u: seq<nat>)
    requires |c| == 4 && |u| == 4 && Sum4(u) < 256
    requires forall p :: 0 <= p < 4 ==> c[p] == u[p] % 256
    ensures Sum4(c) == Sum4(u)
  {
    assert c[0] == u[0] && c[1] == u[1] && c[2] == u[2] && c[3] == u[3];
  }

  /** When the 32 plays are the whole pack, the totals add up to 120. */
  lemma GetPointsOfAFullGame(g: Game)
    requires WinnersAreSeats(g)
    requires IsDeck(CardsOf(g.played))
    ensures Sum4(GetPoints(g)) == 120
  {
    DeckLength(CardsOf(g.played));
    GetPointsShareCompleteTricks(g);
    assert g.played[..32] == g.played;
    DeckPoints(CardsOf(g.played));
  }
}
