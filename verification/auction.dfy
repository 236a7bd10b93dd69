/** The auction that decides the contract (`Auction`): four announcements
    of intent, then bids among those who want to play. */
module Auctions {
  import opened Seqs
  import opened Options
  import opened Cards
  import opened Legality

  /** The four intents, indexed by player. */
  type Intents = s: seq<bool> | |s| == 4 witness [false, false, false, false]

  /** `intent_count` is private and only ever counts up to four. */
  type Count = n: nat | n <= 4

  datatype Auction = Auction(
    highestBid: Contract,
    highestBidder: nat,
    nextBidder: Option<nat>,
    intent: Intents,
    intentCount: Count)

  /** `Auction::new`: no bid yet, the starting bidder first to announce and
      provisionally the highest bidder. */
  function NewAuction(start: nat): (a: Auction)
    ensures a.highestBid == NoContract && a.highestBidder == start && a.nextBidder == Some(start)
    ensures a.intentCount == 0 && forall p :: 0 <= p < 4 ==> !a.intent[p]
  {
    Auction(NoContract, start, Some(start), [false, false, false, false], 0)
  }

  /** The nine bids `valid_bids` starts from, in the source's order. */
  function AllBids(): seq<Contract> {
    [Call(Acorns), Call(Bells), Call(Leaves), Call(Hearts),
     Solo(Acorns), Solo(Bells), Solo(Leaves), Solo(Hearts), Wenz]
  }

  /** The rank a bid must exceed: a Call is outbid by a Wenz or a Solo, a
      Wenz by a Solo, a Solo by nothing. */
  function BidRank(k: Contract): nat {
    match k
    case Call(_) => 1
    case Wenz => 2
    case Solo(_) => 3
    case _ => 0
  }

  /** The rule `valid_bids(None)` implements: a real bid must rank above the
      highest bid so far, and passing (`NoContract`) is offered only over a
      Call or a Wenz. Before the first bid passing is not offered. */
  function Outbids(b: Contract, highest: Contract): (r: bool)
    ensures highest.Solo? ==> !r
    ensures b.Ramsch? ==> !r
    ensures r && b.Call? ==> highest == NoContract || highest.Ramsch?
    ensures r && b.Wenz? ==> !highest.Wenz?
  {
    if b == NoContract then highest.Call? || highest.Wenz?
    else !b.Ramsch? && BidRank(b) > BidRank(highest)
  }

  lemma SuitCases(b: Contract)
    ensures b.Call? ==> b in [Call(Acorns), Call(Bells), Call(Leaves), Call(Hearts)]
    ensures b.Solo? ==> b in [Solo(Acorns), Solo(Bells), Solo(Leaves), Solo(Hearts)]
  {
    if b.Call? || b.Solo? {
      match b.suit
      case Acorns =>
      case Bells =>
      case Leaves =>
      case Hearts =>
    }
  }

  /** Bids left by the highest bid, before looking at the hand: over a
      Call the Calls are removed and passing appended; over a Solo nothing
      is left; over a Wenz the Calls and the Wenz are removed and passing
      appended; otherwise all nine remain. */
  function BidsOver(highest: Contract): (r: seq<Contract>)
    ensures forall b :: b in r <==> Outbids(b, highest)
  {
    var r := match highest
      case Call(_) => [Solo(Acorns), Solo(Bells), Solo(Leaves), Solo(Hearts), Wenz, NoContract]
      case Solo(_) => []
      case Wenz => [Solo(Acorns), Solo(Bells), Solo(Leaves), Solo(Hearts), NoContract]
      case _ => AllBids();
    assert forall b :: b in r <==> Outbids(b, highest) by {
      forall b
        ensures b in r <==> Outbids(b, highest)
      {
        SuitCases(b);
      }
    }
    r
  }

  /** The hand allows calling suit `s`: it does not hold that Ace itself,
      and it holds a card of that suit that is no trump under the Call. */
  predicate MayCall(h: Hand, s: Suit) {
    !HoldsAce(h, s) && exists c :: c in h.cards && c.suit == s && !IsTrump(c, Call(s))
  }

  /** `valid_bids`. With a hand, a Call survives only if `MayCall` allows it. */
  function ValidBids(a: Auction, hand: Option<Hand>): (r: seq<Contract>)
    ensures hand.None? ==> forall b :: b in r <==> Outbids(b, a.highestBid)
    ensures hand.Some? ==> forall b :: b in r <==>
      Outbids(b, a.highestBid) && (b.Call? ==> MayCall(hand.value, b.suit))
  {
    var bids := BidsOver(a.highestBid);
    match hand
    case None => bids
    case Some(h) =>
      var noAce := Filter(bids, (k: Contract) => !k.Call? || !HoldsAce(h, k.suit));
      Filter(noAce, (k: Contract) => !k.Call? || exists c :: c in h.cards && c.suit == k.suit && !IsTrump(c, Call(k.suit)))
  }

  /** The lists `valid_bids(None)` returns, in order, for each highest bid. */
  lemma ValidBidsTable(a: Auction)
    ensures a.highestBid.NoContract? || a.highestBid.Ramsch? ==> ValidBids(a, None) == AllBids()
    ensures a.highestBid.Call? ==>
      ValidBids(a, None) == [Solo(Acorns), Solo(Bells), Solo(Leaves), Solo(Hearts), Wenz, NoContract]
    ensures a.highestBid.Wenz? ==>
      ValidBids(a, None) == [Solo(Acorns), Solo(Bells), Solo(Leaves), Solo(Hearts), NoContract]
    ensures a.highestBid.Solo? ==> ValidBids(a, None) == []
  {
  }

  /** Every Heart is trump under a Call, so no hand may ever call Hearts. */
  lemma NoCallOfHearts(a: Auction, h: Hand)
    ensures Call(Hearts) !in ValidBids(a, Some(h))
  {
  }

  function NrBidders(intent: Intents): nat {
    Ind(intent[0]) + Ind(intent[1]) + Ind(intent[2]) + Ind(intent[3])
  }

  /** The seat `i` places after `from` round the table. */
  function Seat(from: nat, i: nat): (r: nat)
    ensures r < 4
  {
    (from + i) % 4
  }

  /** How many `(next + 1) % 4` steps, from step `k` on, the skip loop of
      `update_next_bidder` takes to reach a seat with intent. */
  function Steps(intent: Intents, from: nat, k: nat): (j: nat)
    requires 1 <= k <= 4
    requires exists i :: k <= i <= 4 && intent[Seat(from, i)]
    ensures k <= j <= 4
    ensures intent[Seat(from, j)]
    ensures forall i :: k <= i < j ==> !intent[Seat(from, i)]
    decreases 4 - k
  {
    if intent[Seat(from, k)] then k else Steps(intent, from, k + 1)
  }

  /** Some seat has intent, so the skip loop ends within four steps. */
  lemma SomeIntentReached(intent: Intents, from: nat)
    requires NrBidders(intent) > 0
    ensures exists i :: 1 <= i <= 4 && intent[Seat(from, i)]
  {
    var s :| 0 <= s < 4 && intent[s];
    var i := if s > from % 4 then s - from % 4 else s + 4 - from % 4;
    assert Seat(from, i) == s;
  }

  /** The seat the skip loop stops at: the first seat with intent after
      `from`, going round the table. */
  function SkipToIntent(intent: Intents, from: nat): (r: nat)
    requires NrBidders(intent) > 0
    ensures r < 4 && intent[r]
  {
    SomeIntentReached(intent, from);
    Seat(from, Steps(intent, from, 1))
  }

  /** `is_finished`. */
  predicate IsFinished(a: Auction) {
    |ValidBids(a, None)| == 0 || a.nextBidder.None?
  }

  /** The auction is open exactly while someone is to move and some bid
      still outbids the highest one; so a Solo ends it. */
  lemma FinishedWhenNoBidLeft(a: Auction)
    ensures !IsFinished(a) <==> a.nextBidder.Some? && exists b :: Outbids(b, a.highestBid)
    ensures a.highestBid.Solo? ==> IsFinished(a)
  {
    var bids := ValidBids(a, None);
    if |bids| > 0 {
      assert bids[0] in bids;
    }
  }

  /** `update_next_bidder`. */
  function UpdateNextBidder(a: Auction): (r: Auction)
    ensures r == a.(nextBidder := r.nextBidder)
    ensures IsFinished(a) ==> r.nextBidder == None
    ensures !IsFinished(a) && a.intentCount < 4 ==> r.nextBidder == Some((a.nextBidder.value + 1) % 4)
    ensures !IsFinished(a) && a.intentCount == 4 ==>
      (r.nextBidder.None? <==>
        NrBidders(a.intent) == 0 || (NrBidders(a.intent) == 1 && a.highestBid != NoContract))
    ensures a.intentCount == 4 && r.nextBidder.Some? ==> r.nextBidder.value < 4 && a.intent[r.nextBidder.value]
    ensures !IsFinished(a) && a.intentCount == 4 && r.nextBidder.Some? ==>
      exists j :: 1 <= j <= 4 && r.nextBidder.value == Seat(a.nextBidder.value, j)
                && forall i :: 1 <= i < j ==> !a.intent[Seat(a.nextBidder.value, i)]
  {
    if IsFinished(a) then a.(nextBidder := None)
    else if a.intentCount < 4 then a.(nextBidder := Some((a.nextBidder.value + 1) % 4))
    else
      var n := NrBidders(a.intent);
      if n == 0 then a.(nextBidder := None)
      else if n == 1 && a.highestBid != NoContract then a.(nextBidder := None)
      else
        var s := SkipToIntent(a.intent, a.nextBidder.value);
        SkipFindsNextBidder(a.intent, a.nextBidder.value, s);
        a.(nextBidder := Some(s))
  }

  /** The skip lands on the first seat after the current bidder that wants
      to bid; with a single such seat, on that seat. */
  lemma SkipFindsNextBidder(intent: Intents, from: nat, s: nat)
    requires s < 4 && intent[s]
    ensures NrBidders(intent) > 0
    ensures NrBidders(intent) == 1 ==> SkipToIntent(intent, from) == s
    ensures exists j :: 1 <= j <= 4 && SkipToIntent(intent, from) == Seat(from, j)
                     && forall i :: 1 <= i < j ==> !intent[Seat(from, i)]
  {
    SomeIntentReached(intent, from);
    var j := Steps(intent, from, 1);
    var r := SkipToIntent(intent, from);
    assert r == Seat(from, j);
    if NrBidders(intent) == 1 {
      assert forall t :: 0 <= t < 4 && t != s ==> !intent[t];
    }
  }

  /** `announce_intent`: ignored after the fourth announcement; otherwise
      records the intent of the player to announce and moves on. */
  function AnnounceIntent(a: Auction, intent: bool): (r: Auction)
    requires a.intentCount == 4 || (a.nextBidder.Some? && a.nextBidder.value < 4)
    ensures a.intentCount == 4 ==> r == a
    ensures a.intentCount < 4 ==>
      && r.intentCount == a.intentCount + 1
      && r.intent == a.intent[a.nextBidder.value := intent]
      && r.highestBid == a.highestBid && r.highestBidder == a.highestBidder
    ensures a.intentCount < 4 ==>
      r.nextBidder == UpdateNextBidder(a.(intent := r.intent, intentCount := r.intentCount)).nextBidder
  {
    if a.intentCount == 4 then a
    else
      var p := a.nextBidder.value;
      UpdateNextBidder(a.(intent := a.intent[p := intent], intentCount := a.intentCount + 1))
  }

  /** `bid`: the bid must be one `valid_bids(None)` offers. Passing drops the
      bidder's intent; any other bid becomes the highest, by this bidder. */
  function Bid(a: Auction, b: Contract): (r: Auction)
    requires b in ValidBids(a, None)
    requires a.nextBidder.Some? && (b == NoContract ==> a.nextBidder.value < 4)
    ensures r.intentCount == a.intentCount
    ensures b == NoContract ==>
      r.highestBid == a.highestBid && r.highestBidder == a.highestBidder
      && r.intent == a.intent[a.nextBidder.value := false]
    ensures b != NoContract ==>
      r.highestBid == b && r.highestBidder == a.nextBidder.value && r.intent == a.intent
    ensures BidRank(r.highestBid) >= BidRank(a.highestBid)
    ensures r.nextBidder
         == UpdateNextBidder(a.(intent := r.intent, highestBid := r.highestBid, highestBidder := r.highestBidder)).nextBidder
  {
    var p := a.nextBidder.value;
    if b == NoContract then UpdateNextBidder(a.(intent := a.intent[p := false]))
    else UpdateNextBidder(a.(highestBid := b, highestBidder := p))
  }

  /** `bidding_phase_started`: all four intents are in, so any further
      announcement is ignored. */
  function BiddingPhaseStarted(a: Auction): (r: bool)
    ensures r ==> a.intentCount == 4 && AnnounceIntent(a, true) == a && AnnounceIntent(a, false) == a
    ensures !r ==> a.intentCount < 4
  {
    a.intentCount == 4
  }

  /** `winning_contract`: the highest bid once finished, a Ramsch if nobody
      bid, and `NoContract` while still running. */
  function WinningContract(a: Auction): (k: Contract)
    ensures k == NoContract <==> !IsFinished(a)
    ensures IsFinished(a) && a.highestBid != NoContract ==> k == a.highestBid
    ensures IsFinished(a) && a.highestBid == NoContract ==> k == Ramsch
  {
    if IsFinished(a) then
      if a.highestBid == NoContract then Ramsch else a.highestBid
    else NoContract
  }

  /** Once the four intents are in, the bidder to move (if any) is a seat
      that wants to bid. */
  predicate NextBidderWantsToBid(a: Auction) {
    a.intentCount == 4 && a.nextBidder.Some? ==> a.nextBidder.value < 4 && a.intent[a.nextBidder.value]
  }

  /** Announcing and bidding keep that invariant. */
  lemma AuctionKeepsBidderInvariant(a: Auction, intent: bool, b: Contract)
    requires NextBidderWantsToBid(a)
    ensures a.intentCount == 4 || (a.nextBidder.Some? && a.nextBidder.value < 4) ==>
      NextBidderWantsToBid(AnnounceIntent(a, intent))
    ensures b in ValidBids(a, None) && a.nextBidder.Some? && (b == NoContract ==> a.nextBidder.value < 4) ==>
      NextBidderWantsToBid(Bid(a, b))
  {
  }

  /** Four announcements in a row from a new auction. */
  function AnnounceAll(start: nat, i0: bool, i1: bool, i2: bool, i3: bool): Auction
    requires start < 4
  {
    var a1 := AnnounceIntent(NewAuction(start), i0);
    var a2 := AnnounceIntent(a1, i1);
    var a3 := AnnounceIntent(a2, i2);
    AnnounceIntent(a3, i3)
  }

  /** Nobody wants to bid: the auction is over, a Ramsch is played and the
      starting bidder stays the highest bidder, whoever started. */
  lemma NoBidsGiveRamsch(start: nat)
    requires start < 4
    ensures var a := AnnounceAll(start, false, false, false, false);
      IsFinished(a) && WinningContract(a) == Ramsch && a.highestBidder == start
  {
  }

  /** While a real bid can still be made and someone is to move, the
      auction is not finished. */
  lemma OpenWhileOutbiddable(a: Auction, b: Contract)
    requires Outbids(b, a.highestBid) && a.nextBidder.Some?
    ensures !IsFinished(a)
  {
    assert b in ValidBids(a, None);
  }

  /** The one player who wants to bid, seat 3, calls the Acorns Ace and gets
      the contract without further bidding. */
  lemma OneBidderScenario()
    ensures var a := AnnounceAll(0, false, false, false, true);
      && !IsFinished(a) && a.nextBidder == Some(3)
      && Call(Acorns) in ValidBids(a, None)
      && var b := Bid(a, Call(Acorns));
         WinningContract(b) == Call(Acorns) && b.highestBidder == 3
  {
    var a0 := NewAuction(0);
    OpenWhileOutbiddable(a0, Wenz);
    var a1 := AnnounceIntent(a0, false);
    assert a1.nextBidder == Some(1);
    OpenWhileOutbiddable(a1, Wenz);
    var a2 := AnnounceIntent(a1, false);
    assert a2.nextBidder == Some(2);
    OpenWhileOutbiddable(a2, Wenz);
    var a3 := AnnounceIntent(a2, false);
    assert a3.nextBidder == Some(3);
    OpenWhileOutbiddable(a3, Wenz);
    var a := AnnounceIntent(a3, true);
    assert a.intent == [false, false, false, true];
    assert NrBidders(a.intent) == 1;
    SkipFindsNextBidder(a.intent, 3, 3);
    assert a.nextBidder == Some(3);
    OpenWhileOutbiddable(a, Wenz);
    assert Call(Acorns) in ValidBids(a, None);
    var b := Bid(a, Call(Acorns));
    assert b.highestBid == Call(Acorns) && b.highestBidder == 3;
    assert b.nextBidder.None?;
  }

  /** Two players want to bid; after seat 2 calls, seat 3 may go Solo or
      Wenz or pass; after seat 3 plays Solo nothing more may be bid. */
  lemma TwoBidderScenario()
    ensures var a := AnnounceAll(0, false, false, true, true);
      && a.nextBidder == Some(2)
      && Call(Acorns) in ValidBids(a, None)
      && var b := Bid(a, Call(Acorns));
         && b.nextBidder == Some(3)
         && ValidBids(b, None) == [Solo(Acorns), Solo(Bells), Solo(Leaves), Solo(Hearts), Wenz, NoContract]
         && var c := Bid(b, Solo(Acorns));
            ValidBids(c, None) == [] && IsFinished(c) && WinningContract(c) == Solo(Acorns)
  {
    TwoLastSeatsAnnounce();
    CallThenSolo(AnnounceAll(0, false, false, true, true));
  }

  /** Seats 2 and 3 announce intent from a new auction started by seat 0:
      seat 2 is the first to bid. */
  lemma TwoLastSeatsAnnounce()
    ensures AnnounceAll(0, false, false, true, true)
         == Auction(NoContract, 0, Some(2), [false, false, true, true], 4)
  {
    var a0 := NewAuction(0);
    OpenWhileOutbiddable(a0, Wenz);
    var a1 := AnnounceIntent(a0, false);
    OpenWhileOutbiddable(a1, Wenz);
    var a2 := AnnounceIntent(a1, false);
    OpenWhileOutbiddable(a2, Wenz);
    var a3 := AnnounceIntent(a2, true);
    assert a3.nextBidder == Some(3);
    OpenWhileOutbiddable(a3, Wenz);
    var a := AnnounceIntent(a3, true);
    assert a.intent == [false, false, true, true];
    assert NrBidders(a.intent) == 2;
    SkipFindsNextBidder(a.intent, 3, 2);
    assert a.nextBidder == Some(2);
  }

  /** The bidding half of the two-bidder test: seat 2 calls, seat 3 goes Solo. */
  lemma CallThenSolo(a: Auction)
    requires a == Auction(NoContract, 0, Some(2), [false, false, true, true], 4)
    ensures Call(Acorns) in ValidBids(a, None)
    ensures var b := Bid(a, Call(Acorns));
      && b.nextBidder == Some(3)
      && ValidBids(b, None) == [Solo(Acorns), Solo(Bells), Solo(Leaves), Solo(Hearts), Wenz, NoContract]
      && var c := Bid(b, Solo(Acorns));
         ValidBids(c, None) == [] && IsFinished(c) && WinningContract(c) == Solo(Acorns)
  {
    OpenWhileOutbiddable(a, Wenz);
    assert Call(Acorns) in ValidBids(a, None);
    var b := Bid(a, Call(Acorns));
    assert b.highestBid == Call(Acorns) && b.intent == a.intent;
    OpenWhileOutbiddable(b.(nextBidder := a.nextBidder), Wenz);
    SkipFindsNextBidder(a.intent, 2, 3);
    assert b.nextBidder == Some(3);
    ValidBidsTable(b);
    var c := Bid(b, Solo(Acorns));
    ValidBidsTable(c);
  }

  /** From any starting seat, when exactly one player announces intent,
      the fourth announcement hands the move to that player, and whatever
      real bid they make wins the auction at once. */
  lemma SingleBidderWins(start: nat, i0: bool, i1: bool, i2: bool, i3: bool, b: Contract)
    requires start < 4
    requires Ind(i0) + Ind(i1) + Ind(i2) + Ind(i3) == 1
    requires b != NoContract && Outbids(b, NoContract)
    ensures var a := AnnounceAll(start, i0, i1, i2, i3);
      && !IsFinished(a) && NrBidders(a.intent) == 1
      && a.nextBidder.Some? && a.nextBidder.value < 4 && a.intent[a.nextBidder.value]
      && b in ValidBids(a, None)
      && var c := Bid(a, b);
         IsFinished(c) && WinningContract(c) == b && c.highestBidder == a.nextBidder.value
  {
    var a := AnnounceAll(start, i0, i1, i2, i3);
    AnnouncedIntents(start, i0, i1, i2, i3);
    OpenWhileOutbiddable(a, b);
    var c := Bid(a, b);
    assert c.nextBidder.None?;
  }

  /** Going round the table from `start` visits four different seats. */
  lemma SeatsAround(start: nat)
    requires start < 4
    ensures Seat(start, 0) == start
    ensures (Seat(start, 0) + 1) % 4 == Seat(start, 1)
    ensures (Seat(start, 1) + 1) % 4 == Seat(start, 2)
    ensures (Seat(start, 2) + 1) % 4 == Seat(start, 3)
    ensures Seat(start, 0) != Seat(start, 1) && Seat(start, 0) != Seat(start, 2) && Seat(start, 0) != Seat(start, 3)
    ensures Seat(start, 1) != Seat(start, 2) && Seat(start, 1) != Seat(start, 3) && Seat(start, 2) != Seat(start, 3)
  {
  }

  /** Counting intents round the table from any seat counts them all. */
  lemma NrBiddersRotated(intent: Intents, start: nat)
    requires start < 4
    ensures NrBidders(intent) == Ind(intent[Seat(start, 0)]) + Ind(intent[Seat(start, 1)])
                               + Ind(intent[Seat(start, 2)]) + Ind(intent[Seat(start, 3)])
  {
  }

  /** Before any bid, an announcement records the intent at the seat to
      move and passes the move to the next seat. */
  lemma AnnounceStep(a: Auction, i: bool)
    requires a.intentCount < 4 && a.highestBid == NoContract
    requires a.nextBidder.Some? && a.nextBidder.value < 4
    ensures var r := AnnounceIntent(a, i);
      && r.intent == a.intent[a.nextBidder.value := i]
      && r.intentCount == a.intentCount + 1
      && r.highestBid == a.highestBid && r.highestBidder == a.highestBidder
      && (r.intentCount < 4 ==> r.nextBidder == Some((a.nextBidder.value + 1) % 4))
  {
    var p := a.nextBidder.value;
    OpenWhileOutbiddable(a.(intent := a.intent[p := i], intentCount := a.intentCount + 1), Wenz);
  }

  /** Four announcements from seat `start` record each intent at its seat,
      in turn round the table, and leave the bids untouched. */
  lemma AnnouncedIntents(start: nat, i0: bool, i1: bool, i2: bool, i3: bool)
    requires start < 4
    ensures var a := AnnounceAll(start, i0, i1, i2, i3);
      && a.intentCount == 4 && a.highestBid == NoContract && a.highestBidder == start
      && a.intent[Seat(start, 0)] == i0 && a.intent[Seat(start, 1)] == i1
      && a.intent[Seat(start, 2)] == i2 && a.intent[Seat(start, 3)] == i3
      && NrBidders(a.intent) == Ind(i0) + Ind(i1) + Ind(i2) + Ind(i3)
  {
    SeatsAround(start);
    var a3 := AnnounceIntent(AnnounceIntent(AnnounceIntent(NewAuction(start), i0), i1), i2);
    ThreeAnnouncements(start, i0, i1, i2);
    AnnounceStep(a3, i3);
    var a := AnnounceIntent(a3, i3);
    assert a == AnnounceAll(start, i0, i1, i2, i3);
    NrBiddersRotated(a.intent, start);
  }

  lemma ThreeAnnouncements(start: nat, i0: bool, i1: bool, i2: bool)
    requires start < 4
    ensures var a3 := AnnounceIntent(AnnounceIntent(AnnounceIntent(NewAuction(start), i0), i1), i2);
      && a3.intentCount == 3 && a3.highestBid == NoContract && a3.highestBidder == start
      && a3.nextBidder == Some(Seat(start, 3))
      && a3.intent == [false, false, false, false][Seat(start, 0) := i0][Seat(start, 1) := i1][Seat(start, 2) := i2]
  {
    SeatsAround(start);
    TwoAnnouncements(start, i0, i1);
    var a2 := AnnounceIntent(AnnounceIntent(NewAuction(start), i0), i1);
    AnnounceStep(a2, i2);
  }

  lemma TwoAnnouncements(start: nat, i0: bool, i1: bool)
    requires start < 4
    ensures var a2 := AnnounceIntent(AnnounceIntent(NewAuction(start), i0), i1);
      && a2.intentCount == 2 && a2.highestBid == NoContract && a2.highestBidder == start
      && a2.nextBidder == Some(Seat(start, 2))
      && a2.intent == [false, false, false, false][Seat(start, 0) := i0][Seat(start, 1) := i1]
  {
    SeatsAround(start);
    var a0 := NewAuction(start);
    AnnounceStep(a0, i0);
    var a1 := AnnounceIntent(a0, i0);
    AnnounceStep(a1, i1);
  }

  /** After the four announcements a fifth one changes nothing. */
  lemma FifthAnnouncementIgnored(start: nat, i0: bool, i1: bool, i2: bool, i3: bool, i4: bool)
    requires start < 4
    ensures AnnounceIntent(AnnounceAll(start, i0, i1, i2, i3), i4) == AnnounceAll(start, i0, i1, i2, i3)
    ensures BiddingPhaseStarted(AnnounceAll(start, i0, i1, i2, i3))
  {
  }
}
