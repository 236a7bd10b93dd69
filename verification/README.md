# Schafkopf rules engine, modelled in Dafny

This project models the rules engine of a four-player Schafkopf card game,
together with proofs about it. The engine lives in the library crate (`schafkopf_lib`). It covers:

- the 32-card pack (four suits of eight values) and the card points;
- the contracts Call, Solo, Wenz and Ramsch, and which cards each makes trump;
- who wins a trick;
- which cards a hand may legally play;
- the dealer;
- the card-play state machine: playing a card, passing the move on and counting each player's trick points;
- the auction, in which four players announce whether they want to play and then outbid one another.

The application crate keeps an older copy of the engine. That copy is
modelled as a second, smaller state machine. It shares the card, trump,
legality, dealer and auction definitions with the library model.

Modules:

- `Seqs`, `Options`: generic sequence lemmas (filter, distinctness, reversal) and an option type.
- `Cards`: suits, values, cards, `Card::all`, shuffled packs (`IsDeck`), points, `Contract`, `is_trump`, `Hand`.
- `Trumps`: trump counts per contract and `get_trump_order` (filter and stable sort).
- `Tricks`: the trick comparator and the `max_by` fold that picks the winning card.
- `Legality`: `action_is_valid` and the filter behind `get_legal_actions` / `get_valid_actions`.
- `Dealing`: `Dealer::deal` and the four deals of `Game::new`.
- `GameLogic`: the library's `Game`.
- `Auctions`: the library's `Auction`.
- `LegacyGame`: the application crate's `Game` and its hand-less `valid_bids`.

Modelling choices:

- **Randomness.** `Card::deck()` shuffles with a thread RNG. Every shuffled pack is a parameter `deck` satisfying `IsDeck` (each card exactly once). `DeckIsPermutation` proves that these are exactly the permutations of `Card::all`.
- **Wrap-around.** Rust `u8` arithmetic is modelled as it behaves in a release build, with explicit wrap-around where it matters:
  - the trick start `(trick * 4)` is taken modulo 256;
  - the point totals of `get_points` are taken modulo 256.
- **Mutating methods.** These become functions from the old state to the new one.
- **Panics.** Source code that panics has a precondition in the model:
  - `trick_cards[0]` on an empty trick;
  - `next_bidder.expect(...)` when there is no next bidder;
  - the `assert!` in `bid`;
  - indexing the four hands with a player index of 4 or more;
  - indexing the four point totals with a trick winner of 4 or more (`points[trick_winner as usize]` in `get_points`), the precondition `WinnersAreSeats`.

Where the code does not do what its comments or the rules of the game suggest, the model follows the code:

- **Call contracts in `action_is_valid`.** The first `match` returns at once for a Call contract. The "running" rules and the called-Ace rule further down are therefore never reached. Under a Call, a card is legal exactly when it is of the called suit and the hand holds the called Ace; no hand gives `false`.
- **The trick counter never advances.** `update_trick` is never called, so `trick` stays 0. As a result:
  - the legality rules always look at the first trick;
  - after each complete trick, the move goes to the winner of the first trick;
  - `play_card` acts only while `is_ready_to_play` holds, which is only before the first card. Every later play is ignored.
- **Trump order by value.** `Value` derives `Ord` from its declaration order (`game_logic.rs:53-61`), Seven < Eight < Nine < King < Ten < Under < Ober < Ace. Two trumps are compared by value first and by suit only on a tie (`game_logic.rs:193-200`). So a trump Ace beats every trump Ober and Under, although the comment there says Obers and Unders win. `Cards.Value` keeps that declaration order, and `Trumps.CompareTrumps` and `Tricks.CompareInTrick` compare as the code does.
- **Legacy trick winner.** The legacy `determine_trick_winner` returns the winning card's position within the trick, not the player who played it.
- **Passing before the first bid.** Before the first bid, `valid_bids` offers all nine contracts and no pass. The comment at `game_logic.rs:525` says no bids are possible, but the code keeps all nine.

## Model

| member | source | states |
|---|---|---|
| Cards.AllIsThePack | schafkopf_lib/src/schafkopf_env/game_logic.rs:86-94 | `Card::all` has 32 cards, no card twice, and every card sits at its suit-major, value-minor index |
| Cards.All | schafkopf_lib/src/schafkopf_env/game_logic.rs:86-94 | `Card::all` has 32 cards, suit by suit: card `i` is of the suit at position `i / 8` |
| Cards.Points | schafkopf_lib/src/schafkopf_env/game_logic.rs:102-111 | no card is worth more than 11 points, and exactly the Seven, Eight and Nine are worth none |
| Cards.AllSuitCounts | schafkopf_lib/src/schafkopf_env/game_logic.rs:633-640 | the pack holds exactly 8 cards of each suit |
| Cards.PointsOfAll | schafkopf_lib/src/schafkopf_env/game_logic.rs:102-111 | the card points of `Card::all` total 120 |
| Cards.DeckIsPermutation | schafkopf_lib/src/schafkopf_env/game_logic.rs:96-100 | a sequence holds every card exactly once if and only if it is a permutation of `Card::all`, so `IsDeck` characterises the shuffled packs |
| Cards.DeckLength | schafkopf_lib/src/schafkopf_env/game_logic.rs:96-100 | every shuffled pack has 32 cards |
| Cards.DeckPoints | schafkopf_lib/src/schafkopf_env/game_logic.rs:96-111 | every shuffled pack is worth 120 points |
| Cards.SumPointsPermutation | schafkopf_lib/src/schafkopf_env/game_logic.rs:102-111 | reordering cards leaves their point total unchanged |
| Cards.DistinctPointsBound | schafkopf_lib/src/schafkopf_env/game_logic.rs:102-111 | cards with no duplicates are worth at most 120 points |
| Cards.FilterOnDecks | schafkopf_lib/src/schafkopf_env/game_logic.rs:96-100 | any two shuffled packs have equally many cards satisfying a given test |
| Cards.IsTrump | schafkopf_lib/src/schafkopf_env/game_logic.rs:458-469 | nothing is trump without a contract. Otherwise every Under is; under a Wenz only the Unders are. Outside a Wenz every Ober is. The Hearts are trump under a Call and a Ramsch, the Solo suit under a Solo, and no other plain card is |
| Trumps.TrumpCount | schafkopf_lib/src/schafkopf_env/game_logic.rs:458-469 | of the 32 cards, `is_trump` selects 14 for a Call, Ramsch or Solo, 4 for a Wenz and none without a contract |
| Trumps.SuitTrumpCount | schafkopf_lib/src/schafkopf_env/game_logic.rs:458-469 | trumps within one suit: all 8 of the trump suit, 2 (Ober and Under) of each other suit, 1 under a Wenz, 0 without a contract |
| Trumps.NoContractHasNoTrumps | schafkopf_lib/src/schafkopf_env/game_logic.rs:467 | without a contract, filtering any cards for trumps leaves nothing |
| Trumps.CompareTrumpsIsRankOrder | schafkopf_lib/src/schafkopf_env/game_logic.rs:408-414 | the value-then-suit comparator is the order of a rank that tells every two cards apart |
| Trumps.CompareTrumps | schafkopf_lib/src/schafkopf_env/game_logic.rs:408-414 | the comparator ties only a card with itself; a lower value compares less, and among equal values the higher suit compares greater |
| Trumps.Insert | schafkopf_lib/src/schafkopf_env/game_logic.rs:408-414 | inserting adds exactly the new card: the result holds the old cards plus one copy of it, and is one longer |
| Trumps.InsertSorted | schafkopf_lib/src/schafkopf_env/game_logic.rs:408-414 | inserting into a sequence sorted by the trump comparator keeps it sorted |
| Trumps.Sort | schafkopf_lib/src/schafkopf_env/game_logic.rs:408-414 | the sort returns a permutation of its input, sorted by value then suit |
| Trumps.TrumpOrder | schafkopf_lib/src/schafkopf_env/game_logic.rs:402-417 | `get_trump_order` contains exactly the trumps of the contract, in strictly increasing value-then-suit order |
| Trumps.TrumpOrderShuffleInvariant | schafkopf_lib/src/schafkopf_env/game_logic.rs:402-417 | the result of `get_trump_order` does not depend on the shuffle |
| Trumps.TrumpOrderSize | schafkopf_lib/src/schafkopf_env/game_logic.rs:402-417 | `get_trump_order` returns 14, 4 or 0 cards according to the contract |
| Trumps.WenzTrumpOrder | schafkopf_lib/src/schafkopf_env/game_logic.rs:402-417 | under a Wenz the trump order is the Unders of Bells, Hearts, Leaves and Acorns |
| Trumps.StrictlySortedUnique | schafkopf_lib/src/schafkopf_env/game_logic.rs:408-414 | two strictly sorted sequences with the same elements are equal |
| Tricks.CompareIsStrengthOrder | schafkopf_lib/src/schafkopf_env/game_logic.rs:181-213 | the trick comparator orders cards by a strength: trumps by value then suit, above lead-suit cards by value, above all other cards, which tie |
| Tricks.CompareInTrick | schafkopf_lib/src/schafkopf_env/game_logic.rs:181-213 | a card that compares greater is a trump or of the lead suit; a tie is between a card and itself or between two cards that are neither |
| Tricks.StrengthSeparates | schafkopf_lib/src/schafkopf_env/game_logic.rs:181-213 | two different cards never tie when one of them is a trump or of the lead suit |
| Tricks.MaxBy | schafkopf_lib/src/schafkopf_env/game_logic.rs:181 | one `max_by` step keeps one of the two cards compared |
| Tricks.WinnerPosition | schafkopf_lib/src/schafkopf_env/game_logic.rs:181-213 | the `max_by` fold picks a card that no card of the trick beats and that every later card loses to |
| Tricks.WinnerIsTheLastStrongest | schafkopf_lib/src/schafkopf_env/game_logic.rs:181-216 | a position satisfies that description if and only if it is the one the fold picks |
| Tricks.DistinctTrickHasStrictWinner | schafkopf_lib/src/schafkopf_env/game_logic.rs:181-213 | in a trick of four different cards, the winning card strictly beats each of the other three |
| Legality.LegalActions | schafkopf_lib/src/schafkopf_env/game_logic.rs:324-329 | the legal actions are the held cards `action_is_valid` accepts, in hand order; a card is among them if and only if it is held and valid; an empty hand gives none, even on an empty trick outside a Call |
| Legality.ActionIsValid | schafkopf_lib/src/schafkopf_env/game_logic.rs:236-322 | without a hand every card is valid except under a Call; under a Call only called-suit cards are valid. A hand holding neither a trump nor the lead suit may play anything; a hand holding the suit of a non-trump lead must follow it |
| Legality.CallIgnoresTrick | schafkopf_lib/src/schafkopf_env/game_logic.rs:244-256 | under a Call the verdict does not depend on the trick: with no hand it is false, and with a hand it is true if and only if the card is of the called suit and the called Ace is held |
| Legality.CallLegalActions | schafkopf_lib/src/schafkopf_env/game_logic.rs:244-256 | under a Call, the holder of the called Ace may play exactly their cards of the called suit, and any other hand has no legal play |
| Legality.UnknownHandMayPlayAnything | schafkopf_lib/src/schafkopf_env/game_logic.rs:295-321 | outside a Call, with no hand, every card is valid on a started trick |
| Legality.FollowRules | schafkopf_lib/src/schafkopf_env/game_logic.rs:295-321 | outside a Call, the rules apply in priority order. After a trump lead, a hand holding a trump must play a trump. Otherwise a hand holding the lead suit must play it. Otherwise any card is valid |
| Legality.FollowerHasLegalAction | schafkopf_lib/src/schafkopf_env/game_logic.rs:295-329 | outside a Call, a non-empty hand always has a legal card on a started trick |
| Legality.TrumpObersFollowTheirSuit | schafkopf_lib/src/schafkopf_env/game_logic.rs:298-317 | in a Ramsch with a plain Acorns lead, a hand holding the Acorns Ober counts as holding the lead suit; it may play only the Ober, not a Bells Seven |
| Legality.TrumpLeadForcesPrintedSuit | schafkopf_lib/src/schafkopf_env/game_logic.rs:309-317 | after the Acorns Ober is led in a Ramsch, a hand without trumps must still follow Acorns |
| Dealing.PopCards | schafkopf_lib/src/schafkopf_env/game_logic.rs:437-440 | `n` pops leave the deck's first `len - n` cards and take the last `n` in reverse order |
| Dealing.PopCardsKeepsCards | schafkopf_lib/src/schafkopf_env/game_logic.rs:437-440 | popping loses no card: the remaining deck and the popped cards together hold exactly the cards of the old deck |
| Dealing.Deal | schafkopf_lib/src/schafkopf_env/game_logic.rs:428-442 | `deal` uses a new shuffle if fewer than 8 cards remain. It then takes the last 8 cards, last first, into a hand with nothing played, and leaves the rest in the deck |
| Dealing.DealKeepsCards | schafkopf_lib/src/schafkopf_env/game_logic.rs:428-442 | after a deal, the new deck and the hand together hold exactly the cards the deal drew from |
| Dealing.DealHands | schafkopf_lib/src/schafkopf_env/game_logic.rs:144-152 | the four deals of `Game::new` give each player 8 cards and nothing played; player `p`'s `i`-th card is the pack's card `31 - 8p - i` |
| Dealing.DealHandsSplitsThePack | schafkopf_lib/src/schafkopf_env/game_logic.rs:144-152 | every card of the pack is in exactly one hand, and no hand holds a card twice |
| GameLogic.NewGame | schafkopf_lib/src/schafkopf_env/game_logic.rs:144-155 | a new game starts at trick 0 with nothing played and no contract; the forehand moves and the hands are the four deals of `DealHands`, 8 cards each |
| GameLogic.CardsOf | schafkopf_lib/src/schafkopf_env/game_logic.rs:366 | the cards of the plays, position by position |
| GameLogic.TrickStart | schafkopf_lib/src/schafkopf_env/game_logic.rs:172 | trick `t` starts at play `4t` when `t < 64`, and the `u8` product keeps the start below 256 |
| GameLogic.TrickCards | schafkopf_lib/src/schafkopf_env/game_logic.rs:172-176 | a trick is the up-to-four plays from its start, with exactly four if and only if four plays exist from there, and none if it starts at or past the end |
| GameLogic.DetermineTrickWinner | schafkopf_lib/src/schafkopf_env/game_logic.rs:171-220 | there is no winner exactly when the trick is incomplete |
| GameLogic.TrickWinnerIsLastStrongest | schafkopf_lib/src/schafkopf_env/game_logic.rs:171-220 | a complete trick is won by the player of its last strongest card, and a position with that property determines the winner |
| GameLogic.Trick64WrapsToTrick0 | schafkopf_lib/src/schafkopf_env/game_logic.rs:172 | through the `u8` wrap-around, trick 64 has the same cards and winner as trick 0 |
| GameLogic.UpdateNextPlayer | schafkopf_lib/src/schafkopf_env/game_logic.rs:222-231 | only the next player changes. After a play count that is not a multiple of 4, the next seat moves. After a multiple of 4 with the counted trick incomplete, the player is kept; with it complete, its winner moves |
| GameLogic.NextPlayerIsTrickWinner | schafkopf_lib/src/schafkopf_env/game_logic.rs:222-231 | after a complete trick the move goes to the player of its last strongest card |
| GameLogic.NextPlayerFollowsFirstTrick | schafkopf_lib/src/schafkopf_env/game_logic.rs:222-231 | with the trick counter at 0 and two tricks played, the move goes to the winner of the first trick |
| GameLogic.UpdateTrick | schafkopf_lib/src/schafkopf_env/game_logic.rs:167-169 | only the trick counter changes, and it becomes the number of complete tricks in the play count cast to `u8` |
| GameLogic.UpdateTrickSelectsOpenTrick | schafkopf_lib/src/schafkopf_env/game_logic.rs:167-169 | with fewer than 256 plays, the selected trick is exactly the plays after the last complete trick |
| GameLogic.NewGameReadyOnceContracted | schafkopf_lib/src/schafkopf_env/game_logic.rs:344-352 | a new game is not ready to play, and becomes ready as soon as any real contract is set |
| GameLogic.IsReadyToPlay | schafkopf_lib/src/schafkopf_env/game_logic.rs:344-352 | a game ready to play is not over, and its current trick has no winner yet |
| GameLogic.IsOver | schafkopf_lib/src/schafkopf_env/game_logic.rs:354-356 | when the game is over, the eighth trick is complete and has a winner |
| GameLogic.RemoveMultiset | schafkopf_lib/src/schafkopf_env/game_logic.rs:338-340 | `retain(c != card)` removes every copy of the card and nothing else |
| GameLogic.PlayCard | schafkopf_lib/src/schafkopf_env/game_logic.rs:331-342 | a play is ignored unless the game is ready. Otherwise the card is recorded for the mover and moved from the mover's held cards to their played cards. The move then passes to the next seat, and nothing else changes |
| GameLogic.OnlyFirstPlayCounts | schafkopf_lib/src/schafkopf_env/game_logic.rs:331-352 | after any play the game is not ready, so a second play changes nothing |
| GameLogic.PlaySequence | schafkopf_lib/src/schafkopf_env/game_logic.rs:331-352 | any non-empty sequence of plays has the effect of its first play alone |
| GameLogic.StuckGame | schafkopf_lib/src/schafkopf_env/game_logic.rs:332-335 | a game that is not ready ignores any sequence of plays |
| GameLogic.NewGameNeverEnds | schafkopf_lib/src/schafkopf_env/game_logic.rs:331-356 | from a new game with any contract, at most one card is ever recorded, so `is_over` never holds |
| GameLogic.GetLegalActions | schafkopf_lib/src/schafkopf_env/game_logic.rs:324-329 | a card is legal if and only if it is held and valid for the current trick; an empty hand has no legal card, even on an empty trick outside a Call. A non-empty hand's legal cards are its cards valid for the current trick, in hand order |
| GameLogic.GameActionIsValid | schafkopf_lib/src/schafkopf_env/game_logic.rs:236-322 | on the game's current trick: without a hand a card is valid exactly outside a Call, and under a Call only called-suit cards are valid |
| GameLogic.Award | schafkopf_lib/src/schafkopf_env/game_logic.rs:369-373 | unbounded, the winner's total grows by the trick's points and every other total is unchanged, so the sum grows by the trick's points, or by nothing without a winner; `u8` totals stay below 256 |
| GameLogic.AwardWraps | schafkopf_lib/src/schafkopf_env/game_logic.rs:372 | a wrapped `+=` equals the unbounded `+=` taken modulo 256 |
| GameLogic.Credit | schafkopf_lib/src/schafkopf_env/game_logic.rs:358-376 | after the first `n` iterations of the loop, each unbounded total is the points of the tricks among the first `n` that its seat won; `u8` totals are below 256 |
| GameLogic.GetPoints | schafkopf_lib/src/schafkopf_env/game_logic.rs:358-376 | `get_points` gives each seat the points of the tricks it won, modulo 256 |
| GameLogic.CreditWraps | schafkopf_lib/src/schafkopf_env/game_logic.rs:358-376 | each `u8` total is the corresponding unbounded total modulo 256 |
| GameLogic.CreditTotal | schafkopf_lib/src/schafkopf_env/game_logic.rs:358-376 | the unbounded totals add up to the card points of the complete tricks among the first `n` |
| GameLogic.PrefixPointsStep | schafkopf_lib/src/schafkopf_env/game_logic.rs:361-371 | the points of the first `n` tricks are those of the first `n - 1` plus those of trick `n - 1` |
| GameLogic.GetPointsShareCompleteTricks | schafkopf_lib/src/schafkopf_env/game_logic.rs:358-376 | when no card is recorded twice, nothing wraps: the totals add up to exactly the points of the complete tricks, at most 120 |
| GameLogic.GetPointsOfAFullGame | schafkopf_lib/src/schafkopf_env/game_logic.rs:358-376 | when the plays are the whole pack, the four totals add up to 120 |
| Auctions.NewAuction | schafkopf_lib/src/schafkopf_env/game_logic.rs:481-489 | a new auction has no bid and no intents; the starting bidder is next and provisionally the highest bidder |
| Auctions.BidsOver | schafkopf_lib/src/schafkopf_env/game_logic.rs:491-527 | before the hand filters, a bid is offered if and only if it outbids the highest bid: a Solo outbids a Wenz and a Call, a Wenz outbids a Call, passing is offered only over a Call or a Wenz, and Ramsch is never offered |
| Auctions.Outbids | schafkopf_lib/src/schafkopf_env/game_logic.rs:491-527 | nothing outbids a Solo, a Ramsch never outbids anything, a Call only opens the bidding, and a Wenz does not outbid a Wenz |
| Auctions.ValidBids | schafkopf_lib/src/schafkopf_env/game_logic.rs:491-552 | with no hand, the bids are exactly those that outbid the highest. With a hand, a Call also needs the Ace of its suit not held and a non-trump card of that suit held |
| Auctions.ValidBidsTable | schafkopf_lib/src/schafkopf_env/game_logic.rs:491-527 | the exact hand-less lists, in order, for each highest bid |
| Auctions.NoCallOfHearts | schafkopf_lib/src/schafkopf_env/game_logic.rs:541-548 | with a hand, calling Hearts is never offered, because every Heart is trump under a Call |
| Auctions.Steps | schafkopf_lib/src/schafkopf_env/game_logic.rs:583-590 | the skip loop stops at the first seat with intent, within four steps |
| Auctions.SomeIntentReached | schafkopf_lib/src/schafkopf_env/game_logic.rs:583-590 | if someone has intent, the skip loop ends |
| Auctions.SkipToIntent | schafkopf_lib/src/schafkopf_env/game_logic.rs:582-590 | the skip loop lands on a seat with intent |
| Auctions.UpdateNextBidder | schafkopf_lib/src/schafkopf_env/game_logic.rs:563-592 | only the next bidder changes. If finished, there is none. While intents are being collected, the next seat moves. After that there is none if and only if nobody bids, or one bidder remains behind a real bid; otherwise the next bidder is the first seat after the current one, going round and ending at the current one, that still has intent |
| Auctions.SkipFindsNextBidder | schafkopf_lib/src/schafkopf_env/game_logic.rs:582-590 | the skip lands on the first seat with intent after the current one; if only one seat has intent, it lands there |
| Auctions.AnnounceIntent | schafkopf_lib/src/schafkopf_env/game_logic.rs:554-561 | after four announcements, a further one is ignored. Otherwise the intent is recorded at the seat to move and counted, the bids are untouched, and the move then passes on as `update_next_bidder` decides |
| Auctions.Bid | schafkopf_lib/src/schafkopf_env/game_logic.rs:594-604 | a pass clears the bidder's intent and keeps the highest bid. Any other bid becomes the highest, by the current bidder. The highest bid never loses rank. The move then passes on as `update_next_bidder` decides on the updated auction |
| Auctions.WinningContract | schafkopf_lib/src/schafkopf_env/game_logic.rs:615-625 | no contract while the auction runs. Once finished, the highest bid, or a Ramsch if nobody bid |
| Auctions.FinishedWhenNoBidLeft | schafkopf_lib/src/schafkopf_env/game_logic.rs:610-613 | the auction is open if and only if someone is to move and some bid still outbids the highest; a Solo therefore ends it |
| Auctions.BiddingPhaseStarted | schafkopf_lib/src/schafkopf_env/game_logic.rs:606-608 | once the bidding phase has started all four intents are in and a further announcement changes nothing; before that fewer than four are in |
| Auctions.AuctionKeepsBidderInvariant | schafkopf_lib/src/schafkopf_env/game_logic.rs:554-604 | once the intents are in, announcing and bidding keep the next bidder a seat with intent |
| Auctions.NoBidsGiveRamsch | schafkopf_lib/src/schafkopf_env/game_logic.rs:740-750 | when all four announce no intent, from any starting seat, the auction is finished. The contract is a Ramsch and the starting bidder is the highest bidder |
| Auctions.OpenWhileOutbiddable | schafkopf_lib/src/schafkopf_env/game_logic.rs:611-613 | while some bid still outbids the highest and someone is to move, the auction is not finished |
| Auctions.OneBidderScenario | schafkopf_lib/src/schafkopf_env/game_logic.rs:689-700 | when only seat 3 has intent, the auction is open and seat 3 moves. Its Call of the Acorns Ace wins, with seat 3 as the highest bidder |
| Auctions.TwoBidderScenario | schafkopf_lib/src/schafkopf_env/game_logic.rs:702-733 | seats 2 and 3 have intent. After seat 2's Call, seat 3 is offered the four Solos, the Wenz and passing. After seat 3's Solo nothing is offered and the Solo wins |
| Auctions.SingleBidderWins | schafkopf_lib/src/schafkopf_env/game_logic.rs:554-604 | from any starting seat, with exactly one intent, that player moves after the announcements, and any real bid they make wins at once |
| Auctions.AnnounceStep | schafkopf_lib/src/schafkopf_env/game_logic.rs:554-568 | before any bid, an announcement records the intent at the seat to move and moves on to the next seat |
| Auctions.ThreeAnnouncements | schafkopf_lib/src/schafkopf_env/game_logic.rs:554-568 | three announcements fill three seats in table order, and the fourth seat is to move |
| Auctions.AnnouncedIntents | schafkopf_lib/src/schafkopf_env/game_logic.rs:554-568 | four announcements record each intent at its seat, in table order from the starting seat, and leave the bids untouched |
| Auctions.SeatsAround | schafkopf_lib/src/schafkopf_env/game_logic.rs:567-568 | four `+ 1 mod 4` steps from a seat visit four different seats |
| Auctions.NrBiddersRotated | schafkopf_lib/src/schafkopf_env/game_logic.rs:570 | counting intents from any seat counts all of them |
| Auctions.FifthAnnouncementIgnored | schafkopf_lib/src/schafkopf_env/game_logic.rs:554-557 | after four announcements the bidding phase has started and a fifth announcement changes nothing |
| LegacyGame.NewGame | src/schafkopf_env/game_state.rs:129-139 | the legacy game starts with player 0 to move, nothing played, the Acorns Ace called and the four deals of `DealHands` as hands |
| LegacyGame.NewGameIsReady | src/schafkopf_env/game_state.rs:321-329 | because the contract starts as a Call, a new legacy game is ready to play at once |
| LegacyGame.IsReadyToPlay | src/schafkopf_env/game_state.rs:321-329 | a legacy game ready to play has no winner for its current trick yet |
| LegacyGame.TrickCards | src/schafkopf_env/game_state.rs:156-160 | a trick is the up-to-four cards from its wrapped start, with exactly four if and only if four exist |
| LegacyGame.DetermineTrickWinner | src/schafkopf_env/game_state.rs:155-202 | no winner while the trick is incomplete; otherwise the position, within the trick, of its last strongest card |
| LegacyGame.UpdateNextPlayer | src/schafkopf_env/game_state.rs:204-213 | only the next player changes. After a complete trick, the winning position moves next |
| LegacyGame.PlayCard | src/schafkopf_env/game_state.rs:312-319 | with no readiness guard, the card is appended and moved from the mover's held cards to their played cards, and the other hands are unchanged. The move passes to the next seat, or after four cards to the winning position |
| LegacyGame.MoveCard | src/schafkopf_env/game_state.rs:313-317 | the card is appended to the plays and to the mover's played cards, every copy leaves the mover's held cards, and the other hands and all other fields are unchanged |
| LegacyGame.FirstTrickWinnerMovesNext | src/schafkopf_env/game_state.rs:155-213 | in a new legacy game, players 0 to 3 play the first trick in turn, so the winning position is the winning player |
| LegacyGame.WinnerPositionIsNotThePlayer | src/schafkopf_env/game_state.rs:199 | when player 1 leads, the Acorns Ace played by player 2 wins in position 1, so the move goes to player 1 |
| LegacyGame.AceWinsInSecondPosition | src/schafkopf_env/game_state.rs:163-198 | the Acorns Ace is the last strongest card of Acorns Seven, Ace, Eight, Nine under a Call of Acorns |
| LegacyGame.GetValidActions | src/schafkopf_env/game_state.rs:305-310 | a card is valid if and only if it is held and valid for the current trick; an empty hand has no valid card, even on an empty trick outside a Call. A non-empty hand's valid cards are its cards valid for the current trick, in hand order |
| LegacyGame.GameActionIsValid | src/schafkopf_env/game_state.rs:218-303 | on the current trick: without a hand a card is valid exactly outside a Call, and under a Call only called-suit cards are valid |
| LegacyGame.LegacyValidBids | src/schafkopf_env/game_state.rs:404-442 | the hand-less `valid_bids` is the library's `valid_bids(None)`: exactly the bids that outbid the highest |
| LegacyGame.LegacyBidOptions | src/schafkopf_env/game_state.rs:589-619 | for any auction, the legacy list over a Call is the four Solos, the Wenz and passing; over a Solo it is empty; before the first bid it is all nine contracts |

## Left out

- The shuffle (`Card::deck`, `Dealer::new`, `Dealer::reset`): randomness is not modelled. The shuffled pack is a parameter (`deck`, `reshuffled`) constrained by `IsDeck`.
- `get_trump_order` calls `Card::deck()` itself. `Trumps.TrumpOrder` takes that shuffle as a parameter, and `Trumps.TrumpOrderShuffleInvariant` shows the choice does not matter.
- The "running" and called-Ace branches of `action_is_valid` (`game_logic.rs:260-268`, `game_logic.rs:278-292`, `game_logic.rs:312-314`; `game_state.rs:241-249`, `game_state.rs:259-273`, `game_state.rs:293-295`): they are unreachable, because the Call arm (`game_logic.rs:244-256`, `game_state.rs:225-239`) returns first.
- `Legality.ActionIsValid`: an empty trick under a contract other than a Call is a precondition, because the source panics there. Its callers `get_legal_actions` and `get_valid_actions` need it only for a non-empty hand, since an empty hand never reaches `action_is_valid`.
- `GameLogic.GetPoints`: a complete trick won by a player index of 4 or more is a precondition (`WinnersAreSeats`), because the source panics there on `points[trick_winner as usize]`.
- `Auctions.Bid`: a bid not in `valid_bids(None)` is a precondition, because the source panics there.
- `get_earnings`: its body is `todo!()`.
- `PlayerGameState` and `get_player_game_state`: a read-only view of the hand, contract and plays.
- Every `Display` implementation, and the `println!` in `play_card`: output is not modelled.
- Debug-build overflow panics: `u8` arithmetic is modelled with release-build wrap-around instead.
- `intent_count`: modelled as a count from 0 to 4, the only values it takes.
- The legacy cards and contracts (`game_state.rs:33-117`), `action_is_valid` (`game_state.rs:218-303`), `Dealer` (`game_state.rs:332-361`), `is_trump` (`game_state.rs:371-382`) and `Auction` (`game_state.rs:385-512`): written as in the library, so they are modelled once and shared. Only the legacy `valid_bids` differs: it takes no hand, and `LegacyGame.LegacyValidBids` covers it.
- The legacy `update_trick`: like the library's, it is never called, and it is the same model as `GameLogic.UpdateTrick`.
- The match loop, the agents, the web application and the user interface: outside the rules engine.
