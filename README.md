# Shanghai Rummy rules engine in Dafny

A model of the core of the Shanghai Rummy server and of the client's
contract builder, with proofs of what the code promises.

Shanghai Rummy is played over seven rounds with a 108-card deck: two standard
decks and four jokers. Each round the dealer shuffles and deals `cardsDealt`
cards to every player, then flips one card onto the discard pile. A turn is
draw, place, discard. A player "goes down" by laying the round's contract, a
number of books and runs. After that the player may lay off single cards onto
any player's melds. Between turns each discard is offered in a buy phase:
- the next seat may take it for free;
- otherwise others may buy it, up to three times a round, taking two extra
  cards from the deck.

The first player to empty their hand ends the round. Everyone scores the
points left in their hand.

The modules follow the repository:

| module | file | models |
|---|---|---|
| `Types` | types.dfy | the shared records (`Card`, `Player`, `GameState`, `Lobby`, ...) and `ROUND_CONFIGS` of shared/src/types.ts |
| `Rounds` | rounds.dfy | arithmetic of the round table, and the contract rule of `placeContract` |
| `Cards` | cards.dfy | `CARD_POINTS`, `RANK_VALUES`, `createDeck` and `shuffle` |
| `Melds` | melds.dfy | the server's `isValidBook` and `isValidRun`, with the sort `isValidRun` uses |
| `Game` | game.dfy | `calculateHandPoints`, the lookups (`find`, `findIndex`, `filter`) and the classification loop of `placeContract` |
| `Turns` | turns.dfy | every `GameManager` operation as a transition of one `GameState` and its remaining deck, with lemmas about each |
| `Manager` | manager.dfy | class `GameManager` itself: the `games` and `decks` maps, updated in place by methods proved against the transitions of `Turns` |
| `Lobbies` | lobby.dfy | class `LobbyManager`: the `code → Lobby` and `playerId → code` maps, and code and name generation |
| `ContractModal` | contract_modal.dfy | `getRequiredContracts`, the client's `isValidRun`, and the selection state of `ContractPlacementModal` |

## Representation invariant and card conservation

`Turns.Structural(g, deck)` is the invariant every stored game keeps. It says:
- 2 to 6 players with distinct ids;
- a round from 1 to 7, with `dealerIndex == (round - 1) mod N` and
  `roundConfig == ROUND_CONFIGS[round - 1]`;
- `currentPlayerId` is the id of the player at `currentPlayerIndex`;
- `deckCount` is the size of the remaining deck;
- `topDiscard` is the last card of the pile (none iff the pile is empty);
- every `cardCount` equals the size of its hand;
- a buy phase exists exactly in the `buy` turn phase, and its cursor is a
  seat other than the current one.

`Turns.TableCards` is the multiset deck + discard pile + hands + placed
melds. Dealing makes it the 108 cards of `createDeck`. Every other operation
leaves it unchanged. The one exception is `placeContract`, and only when the
groups it is given are not cards of the player's hand.
`ContractModal.EmittedFromHand` proves the client only ever sends such
groups.

`Manager.GameManager.Valid()` says every stored game is `Structural` with its
stored deck. Every method keeps it.

## Where the code and its comments differ

The model follows the code. It states these six differences as proved facts:
- `isValidRun` adds one to `expectedValue` a second time after each card
  (server/src/gameManager.ts:289). As a result a joker-free run is accepted
  exactly when its sorted values go v, v+1, v+3, v+5, ... So hearts 3-4-5-6 is
  refused and 3-4-6-8 accepted: `Melds.JokerFreeRun`,
  `Melds.ConsecutiveRunRejected`, `Melds.SkippingRunAccepted`.
- The comparator of that sort returns 0 whenever a joker is involved
  (server/src/gameManager.ts:252-256), so it is not a consistent order.
  - `Melds.SortForRun` fixes one order the language allows, a stable
    insertion sort with that comparator.
  - The joker-free results do not depend on this choice, because there the
    comparator is a real order (`Melds.SortSortsJokerFree`).
  - The scan lemmas `Melds.ScanWithoutJokers` and
    `Melds.LeadingJokerRejected` hold for every arrangement.
- `discardCard` goes straight to the next seat's draw and opens no buy phase
  (server/src/gameManager.ts:384): `Turns.DiscardCardPasses`.
- In simultaneous buy mode each new requester overwrites `buyerPlayerId`, so
  the last one wins, not the first (server/src/gameManager.ts:561-564):
  `Turns.SimultaneousLastWins`.
- `placeContract` never checks that the groups come from the hand
  (server/src/gameManager.ts:346-350). `Turns.PlaceContractConserves` takes
  that as its precondition.
- `addToMeld` checks neither whose turn it is nor the turn phase
  (server/src/gameManager.ts:687-704): `Turns.AddToMeldEffect`.

The client's run check disagrees with the server's in both directions:
`ContractModal.ConsecutiveRunDisagreement` and
`ContractModal.SkippingRunDisagreement`. Without jokers, no meld passes both
checks: `ContractModal.JokerFreeNeverBoth`. The client's book check
(client/src/components/ContractPlacementModal.tsx:72-78) is the server's
`isValidBook` character for character, so `Melds.IsValidBook` models both.

## Model

| member | source | states |
|---|---|---|
| `Rounds.RequiredCount` | server/src/gameManager.ts:327-328 | the summed count of contracts of one kind is never negative for non-negative counts, and is 0 when no contract is of that kind |
| `Rounds.TableShape` | shared/src/types.ts:117-125 | the table has exactly 7 entries, and entry i has roundNumber i+1 and cardsDealt i+6 |
| `Rounds.TableRequirements` | shared/src/types.ts:118-124 | rounds 1 to 6 require (books, runs) of (2,0), (1,1), (0,2), (3,0), (2,1) and (1,2); round 7's contract list is empty |
| `Rounds.ContractMinimum` | shared/src/types.ts:118-124 | in every round, every (books, runs) pair the rule accepts needs exactly cardsDealt cards at 3 per book and 4 per run |
| `Rounds.NoChoiceNoContract` | server/src/gameManager.ts:331-338 | in round 7 with no dealer's choice, no contract is accepted |
| `Rounds.ContractDeterminesCounts` | server/src/gameManager.ts:339-342 | outside round 7, exactly one (books, runs) pair is accepted |
| `Rounds.DealFits` | server/src/gameManager.ts:129-144 | with at most 6 players, the deal plus the flip takes at most 73 of the 108 cards |
| `Cards.StandardCardAt` | server/src/gameManager.ts:33-44 | position 52d+13s+r of the deck holds suit s, rank r, its CARD_POINTS value and id 52d+13s+r |
| `Cards.DeckPosition` | server/src/gameManager.ts:33-44 | a position holds suit s and rank r iff it is 13s+r or 52+13s+r |
| `Cards.DeckIdsAndPoints` | server/src/gameManager.ts:24-57 | the deck has 108 cards; card k has id k, so the ids are pairwise distinct; every card's points are CARD_POINTS of its rank |
| `Cards.StandardCardTwice` | server/src/gameManager.ts:33-44 | each of the 4 × 13 suit and rank pairs occurs exactly twice |
| `Cards.FourJokers` | server/src/gameManager.ts:46-54 | a card is a joker iff its position is 104 or more, so there are exactly four jokers |
| `Cards.CreateDeck` | server/src/gameManager.ts:24-57 | the nested push loops return exactly the deck described above |
| `Cards.Swap` | server/src/gameManager.ts:64 | the swap exchanges positions i and j and leaves every other position alone |
| `Cards.SwapPermutes` | server/src/gameManager.ts:64 | a swap keeps the multiset of elements |
| `Cards.FisherYatesPermutes` | server/src/gameManager.ts:62-65 | the passes from i down to 1 keep the length and the multiset, whatever the random choices |
| `Cards.ShuffledPermutes` | server/src/gameManager.ts:60-67 | shuffle returns a permutation of its input for every sequence of random choices |
| `Cards.Shuffle` | server/src/gameManager.ts:60-67 | the in-place loop over a fresh array computes that shuffle, a permutation of the input |
| `Melds.NonJokers` | server/src/gameManager.ts:244 | the filter keeps exactly the cards that are not jokers, and is no longer than its input |
| `Melds.JokersAndNonJokers` | server/src/gameManager.ts:260 | the non-jokers and the joker count add up to the whole meld; without jokers the filter changes nothing |
| `Melds.BookMeaning` | server/src/gameManager.ts:227-237 | isValidBook holds iff there are at least 3 cards, some card is not a joker, and all non-jokers share one rank |
| `Melds.SortPermutes` | server/src/gameManager.ts:252-256 | the sort returns a permutation of its input |
| `Melds.SortSortsJokerFree` | server/src/gameManager.ts:252-256 | on joker-free cards the sort orders the cards by rank value |
| `Melds.SortKeepsSorted` | server/src/gameManager.ts:252-256 | joker-free cards already in rank order come back unchanged |
| `Melds.IsValidRun` | server/src/gameManager.ts:240-293 | the loop over expectedValue and jokersUsed returns exactly IsRun: at least 4 cards, a non-joker, one suit, and the scan of the sorted cards succeeds |
| `Melds.ScanWithoutJokers` | server/src/gameManager.ts:263-290 | for any joker-free arrangement, the scan from expected value e succeeds iff the card at offset k has value e+2k+1 |
| `Melds.JokerFreeScan` | server/src/gameManager.ts:259-290 | a joker-free arrangement passes iff its values run v, v+1, v+3, v+5, ... |
| `Melds.JokerFreeRun` | server/src/gameManager.ts:240-293 | joker-free cards form a run iff there are at least 4, of one suit, and their sorted values are v, v+1, v+3, ... |
| `Melds.ScanAfterNaN` | server/src/gameManager.ts:271-287 | once expectedValue is NaN, any later non-joker stops the scan |
| `Melds.LeadingJokerRejected` | server/src/gameManager.ts:259-290 | any arrangement that starts with a joker and has a non-joker is rejected |
| `Melds.JokerFirstNotRun` | server/src/gameManager.ts:240-293 | a meld that the sort puts joker-first is never a run |
| `Melds.InOrderRun` | server/src/gameManager.ts:252-293 | joker-free cards in rank order are scanned as given |
| `Melds.ConsecutiveRunRejected` | server/src/gameManager.ts:263-290 | hearts 3-4-5-6 is not a run |
| `Melds.ConsecutiveFourRejected` | server/src/gameManager.ts:263-290 | any four cards ranked 3-4-5-6 are not a run |
| `Melds.SkippingRunAccepted` | server/src/gameManager.ts:263-290 | hearts 3-4-6-8 is a run |
| `Melds.SkippingFour` | server/src/gameManager.ts:263-290 | any four cards of one suit ranked 3-4-6-8 are a run |
| `Game.HandPointsAppend` | server/src/gameManager.ts:391-393 | the points of a split hand add up |
| `Game.HandPointsPermutation` | server/src/gameManager.ts:391-393 | a hand's points depend only on which cards it holds, not on their order |
| `Game.HandPointsNonNegative` | server/src/gameManager.ts:391-393 | a hand of deck cards scores at least 0, and exactly 0 iff it is empty |
| `Game.KingsAndJokerScore` | server/src/gameManager.ts:5-10 | two kings and a joker score 70 |
| `Game.IndexOfPlayer` | server/src/gameManager.ts:585-586 | findIndex returns the first seat with the id, or -1 iff there is none |
| `Game.IndexOfCard` | server/src/gameManager.ts:367-368 | findIndex returns the first card with the id, or -1 iff there is none |
| `Game.Top` | server/src/gameManager.ts:218 | the top is none iff the pile is empty, and otherwise its last card |
| `Game.RemoveIds` | server/src/gameManager.ts:346-347 | the filter keeps exactly the hand's cards whose ids are not in the set |
| `Game.RemoveMatched` | server/src/gameManager.ts:346-347 | filtering a hand of deck cards by the ids of some of its cards removes exactly those cards |
| `Game.FullDeckDistinct` | server/src/gameManager.ts:24-57 | no card occurs twice in the deck |
| `Game.DeckCardIdentity` | server/src/gameManager.ts:24-57 | a card of the deck is the deck's card at the position of its id |
| `Game.ClassifyFromMeaning` | server/src/gameManager.ts:316-324 | the loop from group i succeeds iff every remaining group is a book or a run, and then counts each group once |
| `Game.ClassifyMeaning` | server/src/gameManager.ts:316-324 | the groups pass iff each is a book or a run, and the book and run counts sum to the number of groups |
| `Game.AcceptedContractSize` | server/src/gameManager.ts:316-343 | every contract the rule accepts lays down at least cardsDealt cards |
| `Game.Score` | server/src/gameManager.ts:401-404 | a player's round score becomes the hand's points, the total grows by exactly that, and nothing else changes |
| `Game.ScoredRound` | server/src/gameManager.ts:400-404 | every total grows by the points of its hand, and the player with the empty hand scores 0 |
| `Turns.CreateGameValid` | server/src/gameManager.ts:70-106 | a new game of 2 to 6 distinct players is well formed, holds no cards and is in the starting phase |
| `Turns.DealFacts` | server/src/gameManager.ts:130-137 | with enough cards, each hand gets n cards; the hands in seat order followed by the rest are the deck; per-round fields are reset |
| `Turns.DealOrder` | server/src/gameManager.ts:130-137 | with enough cards, the hands in seat order followed by the rest are the deck |
| `Turns.DealSeatsReset` | server/src/gameManager.ts:130-137 | with enough cards, each seat's record is reset around a hand of n cards, and N·n cards are used |
| `Turns.DealHands` | server/src/gameManager.ts:130-137 | the forEach with splice computes Deal |
| `Turns.ShuffledDeck` | server/src/gameManager.ts:125-126 | the shuffled fresh deck has 108 cards, a permutation of createDeck |
| `Turns.StartRoundIs` | server/src/gameManager.ts:117-171 | at least 36 cards remain after the deal, so the flip always finds a card; the resulting state is spelled out |
| `Turns.StartRoundKeeps` | server/src/gameManager.ts:124-148 | after startRound the table is well formed and holds exactly the 108 cards of createDeck |
| `Turns.StartRoundHands` | server/src/gameManager.ts:128-148 | hands, then the single discard, then the deck are the shuffled deck in order; deckCount = 108 − N·cardsDealt − 1; ids, names and totals are kept; per-round fields are reset |
| `Turns.StartRoundOpens` | server/src/gameManager.ts:150-166 | the dealer is current; the phase is playing and the turn phase buy; the buy phase asks (dealer+1) mod N, with nobody passed; the discard is live |
| `Turns.RoundDeal` | server/src/gameManager.ts:129-137 | every hand gets cardsDealt (6 to 12) cards from the front of the shuffled deck, leaving at least 36 |
| `Turns.Pop` | server/src/gameManager.ts:217 | pop removes exactly the last card of a non-empty pile |
| `Turns.DrawFromDeckEffect` | server/src/gameManager.ts:174-193 | succeeds iff the game is playing, in the draw phase, the caller is current and the deck is not empty; else changes nothing; on success the hand gains exactly the deck's first card, the turn phase becomes place and the discard is live |
| `Turns.DrawFromDeckKeeps` | server/src/gameManager.ts:182-190 | drawFromDeck keeps the game well formed |
| `Turns.DrawFromDeckConserves` | server/src/gameManager.ts:182-188 | drawFromDeck keeps the cards on the table |
| `Turns.DrawFromDiscardEffect` | server/src/gameManager.ts:196-224 | succeeds iff playing, draw phase, caller current, discard not dead and the pile not empty; else changes nothing; on success the top card moves from the pile to the hand, the turn phase becomes place and the discard is live |
| `Turns.DrawFromDiscardKeeps` | server/src/gameManager.ts:209-221 | drawFromDiscard keeps the game well formed |
| `Turns.DrawFromDiscardConserves` | server/src/gameManager.ts:213-218 | drawFromDiscard keeps the cards on the table |
| `Turns.PlaceContractGate` | server/src/gameManager.ts:296-343 | succeeds iff playing, place phase, caller current, not yet down, every group a book or a run, and the counts meet the round's contract; any refusal is a failure that changes nothing |
| `Turns.PlaceContractEffect` | server/src/gameManager.ts:345-354 | on success the contract has at least cardsDealt cards; exactly the cards with the groups' ids leave the hand; placedCards is the groups; hasPlacedContract is set; nothing else changes |
| `Turns.PlaceContractKeeps` | server/src/gameManager.ts:345-350 | placeContract keeps the game well formed |
| `Turns.PlacedKeepsCards` | server/src/gameManager.ts:345-350 | a player placing groups taken from the hand still holds the same cards, split between hand and melds |
| `Turns.PlaceContractConserves` | server/src/gameManager.ts:345-350 | when the groups are cards of the hand, placeContract keeps the cards on the table |
| `Turns.AddToMeldEffect` | server/src/gameManager.ts:685-739 | succeeds iff playing, both players down, the meld exists, the card is in hand and the meld stays of its kind, whatever the turn; the meld gains the card and the hand loses its id; turn and phase unchanged; a refusal changes nothing |
| `Turns.AddToMeldLaysOff` | server/src/gameManager.ts:685-739 | a refusal leaves the game as it was; a success lays the first card with the id onto the existing meld |
| `Turns.AddToMeldKeeps` | server/src/gameManager.ts:729-734 | addToMeld keeps the game well formed |
| `Turns.AddToMeldConserves` | server/src/gameManager.ts:729-734 | on a table of distinct deck cards, addToMeld moves one card from a hand to a meld and keeps the cards on the table |
| `Turns.Scored` | server/src/gameManager.ts:401-404 | endRound scores each player in place, keeping the seat order |
| `Turns.Discarded` | server/src/gameManager.ts:370-371 | splice takes exactly one copy of the card out of the hand |
| `Turns.DiscardCardGate` | server/src/gameManager.ts:358-368 | discardCard succeeds iff playing, the caller current, in the place or discard phase, and holding a card with that id; otherwise it changes nothing |
| `Turns.DiscardCardIs` | server/src/gameManager.ts:358-385 | a discard that passes the checks is made in the place or discard phase with no buy phase open, takes the first card with that id, and then ends the round or passes the turn |
| `Turns.DiscardCardEffect` | server/src/gameManager.ts:370-375 | the card with that id leaves the hand and becomes the new top of the pile |
| `Turns.DiscardCardWins` | server/src/gameManager.ts:377-379 | discarding the last card ends the round: every other player's round score is their hand's points, added to their total, and the winner scores 0 |
| `Turns.DiscardCardPasses` | server/src/gameManager.ts:380-385 | any other discard makes (i+1) mod N current, in the draw phase, with no buy phase |
| `Turns.DiscardCardKeeps` | server/src/gameManager.ts:358-388 | discardCard keeps the game well formed |
| `Turns.DiscardCardConserves` | server/src/gameManager.ts:370-379 | discardCard, including the scoring, keeps the cards on the table |
| `Turns.EndRoundKeeps` | server/src/gameManager.ts:396-412 | endRound keeps the game well formed and the cards on the table |
| `Turns.NextRoundGate` | server/src/gameManager.ts:415-423 | nextRound acts iff the round has ended; after round 7 it only finishes the game |
| `Turns.NextRoundIs` | server/src/gameManager.ts:425-430 | otherwise nextRound is startRound on the next round with the next dealer |
| `Turns.NextRoundDeals` | server/src/gameManager.ts:425-430 | the next round is dealt onto a well-formed table holding exactly the 108 cards |
| `Turns.NextRoundAdvances` | server/src/gameManager.ts:426-430 | the round goes up by one, the dealer moves to (dealer+1) mod N, the choice is cleared, and play opens with a buy phase |
| `Turns.NextRoundKeepsScores` | server/src/gameManager.ts:130-137 | the same players keep id, name and total score, with no buys used and no contract placed |
| `Turns.EndGameEarly` | server/src/gameManager.ts:434-442 | the game is finished and nothing else changes |
| `Turns.EndGameEarlyKeeps` | server/src/gameManager.ts:434-442 | ending early keeps the game well formed and the cards on the table |
| `Turns.SetDealersChoiceKeeps` | server/src/gameManager.ts:445-453 | setDealersChoice keeps the game well formed and the cards on the table |
| `Turns.SetDealersChoiceEffect` | server/src/gameManager.ts:445-453 | the choice is recorded iff it is round 7; afterwards a contract is accepted iff it is 4 books and no runs (books) or 3 runs and no books (runs) |
| `Turns.PlayerViewHides` | server/src/gameManager.ts:461-475 | the view differs from the game only in hands: the viewer's hand is kept, every other hand is empty, and card counts stay |
| `Turns.PlayerViewShowsOwnHand` | server/src/gameManager.ts:468-471 | with distinct ids, the viewer's seat is the only hand shown |
| `Turns.StartBuyPhaseEffect` | server/src/gameManager.ts:482-499 | a buy phase opens iff the pile has a top card: the next seat is asked first, nobody has responded or passed, and the discard is live |
| `Turns.TakeDiscardEffect` | server/src/gameManager.ts:502-529 | only the next seat, in a buy phase with a pile, takes the top discard; it moves into that hand; that seat is current in the place phase and the buy phase closes |
| `Turns.TakeDiscardKeeps` | server/src/gameManager.ts:512-525 | takeDiscardCurrentPlayer keeps the game well formed |
| `Turns.TakeDiscardConserves` | server/src/gameManager.ts:512-518 | takeDiscardCurrentPlayer keeps the cards on the table |
| `Turns.BuyRequest` | server/src/gameManager.ts:532-578 | a refusal leaves the buy phase as it was; an acceptance changes at most the buyer and the responders |
| `Turns.RequestBuyGate` | server/src/gameManager.ts:532-572 | succeeds iff in a buy phase, the caller is seated, the next seat has passed or is the caller, the caller has fewer than 3 buys and fewer than 18 cards, and in sequential mode is being asked; a refusal changes nothing |
| `Turns.RequestBuyNamesBuyer` | server/src/gameManager.ts:559-577 | an accepted request makes the requester the buyer, except a repeat request in simultaneous mode, which changes nothing |
| `Turns.RequestBuyKeeps` | server/src/gameManager.ts:559-577 | requestBuy keeps the game well formed and the cards on the table |
| `Turns.SimultaneousLastWins` | server/src/gameManager.ts:560-566 | when two new requesters both succeed in simultaneous mode, the later one is the buyer and both are recorded in order |
| `Turns.NextAskSkipsCurrent` | server/src/gameManager.ts:598-603 | the next seat to ask is a seat and never the current player |
| `Turns.DeclineBuyEffect` | server/src/gameManager.ts:581-622 | succeeds iff in a buy phase with the caller seated; sequential: the cursor moves on, skipping the current seat, and the phase closes iff the next seat has passed and the cursor returns to it; simultaneous: the decline is recorded |
| `Turns.DeclineBuyKeeps` | server/src/gameManager.ts:581-622 | declineBuy keeps the game well formed and the cards on the table |
| `Turns.CompleteBuyEffect` | server/src/gameManager.ts:625-655 | succeeds iff there is a top discard, the buyer is seated and the deck has at least 2 cards; the buyer gains the discard and the deck's first two cards, one buy is used, the discard is dead, and no other seat changes |
| `Turns.CompleteBuyKeeps` | server/src/gameManager.ts:636-650 | completeBuy keeps the game well formed and the cards on the table |
| `Turns.EndBuyPhaseEffect` | server/src/gameManager.ts:658-682 | the next seat becomes current in the draw phase with no buy phase; the discard is dead after a buy and otherwise unchanged; a failed buy changes nothing |
| `Turns.CloseBuyPhaseEffect` | server/src/gameManager.ts:669-678 | closing the buy phase hands the turn to the next seat, in the draw phase, and changes no player |
| `Turns.EndBuyPhaseKeeps` | server/src/gameManager.ts:658-682 | endBuyPhase keeps the game well formed and the cards on the table |
| `Turns.BuyLimits` | server/src/gameManager.ts:550-557 | after an accepted and completed buy, the buyer has at most 3 buys and at most 20 cards |
| `Manager.ClassifyGroups` | server/src/gameManager.ts:313-324 | the for-of loop over the groups computes Classify |
| `Manager.ScoreAll` | server/src/gameManager.ts:401-404 | the forEach of endRound computes Scored |
| `Manager.GameManager.constructor` | server/src/gameManager.ts:20-21 | a new manager has no games and no decks |
| `Manager.GameManager.CreateGame` | server/src/gameManager.ts:70-106 | stores and returns the new game, with an empty deck beside it |
| `Manager.GameManager.StartRound` | server/src/gameManager.ts:117-171 | stores the dealt round and its remaining deck; a missing game gives null and changes nothing |
| `Manager.GameManager.StartGame` | server/src/gameManager.ts:109-114 | startGame is startRound on a stored game |
| `Manager.GameManager.DrawFromDeck` | server/src/gameManager.ts:174-193 | stores the drawFromDeck transition and returns its card |
| `Manager.GameManager.DrawFromDiscard` | server/src/gameManager.ts:196-224 | stores the drawFromDiscard transition and returns its card |
| `Manager.GameManager.PlaceContract` | server/src/gameManager.ts:296-355 | stores the placeContract transition and returns its outcome; a missing game is "not in place phase" |
| `Manager.GameManager.EndRound` | server/src/gameManager.ts:396-412 | stores the scored game in the round-end phase |
| `Manager.GameManager.DiscardCard` | server/src/gameManager.ts:358-388 | stores the discardCard transition and returns the card |
| `Manager.GameManager.DiscardAt` | server/src/gameManager.ts:370-385 | moves the card onto the pile, then ends the round or passes the turn |
| `Manager.GameManager.AfterDiscard` | server/src/gameManager.ts:377-385 | an empty hand ends the round through endRound; otherwise the turn passes |
| `Manager.GameManager.PassTurn` | server/src/gameManager.ts:381-384 | the next seat becomes current in the draw phase |
| `Manager.GameManager.NextRound` | server/src/gameManager.ts:415-431 | stores the nextRound transition, and the new deck when a round is dealt |
| `Manager.GameManager.Advance` | server/src/gameManager.ts:425-430 | moves the round and dealer on, then deals through startRound |
| `Manager.GameManager.EndGameEarly` | server/src/gameManager.ts:434-442 | stores the game as finished |
| `Manager.GameManager.SetDealersChoice` | server/src/gameManager.ts:445-453 | stores the choice in round 7 and returns null otherwise |
| `Manager.GameManager.GetPlayerView` | server/src/gameManager.ts:461-475 | a view exists iff the game does, and differs from it only in the players |
| `Manager.GameManager.StartBuyPhase` | server/src/gameManager.ts:482-499 | stores the opened buy phase |
| `Manager.GameManager.TakeDiscardCurrentPlayer` | server/src/gameManager.ts:502-529 | stores the free take and returns the card |
| `Manager.GameManager.RequestBuy` | server/src/gameManager.ts:532-578 | stores requestBuy's buy phase and returns its outcome; a missing game is "not in buy phase" |
| `Manager.GameManager.CompleteBuy` | server/src/gameManager.ts:625-655 | stores the buy and the two-card-shorter deck and returns the bought cards |
| `Manager.GameManager.EndBuyPhase` | server/src/gameManager.ts:658-682 | completes a named buyer's buy first, then hands the turn on |
| `Manager.GameManager.CloseBuyPhase` | server/src/gameManager.ts:669-678 | the next seat is to draw and the buy phase is over |
| `Manager.GameManager.DeclineBuy` | server/src/gameManager.ts:581-622 | stores the decline, closing the phase through endBuyPhase when the cursor comes back to the next seat |
| `Manager.GameManager.AddToMeld` | server/src/gameManager.ts:685-739 | stores the addToMeld transition and returns its outcome; a missing game is "not playing" |
| `Lobbies.CodeOfChars` | server/src/lobbyManager.ts:7-9 | character i of the code is the alphabet character at draw i |
| `Lobbies.GenerateLobbyCode` | server/src/lobbyManager.ts:4-11 | the loop builds a six-character code of upper-case letters and digits |
| `Lobbies.FreshCode` | server/src/lobbyManager.ts:28-33 | the retry loop returns the first candidate code that is not taken |
| `Lobbies.GenerateUsername` | server/src/lobbyManager.ts:14-21 | the name starts with the adjective, ends in a digit and has no white space at either end |
| `Lobbies.NameOrDefault` | server/src/lobbyManager.ts:37 | the given name when not empty, else the generated one |
| `Lobbies.ToUpper` | server/src/lobbyManager.ts:58 | toUpperCase maps each letter a-z to A-Z and leaves other characters alone |
| `Lobbies.ToUpperIdempotent` | server/src/lobbyManager.ts:58 | upper-casing twice changes nothing more |
| `Lobbies.CodeIsUpper` | server/src/lobbyManager.ts:195 | every generated code is its own upper case, so it is found as typed |
| `Lobbies.TrimStart` | server/src/lobbyManager.ts:185 | removes exactly the leading white space |
| `Lobbies.TrimEnd` | server/src/lobbyManager.ts:189 | removes exactly the trailing white space |
| `Lobbies.TrimEmpty` | server/src/lobbyManager.ts:185-187 | a name trims to nothing iff it is all white space |
| `Lobbies.TrimUnchanged` | server/src/lobbyManager.ts:189 | a name with no white space at either end is stored as given |
| `Lobbies.TrimIdempotent` | server/src/lobbyManager.ts:189 | the stored trimmed name trims to itself |
| `Lobbies.RemovePlayer` | server/src/lobbyManager.ts:103 | the filter drops exactly the players with the id and keeps the others; with distinct ids it removes one player when present |
| `Lobbies.FindPlayer` | server/src/lobbyManager.ts:179 | find gives the first player with the id, and nothing iff there is none |
| `Lobbies.LowerCodeAbsent` | server/src/lobbyManager.ts:49 | a code with a lower-case letter is never a directory key |
| `Lobbies.NewLobbyOk` | server/src/lobbyManager.ts:35-47 | a new lobby holding only its host as host is well formed |
| `Lobbies.JoinKeeps` | server/src/lobbyManager.ts:76-82 | appending a non-host newcomer to a lobby with room keeps it well formed |
| `Lobbies.RemoveKeeps` | server/src/lobbyManager.ts:137 | removing players keeps a lobby well formed |
| `Lobbies.RenameKeeps` | server/src/lobbyManager.ts:189 | renaming a player keeps a lobby well formed |
| `Lobbies.MappedCode` | server/src/lobbyManager.ts:91-95 | a mapping counts iff present and not the empty string |
| `Lobbies.LobbyOf` | server/src/lobbyManager.ts:201-203 | a lobby is found iff the player is mapped to a code of the directory, and it has that code |
| `Lobbies.LowerCodeFindsNothing` | server/src/lobbyManager.ts:198-204 | a player mapped under a code with a lower-case letter finds no lobby |
| `Lobbies.LobbyManager.constructor` | server/src/lobbyManager.ts:24-25 | a new manager has no lobbies and no mappings |
| `Lobbies.LobbyManager.CreateLobby` | server/src/lobbyManager.ts:27-55 | stores a lobby under a fresh code, holding only the host flagged as host, with maxPlayers 6, and maps the host to it |
| `Lobbies.LobbyManager.JoinLobby` | server/src/lobbyManager.ts:57-88 | null for a missing or full lobby, even for a member; a member gets the lobby unchanged; a newcomer is appended as non-host and mapped to the code as typed, which after a lower-case code is not found again; at most 6 players |
| `Lobbies.LobbyManager.LeaveLobby` | server/src/lobbyManager.ts:90-122 | the player is unmapped and removed; the lobby is deleted iff the leaver was host or it is now empty; other members keep their mappings |
| `Lobbies.LobbyManager.KickPlayer` | server/src/lobbyManager.ts:124-142 | null unless the caller is host of the lobby it is mapped to; then the target is removed and unmapped, whichever lobby it was mapped to |
| `Lobbies.LobbyManager.DisbandLobby` | server/src/lobbyManager.ts:144-165 | host only; every member is unmapped and the lobby deleted |
| `Lobbies.LobbyManager.ChangeName` | server/src/lobbyManager.ts:167-192 | refuses an unmapped player, a missing lobby, a non-member or a blank name, changing nothing; otherwise the first matching player gets the trimmed name |
| `Lobbies.LobbyManager.GetLobby` | server/src/lobbyManager.ts:194-196 | finds a lobby iff the upper-cased code is a key, and it has that code |
| `Lobbies.LobbyManager.GetLobbyByPlayerId` | server/src/lobbyManager.ts:198-204 | finds a lobby iff the player is mapped to a stored code, and it is that lobby |
| `ContractModal.MinCards` | client/src/components/ContractPlacementModal.tsx:40 | a book needs 3 cards and a run 4 |
| `ContractModal.RequiredContracts` | client/src/components/ContractPlacementModal.tsx:26-45 | every requirement carries its kind's minimum |
| `ContractModal.ExpandAppend` | client/src/components/ContractPlacementModal.tsx:36-43 | each contract adds count copies of its requirement, in order |
| `ContractModal.GetRequiredContracts` | client/src/components/ContractPlacementModal.tsx:26-45 | the push loops compute RequiredContracts |
| `ContractModal.ExpandCounts` | client/src/components/ContractPlacementModal.tsx:36-43 | the expansion asks for as many groups of a kind as the server's summed count |
| `ContractModal.ClientAsksWhatServerAccepts` | client/src/components/ContractPlacementModal.tsx:26-45 | in every round (round 7 once chosen), the numbers of books and runs asked for are accepted by the server's contract rule |
| `ContractModal.NoChoiceNothingRequired` | client/src/components/ContractPlacementModal.tsx:27-44 | round 7 without a dealer's choice asks for nothing |
| `ContractModal.ClientIsValidRun` | client/src/components/ContractPlacementModal.tsx:81-105 | the client's run check returns ClientRun: at least 4 cards, a non-joker, one suit, and every adjacent gap of the sorted non-jokers at most jokers+1 |
| `ContractModal.GapsCheck` | client/src/components/ContractPlacementModal.tsx:99-102 | the gap loop checks every adjacent gap on its own |
| `ContractModal.JokerFreeClientRun` | client/src/components/ContractPlacementModal.tsx:81-105 | without jokers the client accepts exactly 4 or more cards of one suit whose sorted ranks never step by more than one |
| `ContractModal.JokerFreeClientGaps` | client/src/components/ContractPlacementModal.tsx:81-105 | without jokers the client's check is the size and suit test plus every gap at most one |
| `ContractModal.ServerRunFailsClient` | client/src/components/ContractPlacementModal.tsx:95-104 | every joker-free server run fails the client's check |
| `ContractModal.JokerFreeNeverBoth` | client/src/components/ContractPlacementModal.tsx:81-105 | no joker-free meld passes both run checks |
| `ContractModal.ClientAcceptsConsecutive` | client/src/components/ContractPlacementModal.tsx:95-104 | joker-free cards of one suit stepping by exactly one pass the client |
| `ContractModal.ConsecutiveFour` | client/src/components/ContractPlacementModal.tsx:81-105 | any four cards of one suit ranked 3-4-5-6 pass the client |
| `ContractModal.ConsecutiveRunDisagreement` | client/src/components/ContractPlacementModal.tsx:95-104 | hearts 3-4-5-6 passes the client and fails the server |
| `ContractModal.ClientRefusesWideStep` | client/src/components/ContractPlacementModal.tsx:99-102 | cards in rank order with a step wider than one, and no jokers, fail the client |
| `ContractModal.SkippingFourRefused` | client/src/components/ContractPlacementModal.tsx:99-102 | any four cards ranked 3-4-6-8 fail the client |
| `ContractModal.SkippingRunDisagreement` | client/src/components/ContractPlacementModal.tsx:95-104 | hearts 3-4-6-8 fails the client and passes the server |
| `ContractModal.ClientAcceptsWithJokers` | client/src/components/ContractPlacementModal.tsx:96-102 | one suit in rank order with steps of at most two, plus one joker, passes the client |
| `ContractModal.GapsNotSummed` | client/src/components/ContractPlacementModal.tsx:99-102 | 3-5-7 of one suit plus one joker passes, though filling both gaps needs two jokers |
| `ContractModal.AvailableCards` | client/src/components/ContractPlacementModal.tsx:52-58 | a hand card is available iff its id is in neither the placed groups nor the current group |
| `ContractModal.RemoveId` | client/src/components/ContractPlacementModal.tsx:111 | the filter drops exactly the cards with the id |
| `ContractModal.ToggleCard` | client/src/components/ContractPlacementModal.tsx:108-115 | toggling flips the membership of exactly that id in the current group and changes nothing else |
| `ContractModal.ToggleTwice` | client/src/components/ContractPlacementModal.tsx:109-113 | toggling an unselected card twice restores the selection exactly |
| `ContractModal.ConfirmGroup` | client/src/components/ContractPlacementModal.tsx:118-130 | acts only on a group meeting its requirement: appends it to the placed groups and clears the current group; emits all groups iff it was the last requirement, otherwise moves to the next |
| `ContractModal.GoBack` | client/src/components/ContractPlacementModal.tsx:133-140 | the last placed group becomes current again and the index goes back one; at index 0 nothing changes |
| `ContractModal.BackUndoesConfirm` | client/src/components/ContractPlacementModal.tsx:118-140 | goBack exactly undoes a confirm that did not finish |
| `ContractModal.InitialInProgress` | client/src/components/ContractPlacementModal.tsx:21-23 | the initial state is in progress |
| `ContractModal.ToggleKeeps` | client/src/components/ContractPlacementModal.tsx:108-115 | toggling keeps one valid placed group per passed requirement |
| `ContractModal.BackKeeps` | client/src/components/ContractPlacementModal.tsx:133-140 | going back keeps that invariant |
| `ContractModal.ConfirmKeeps` | client/src/components/ContractPlacementModal.tsx:118-130 | a confirm keeps it, or emits exactly one group per requirement, each meeting its requirement |
| `ContractModal.ToggleKeepsPicks` | client/src/components/ContractPlacementModal.tsx:108-115 | toggling a hand card that is not in a placed group keeps the picks distinct cards of the hand |
| `ContractModal.ConfirmKeepsPicks` | client/src/components/ContractPlacementModal.tsx:118-130 | confirming keeps the picks distinct cards of the hand |
| `ContractModal.BackKeepsPicks` | client/src/components/ContractPlacementModal.tsx:133-140 | going back keeps the picks distinct cards of the hand |
| `ContractModal.EmittedFromHand` | client/src/components/ContractPlacementModal.tsx:124-126 | the groups sent to onPlace are distinct cards of the hand |

## Left out

- Randomness: `Math.random` in `shuffle`, `generateLobbyCode` and `generateUsername` becomes a parameter.
  - `shuffle` takes one pick per pass: `picks[i] mod (i+1)`.
  - `createLobby` takes the successive code draws.
  - `generateUsername` takes its three draws.
  - `joinLobby` and `createLobby` take the generated name.
- Clocks: the `Date.now()` game id is the parameter `gameId`, and callers must give one not yet stored. The buy phase's `startTime` and the lobby's `createdAt` are not modelled.
- Logging (`console.log`) is not modelled.
- server/src/index.ts is not part of this model: the socket wiring, broadcasts and the delay before `nextRound`.
  - Its "at least 2 players" check (server/src/index.ts:133) is a precondition of `Manager.GameManager.CreateGame`, together with at most 6 distinct ids.
  - Its host-only checks for starting and ending early (server/src/index.ts:127, 374) are not modelled: a game records no host.
  - Its dealer-only check for the dealer's choice (server/src/index.ts:361) is not modelled: `setDealersChoice` is not told who calls it.
- `getGame`, `getGameByCode` and `getAllLobbies` are plain lookups and are not modelled.
- `Manager.GameManager.DrawFromDeck`: a game with no stored deck is modelled as a game with an empty deck. Both refuse the draw. `createGame` stores an empty deck beside each game to make this hold.
- `Melds.SortForRun`: the order a JavaScript engine gives with the inconsistent comparator is not modelled. The model fixes one permitted order, a stable insertion sort with that comparator. Results with jokers present hold for this order only, except the scan lemmas, which hold for every arrangement.
- `Melds.Step`: `RANK_VALUES['JOKER']` is `undefined`, so `expectedValue` becomes NaN. NaN is modelled as `None`, and the arithmetic on it by its JavaScript results: every comparison is false and `++` stays NaN.
- `Turns.AddToMeld`: `meldIndex` is a `nat`. A negative or fractional index, which makes the source throw, is not modelled.
- `Turns.CreateGame`: `discardIsDead` starts `false`, matching the source's `undefined`, which every test reads as false.
- `Lobbies.ToUpper`: only the ASCII letters are upper-cased. Other Unicode case mappings, and JavaScript's UTF-16 code units, are not modelled.
- `Lobbies.LobbyManager.LeaveLobby`: the host-promotion branch (server/src/lobbyManager.ts:114-118) runs only when the leaver was host and the lobby is not empty. The branch above it has already deleted the lobby in that case, so the branch is unreachable and has no counterpart.
- Aliasing: a `Lobby` or `GameState` returned to a caller is a value here. In the source it is the stored object, so later updates through it are not modelled.
- `ContractModal.ConfirmGroup`: it requires the index to be below the number of requirements. With no requirements (round 7 before the choice), the source crashes reading `minCards` of `undefined`, and that crash is not modelled.
- `ContractModal.ToggleCard`: the hand grid offers a card only when it is not in a placed group. That guard lives in the rendering, so it appears only as a precondition of `ContractModal.ToggleKeepsPicks`.
- The rendering of the modal, and the client's contexts, hooks and settings, are not modelled. The modal's three pieces of `useState` are one `Selection` value, and each handler maps the old value to the new one.
- Floating point: card points, scores and counts are integers.
