/** The server's rules engine for one game (server/src/gameManager.ts):
    dealing, the turn and buy state machines, contract placement, laying
    off onto melds, discarding and scoring. */
module Game {
  import opened Types
  import opened Cards
  import opened Melds
  import opened Rounds

  const MAX_BUYS: int := 3
  const MAX_HAND: int := 18

  // ---------------------------------------------------------------------
  // Pure helpers over cards and players
  // ---------------------------------------------------------------------

  /** calculateHandPoints: the sum of the card points of a hand. */
  function HandPoints(hand: seq<Card>): int
  {
    if hand == [] then 0 else hand[0].point + HandPoints(hand[1..])
  }

  /** Points add up over a split hand. */
  lemma {:induction false} HandPointsAppend(a: seq<Card>, b: seq<Card>)
    ensures HandPoints(a + b) == HandPoints(a) + HandPoints(b)
  {
    if a == [] {
      assert a + b == b;
    } else {
      assert (a + b)[0] == a[0];
      assert (a + b)[1..] == a[1..] + b;
      HandPointsAppend(a[1..], b);
    }
  }

  lemma {:induction false} HandPointsRemove(b: seq<Card>, k: nat)
    requires k < |b|
    ensures HandPoints(b) == b[k].point + HandPoints(b[..k] + b[k + 1..])
  {
    if k == 0 {
      assert b[..0] + b[1..] == b[1..];
    } else {
      var t := b[1..];
      HandPointsRemove(t, k - 1);
      var rest := b[..k] + b[k + 1..];
      assert rest[0] == b[0] && rest[1..] == t[..k - 1] + t[k..];
    }
  }

  lemma RemoveAtMultiset(b: seq<Card>, k: nat)
    requires k < |b|
    ensures multiset(b[..k] + b[k + 1..]) == multiset(b) - multiset{b[k]}
  {
    assert b == b[..k] + [b[k]] + b[k + 1..];
  }

  lemma FindCard(b: seq<Card>, x: Card) returns (k: nat)
    requires x in multiset(b)
    ensures k < |b| && b[k] == x
  {
    assert x in b;
    k :| 0 <= k < |b| && b[k] == x;
  }

  lemma PermutedRest(a: seq<Card>, b: seq<Card>, k: nat)
    requires a != [] && multiset(a) == multiset(b) && k < |b| && b[k] == a[0]
    ensures multiset(a[1..]) == multiset(b[..k] + b[k + 1..])
  {
    RemoveAtMultiset(b, k);
    RemoveAtMultiset(a, 0);
    assert a[..0] + a[1..] == a[1..];
  }

  /** The score of a hand depends only on which cards it holds, not their order. */
  lemma {:induction false} HandPointsPermutation(a: seq<Card>, b: seq<Card>)
    requires multiset(a) == multiset(b)
    ensures HandPoints(a) == HandPoints(b)
  {
    if a == [] {
      assert |b| == |multiset(b)| == 0;
    } else {
      var k := FindCard(b, a[0]);
      PermutedRest(a, b, k);
      HandPointsPermutation(a[1..], b[..k] + b[k + 1..]);
      HandPointsRemove(b, k);
    }
  }

  /** Cards of the deck score as CARD_POINTS says, so no hand scores below zero. */
  lemma {:induction false} HandPointsNonNegative(hand: seq<Card>)
    requires forall c <- hand :: c.point == CardPoints(c.rank)
    ensures HandPoints(hand) >= 0
    ensures HandPoints(hand) == 0 <==> hand == []
  {
    if hand != [] {
      assert forall c <- hand[1..] :: c in hand;
      HandPointsNonNegative(hand[1..]);
    }
  }

  /** Two kings and a joker left in hand cost 70 points. */
  lemma KingsAndJokerScore()
    ensures HandPoints([C(King, Hearts, 11), C(King, Spades, 50), C(Joker, JokerSuit, 104)]) == 70
  {
  }

  /** groups.flat() */
  function Flatten(groups: seq<seq<Card>>): seq<Card>
  {
    if groups == [] then [] else Flatten(groups[..|groups| - 1]) + groups[|groups| - 1]
  }

  lemma FlattenSnoc(groups: seq<seq<Card>>, g: seq<Card>)
    ensures Flatten(groups + [g]) == Flatten(groups) + g
  {
    assert (groups + [g])[..|groups|] == groups;
  }

  /** Replacing one group changes the flattened cards by exactly that group. */
  lemma {:induction false} FlattenUpdate(groups: seq<seq<Card>>, i: nat, g: seq<Card>)
    requires i < |groups|
    ensures multiset(Flatten(groups[i := g])) + multiset(groups[i]) == multiset(Flatten(groups)) + multiset(g)
  {
    var n := |groups| - 1;
    var h := groups[i := g];
    assert Flatten(h) == Flatten(h[..n]) + h[n];
    assert Flatten(groups) == Flatten(groups[..n]) + groups[n];
    if i < n {
      FlattenUpdate(groups[..n], i, g);
      assert h[..n] == groups[..n][i := g];
      assert groups[..n][i] == groups[i];
      assert h[n] == groups[n];
      var a0, a1 := multiset(Flatten(groups[..n])), multiset(Flatten(h[..n]));
      var x, y, z := multiset(groups[n]), multiset(groups[i]), multiset(g);
      assert a1 + y == a0 + z;
      calc {
        multiset(Flatten(h)) + y;
        a1 + x + y;
        a0 + z + x;
        multiset(Flatten(groups)) + z;
      }
    } else {
      assert h[..n] == groups[..n];
    }
  }

  /** The cards a player holds or has laid down. */
  function PlayerCards(p: Player): multiset<Card>
  {
    multiset(p.hand) + multiset(Flatten(p.placedCards))
  }

  /** The cards of all players. */
  function AllPlayerCards(ps: seq<Player>): multiset<Card>
  {
    if ps == [] then multiset{} else AllPlayerCards(ps[..|ps| - 1]) + PlayerCards(ps[|ps| - 1])
  }

  lemma MultisetRearrange(a0: multiset<Card>, a1: multiset<Card>, x: multiset<Card>, y: multiset<Card>, z: multiset<Card>)
    requires a1 + y == a0 + z
    ensures a1 + x + y == a0 + x + z
  {
    assert a1 + x + y == (a1 + y) + x;
    assert a0 + x + z == (a0 + z) + x;
  }

  lemma {:induction false} AllPlayerCardsUpdate(ps: seq<Player>, i: nat, p: Player)
    requires i < |ps|
    ensures AllPlayerCards(ps[i := p]) + PlayerCards(ps[i]) == AllPlayerCards(ps) + PlayerCards(p)
  {
    var n := |ps| - 1;
    var qs := ps[i := p];
    if i < n {
      AllPlayerCardsUpdate(ps[..n], i, p);
      assert qs[..n] == ps[..n][i := p];
      assert ps[..n][i] == ps[i];
      MultisetRearrange(AllPlayerCards(ps[..n]), AllPlayerCards(qs[..n]), PlayerCards(ps[n]), PlayerCards(ps[i]), PlayerCards(p));
    } else {
      assert qs[..n] == ps[..n];
    }
  }

  lemma {:induction false} AllPlayerCardsWithin(ps: seq<Player>, i: nat)
    requires i < |ps|
    ensures PlayerCards(ps[i]) <= AllPlayerCards(ps)
  {
    var n := |ps| - 1;
    assert AllPlayerCards(ps) == AllPlayerCards(ps[..n]) + PlayerCards(ps[n]);
    if i < n {
      assert ps[..n][i] == ps[i];
      AllPlayerCardsWithin(ps[..n], i);
    }
  }

  lemma {:induction false} AllPlayerCardsSame(ps: seq<Player>, qs: seq<Player>)
    requires |ps| == |qs|
    requires forall j :: 0 <= j < |ps| ==> ps[j].hand == qs[j].hand && ps[j].placedCards == qs[j].placedCards
    ensures AllPlayerCards(ps) == AllPlayerCards(qs)
  {
    if ps != [] {
      AllPlayerCardsSame(ps[..|ps| - 1], qs[..|qs| - 1]);
    }
  }

  /** The hands of the players, in seat order. */
  function HandsOf(ps: seq<Player>): seq<seq<Card>>
  {
    seq(|ps|, j requires 0 <= j < |ps| => ps[j].hand)
  }

  lemma {:induction false} FreshPlayersCards(ps: seq<Player>)
    requires forall j :: 0 <= j < |ps| ==> ps[j].placedCards == []
    ensures AllPlayerCards(ps) == multiset(Flatten(HandsOf(ps)))
  {
    if ps != [] {
      var n := |ps| - 1;
      FreshPlayersCards(ps[..n]);
      HandsOfSnoc(ps);
      FlattenSnoc(HandsOf(ps[..n]), ps[n].hand);
      assert PlayerCards(ps[n]) == multiset(ps[n].hand);
    }
  }

  lemma HandsOfSnoc(ps: seq<Player>)
    requires ps != []
    ensures HandsOf(ps) == HandsOf(ps[..|ps| - 1]) + [ps[|ps| - 1].hand]
  {
    var n := |ps| - 1;
    assert forall j :: 0 <= j < n ==> ps[..n][j] == ps[j];
  }

  /** players.findIndex(p => p.id === id), -1 when absent. */
  function IndexOfPlayer(ps: seq<Player>, id: string): (r: int)
    ensures -1 <= r < |ps|
    ensures r >= 0 ==> ps[r].id == id && forall j :: 0 <= j < r ==> ps[j].id != id
    ensures r == -1 ==> forall j :: 0 <= j < |ps| ==> ps[j].id != id
  {
    if ps == [] then -1
    else if ps[0].id == id then 0
    else var k := IndexOfPlayer(ps[1..], id); if k < 0 then -1 else k + 1
  }

  /** hand.findIndex(c => c.id === id), -1 when absent. */
  function IndexOfCard(hand: seq<Card>, id: nat): (r: int)
    ensures -1 <= r < |hand|
    ensures r >= 0 ==> hand[r].id == id && forall j :: 0 <= j < r ==> hand[j].id != id
    ensures r == -1 ==> forall j :: 0 <= j < |hand| ==> hand[j].id != id
  {
    if hand == [] then -1
    else if hand[0].id == id then 0
    else var k := IndexOfCard(hand[1..], id); if k < 0 then -1 else k + 1
  }

  predicate IdsDistinct(ps: seq<Player>)
  {
    forall i, j :: 0 <= i < j < |ps| ==> ps[i].id != ps[j].id
  }

  /** With distinct ids, looking a seat's id up finds that seat. */
  lemma IndexOfOwnId(ps: seq<Player>, i: nat)
    requires IdsDistinct(ps) && i < |ps|
    ensures IndexOfPlayer(ps, ps[i].id) == i
  {
  }

  /** The last element of the discard pile, null when it is empty. */
  function Top(pile: seq<Card>): (r: Option<Card>)
    ensures r.None? <==> pile == []
    ensures r.Some? ==> r.value == pile[|pile| - 1]
  {
    if pile == [] then None else Some(pile[|pile| - 1])
  }

  /** new Set(cards.map(c => c.id)) */
  function IdsOf(cards: seq<Card>): set<nat>
  {
    set c | c in cards :: c.id
  }

  /** hand.filter(c => !ids.has(c.id)) */
  function RemoveIds(hand: seq<Card>, ids: set<nat>): (r: seq<Card>)
    ensures forall c :: c in r <==> c in hand && c.id !in ids
  {
    if hand == [] then []
    else (if hand[0].id in ids then [] else [hand[0]]) + RemoveIds(hand[1..], ids)
  }

  lemma {:induction false} RemoveIdsSub(hand: seq<Card>, ids: set<nat>)
    ensures multiset(RemoveIds(hand, ids)) <= multiset(hand)
  {
    if hand != [] {
      RemoveIdsSub(hand[1..], ids);
      assert hand == [hand[0]] + hand[1..];
    }
  }

  lemma {:induction false} DistinctMultiplicity(s: seq<Card>)
    requires forall i, j :: 0 <= i < j < |s| ==> s[i] != s[j]
    ensures forall x :: multiset(s)[x] <= 1
  {
    if s != [] {
      DistinctMultiplicity(s[1..]);
      assert s == [s[0]] + s[1..];
      assert s[0] !in s[1..];
    }
  }

  /** No card occurs twice in the deck. */
  lemma FullDeckDistinct()
    ensures forall x :: multiset(FullDeck())[x] <= 1
  {
    DistinctMultiplicity(FullDeck());
  }

  /** A card of the deck is determined by its id. */
  lemma DeckCardIdentity(c: Card)
    requires c in multiset(FullDeck())
    ensures c.id < DECK_SIZE && c == FullDeck()[c.id]
  {
    var k :| 0 <= k < |FullDeck()| && FullDeck()[k] == c;
  }

  /** Filtering a hand of deck cards by the ids of some of its cards removes
      exactly those cards. */
  lemma RemoveMatched(hand: seq<Card>, m: multiset<Card>, ids: set<nat>)
    requires multiset(hand) <= multiset(FullDeck()) && m <= multiset(hand)
    requires ids == set c | c in m :: c.id
    ensures multiset(RemoveIds(hand, ids)) + m == multiset(hand)
  {
    var r := RemoveIds(hand, ids);
    RemoveIdsSub(hand, ids);
    FullDeckDistinct();
    forall c ensures multiset(r)[c] + m[c] == multiset(hand)[c] {
      if c in hand {
        assert c in multiset(FullDeck());
        if c.id in ids {
          var d :| d in m && d.id == c.id;
          assert d in multiset(FullDeck());
          DeckCardIdentity(c);
          DeckCardIdentity(d);
          assert c !in r;
        } else {
          assert c !in m;
          assert c in r;
        }
      } else {
        assert c !in r;
        assert m[c] <= multiset(hand)[c];
      }
    }
    assert multiset(r) + m == multiset(hand);
  }

  // ---------------------------------------------------------------------
  // The classification loop of placeContract
  // ---------------------------------------------------------------------

  /** The loop of placeContract from group i on, with the books and runs
      counted so far: a group counts as a book if it is one, else as a run
      if it is one, else the placement fails (None). */
  function ClassifyFrom(groups: seq<seq<Card>>, i: nat, books: nat, runs: nat): Option<(nat, nat)>
    decreases |groups| - i
  {
    if i >= |groups| then Some((books, runs))
    else if IsValidBook(groups[i]) then ClassifyFrom(groups, i + 1, books + 1, runs)
    else if IsRun(groups[i]) then ClassifyFrom(groups, i + 1, books, runs + 1)
    else None
  }

  function Classify(groups: seq<seq<Card>>): Option<(nat, nat)>
  {
    ClassifyFrom(groups, 0, 0, 0)
  }

  lemma {:induction false} ClassifyFromMeaning(groups: seq<seq<Card>>, i: nat, books: nat, runs: nat)
    requires i <= |groups|
    ensures ClassifyFrom(groups, i, books, runs).Some?
            <==> forall k :: i <= k < |groups| ==> IsValidBook(groups[k]) || IsRun(groups[k])
    ensures ClassifyFrom(groups, i, books, runs).Some? ==>
            var (b, r) := ClassifyFrom(groups, i, books, runs).value;
            b + r == books + runs + |groups| - i && b >= books && r >= runs
    decreases |groups| - i
  {
    if i < |groups| {
      if IsValidBook(groups[i]) {
        ClassifyFromMeaning(groups, i + 1, books + 1, runs);
      } else {
        ClassifyFromMeaning(groups, i + 1, books, runs + 1);
      }
    }
  }

  /** The groups pass the loop iff every group is a book or a run, and then
      every group is counted once. */
  lemma ClassifyMeaning(groups: seq<seq<Card>>)
    ensures Classify(groups).Some? <==> forall g <- groups :: IsValidBook(g) || IsRun(g)
    ensures Classify(groups).Some? ==> Classify(groups).value.0 + Classify(groups).value.1 == |groups|
  {
    ClassifyFromMeaning(groups, 0, 0, 0);
    assert forall g <- groups :: exists k :: 0 <= k < |groups| && groups[k] == g;
  }

  lemma {:induction false} ClassifiedSize(groups: seq<seq<Card>>, i: nat, books: nat, runs: nat)
    requires i <= |groups|
    requires |Flatten(groups[..i])| >= MIN_BOOK_CARDS * books + MIN_RUN_CARDS * runs
    requires ClassifyFrom(groups, i, books, runs).Some?
    ensures var (b, r) := ClassifyFrom(groups, i, books, runs).value;
            |Flatten(groups)| >= MIN_BOOK_CARDS * b + MIN_RUN_CARDS * r
    decreases |groups| - i
  {
    if i == |groups| {
      assert groups[..i] == groups;
    } else {
      FlattenPrefix(groups, i);
      if IsValidBook(groups[i]) {
        ClassifiedSize(groups, i + 1, books + 1, runs);
      } else {
        ClassifiedSize(groups, i + 1, books, runs + 1);
      }
    }
  }

  lemma FlattenPrefix(groups: seq<seq<Card>>, i: nat)
    requires i < |groups|
    ensures |Flatten(groups[..i + 1])| == |Flatten(groups[..i])| + |groups[i]|
  {
    assert groups[..i + 1] == groups[..i] + [groups[i]];
    FlattenSnoc(groups[..i], groups[i]);
  }

  /** Every contract placeContract accepts lays down at least cardsDealt cards. */
  lemma AcceptedContractSize(round: int, choice: Option<DealersChoice>, groups: seq<seq<Card>>)
    requires 1 <= round <= ROUNDS && Classify(groups).Some?
    requires ContractMet(round, ROUND_CONFIGS[round - 1], choice, Classify(groups).value.0, Classify(groups).value.1)
    ensures |Flatten(groups)| >= ROUND_CONFIGS[round - 1].cardsDealt
  {
    ClassifiedSize(groups, 0, 0, 0);
    ContractMinimum(round, choice, Classify(groups).value.0, Classify(groups).value.1);
  }

  // ---------------------------------------------------------------------
  // Per-player updates
  // ---------------------------------------------------------------------

  /** The per-round reset of startRound: a new hand, nothing laid down, no
      round score and no buys; id, name and total score are kept. */
  function ResetForRound(p: Player, hand: seq<Card>, cardsDealt: int): Player
  {
    p.(hand := hand, cardCount := cardsDealt, hasPlacedContract := false, placedCards := [], roundScore := 0, buysUsed := 0)
  }

  /** endRound for one player: the hand's points are the round score and are
      added to the total. */
  function Score(p: Player): (q: Player)
    ensures q.roundScore == HandPoints(p.hand)
    ensures q.totalScore - p.totalScore == q.roundScore
    ensures q.(roundScore := p.roundScore, totalScore := p.totalScore) == p
  {
    p.(roundScore := HandPoints(p.hand), totalScore := p.totalScore + HandPoints(p.hand))
  }

  /** Whether every player's round score is the value of the cards left in
      hand and was added to the total; the player who went out scores 0. */
  lemma ScoredRound(ps: seq<Player>, qs: seq<Player>, w: nat)
    requires |qs| == |ps| && forall j :: 0 <= j < |ps| ==> qs[j] == Score(ps[j])
    requires w < |ps| && ps[w].hand == []
    ensures qs[w].roundScore == 0 && qs[w].totalScore == ps[w].totalScore
    ensures forall j :: 0 <= j < |ps| ==> qs[j].totalScore == ps[j].totalScore + HandPoints(ps[j].hand)
  {
  }

  /** What a game reply carries besides the state. */
  datatype Refusal =
    | NotInPlacePhase | NotYourTurn | AlreadyPlaced | InvalidGroup | WrongContract
    | NotInBuyPhase | WaitingForNextPlayer | NoBuysLeft | TooManyCards | NotYourBuyTurn
    | NotPlaying | ContractNotPlaced | InvalidMeld | CardNotInHand | DoesNotFit

  /** `{ success: true }`, `{ success: false, error }` or `null`. */
  datatype Outcome = Success | Failure(reason: Refusal) | Null
}
