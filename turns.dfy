/** The rules of one game as transitions of its GameState and of the
    remaining deck the server keeps beside it (server/src/gameManager.ts).
    Each function is what one GameManager method does to the game it looks
    up; the lemmas state what the game promises about them. */
module Turns {
  import opened Types
  import opened Cards
  import opened Melds
  import opened Rounds
  import opened Game

  /** A new state and the method's reply. */
  datatype Turn<R> = Turn(game: GameState, reply: R)

  /** A new state, the new remaining deck and the method's reply. */
  datatype DeckTurn<R> = DeckTurn(game: GameState, deck: seq<Card>, reply: R)

  // ---------------------------------------------------------------------
  // The representation invariant and the cards on the table
  // ---------------------------------------------------------------------

  /** A player record whose count matches the hand and which has laid
      nothing down unless it placed its contract. */
  predicate PlayerOk(p: Player)
  {
    p.cardCount == |p.hand| && (!p.hasPlacedContract ==> p.placedCards == [])
  }

  /** The table: two to six players with distinct ids, a round of the table
      and the dealer it implies. */
  predicate Seated(g: GameState)
  {
    && 2 <= |g.players| <= 6
    && IdsDistinct(g.players)
    && 1 <= g.round <= ROUNDS
    && g.dealerIndex == (g.round - 1) % |g.players|
  }

  /** What every operation keeps of a game and its remaining deck. */
  predicate Structural(g: GameState, deck: seq<Card>)
  {
    && Seated(g)
    && 0 <= g.currentPlayerIndex < |g.players|
    && g.currentPlayerId == g.players[g.currentPlayerIndex].id
    && g.roundConfig == ROUND_CONFIGS[g.round - 1]
    && g.deckCount == |deck|
    && g.topDiscard == Top(g.discardPile)
    && (forall j :: 0 <= j < |g.players| ==> PlayerOk(g.players[j]))
    && (g.turnPhase == Buy <==> g.buyPhase.Some?)
    && (g.buyPhase.Some? ==>
          0 <= g.buyPhase.value.askedPlayerIndex < |g.players| &&
          g.buyPhase.value.askedPlayerIndex != g.currentPlayerIndex)
  }

  /** Every card on the table: the deck, the discard pile, hands and melds. */
  function TableCards(g: GameState, deck: seq<Card>): multiset<Card>
  {
    multiset(deck) + multiset(g.discardPile) + AllPlayerCards(g.players)
  }

  /** The seat after seat i. */
  function SeatAfter(g: GameState, i: int): (r: int)
    requires |g.players| > 0
    ensures 0 <= r < |g.players|
  {
    (i + 1) % |g.players|
  }

  // ---------------------------------------------------------------------
  // createGame
  // ---------------------------------------------------------------------

  /** A new player record of createGame. */
  function NewPlayer(id: string, name: string): Player
  {
    Player(id, name, [], 0, 0, 0, false, [], 0)
  }

  /** createGame: round 1 with dealer 0 and the first player current, no
      cards yet, and the default settings when none are given. The
      timestamp id is the parameter gameId. */
  function CreateGame(gameId: string, gameCode: string, playerIds: seq<string>, playerNames: seq<string>,
                      settings: Option<GameSettings>): GameState
    requires 1 <= |playerIds| && |playerNames| == |playerIds|
  {
    GameState(gameId, gameCode,
              seq(|playerIds|, j requires 0 <= j < |playerIds| => NewPlayer(playerIds[j], playerNames[j])),
              0, playerIds[0], 1, 0, 0, None, [], Starting, Draw, ROUND_CONFIGS[0], None,
              if settings.Some? then settings.value else DEFAULT_SETTINGS, None, false)
  }

  /** A lobby's players give a well-formed game that holds no card yet. */
  lemma CreateGameValid(gameId: string, gameCode: string, playerIds: seq<string>, playerNames: seq<string>,
                        settings: Option<GameSettings>)
    requires 2 <= |playerIds| <= 6 && |playerNames| == |playerIds|
    requires forall i, j :: 0 <= i < j < |playerIds| ==> playerIds[i] != playerIds[j]
    ensures var g := CreateGame(gameId, gameCode, playerIds, playerNames, settings);
            Structural(g, []) && TableCards(g, []) == multiset{} && g.phase == Starting
  {
    var g := CreateGame(gameId, gameCode, playerIds, playerNames, settings);
    FreshPlayersCards(g.players);
    FlattenEmpty(HandsOf(g.players));
  }

  lemma {:induction false} FlattenEmpty(groups: seq<seq<Card>>)
    requires forall k :: 0 <= k < |groups| ==> groups[k] == []
    ensures Flatten(groups) == []
  {
    if groups != [] {
      FlattenEmpty(groups[..|groups| - 1]);
    }
  }

  // ---------------------------------------------------------------------
  // startRound
  // ---------------------------------------------------------------------

  /** The deal of startRound: each player in seat order takes the next n
      cards (deck.splice(0, n): fewer when fewer are left) and has the
      per-round fields reset; the second component is what is left. */
  function Deal(ps: seq<Player>, cards: seq<Card>, n: int): (r: (seq<Player>, seq<Card>))
    ensures |r.0| == |ps|
  {
    if ps == [] then ([], cards)
    else
      var k := if n < 0 then 0 else if n <= |cards| then n else |cards|;
      var rest := Deal(ps[1..], cards[k..], n);
      ([ResetForRound(ps[0], cards[..k], n)] + rest.0, rest.1)
  }

  lemma FlattenCons(g: seq<Card>, groups: seq<seq<Card>>)
    ensures Flatten([g] + groups) == g + Flatten(groups)
    decreases |groups|
  {
    if groups != [] {
      var n := |groups| - 1;
      assert ([g] + groups)[..n + 1] == [g] + groups[..n];
      FlattenCons(g, groups[..n]);
    }
  }

  lemma MulSucc(a: nat, n: nat)
    ensures (a + 1) * n == a * n + n && a * n >= 0
  {
  }

  /** Enough cards for everyone: every hand has n cards, the hands followed
      by the rest are the deck in order, and the per-round fields are reset. */
  lemma DealFacts(ps: seq<Player>, cards: seq<Card>, n: nat)
    requires |ps| * n <= |cards|
    ensures var (dealt, rest) := Deal(ps, cards, n);
            && Flatten(HandsOf(dealt)) + rest == cards
            && |rest| == |cards| - |ps| * n
            && forall j :: 0 <= j < |ps| ==>
                 dealt[j] == ResetForRound(ps[j], dealt[j].hand, n) && |dealt[j].hand| == n
  {
    DealOrder(ps, cards, n);
    DealSeatsReset(ps, cards, n);
  }

  /** The hands in seat order followed by what is left are the deck. */
  lemma {:induction false} DealOrder(ps: seq<Player>, cards: seq<Card>, n: nat)
    requires |ps| * n <= |cards|
    ensures Flatten(HandsOf(Deal(ps, cards, n).0)) + Deal(ps, cards, n).1 == cards
  {
    if ps != [] {
      MulSucc(|ps| - 1, n);
      DealOrder(ps[1..], cards[n..], n);
      var tail := Deal(ps[1..], cards[n..], n);
      var first := ResetForRound(ps[0], cards[..n], n);
      assert Deal(ps, cards, n) == ([first] + tail.0, tail.1);
      HandsOfCons(first, tail.0);
      FlattenCons(cards[..n], HandsOf(tail.0));
      assert cards == cards[..n] + cards[n..];
    }
  }

  /** Every seat gets n cards and a reset record; |ps| * n cards are used. */
  lemma {:induction false} DealSeatsReset(ps: seq<Player>, cards: seq<Card>, n: nat)
    requires |ps| * n <= |cards|
    ensures var (dealt, rest) := Deal(ps, cards, n);
            && |rest| == |cards| - |ps| * n
            && forall j :: 0 <= j < |ps| ==>
                 dealt[j] == ResetForRound(ps[j], dealt[j].hand, n) && |dealt[j].hand| == n
  {
    if ps != [] {
      MulSucc(|ps| - 1, n);
      DealSeatsReset(ps[1..], cards[n..], n);
      var tail := Deal(ps[1..], cards[n..], n);
      var dealt := [ResetForRound(ps[0], cards[..n], n)] + tail.0;
      assert Deal(ps, cards, n) == (dealt, tail.1);
      forall j | 0 <= j < |ps|
        ensures dealt[j] == ResetForRound(ps[j], dealt[j].hand, n) && |dealt[j].hand| == n
      {
        if j > 0 {
          assert dealt[j] == tail.0[j - 1] && ps[1..][j - 1] == ps[j];
        }
      }
    }
  }

  lemma HandsOfCons(p: Player, ps: seq<Player>)
    ensures HandsOf([p] + ps) == [p.hand] + HandsOf(ps)
  {
  }

  /** The deal loop of startRound (players.forEach with deck.splice). */
  method DealHands(ps: seq<Player>, cards: seq<Card>, n: int) returns (dealt: seq<Player>, rest: seq<Card>)
    ensures (dealt, rest) == Deal(ps, cards, n)
  {
    dealt := ps;
    rest := cards;
    var i := 0;
    assert ps[0..] == ps && dealt[..0] == [];
    while i < |dealt|
      invariant 0 <= i <= |dealt| == |ps|
      invariant dealt[i..] == ps[i..]
      invariant Deal(ps, cards, n).0 == dealt[..i] + Deal(ps[i..], rest, n).0
      invariant Deal(ps, cards, n).1 == Deal(ps[i..], rest, n).1
    {
      var k := if n < 0 then 0 else if n <= |rest| then n else |rest|;
      var hand := rest[..k];
      ghost var tail := Deal(ps[i + 1..], rest[k..], n);
      assert ps[i..][1..] == ps[i + 1..];
      assert ps[i..][0] == ps[i] == dealt[i];
      assert Deal(ps[i..], rest, n) == ([ResetForRound(ps[i], hand, n)] + tail.0, tail.1);
      ghost var before := dealt;
      dealt := dealt[i := ResetForRound(dealt[i], hand, n)];
      rest := rest[k..];
      assert dealt[..i + 1] == before[..i] + [ResetForRound(ps[i], hand, n)];
      assert before[..i] + ([ResetForRound(ps[i], hand, n)] + tail.0) == dealt[..i + 1] + tail.0;
      assert dealt[i + 1..] == ps[i + 1..];
      i := i + 1;
    }
    assert dealt[..i] == dealt && ps[i..] == [];
    assert dealt + [] == dealt;
    assert ps[i..] == [];
  }

  /** shuffle(createDeck()) for the random choices picks. */
  function ShuffledDeck(picks: seq<nat>): (r: seq<Card>)
    requires |picks| >= DECK_SIZE
    ensures |r| == DECK_SIZE && multiset(r) == multiset(FullDeck())
  {
    ShuffledPermutes(FullDeck(), picks);
    Shuffled(FullDeck(), picks)
  }

  /** The fields startRound sets once the cards are dealt. */
  function Opened(g: GameState, config: RoundConfig, dealt: seq<Player>, pile: seq<Card>, top: Option<Card>,
                  rest: seq<Card>): GameState
    requires 0 <= g.dealerIndex < |dealt| == |g.players|
  {
    g.(roundConfig := config, players := dealt, topDiscard := top, discardPile := pile,
       deckCount := |rest|, currentPlayerIndex := g.dealerIndex,
       currentPlayerId := dealt[g.dealerIndex].id, phase := Playing, turnPhase := Buy,
       buyPhase := Some(BuyPhase(SeatAfter(g, g.dealerIndex), [], None, false)),
       discardIsDead := false)
  }

  /** startRound: a fresh deck shuffled with the random choices picks, the
      deal, the flip of the next card onto the discard pile (when there is
      one), the dealer current and a buy phase offered to the seat after. */
  function StartRound(g: GameState, picks: seq<nat>): DeckTurn<()>
    requires 1 <= g.round <= ROUNDS && 0 <= g.dealerIndex < |g.players| && |picks| >= DECK_SIZE
  {
    var config := ROUND_CONFIGS[g.round - 1];
    var d := Deal(g.players, ShuffledDeck(picks), config.cardsDealt);
    if d.1 != [] then DeckTurn(Opened(g, config, d.0, [d.1[0]], Some(d.1[0]), d.1[1..]), d.1[1..], ())
    else DeckTurn(Opened(g, config, d.0, g.discardPile, g.topDiscard, d.1), d.1, ())
  }

  /** With at least 36 cards left after the deal, startRound always flips a
      card: the state it builds. */
  lemma StartRoundIs(g: GameState, picks: seq<nat>)
    requires Seated(g) && |picks| >= DECK_SIZE
    ensures var config := ROUND_CONFIGS[g.round - 1];
            var d := Deal(g.players, ShuffledDeck(picks), config.cardsDealt);
            && |d.0| == |g.players| && |d.1| >= 36
            && StartRound(g, picks) == DeckTurn(Opened(g, config, d.0, [d.1[0]], Some(d.1[0]), d.1[1..]), d.1[1..], ())
  {
    RoundDeal(g, picks);
  }

  /** Dealing a round leaves a well-formed table holding all 108 cards of
      createDeck. */
  lemma StartRoundKeeps(g: GameState, picks: seq<nat>)
    requires Seated(g) && |picks| >= DECK_SIZE
    ensures var r := StartRound(g, picks);
            Structural(r.game, r.deck) && TableCards(r.game, r.deck) == multiset(FullDeck())
  {
    var config := ROUND_CONFIGS[g.round - 1];
    var d := Deal(g.players, ShuffledDeck(picks), config.cardsDealt);
    RoundDeal(g, picks);
    StartRoundIs(g, picks);
    DealtSeats(g.players, d.0, config.cardsDealt);
    var c := d.1[0];
    OpenedStructural(g, d.0, c, d.1[1..]);
    assert Flatten(HandsOf(d.0)) + [c] + d.1[1..] == ShuffledDeck(picks) by {
      assert d.1 == [c] + d.1[1..];
    }
    OpenedConserves(g, config, d.0, c, d.1[1..], ShuffledDeck(picks));
  }

  /** Freshly dealt seats keep their ids, are well formed and hold no melds. */
  lemma DealtSeats(ps: seq<Player>, dealt: seq<Player>, n: nat)
    requires |dealt| == |ps|
    requires forall j :: 0 <= j < |ps| ==> dealt[j] == ResetForRound(ps[j], dealt[j].hand, n) && |dealt[j].hand| == n
    ensures forall j :: 0 <= j < |dealt| ==> dealt[j].id == ps[j].id && PlayerOk(dealt[j]) && dealt[j].placedCards == []
  {
  }

  /** In seat order each hand holds the next cardsDealt cards of the
      shuffle, the next card is the only discard and the rest is the deck;
      every player keeps id, name and total, with the per-round fields reset. */
  lemma StartRoundHands(g: GameState, picks: seq<nat>)
    requires Seated(g) && |picks| >= DECK_SIZE
    ensures var r := StartRound(g, picks); var h := r.game; var n := h.roundConfig.cardsDealt;
            && Flatten(HandsOf(h.players)) + h.discardPile + r.deck == Shuffled(FullDeck(), picks)
            && |h.discardPile| == 1
            && h.deckCount == DECK_SIZE - |h.players| * n - 1
            && |h.players| == |g.players|
            && (forall j :: 0 <= j < |h.players| ==>
                  h.players[j] == ResetForRound(g.players[j], h.players[j].hand, n) && |h.players[j].hand| == n)
  {
    var config := ROUND_CONFIGS[g.round - 1];
    var n := config.cardsDealt;
    var d := Deal(g.players, ShuffledDeck(picks), n);
    RoundDeal(g, picks);
    StartRoundIs(g, picks);
    var c := d.1[0];
    var h := Opened(g, config, d.0, [c], Some(c), d.1[1..]);
    assert d.1 == [c] + d.1[1..];
    assert Flatten(HandsOf(h.players)) + h.discardPile + d.1[1..] == ShuffledDeck(picks);
  }

  /** The dealer is current and the seat after the dealer is asked first, in
      a game now being played; the round, the dealer's choice and the
      settings stay. */
  lemma StartRoundOpens(g: GameState, picks: seq<nat>)
    requires Seated(g) && |picks| >= DECK_SIZE
    ensures var h := StartRound(g, picks).game;
            && h.currentPlayerIndex == h.dealerIndex == g.dealerIndex
            && h.phase == Playing && h.turnPhase == Buy && !h.discardIsDead
            && h.buyPhase == Some(BuyPhase((g.dealerIndex + 1) % |g.players|, [], None, false))
            && h.round == g.round && h.dealersChoice == g.dealersChoice
            && h.id == g.id && h.gameCode == g.gameCode && h.settings == g.settings
  {
    StartRoundIs(g, picks);
  }

  /** The deal itself: every hand has cardsDealt cards, the hands in seat
      order are the front of the shuffled deck, and at least 36 cards are left. */
  lemma RoundDeal(g: GameState, picks: seq<nat>)
    requires Seated(g) && |picks| >= DECK_SIZE
    ensures var n := ROUND_CONFIGS[g.round - 1].cardsDealt; var d := Deal(g.players, ShuffledDeck(picks), n);
            && 6 <= n <= 12
            && Flatten(HandsOf(d.0)) + d.1 == ShuffledDeck(picks)
            && |d.1| == DECK_SIZE - |g.players| * n && |d.1| >= 36
            && forall j :: 0 <= j < |g.players| ==>
                 d.0[j] == ResetForRound(g.players[j], d.0[j].hand, n) && |d.0[j].hand| == n
  {
    var n := ROUND_CONFIGS[g.round - 1].cardsDealt;
    TableShape();
    DealFits(g.round, |g.players|);
    DealFacts(g.players, ShuffledDeck(picks), n);
  }

  /** The opened round is well formed whenever the dealt players are. */
  lemma OpenedStructural(g: GameState, dealt: seq<Player>, c: Card, rest: seq<Card>)
    requires Seated(g) && |dealt| == |g.players|
    requires forall j :: 0 <= j < |dealt| ==> dealt[j].id == g.players[j].id && PlayerOk(dealt[j])
    ensures Structural(Opened(g, ROUND_CONFIGS[g.round - 1], dealt, [c], Some(c), rest), rest)
  {
    assert IdsDistinct(dealt) by {
      forall i, j | 0 <= i < j < |dealt| ensures dealt[i].id != dealt[j].id {
        assert dealt[i].id == g.players[i].id && dealt[j].id == g.players[j].id;
      }
    }
    SeatAfterDiffers(g.dealerIndex, |g.players|);
  }

  /** The opened round holds exactly the dealt cards. */
  lemma OpenedConserves(g: GameState, config: RoundConfig, dealt: seq<Player>, c: Card, rest: seq<Card>, all: seq<Card>)
    requires 0 <= g.dealerIndex < |dealt| == |g.players|
    requires forall j :: 0 <= j < |dealt| ==> dealt[j].placedCards == []
    requires Flatten(HandsOf(dealt)) + [c] + rest == all
    ensures TableCards(Opened(g, config, dealt, [c], Some(c), rest), rest) == multiset(all)
  {
    FreshPlayersCards(dealt);
    Conserve(Flatten(HandsOf(dealt)), [c], rest, all);
  }

  /** With two or more seats the seat after i is another seat. */
  lemma SeatAfterDiffers(i: int, n: int)
    requires 0 <= i < n && n >= 2
    ensures 0 <= (i + 1) % n < n && (i + 1) % n != i
  {
    if i + 1 < n {
      assert (i + 1) % n == i + 1;
    } else {
      assert (i + 1) % n == 0;
    }
  }

  lemma Conserve(hands: seq<Card>, pile: seq<Card>, deck: seq<Card>, all: seq<Card>)
    requires hands + pile + deck == all
    ensures multiset(deck) + multiset(pile) + multiset(hands) == multiset(all)
  {
  }

  // ---------------------------------------------------------------------
  // Moving cards between the deck, the pile and a seat
  // ---------------------------------------------------------------------

  /** A seat whose record changes by gaining the cards m: the players as a
      whole gain m. */
  lemma {:induction false} SeatGains(ps: seq<Player>, i: nat, p: Player, m: multiset<Card>)
    requires i < |ps| && PlayerCards(p) == PlayerCards(ps[i]) + m
    ensures AllPlayerCards(ps[i := p]) == AllPlayerCards(ps) + m
  {
    AllPlayerCardsUpdate(ps, i, p);
    var x := PlayerCards(ps[i]);
    Cancel(AllPlayerCards(ps[i := p]), AllPlayerCards(ps) + m, x);
  }

  /** Multiset addition cancels. */
  lemma Cancel(a: multiset<Card>, b: multiset<Card>, x: multiset<Card>)
    requires a + x == b + x
    ensures a == b
  {
    forall e ensures a[e] == b[e] {
      assert (a + x)[e] == a[e] + x[e] && (b + x)[e] == b[e] + x[e];
    }
  }

  /** A new seating holding the same cards keeps the cards on the table. */
  lemma SameSeatCards(g: GameState, deck: seq<Card>, qs: seq<Player>)
    requires AllPlayerCards(qs) == AllPlayerCards(g.players)
    ensures TableCards(g.(players := qs), deck) == TableCards(g, deck)
  {
  }

  /** Replacing a seat by a well-formed record with the same id keeps the
      table well formed. */
  lemma ReplaceSeat(g: GameState, i: nat, p: Player)
    requires Seated(g) && i < |g.players| && p.id == g.players[i].id
    requires forall j :: 0 <= j < |g.players| ==> PlayerOk(g.players[j])
    requires PlayerOk(p)
    ensures var qs := g.players[i := p];
            && Seated(g.(players := qs))
            && (forall j :: 0 <= j < |qs| ==> PlayerOk(qs[j]))
            && (forall j :: 0 <= j < |qs| ==> qs[j].id == g.players[j].id)
  {
    var qs := g.players[i := p];
    assert IdsDistinct(qs) by {
      forall a, b | 0 <= a < b < |qs| ensures qs[a].id != qs[b].id {
        assert qs[a].id == g.players[a].id && qs[b].id == g.players[b].id;
      }
    }
  }

  /** The seat whose id is current is the current seat. */
  lemma CurrentSeat(g: GameState, deck: seq<Card>)
    requires Structural(g, deck)
    ensures IndexOfPlayer(g.players, g.currentPlayerId) == g.currentPlayerIndex
  {
    IndexOfOwnId(g.players, g.currentPlayerIndex);
  }

  /** A player record with cards added to the hand. */
  function Receive(p: Player, cards: seq<Card>): (q: Player)
    ensures PlayerCards(q) == PlayerCards(p) + multiset(cards)
    ensures PlayerOk(p) ==> PlayerOk(q)
  {
    p.(hand := p.hand + cards, cardCount := |p.hand| + |cards|)
  }

  lemma TakeFirst(s: seq<Card>)
    requires s != []
    ensures multiset(s) == multiset{s[0]} + multiset(s[1..])
  {
    assert s == [s[0]] + s[1..];
  }

  lemma TakeLast(s: seq<Card>)
    requires s != []
    ensures multiset(s) == multiset(Pop(s)) + multiset{s[|s| - 1]}
  {
  }

  /** Cards m leave one place and arrive at another: the table is the same. */
  lemma Moved(deck: multiset<Card>, from: multiset<Card>, from': multiset<Card>,
              to: multiset<Card>, to': multiset<Card>, m: multiset<Card>)
    requires from == from' + m && to' == to + m
    ensures deck + from' + to' == deck + from + to
  {
  }

  /** discardPile.pop(): the pile without its last card (unchanged when empty). */
  function Pop(pile: seq<Card>): (r: seq<Card>)
    ensures pile != [] ==> pile == r + [pile[|pile| - 1]]
    ensures pile == [] ==> r == []
  {
    if pile == [] then [] else pile[..|pile| - 1]
  }

  // ---------------------------------------------------------------------
  // drawFromDeck and drawFromDiscard
  // ---------------------------------------------------------------------

  /** drawFromDeck: in the draw phase the current player takes the first card
      of the deck and moves on to placing. */
  function DrawFromDeck(g: GameState, deck: seq<Card>, playerId: string): DeckTurn<Option<Card>>
  {
    if g.phase != Playing || g.turnPhase != Draw || g.currentPlayerId != playerId || deck == [] then
      DeckTurn(g, deck, None)
    else
      var i := IndexOfPlayer(g.players, playerId);
      if i < 0 then DeckTurn(g, deck[1..], None)
      else
        DeckTurn(g.(players := g.players[i := Receive(g.players[i], [deck[0]])], deckCount := |deck| - 1,
                    turnPhase := Place, discardIsDead := false),
                 deck[1..], Some(deck[0]))
  }

  /** drawFromDeck succeeds exactly in the current player's draw phase with
      cards left; it then hands that player the first card of the deck and
      nothing else, and otherwise changes nothing. */
  lemma DrawFromDeckEffect(g: GameState, deck: seq<Card>, playerId: string)
    requires Structural(g, deck)
    ensures var r := DrawFromDeck(g, deck, playerId); var i := g.currentPlayerIndex;
            && (r.reply.Some? <==> g.phase == Playing && g.turnPhase == Draw && g.currentPlayerId == playerId && deck != [])
            && (r.reply.None? ==> r.game == g && r.deck == deck)
            && (r.reply.Some? ==>
                  && r.reply.value == deck[0] && r.deck == deck[1..]
                  && r.game.players[i].hand == g.players[i].hand + [deck[0]]
                  && (forall j :: 0 <= j < |g.players| && j != i ==> r.game.players[j] == g.players[j])
                  && r.game.turnPhase == Place && !r.game.discardIsDead
                  && r.game.currentPlayerIndex == i && r.game.phase == Playing)
  {
    CurrentSeat(g, deck);
  }

  /** drawFromDeck keeps the game well formed. */
  lemma DrawFromDeckKeeps(g: GameState, deck: seq<Card>, playerId: string)
    requires Structural(g, deck)
    ensures var r := DrawFromDeck(g, deck, playerId); Structural(r.game, r.deck)
  {
    CurrentSeat(g, deck);
    if g.phase == Playing && g.turnPhase == Draw && g.currentPlayerId == playerId && deck != [] {
      ReplaceSeat(g, g.currentPlayerIndex, Receive(g.players[g.currentPlayerIndex], [deck[0]]));
    }
  }

  /** drawFromDeck moves a card from the deck to a hand, never creating or
      losing one. */
  lemma DrawFromDeckConserves(g: GameState, deck: seq<Card>, playerId: string)
    requires Structural(g, deck)
    ensures var r := DrawFromDeck(g, deck, playerId); TableCards(r.game, r.deck) == TableCards(g, deck)
  {
    CurrentSeat(g, deck);
    if g.phase == Playing && g.turnPhase == Draw && g.currentPlayerId == playerId && deck != [] {
      var i := g.currentPlayerIndex;
      SeatGains(g.players, i, Receive(g.players[i], [deck[0]]), multiset{deck[0]});
      TakeFirst(deck);
    }
  }

  /** drawFromDiscard: in the draw phase the current player takes the top of
      the pile unless it is dead, and moves on to placing. */
  function DrawFromDiscard(g: GameState, playerId: string): Turn<Option<Card>>
  {
    if g.phase != Playing || g.turnPhase != Draw || g.currentPlayerId != playerId || g.discardIsDead
       || g.topDiscard.None? then
      Turn(g, None)
    else
      var i := IndexOfPlayer(g.players, playerId);
      if i < 0 then Turn(g, None)
      else
        var card := g.topDiscard.value;
        var pile := Pop(g.discardPile);
        Turn(g.(players := g.players[i := Receive(g.players[i], [card])], discardPile := pile,
                topDiscard := Top(pile), turnPhase := Place, discardIsDead := false),
             Some(card))
  }

  /** drawFromDiscard succeeds exactly in the current player's draw phase
      with a live card on the pile; it then moves the top of the pile into
      that hand and nothing else, and otherwise changes nothing. */
  lemma DrawFromDiscardEffect(g: GameState, deck: seq<Card>, playerId: string)
    requires Structural(g, deck)
    ensures var r := DrawFromDiscard(g, playerId); var i := g.currentPlayerIndex;
            && (r.reply.Some? <==>
                  g.phase == Playing && g.turnPhase == Draw && g.currentPlayerId == playerId &&
                  !g.discardIsDead && g.discardPile != [])
            && (r.reply.None? ==> r.game == g)
            && (r.reply.Some? ==>
                  && r.reply.value == g.discardPile[|g.discardPile| - 1]
                  && g.discardPile == r.game.discardPile + [r.reply.value]
                  && r.game.players[i].hand == g.players[i].hand + [r.reply.value]
                  && (forall j :: 0 <= j < |g.players| && j != i ==> r.game.players[j] == g.players[j])
                  && r.game.turnPhase == Place && !r.game.discardIsDead)
  {
    CurrentSeat(g, deck);
  }

  /** drawFromDiscard keeps the game well formed. */
  lemma DrawFromDiscardKeeps(g: GameState, deck: seq<Card>, playerId: string)
    requires Structural(g, deck)
    ensures Structural(DrawFromDiscard(g, playerId).game, deck)
  {
    CurrentSeat(g, deck);
    if g.phase == Playing && g.turnPhase == Draw && g.currentPlayerId == playerId && !g.discardIsDead
       && g.topDiscard.Some? {
      var i := g.currentPlayerIndex;
      ReplaceSeat(g, i, Receive(g.players[i], [g.topDiscard.value]));
    }
  }

  /** drawFromDiscard moves the top of the pile to a hand, never creating or
      losing a card. */
  lemma DrawFromDiscardConserves(g: GameState, deck: seq<Card>, playerId: string)
    requires Structural(g, deck)
    ensures TableCards(DrawFromDiscard(g, playerId).game, deck) == TableCards(g, deck)
  {
    CurrentSeat(g, deck);
    if g.phase == Playing && g.turnPhase == Draw && g.currentPlayerId == playerId && !g.discardIsDead
       && g.topDiscard.Some? {
      var i := g.currentPlayerIndex;
      var card := g.topDiscard.value;
      var qs := g.players[i := Receive(g.players[i], [card])];
      SeatGains(g.players, i, Receive(g.players[i], [card]), multiset{card});
      TakeLast(g.discardPile);
      assert DrawFromDiscard(g, playerId).game.players == qs;
      assert DrawFromDiscard(g, playerId).game.discardPile == Pop(g.discardPile);
      Moved(multiset(deck), multiset(g.discardPile), multiset(Pop(g.discardPile)),
            AllPlayerCards(g.players), AllPlayerCards(qs), multiset{card});
    }
  }

  /** A seat whose record changes by losing the cards m: the players as a
      whole lose m. */
  lemma SeatLoses(ps: seq<Player>, i: nat, p: Player, m: multiset<Card>)
    requires i < |ps| && PlayerCards(ps[i]) == PlayerCards(p) + m
    ensures AllPlayerCards(ps[i := p]) + m == AllPlayerCards(ps)
  {
    SeatGains(ps[i := p], i, ps[i], m);
    assert ps[i := p][i := ps[i]] == ps;
  }

  /** The cards of one seat are cards of the table. */
  lemma SeatOnTable(g: GameState, deck: seq<Card>, i: nat)
    requires i < |g.players|
    ensures multiset(g.players[i].hand) <= TableCards(g, deck)
  {
    AllPlayerCardsWithin(g.players, i);
  }

  // ---------------------------------------------------------------------
  // placeContract
  // ---------------------------------------------------------------------

  /** The player after a successful placement: the cards whose ids occur in
      the groups leave the hand and the groups become the melds. */
  function Placed(p: Player, groups: seq<seq<Card>>): Player
  {
    var hand := RemoveIds(p.hand, IdsOf(Flatten(groups)));
    p.(hand := hand, cardCount := |hand|, hasPlacedContract := true, placedCards := groups)
  }

  /** placeContract: the current player, in the place phase and not yet
      down, lays down groups that are each a book or a run and together
      meet the round's contract. */
  function PlaceContract(g: GameState, playerId: string, groups: seq<seq<Card>>): Turn<Outcome>
  {
    if g.phase != Playing || g.turnPhase != Place then Turn(g, Failure(NotInPlacePhase))
    else if g.currentPlayerId != playerId then Turn(g, Failure(NotYourTurn))
    else
      var i := IndexOfPlayer(g.players, playerId);
      if i < 0 then Turn(g, Null)
      else if g.players[i].hasPlacedContract then Turn(g, Failure(AlreadyPlaced))
      else
        match Classify(groups)
        case None => Turn(g, Failure(InvalidGroup))
        case Some((books, runs)) =>
          if !ContractMet(g.round, g.roundConfig, g.dealersChoice, books, runs) then Turn(g, Failure(WrongContract))
          else Turn(g.(players := g.players[i := Placed(g.players[i], groups)]), Success)
  }

  /** placeContract refuses, changing nothing, unless the current player is
      in the place phase and has not placed yet, every group is a book or a
      run and the counts meet the round's contract; otherwise it succeeds. */
  lemma PlaceContractGate(g: GameState, deck: seq<Card>, playerId: string, groups: seq<seq<Card>>)
    requires Structural(g, deck)
    ensures var r := PlaceContract(g, playerId, groups); var i := g.currentPlayerIndex;
            && (r.reply == Success <==>
                  && g.phase == Playing && g.turnPhase == Place && g.currentPlayerId == playerId
                  && !g.players[i].hasPlacedContract
                  && (forall grp <- groups :: IsValidBook(grp) || IsRun(grp))
                  && Classify(groups).Some?
                  && ContractMet(g.round, g.roundConfig, g.dealersChoice, Classify(groups).value.0, Classify(groups).value.1))
            && (r.reply != Success ==> r.game == g && r.reply.Failure?)
  {
    CurrentSeat(g, deck);
    ClassifyMeaning(groups);
  }

  /** A successful placement lays a contract of at least cardsDealt cards,
      takes exactly the cards with those ids out of the hand, stays in the
      place phase and touches no other seat. */
  lemma PlaceContractEffect(g: GameState, deck: seq<Card>, playerId: string, groups: seq<seq<Card>>)
    requires Structural(g, deck) && PlaceContract(g, playerId, groups).reply == Success
    ensures var r := PlaceContract(g, playerId, groups); var i := g.currentPlayerIndex;
            && |Flatten(groups)| >= g.roundConfig.cardsDealt
            && r.game == g.(players := g.players[i := Placed(g.players[i], groups)])
            && r.game.players[i].placedCards == groups && r.game.players[i].hasPlacedContract
            && (forall c :: c in r.game.players[i].hand <==> c in g.players[i].hand && c.id !in IdsOf(Flatten(groups)))
  {
    CurrentSeat(g, deck);
    AcceptedContractSize(g.round, g.dealersChoice, groups);
  }

  lemma PlaceContractKeeps(g: GameState, deck: seq<Card>, playerId: string, groups: seq<seq<Card>>)
    requires Structural(g, deck)
    ensures Structural(PlaceContract(g, playerId, groups).game, deck)
  {
    CurrentSeat(g, deck);
    if PlaceContract(g, playerId, groups).reply == Success {
      var i := g.currentPlayerIndex;
      ReplaceSeat(g, i, Placed(g.players[i], groups));
    }
  }

  /** A player not yet down who places groups taken from the hand keeps
      the same cards, split between hand and melds. */
  lemma PlacedKeepsCards(p: Player, groups: seq<seq<Card>>)
    requires multiset(p.hand) <= multiset(FullDeck()) && p.placedCards == []
    requires multiset(Flatten(groups)) <= multiset(p.hand)
    ensures PlayerCards(Placed(p, groups)) == PlayerCards(p)
  {
    var m := multiset(Flatten(groups));
    assert IdsOf(Flatten(groups)) == set c | c in m :: c.id;
    RemoveMatched(p.hand, m, IdsOf(Flatten(groups)));
  }

  /** When the groups are cards of the player's hand (which placeContract
      itself never checks), the placement moves them from the hand to the
      table's melds and the cards on the table stay the same. */
  lemma PlaceContractConserves(g: GameState, deck: seq<Card>, playerId: string, groups: seq<seq<Card>>)
    requires Structural(g, deck) && TableCards(g, deck) <= multiset(FullDeck())
    requires multiset(Flatten(groups)) <= multiset(g.players[g.currentPlayerIndex].hand)
    ensures TableCards(PlaceContract(g, playerId, groups).game, deck) == TableCards(g, deck)
  {
    if PlaceContract(g, playerId, groups).reply == Success {
      PlaceContractEffect(g, deck, playerId, groups);
      PlacedConserves(g, deck, g.currentPlayerIndex, groups);
    } else {
      PlaceContractGate(g, deck, playerId, groups);
    }
  }

  lemma PlacedConserves(g: GameState, deck: seq<Card>, i: nat, groups: seq<seq<Card>>)
    requires i < |g.players| && TableCards(g, deck) <= multiset(FullDeck())
    requires g.players[i].placedCards == [] && multiset(Flatten(groups)) <= multiset(g.players[i].hand)
    ensures TableCards(g.(players := g.players[i := Placed(g.players[i], groups)]), deck) == TableCards(g, deck)
  {
    var p := g.players[i];
    SeatOnTable(g, deck, i);
    PlacedKeepsCards(p, groups);
    SeatGains(g.players, i, Placed(p, groups), multiset{});
    SameSeatCards(g, deck, g.players[i := Placed(p, groups)]);
  }

  // ---------------------------------------------------------------------
  // addToMeld
  // ---------------------------------------------------------------------

  /** The rule addToMeld applies: a book must stay a book and a run a run;
      a meld that is neither takes nothing. */
  predicate Fits(meld: seq<Card>, extended: seq<Card>)
  {
    if IsValidBook(meld) then IsValidBook(extended)
    else if IsRun(meld) then IsRun(extended)
    else false
  }

  /** addToMeld: a player who is down lays one card of the hand onto a meld
      of any player who is down, in any turn phase of a game in play. The
      meld is extended first and the hand filtered afterwards, so the two
      may be the same player. */
  function AddToMeld(g: GameState, playerId: string, targetId: string, meldIndex: nat, cardId: nat): Turn<Outcome>
  {
    if g.phase != Playing then Turn(g, Failure(NotPlaying))
    else
      var pi := IndexOfPlayer(g.players, playerId);
      var ti := IndexOfPlayer(g.players, targetId);
      if pi < 0 || ti < 0 then Turn(g, Null)
      else if !g.players[pi].hasPlacedContract then Turn(g, Failure(ContractNotPlaced))
      else if !g.players[ti].hasPlacedContract || |g.players[ti].placedCards| <= meldIndex then Turn(g, Failure(InvalidMeld))
      else
        var k := IndexOfCard(g.players[pi].hand, cardId);
        if k < 0 then Turn(g, Failure(CardNotInHand))
        else
          var card := g.players[pi].hand[k];
          var target := g.players[ti];
          var meld := target.placedCards[meldIndex];
          if !Fits(meld, meld + [card]) then Turn(g, Failure(DoesNotFit))
          else Turn(LaidOff(g, pi, ti, meldIndex, k), Success)
  }

  /** addToMeld succeeds exactly when both players are down, the meld exists,
      the card is in the hand and the extended meld is still of its kind;
      whose turn it is and the turn phase play no part. */
  lemma AddToMeldEffect(g: GameState, deck: seq<Card>, playerId: string, targetId: string, meldIndex: nat, cardId: nat)
    requires Structural(g, deck)
    ensures var r := AddToMeld(g, playerId, targetId, meldIndex, cardId);
            var pi := IndexOfPlayer(g.players, playerId); var ti := IndexOfPlayer(g.players, targetId);
            && (r.reply == Success <==>
                  && g.phase == Playing && pi >= 0 && ti >= 0
                  && g.players[pi].hasPlacedContract && g.players[ti].hasPlacedContract
                  && meldIndex < |g.players[ti].placedCards|
                  && (exists c <- g.players[pi].hand :: c.id == cardId)
                  && var card := g.players[pi].hand[IndexOfCard(g.players[pi].hand, cardId)];
                     Fits(g.players[ti].placedCards[meldIndex], g.players[ti].placedCards[meldIndex] + [card]))
            && (r.reply != Success ==> r.game == g)
            && (r.reply == Success ==>
                  var card := g.players[pi].hand[IndexOfCard(g.players[pi].hand, cardId)];
                  && r.game.players[ti].placedCards[meldIndex] == g.players[ti].placedCards[meldIndex] + [card]
                  && r.game.players[pi].hand == RemoveIds(g.players[pi].hand, {cardId})
                  && r.game.turnPhase == g.turnPhase && r.game.currentPlayerIndex == g.currentPlayerIndex)
  {
  }

  lemma AddToMeldKeeps(g: GameState, deck: seq<Card>, playerId: string, targetId: string, meldIndex: nat, cardId: nat)
    requires Structural(g, deck)
    ensures Structural(AddToMeld(g, playerId, targetId, meldIndex, cardId).game, deck)
  {
    if AddToMeld(g, playerId, targetId, meldIndex, cardId).reply == Success {
      var pi := IndexOfPlayer(g.players, playerId);
      var ti := IndexOfPlayer(g.players, targetId);
      var card := g.players[pi].hand[IndexOfCard(g.players[pi].hand, cardId)];
      var target := g.players[ti];
      var t := target.(placedCards := target.placedCards[meldIndex := target.placedCards[meldIndex] + [card]]);
      ReplaceSeat(g, ti, t);
      var g1 := g.(players := g.players[ti := t]);
      var p := g1.players[pi];
      var hand := RemoveIds(p.hand, {card.id});
      ReplaceSeat(g1, pi, p.(hand := hand, cardCount := |hand|));
    }
  }

  /** Laying a card onto one of a player's melds adds that card to the player. */
  lemma ExtendMeld(t: Player, meldIndex: nat, card: Card)
    requires meldIndex < |t.placedCards|
    ensures var u := t.(placedCards := t.placedCards[meldIndex := t.placedCards[meldIndex] + [card]]);
            PlayerCards(u) == PlayerCards(t) + multiset{card}
  {
    var meld := t.placedCards[meldIndex];
    var placed := t.placedCards[meldIndex := meld + [card]];
    FlattenUpdate(t.placedCards, meldIndex, meld + [card]);
    assert multiset(meld + [card]) == multiset(meld) + multiset{card};
    Cancel(multiset(Flatten(placed)), multiset(Flatten(t.placedCards)) + multiset{card}, multiset(meld));
  }

  /** Filtering out the id of a card of the hand removes that one card. */
  lemma DropCard(p: Player, k: nat)
    requires k < |p.hand| && multiset(p.hand) <= multiset(FullDeck())
    ensures var hand := RemoveIds(p.hand, {p.hand[k].id});
            PlayerCards(p) == PlayerCards(p.(hand := hand, cardCount := |hand|)) + multiset{p.hand[k]}
  {
    var c := p.hand[k];
    assert c in multiset(p.hand);
    assert {c.id} == set x | x in multiset{c} :: x.id;
    RemoveMatched(p.hand, multiset{c}, {c.id});
  }

  /** addToMeld moves one card from a hand onto a meld: the cards on the
      table stay the same. */
  lemma AddToMeldConserves(g: GameState, deck: seq<Card>, playerId: string, targetId: string, meldIndex: nat, cardId: nat)
    requires TableCards(g, deck) <= multiset(FullDeck())
    ensures TableCards(AddToMeld(g, playerId, targetId, meldIndex, cardId).game, deck) == TableCards(g, deck)
  {
    var r := AddToMeld(g, playerId, targetId, meldIndex, cardId);
    AddToMeldLaysOff(g, playerId, targetId, meldIndex, cardId);
    if r.reply == Success {
      var pi := IndexOfPlayer(g.players, playerId);
      var ti := IndexOfPlayer(g.players, targetId);
      var k := IndexOfCard(g.players[pi].hand, cardId);
      LaidOffConserves(g, deck, pi, ti, meldIndex, k);
    }
  }

  /** A successful addToMeld is the lay-off of the first card with that id;
      any other reply leaves the game as it was. */
  lemma AddToMeldLaysOff(g: GameState, playerId: string, targetId: string, meldIndex: nat, cardId: nat)
    ensures var r := AddToMeld(g, playerId, targetId, meldIndex, cardId);
            var pi := IndexOfPlayer(g.players, playerId); var ti := IndexOfPlayer(g.players, targetId);
            && (r.reply != Success ==> r.game == g)
            && (r.reply == Success ==>
                  && 0 <= pi && 0 <= ti && meldIndex < |g.players[ti].placedCards|
                  && 0 <= IndexOfCard(g.players[pi].hand, cardId)
                  && r.game == LaidOff(g, pi, ti, meldIndex, IndexOfCard(g.players[pi].hand, cardId)))
  {
  }

  /** The state after seat pi lays card k of its hand onto meld m of seat ti. */
  function LaidOff(g: GameState, pi: nat, ti: nat, m: nat, k: nat): GameState
    requires pi < |g.players| && ti < |g.players| && m < |g.players[ti].placedCards| && k < |g.players[pi].hand|
  {
    var card := g.players[pi].hand[k];
    var target := g.players[ti];
    var extended := g.players[ti := target.(placedCards := target.placedCards[m := target.placedCards[m] + [card]])];
    var p := extended[pi];
    var hand := RemoveIds(p.hand, {card.id});
    g.(players := extended[pi := p.(hand := hand, cardCount := |hand|)])
  }

  lemma LaidOffConserves(g: GameState, deck: seq<Card>, pi: nat, ti: nat, m: nat, k: nat)
    requires pi < |g.players| && ti < |g.players| && m < |g.players[ti].placedCards| && k < |g.players[pi].hand|
    requires TableCards(g, deck) <= multiset(FullDeck())
    ensures TableCards(LaidOff(g, pi, ti, m, k), deck) == TableCards(g, deck)
  {
    var card := g.players[pi].hand[k];
    var target := g.players[ti];
    var t := target.(placedCards := target.placedCards[m := target.placedCards[m] + [card]]);
    var ps1 := g.players[ti := t];
    var p := ps1[pi];
    var hand := RemoveIds(p.hand, {card.id});
    var ps2 := ps1[pi := p.(hand := hand, cardCount := |hand|)];
    assert LaidOff(g, pi, ti, m, k).players == ps2;
    ExtendMeld(target, m, card);
    SeatGains(g.players, ti, t, multiset{card});
    SeatOnTable(g, deck, pi);
    assert p.hand == g.players[pi].hand;
    DropCard(p, k);
    SeatLoses(ps1, pi, p.(hand := hand, cardCount := |hand|), multiset{card});
    Cancel(AllPlayerCards(ps2), AllPlayerCards(g.players), multiset{card});
    SameSeatCards(g, deck, ps2);
  }


  // ---------------------------------------------------------------------
  // discardCard, endRound, nextRound, endGameEarly, setDealersChoice
  // ---------------------------------------------------------------------

  /** Every player scored by endRound. */
  function Scored(ps: seq<Player>): (qs: seq<Player>)
    ensures |qs| == |ps| && forall j :: 0 <= j < |ps| ==> qs[j] == Score(ps[j])
  {
    if ps == [] then [] else [Score(ps[0])] + Scored(ps[1..])
  }

  /** endRound: every player's remaining hand is scored and the round ends. */
  function EndRound(g: GameState): GameState
  {
    g.(players := Scored(g.players), phase := RoundEnd)
  }

  /** The turn passes to the next seat, which starts by drawing. */
  function PassTurn(g: GameState): GameState
    requires |g.players| > 0
  {
    var next := SeatAfter(g, g.currentPlayerIndex);
    g.(currentPlayerIndex := next, currentPlayerId := g.players[next].id, turnPhase := Draw)
  }

  /** The player after hand.splice(k, 1). */
  function Discarded(p: Player, k: nat): (q: Player)
    requires k < |p.hand|
    ensures multiset(q.hand) == multiset(p.hand) - multiset{p.hand[k]} && |q.hand| == |p.hand| - 1
  {
    RemoveAtMultiset(p.hand, k);
    var hand := p.hand[..k] + p.hand[k + 1..];
    p.(hand := hand, cardCount := |hand|)
  }

  /** The card at position k of seat i goes from the hand onto the pile. */
  function DiscardAt(g: GameState, i: nat, k: nat): GameState
    requires i < |g.players| && k < |g.players[i].hand|
  {
    var card := g.players[i].hand[k];
    g.(players := g.players[i := Discarded(g.players[i], k)], discardPile := g.discardPile + [card], topDiscard := Some(card))
  }

  /** After a discard: an empty hand ends the round, otherwise the turn passes. */
  function AfterDiscard(h: GameState, i: nat): GameState
    requires i < |h.players|
  {
    if h.players[i].hand == [] then EndRound(h) else PassTurn(h)
  }

  /** discardCard: the current player, in the place or discard phase, puts
      a card of the hand on the discard pile; an empty hand ends the round,
      otherwise the next seat is to draw. No buy phase is opened here. */
  function DiscardCard(g: GameState, playerId: string, cardId: nat): Turn<Option<Card>>
  {
    if g.phase != Playing || g.currentPlayerId != playerId then Turn(g, None)
    else if g.turnPhase != Place && g.turnPhase != Discard then Turn(g, None)
    else
      var i := IndexOfPlayer(g.players, playerId);
      if i < 0 then Turn(g, None)
      else
        var k := IndexOfCard(g.players[i].hand, cardId);
        if k < 0 then Turn(g, None)
        else Turn(AfterDiscard(DiscardAt(g, i, k), i), Some(g.players[i].hand[k]))
  }

  /** discardCard refuses, changing nothing, unless the current player is in
      the place or discard phase and holds a card with that id. */
  lemma DiscardCardGate(g: GameState, deck: seq<Card>, playerId: string, cardId: nat)
    requires Structural(g, deck)
    ensures var r := DiscardCard(g, playerId, cardId);
            && (r.reply.Some? <==>
                  && g.phase == Playing && g.currentPlayerId == playerId
                  && (g.turnPhase == Place || g.turnPhase == Discard)
                  && exists c <- g.players[g.currentPlayerIndex].hand :: c.id == cardId)
            && (r.reply.None? ==> r.game == g)
  {
    CurrentSeat(g, deck);
  }

  /** A successful discard, spelled out on the current seat. */
  lemma DiscardCardIs(g: GameState, deck: seq<Card>, playerId: string, cardId: nat)
    requires Structural(g, deck) && DiscardCard(g, playerId, cardId).reply.Some?
    ensures var i := g.currentPlayerIndex; var k := IndexOfCard(g.players[i].hand, cardId);
            && 0 <= k < |g.players[i].hand| && (g.turnPhase == Place || g.turnPhase == Discard)
            && g.phase == Playing && g.buyPhase == None
            && DiscardCard(g, playerId, cardId) == Turn(AfterDiscard(DiscardAt(g, i, k), i), Some(g.players[i].hand[k]))
  {
    CurrentSeat(g, deck);
  }

  /** A discard puts the first card with that id from the hand on top of
      the pile. */
  lemma DiscardCardEffect(g: GameState, deck: seq<Card>, playerId: string, cardId: nat)
    requires Structural(g, deck) && DiscardCard(g, playerId, cardId).reply.Some?
    ensures var r := DiscardCard(g, playerId, cardId); var i := g.currentPlayerIndex;
            var card := r.reply.value; var h := r.game;
            && card in g.players[i].hand && card.id == cardId
            && h.discardPile == g.discardPile + [card] && h.topDiscard == Some(card)
            && multiset(h.players[i].hand) == multiset(g.players[i].hand) - multiset{card}
  {
    DiscardCardIs(g, deck, playerId, cardId);
    var i := g.currentPlayerIndex;
    var k := IndexOfCard(g.players[i].hand, cardId);
    var h := DiscardAt(g, i, k);
    assert h.players[i] == Discarded(g.players[i], k);
    assert AfterDiscard(h, i).players[i].hand == h.players[i].hand;
  }

  /** Discarding the last card of the hand ends the round: every player's
      remaining hand points are the round score and are added to the total,
      so the winner scores nothing. */
  lemma DiscardCardWins(g: GameState, deck: seq<Card>, playerId: string, cardId: nat)
    requires Structural(g, deck) && DiscardCard(g, playerId, cardId).reply.Some?
    requires |g.players[g.currentPlayerIndex].hand| == 1
    ensures var h := DiscardCard(g, playerId, cardId).game; var i := g.currentPlayerIndex;
            && h.phase == RoundEnd && h.players[i].roundScore == 0
            && h.players[i].totalScore == g.players[i].totalScore
            && (forall j :: 0 <= j < |g.players| && j != i ==>
                  && h.players[j].roundScore == HandPoints(g.players[j].hand)
                  && h.players[j].totalScore == g.players[j].totalScore + HandPoints(g.players[j].hand))
  {
    DiscardCardIs(g, deck, playerId, cardId);
    var i := g.currentPlayerIndex;
    var k := IndexOfCard(g.players[i].hand, cardId);
    DiscardAtWins(g, i, k);
    assert DiscardCard(g, playerId, cardId).game == AfterDiscard(DiscardAt(g, i, k), i);
  }

  /** Discarding the last card of a hand scores the round. */
  lemma DiscardAtWins(g: GameState, i: nat, k: nat)
    requires i < |g.players| && k < |g.players[i].hand| && |g.players[i].hand| == 1
    ensures var h := AfterDiscard(DiscardAt(g, i, k), i);
            && h.phase == RoundEnd && h.players[i].roundScore == 0
            && h.players[i].totalScore == g.players[i].totalScore
            && (forall j :: 0 <= j < |g.players| && j != i ==>
                  && h.players[j].roundScore == HandPoints(g.players[j].hand)
                  && h.players[j].totalScore == g.players[j].totalScore + HandPoints(g.players[j].hand))
  {
    var h := DiscardAt(g, i, k);
    assert h.players[i] == Discarded(g.players[i], k);
    assert h.players[i].hand == [];
    assert AfterDiscard(h, i) == EndRound(h);
    ScoredRound(h.players, Scored(h.players), i);
  }

  /** Any other discard hands the turn to the next seat, in the draw phase
      and without any buy phase. */
  lemma DiscardCardPasses(g: GameState, deck: seq<Card>, playerId: string, cardId: nat)
    requires Structural(g, deck) && DiscardCard(g, playerId, cardId).reply.Some?
    requires |g.players[g.currentPlayerIndex].hand| != 1
    ensures var h := DiscardCard(g, playerId, cardId).game; var i := g.currentPlayerIndex;
            && h.phase == Playing && h.turnPhase == Draw && h.buyPhase == None
            && h.currentPlayerIndex == (i + 1) % |g.players|
            && h.currentPlayerId == g.players[h.currentPlayerIndex].id
  {
    CurrentSeat(g, deck);
    DiscardPassesAt(g, playerId, cardId);
  }

  /** DiscardCardPasses on the facts of the current seat it needs. */
  lemma DiscardPassesAt(g: GameState, playerId: string, cardId: nat)
    requires 0 <= g.currentPlayerIndex < |g.players| && g.currentPlayerId == g.players[g.currentPlayerIndex].id
    requires IndexOfPlayer(g.players, g.currentPlayerId) == g.currentPlayerIndex
    requires g.turnPhase != Buy ==> g.buyPhase == None
    requires DiscardCard(g, playerId, cardId).reply.Some?
    requires |g.players[g.currentPlayerIndex].hand| != 1
    ensures var h := DiscardCard(g, playerId, cardId).game; var i := g.currentPlayerIndex;
            && h.phase == Playing && h.turnPhase == Draw && h.buyPhase == None
            && h.currentPlayerIndex == (i + 1) % |g.players|
            && h.currentPlayerId == g.players[h.currentPlayerIndex].id
  {
    var i := g.currentPlayerIndex;
    var k := IndexOfCard(g.players[i].hand, cardId);
    assert DiscardCard(g, playerId, cardId).game == AfterDiscard(DiscardAt(g, i, k), i);
    DiscardAtPasses(g, i, k);
  }

  /** Discarding from a hand of two or more cards passes the turn. */
  lemma DiscardAtPasses(g: GameState, i: nat, k: nat)
    requires i == g.currentPlayerIndex < |g.players| && k < |g.players[i].hand| && |g.players[i].hand| != 1
    ensures var h := AfterDiscard(DiscardAt(g, i, k), i);
            && h.phase == g.phase && h.turnPhase == Draw && h.buyPhase == g.buyPhase
            && h.currentPlayerIndex == (i + 1) % |g.players|
            && h.currentPlayerId == g.players[h.currentPlayerIndex].id
  {
    var h := DiscardAt(g, i, k);
    assert h.players[i] == Discarded(g.players[i], k);
    assert AfterDiscard(h, i) == PassTurn(h);
    var next := SeatAfter(g, i);
    assert h.players[next].id == g.players[next].id;
  }

  /** Taking a card out of a hand onto the pile keeps the table well formed. */
  lemma DiscardAtKeeps(g: GameState, deck: seq<Card>, i: nat, k: nat)
    requires Structural(g, deck) && i < |g.players| && k < |g.players[i].hand|
    ensures Structural(DiscardAt(g, i, k), deck)
  {
    ReplaceSeat(g, i, Discarded(g.players[i], k));
  }

  /** ... and keeps its cards. */
  lemma DiscardAtConserves(g: GameState, deck: seq<Card>, i: nat, k: nat)
    requires i < |g.players| && k < |g.players[i].hand|
    ensures TableCards(DiscardAt(g, i, k), deck) == TableCards(g, deck)
  {
    var card := g.players[i].hand[k];
    var p := Discarded(g.players[i], k);
    var qs := g.players[i := p];
    assert PlayerCards(g.players[i]) == PlayerCards(p) + multiset{card};
    SeatLoses(g.players, i, p, multiset{card});
    Moved(multiset(deck), AllPlayerCards(g.players), AllPlayerCards(qs),
          multiset(g.discardPile), multiset(g.discardPile + [card]), multiset{card});
  }

  /** Ending the round or passing the turn keeps the table well formed and
      its cards. */
  lemma AfterDiscardKeeps(h: GameState, deck: seq<Card>, i: nat)
    requires Structural(h, deck) && i < |h.players| && h.turnPhase != Buy
    ensures Structural(AfterDiscard(h, i), deck) && TableCards(AfterDiscard(h, i), deck) == TableCards(h, deck)
  {
    if h.players[i].hand == [] {
      EndRoundKeeps(h, deck);
    }
  }

  lemma PassTurnKeeps(h: GameState, deck: seq<Card>)
    requires Structural(h, deck) && h.turnPhase != Buy
    ensures Structural(PassTurn(h), deck) && TableCards(PassTurn(h), deck) == TableCards(h, deck)
  {
  }

  lemma DiscardCardKeeps(g: GameState, deck: seq<Card>, playerId: string, cardId: nat)
    requires Structural(g, deck)
    ensures Structural(DiscardCard(g, playerId, cardId).game, deck)
  {
    if DiscardCard(g, playerId, cardId).reply.Some? {
      DiscardCardIs(g, deck, playerId, cardId);
      var i := g.currentPlayerIndex;
      var k := IndexOfCard(g.players[i].hand, cardId);
      DiscardAtKeeps(g, deck, i, k);
      AfterDiscardKeeps(DiscardAt(g, i, k), deck, i);
    } else {
      DiscardCardGate(g, deck, playerId, cardId);
    }
  }

  /** A discard moves one card from a hand to the pile, and scoring changes
      no cards: the table holds the same cards. */
  lemma DiscardCardConserves(g: GameState, deck: seq<Card>, playerId: string, cardId: nat)
    requires Structural(g, deck)
    ensures TableCards(DiscardCard(g, playerId, cardId).game, deck) == TableCards(g, deck)
  {
    if DiscardCard(g, playerId, cardId).reply.Some? {
      DiscardCardIs(g, deck, playerId, cardId);
      var i := g.currentPlayerIndex;
      var k := IndexOfCard(g.players[i].hand, cardId);
      DiscardAtKeeps(g, deck, i, k);
      DiscardAtConserves(g, deck, i, k);
      AfterDiscardKeeps(DiscardAt(g, i, k), deck, i);
    } else {
      DiscardCardGate(g, deck, playerId, cardId);
    }
  }

  /** endRound keeps the table well formed and its cards. */
  lemma EndRoundKeeps(g: GameState, deck: seq<Card>)
    requires Structural(g, deck)
    ensures Structural(EndRound(g), deck) && TableCards(EndRound(g), deck) == TableCards(g, deck)
  {
    ScoredSeats(g.players);
    AllPlayerCardsSame(g.players, Scored(g.players));
  }

  /** Scoring changes no id, hand or meld of any seat. */
  lemma ScoredSeats(ps: seq<Player>)
    requires (forall j :: 0 <= j < |ps| ==> PlayerOk(ps[j])) && IdsDistinct(ps)
    ensures var qs := Scored(ps);
      && IdsDistinct(qs)
      && (forall j :: 0 <= j < |qs| ==> PlayerOk(qs[j]))
      && (forall j :: 0 <= j < |ps| ==> ps[j].hand == qs[j].hand && ps[j].placedCards == qs[j].placedCards)
  {
    var qs := Scored(ps);
    assert forall j :: 0 <= j < |qs| ==> qs[j].id == ps[j].id;
  }

  /** The dealer moves one seat per round: ((r - 1) mod n + 1) mod n == r mod n
      for the rounds and table sizes of the game. */
  lemma ModStep(r: int, n: int)
    requires 1 <= r < ROUNDS && 2 <= n <= 6
    ensures ((r - 1) % n + 1) % n == r % n
  {
    if n == 2 {
    } else if n == 3 {
    } else if n == 4 {
    } else if n == 5 {
    } else {
    }
  }

  /** nextRound: after the round's end, the seventh round finishes the game;
      any earlier one moves the round and the dealer on, clears the dealer's
      choice and starts the round. */
  function NextRound(g: GameState, deck: seq<Card>, picks: seq<nat>): DeckTurn<bool>
    requires 1 <= g.round && |g.players| > 0 && |picks| >= DECK_SIZE
  {
    if g.phase != RoundEnd then DeckTurn(g, deck, false)
    else if g.round >= 7 then DeckTurn(g.(phase := Finished), deck, true)
    else
      var s := StartRound(NextDealer(g), picks);
      DeckTurn(s.game, s.deck, true)
  }

  /** The next round number, the next dealer and no dealer's choice. */
  function NextDealer(g: GameState): GameState
    requires |g.players| > 0
  {
    g.(round := g.round + 1, dealerIndex := (g.dealerIndex + 1) % |g.players|, dealersChoice := None)
  }

  /** nextRound only acts at the end of a round, and after round 7 it only
      finishes the game. */
  lemma NextRoundGate(g: GameState, deck: seq<Card>, picks: seq<nat>)
    requires Structural(g, deck) && |picks| >= DECK_SIZE
    ensures var r := NextRound(g, deck, picks);
            && (r.reply <==> g.phase == RoundEnd)
            && (!r.reply ==> r.game == g && r.deck == deck)
            && (r.reply && g.round == ROUNDS ==> r.game == g.(phase := Finished) && r.deck == deck)
  {
  }

  /** Past the end of a round other than the last, nextRound is startRound
      on the next round with the next dealer. */
  lemma NextRoundIs(g: GameState, deck: seq<Card>, picks: seq<nat>)
    requires Structural(g, deck) && |picks| >= DECK_SIZE
    requires g.phase == RoundEnd && g.round < ROUNDS
    ensures Seated(NextDealer(g))
    ensures NextRound(g, deck, picks) == DeckTurn(StartRound(NextDealer(g), picks).game, StartRound(NextDealer(g), picks).deck, true)
  {
    ModStep(g.round, |g.players|);
  }

  /** The round after a round other than the last is dealt from a full deck
      onto a well-formed table. */
  lemma NextRoundDeals(g: GameState, deck: seq<Card>, picks: seq<nat>)
    requires Structural(g, deck) && |picks| >= DECK_SIZE
    requires g.phase == RoundEnd && g.round < ROUNDS
    ensures var r := NextRound(g, deck, picks);
            Structural(r.game, r.deck) && TableCards(r.game, r.deck) == multiset(FullDeck())
  {
    NextRoundIs(g, deck, picks);
    StartRoundKeeps(NextDealer(g), picks);
  }

  /** ... by the next dealer, in the next round, with the dealer's choice
      cleared, opening with the buy phase. */
  lemma NextRoundAdvances(g: GameState, deck: seq<Card>, picks: seq<nat>)
    requires Structural(g, deck) && |picks| >= DECK_SIZE
    requires g.phase == RoundEnd && g.round < ROUNDS
    ensures var h := NextRound(g, deck, picks).game;
            && h.round == g.round + 1 && h.dealersChoice == None
            && h.dealerIndex == (g.dealerIndex + 1) % |g.players|
            && h.phase == Playing && h.turnPhase == Buy
  {
    NextRoundIs(g, deck, picks);
    StartRoundOpens(NextDealer(g), picks);
  }

  /** ... with the same players, each keeping the total score and starting
      the round with no buys used and no contract placed. */
  lemma NextRoundKeepsScores(g: GameState, deck: seq<Card>, picks: seq<nat>)
    requires Structural(g, deck) && |picks| >= DECK_SIZE
    requires g.phase == RoundEnd && g.round < ROUNDS
    ensures var h := NextRound(g, deck, picks).game;
            && |h.players| == |g.players|
            && (forall j :: 0 <= j < |h.players| ==>
                  && h.players[j].id == g.players[j].id && h.players[j].name == g.players[j].name
                  && h.players[j].totalScore == g.players[j].totalScore
                  && h.players[j].buysUsed == 0 && !h.players[j].hasPlacedContract)
  {
    NextRoundIs(g, deck, picks);
    StartRoundHands(NextDealer(g), picks);
    var h := StartRound(NextDealer(g), picks).game;
    assert NextDealer(g).players == g.players;
    forall j | 0 <= j < |h.players|
      ensures h.players[j].id == g.players[j].id && h.players[j].name == g.players[j].name
      ensures h.players[j].totalScore == g.players[j].totalScore
      ensures h.players[j].buysUsed == 0 && !h.players[j].hasPlacedContract
    {
      assert h.players[j] == ResetForRound(g.players[j], h.players[j].hand, h.roundConfig.cardsDealt);
    }
  }

  /** endGameEarly: the game is finished whatever its phase. */
  function EndGameEarly(g: GameState): (h: GameState)
    ensures h.phase == Finished && h.(phase := g.phase) == g
  {
    g.(phase := Finished)
  }

  lemma EndGameEarlyKeeps(g: GameState, deck: seq<Card>)
    requires Structural(g, deck)
    ensures Structural(EndGameEarly(g), deck) && TableCards(EndGameEarly(g), deck) == TableCards(g, deck)
  {
  }

  /** setDealersChoice: only in round 7, where the choice then decides which
      contracts placeContract accepts. */
  function SetDealersChoice(g: GameState, choice: DealersChoice): Turn<bool>
  {
    if g.round != 7 then Turn(g, false) else Turn(g.(dealersChoice := Some(choice)), true)
  }

  /** The choice is recorded exactly in round 7, and afterwards a contract of
      round 7 is four books and no run (books) or three runs and no book (runs). */
  lemma SetDealersChoiceEffect(g: GameState, choice: DealersChoice, books: int, runs: int)
    ensures var r := SetDealersChoice(g, choice);
            && (r.reply <==> g.round == 7)
            && (!r.reply ==> r.game == g)
            && (r.reply ==>
                  && r.game == g.(dealersChoice := Some(choice))
                  && (ContractMet(r.game.round, r.game.roundConfig, r.game.dealersChoice, books, runs) <==>
                        if choice == Books then books == 4 && runs == 0 else runs == 3 && books == 0))
  {
  }

  lemma SetDealersChoiceKeeps(g: GameState, deck: seq<Card>, choice: DealersChoice)
    requires Structural(g, deck)
    ensures var r := SetDealersChoice(g, choice);
            Structural(r.game, deck) && TableCards(r.game, deck) == TableCards(g, deck)
  {
  }

  // ---------------------------------------------------------------------
  // getPlayerView
  // ---------------------------------------------------------------------

  /** getPlayerView: a copy of the game in which every other player's hand
      is empty. */
  function GetPlayerView(g: GameState, viewerId: string): GameState
  {
    g.(players := seq(|g.players|, j requires 0 <= j < |g.players| =>
                        if g.players[j].id == viewerId then g.players[j] else g.players[j].(hand := [])))
  }

  /** The view differs from the game only in the hands: the viewer's own
      hand is kept, every other hand is empty, and card counts stay visible. */
  lemma PlayerViewHides(g: GameState, viewerId: string)
    ensures var v := GetPlayerView(g, viewerId);
            && v.(players := g.players) == g
            && |v.players| == |g.players|
            && (forall j :: 0 <= j < |g.players| ==>
                  && v.players[j].(hand := g.players[j].hand) == g.players[j]
                  && v.players[j].hand == (if g.players[j].id == viewerId then g.players[j].hand else [])
                  && v.players[j].cardCount == g.players[j].cardCount)
  {
  }

  /** With distinct ids, the one seat of the viewer is the only hand shown. */
  lemma PlayerViewShowsOwnHand(g: GameState, i: nat)
    requires IdsDistinct(g.players) && i < |g.players|
    ensures var v := GetPlayerView(g, g.players[i].id);
            && v.players[i].hand == g.players[i].hand
            && forall j :: 0 <= j < |g.players| && j != i ==> v.players[j].hand == []
  {
  }

  // ---------------------------------------------------------------------
  // The buy phase
  // ---------------------------------------------------------------------

  /** startBuyPhase: with a card on the discard pile, the seat after the
      current one is asked first and nobody has passed yet. */
  function StartBuyPhase(g: GameState): Turn<bool>
    requires |g.players| > 0
  {
    if g.topDiscard.None? then Turn(g, false)
    else
      Turn(g.(turnPhase := Buy, buyPhase := Some(BuyPhase(SeatAfter(g, g.currentPlayerIndex), [], None, false)),
              discardIsDead := false), true)
  }

  /** A buy phase opens exactly when the pile has a top card, asking the
      next seat first, with nobody responded, no buyer and the discard live. */
  lemma StartBuyPhaseEffect(g: GameState, deck: seq<Card>)
    requires Structural(g, deck)
    ensures var r := StartBuyPhase(g);
            && (r.reply <==> g.discardPile != [])
            && (!r.reply ==> r.game == g)
            && (r.reply ==>
                  && Structural(r.game, deck) && TableCards(r.game, deck) == TableCards(g, deck)
                  && r.game.turnPhase == Buy && !r.game.discardIsDead
                  && r.game.buyPhase == Some(BuyPhase((g.currentPlayerIndex + 1) % |g.players|, [], None, false)))
  {
    SeatAfterDiffers(g.currentPlayerIndex, |g.players|);
  }

  /** takeDiscardCurrentPlayer: the seat after the current one takes the top
      discard for free and plays on from the place phase. */
  function TakeDiscardCurrentPlayer(g: GameState, playerId: string): Turn<Option<Card>>
    requires |g.players| > 0
  {
    if g.turnPhase != Buy then Turn(g, None)
    else
      var next := SeatAfter(g, g.currentPlayerIndex);
      if g.players[next].id != playerId then Turn(g, None)
      else if g.topDiscard.None? then Turn(g, None)
      else
        var card := g.topDiscard.value;
        var q := Receive(g.players[next], [card]);
        var pile := Pop(g.discardPile);
        Turn(g.(players := g.players[next := q], discardPile := pile, topDiscard := Top(pile),
                currentPlayerIndex := next, currentPlayerId := q.id, turnPhase := Place,
                buyPhase := None, discardIsDead := false), Some(card))
  }

  /** Only the next seat, during a buy phase with a card on the pile, takes
      the discard; it moves from the pile into that hand, the turn moves to
      that seat in the place phase and the buy phase closes. */
  lemma TakeDiscardEffect(g: GameState, deck: seq<Card>, playerId: string)
    requires Structural(g, deck)
    ensures var r := TakeDiscardCurrentPlayer(g, playerId); var next := (g.currentPlayerIndex + 1) % |g.players|;
            && (r.reply.Some? <==> g.turnPhase == Buy && g.players[next].id == playerId && g.discardPile != [])
            && (r.reply.None? ==> r.game == g)
            && (r.reply.Some? ==>
                  && g.discardPile == r.game.discardPile + [r.reply.value]
                  && r.game.players[next].hand == g.players[next].hand + [r.reply.value]
                  && r.game.currentPlayerIndex == next && r.game.currentPlayerId == playerId
                  && r.game.turnPhase == Place && r.game.buyPhase == None && !r.game.discardIsDead)
  {
  }

  lemma TakeDiscardKeeps(g: GameState, deck: seq<Card>, playerId: string)
    requires Structural(g, deck)
    ensures Structural(TakeDiscardCurrentPlayer(g, playerId).game, deck)
  {
    if TakeDiscardCurrentPlayer(g, playerId).reply.Some? {
      var next := SeatAfter(g, g.currentPlayerIndex);
      ReplaceSeat(g, next, Receive(g.players[next], [g.topDiscard.value]));
    }
  }

  lemma TakeDiscardConserves(g: GameState, deck: seq<Card>, playerId: string)
    requires Structural(g, deck)
    ensures TableCards(TakeDiscardCurrentPlayer(g, playerId).game, deck) == TableCards(g, deck)
  {
    if TakeDiscardCurrentPlayer(g, playerId).reply.Some? {
      var next := SeatAfter(g, g.currentPlayerIndex);
      var card := g.topDiscard.value;
      var qs := g.players[next := Receive(g.players[next], [card])];
      SeatGains(g.players, next, Receive(g.players[next], [card]), multiset{card});
      TakeLast(g.discardPile);
      var r := TakeDiscardCurrentPlayer(g, playerId).game;
      assert r.players == qs && r.discardPile == Pop(g.discardPile);
      Moved(multiset(deck), multiset(g.discardPile), multiset(Pop(g.discardPile)),
            AllPlayerCards(g.players), AllPlayerCards(qs), multiset{card});
    }
  }

  /** What requestBuy makes of the buy phase, and its answer. */
  datatype BuyAnswer = BuyAnswer(phase: Option<BuyPhase>, reply: Outcome)

  /** requestBuy's decision. The next seat has first dibs: until it has
      passed nobody else may buy. A buyer needs a buy left and fewer than 18
      cards. In simultaneous mode each new requester becomes the buyer, so
      the last new one wins; in sequential mode only the seat being asked may
      buy. Only the buyer and the responders can change. */
  function BuyRequest(g: GameState, playerId: string): (r: BuyAnswer)
    requires |g.players| > 0
    ensures r.reply != Success ==> r.phase == g.buyPhase
    ensures r.phase == g.buyPhase ||
            (g.buyPhase.Some? && r.phase.Some? &&
             r.phase.value.askedPlayerIndex == g.buyPhase.value.askedPlayerIndex &&
             r.phase.value.nextPlayerHasPassed == g.buyPhase.value.nextPlayerHasPassed)
  {
    if g.turnPhase != Buy || g.buyPhase.None? then BuyAnswer(g.buyPhase, Failure(NotInBuyPhase))
    else
      var i := IndexOfPlayer(g.players, playerId);
      if i < 0 then BuyAnswer(g.buyPhase, Null)
      else
        var bp := g.buyPhase.value;
        var p := g.players[i];
        if !bp.nextPlayerHasPassed && i != SeatAfter(g, g.currentPlayerIndex) then BuyAnswer(g.buyPhase, Failure(WaitingForNextPlayer))
        else if p.buysUsed >= MAX_BUYS then BuyAnswer(g.buyPhase, Failure(NoBuysLeft))
        else if |p.hand| >= MAX_HAND then BuyAnswer(g.buyPhase, Failure(TooManyCards))
        else if g.settings.buyMode == Simultaneous then
          if playerId in bp.respondedPlayers then BuyAnswer(g.buyPhase, Success)
          else BuyAnswer(Some(bp.(respondedPlayers := bp.respondedPlayers + [playerId], buyerPlayerId := Some(playerId))), Success)
        else if bp.askedPlayerIndex != i then BuyAnswer(g.buyPhase, Failure(NotYourBuyTurn))
        else BuyAnswer(Some(bp.(buyerPlayerId := Some(playerId))), Success)
  }

  /** requestBuy: the decision applied to the buy phase; nothing else of the
      game changes. */
  function RequestBuy(g: GameState, playerId: string): Turn<Outcome>
    requires |g.players| > 0
  {
    var a := BuyRequest(g, playerId);
    Turn(g.(buyPhase := a.phase), a.reply)
  }

  /** A request is accepted exactly when the buy phase is open, the next seat
      has passed or is the requester, the requester has a buy left and fewer
      than 18 cards, and (in sequential mode) is the seat being asked; a
      refusal changes nothing. */
  lemma RequestBuyGate(g: GameState, deck: seq<Card>, playerId: string)
    requires Structural(g, deck)
    ensures var r := RequestBuy(g, playerId); var i := IndexOfPlayer(g.players, playerId);
            var next := (g.currentPlayerIndex + 1) % |g.players|;
            && (r.reply == Success <==>
                  && g.turnPhase == Buy && i >= 0
                  && (g.buyPhase.value.nextPlayerHasPassed || i == next)
                  && g.players[i].buysUsed < MAX_BUYS && |g.players[i].hand| < MAX_HAND
                  && (g.settings.buyMode == Sequential ==> g.buyPhase.value.askedPlayerIndex == i))
            && (r.reply != Success ==> r.game == g)
  {
  }

  /** An accepted request names the requester as buyer, unless in
      simultaneous mode the requester had already responded. */
  lemma RequestBuyNamesBuyer(g: GameState, deck: seq<Card>, playerId: string)
    requires Structural(g, deck) && RequestBuy(g, playerId).reply == Success
    ensures var bp := g.buyPhase.value; var bp' := RequestBuy(g, playerId).game.buyPhase.value;
            && (g.settings.buyMode == Sequential ==> bp' == bp.(buyerPlayerId := Some(playerId)))
            && (g.settings.buyMode == Simultaneous && playerId !in bp.respondedPlayers ==>
                  bp' == bp.(respondedPlayers := bp.respondedPlayers + [playerId], buyerPlayerId := Some(playerId)))
            && (g.settings.buyMode == Simultaneous && playerId in bp.respondedPlayers ==> bp' == bp)
  {
  }

  lemma RequestBuyKeeps(g: GameState, deck: seq<Card>, playerId: string)
    requires Structural(g, deck)
    ensures Structural(RequestBuy(g, playerId).game, deck)
    ensures TableCards(RequestBuy(g, playerId).game, deck) == TableCards(g, deck)
  {
    var a := BuyRequest(g, playerId);
    assert RequestBuy(g, playerId).game == g.(buyPhase := a.phase);
  }

  /** In simultaneous mode, when two players who have not responded yet
      both ask to buy, the later one is the buyer. */
  lemma SimultaneousLastWins(g: GameState, deck: seq<Card>, a: string, b: string)
    requires Structural(g, deck) && g.settings.buyMode == Simultaneous && a != b && g.buyPhase.Some?
    requires a !in g.buyPhase.value.respondedPlayers && b !in g.buyPhase.value.respondedPlayers
    requires RequestBuy(g, a).reply == Success
    requires RequestBuy(RequestBuy(g, a).game, b).reply == Success
    ensures RequestBuy(RequestBuy(g, a).game, b).game.buyPhase.value.buyerPlayerId == Some(b)
    ensures RequestBuy(RequestBuy(g, a).game, b).game.buyPhase.value.respondedPlayers
            == g.buyPhase.value.respondedPlayers + [a, b]
  {
    var h := RequestBuy(g, a).game;
    RequestBuyNamesBuyer(g, deck, a);
    RequestBuyKeeps(g, deck, a);
    assert h.buyPhase.value.respondedPlayers == g.buyPhase.value.respondedPlayers + [a];
    assert b !in h.buyPhase.value.respondedPlayers;
    RequestBuyNamesBuyer(h, deck, b);
  }

  /** The next-seat-to-ask step of sequential mode: one seat on, skipping the
      current player. */
  function NextAsk(g: GameState, asked: int): (r: int)
    requires |g.players| > 0
  {
    var ask := SeatAfter(g, asked);
    if ask == g.currentPlayerIndex then SeatAfter(g, ask) else ask
  }

  lemma NextAskSkipsCurrent(g: GameState, asked: int)
    requires 2 <= |g.players| && 0 <= g.currentPlayerIndex < |g.players|
    ensures 0 <= NextAsk(g, asked) < |g.players| && NextAsk(g, asked) != g.currentPlayerIndex
  {
    SeatAfterDiffers(g.currentPlayerIndex, |g.players|);
  }

  /** The end of the buy phase: the next seat is to draw. */
  function CloseBuyPhase(g: GameState): GameState
    requires |g.players| > 0
  {
    PassTurn(g).(buyPhase := None)
  }

  lemma CloseBuyPhaseKeeps(g: GameState, deck: seq<Card>)
    requires Structural(g, deck)
    ensures Structural(CloseBuyPhase(g), deck) && TableCards(CloseBuyPhase(g), deck) == TableCards(g, deck)
  {
  }

  /** What declineBuy does with the buy phase. */
  datatype Decline = Refused | Close | Pass(phase: BuyPhase)

  /** declineBuy's decision. The next seat passing opens buying to the
      others. In sequential mode the question moves one seat on, skipping
      the current player, and once the next seat has passed and the question
      comes back to it the buy phase ends with no buyer; in simultaneous mode
      the decline is recorded. */
  function DeclineStep(g: GameState, playerId: string): Decline
    requires |g.players| > 0
  {
    if g.turnPhase != Buy || g.buyPhase.None? then Refused
    else
      var i := IndexOfPlayer(g.players, playerId);
      if i < 0 then Refused
      else
        var next := SeatAfter(g, g.currentPlayerIndex);
        var bp0 := g.buyPhase.value;
        var bp := if i == next then bp0.(nextPlayerHasPassed := true) else bp0;
        if g.settings.buyMode == Sequential then
          var ask := NextAsk(g, bp.askedPlayerIndex);
          if bp.nextPlayerHasPassed && ask == next then Close
          else Pass(bp.(askedPlayerIndex := ask))
        else if playerId in bp.respondedPlayers then Pass(bp)
        else Pass(bp.(respondedPlayers := bp.respondedPlayers + [playerId]))
  }

  /** declineBuy: the decision applied; a closing decline is endBuyPhase
      with no buyer. */
  function DeclineBuy(g: GameState, playerId: string): Turn<bool>
    requires |g.players| > 0
  {
    match DeclineStep(g, playerId)
    case Refused => Turn(g, false)
    case Close => Turn(CloseBuyPhase(g), true)
    case Pass(bp) => Turn(g.(buyPhase := Some(bp)), true)
  }

  /** A decline by a seated player during the buy phase: the sequential
      cursor never rests on the current player, and the phase ends, with the
      next seat to draw, exactly when the next seat has passed and the cursor
      would come back to it. */
  lemma DeclineBuyEffect(g: GameState, deck: seq<Card>, playerId: string)
    requires Structural(g, deck)
    ensures var r := DeclineBuy(g, playerId); var i := IndexOfPlayer(g.players, playerId);
            var next := (g.currentPlayerIndex + 1) % |g.players|;
            && (r.reply <==> g.turnPhase == Buy && i >= 0)
            && (!r.reply ==> r.game == g)
            && (r.reply && g.settings.buyMode == Sequential ==>
                  var passed := g.buyPhase.value.nextPlayerHasPassed || i == next;
                  var ask := NextAsk(g, g.buyPhase.value.askedPlayerIndex);
                  && ask != g.currentPlayerIndex
                  && (passed && ask == next ==> r.game == CloseBuyPhase(g))
                  && (!(passed && ask == next) ==>
                        r.game == g.(buyPhase := Some(g.buyPhase.value.(askedPlayerIndex := ask, nextPlayerHasPassed := passed)))))
            && (r.reply && g.settings.buyMode == Simultaneous ==>
                  && r.game.buyPhase.value.nextPlayerHasPassed == (g.buyPhase.value.nextPlayerHasPassed || i == next)
                  && r.game.buyPhase.value.askedPlayerIndex == g.buyPhase.value.askedPlayerIndex
                  && playerId in r.game.buyPhase.value.respondedPlayers
                  && r.game.buyPhase.value.buyerPlayerId == g.buyPhase.value.buyerPlayerId)
  {
    if g.buyPhase.Some? {
      NextAskSkipsCurrent(g, g.buyPhase.value.askedPlayerIndex);
    }
  }

  lemma DeclineBuyKeeps(g: GameState, deck: seq<Card>, playerId: string)
    requires Structural(g, deck)
    ensures Structural(DeclineBuy(g, playerId).game, deck)
    ensures TableCards(DeclineBuy(g, playerId).game, deck) == TableCards(g, deck)
  {
    match DeclineStep(g, playerId)
    case Refused =>
    case Close => CloseBuyPhaseKeeps(g, deck);
    case Pass(bp) =>
      NextAskSkipsCurrent(g, g.buyPhase.value.askedPlayerIndex);
      assert bp.askedPlayerIndex == g.buyPhase.value.askedPlayerIndex
          || bp.askedPlayerIndex == NextAsk(g, g.buyPhase.value.askedPlayerIndex);
  }

  /** The state after a buy by seat i: the top discard and the next two
      cards of the deck join the hand, one more buy is used, and the discard
      is dead for the next player. */
  function Bought(g: GameState, deck: seq<Card>, i: nat): GameState
    requires i < |g.players| && g.topDiscard.Some? && |deck| >= 2
  {
    var pile := Pop(g.discardPile);
    g.(players := g.players[i := Buyer(g.players[i], [g.topDiscard.value] + deck[..2])], discardPile := pile,
       topDiscard := Top(pile), deckCount := |deck| - 2, discardIsDead := true)
  }

  /** The buyer with the bought cards and one more buy used. */
  function Buyer(p: Player, cards: seq<Card>): (q: Player)
    ensures PlayerCards(q) == PlayerCards(p) + multiset(cards)
    ensures PlayerOk(p) ==> PlayerOk(q)
  {
    Receive(p, cards).(buysUsed := p.buysUsed + 1)
  }

  /** completeBuy: the buyer needs a top discard, a seat and two cards in
      the deck. */
  function CompleteBuy(g: GameState, deck: seq<Card>, buyerId: string): DeckTurn<Option<(Card, seq<Card>)>>
  {
    var i := IndexOfPlayer(g.players, buyerId);
    if g.topDiscard.None? || i < 0 || |deck| < 2 then DeckTurn(g, deck, None)
    else DeckTurn(Bought(g, deck, i), deck[2..], Some((g.topDiscard.value, deck[..2])))
  }

  /** A buy gives the buyer the discard and the two top cards of the deck,
      counts one buy and kills the discard, touching no other seat. */
  lemma CompleteBuyEffect(g: GameState, deck: seq<Card>, buyerId: string)
    requires Structural(g, deck)
    ensures var r := CompleteBuy(g, deck, buyerId); var i := IndexOfPlayer(g.players, buyerId);
            && (r.reply.Some? <==> g.discardPile != [] && i >= 0 && |deck| >= 2)
            && (r.reply.None? ==> r.game == g && r.deck == deck)
            && (r.reply.Some? ==>
                  var (card, extra) := r.reply.value;
                  && g.discardPile == r.game.discardPile + [card]
                  && deck == extra + r.deck && |extra| == 2
                  && r.game.players[i].hand == g.players[i].hand + [card] + extra
                  && r.game.players[i].buysUsed == g.players[i].buysUsed + 1
                  && r.game.discardIsDead
                  && r.game.turnPhase == g.turnPhase && r.game.currentPlayerIndex == g.currentPlayerIndex
                  && (forall j :: 0 <= j < |g.players| && j != i ==> r.game.players[j] == g.players[j]))
  {
    if CompleteBuy(g, deck, buyerId).reply.Some? {
      assert deck == deck[..2] + deck[2..];
    }
  }

  lemma BoughtKeeps(g: GameState, deck: seq<Card>, i: nat)
    requires Structural(g, deck) && i < |g.players| && g.topDiscard.Some? && |deck| >= 2
    ensures Structural(Bought(g, deck, i), deck[2..])
  {
    ReplaceSeat(g, i, Buyer(g.players[i], [g.topDiscard.value] + deck[..2]));
  }

  lemma BoughtConserves(g: GameState, deck: seq<Card>, i: nat)
    requires i < |g.players| && g.topDiscard == Top(g.discardPile) && g.topDiscard.Some? && |deck| >= 2
    ensures TableCards(Bought(g, deck, i), deck[2..]) == TableCards(g, deck)
  {
    var p := g.players[i];
    var card := g.topDiscard.value;
    var extra := deck[..2];
    var q := Buyer(p, [card] + extra);
    var qs := g.players[i := q];
    SeatGains(g.players, i, q, multiset([card] + extra));
    TakeLast(g.discardPile);
    SplitMultiset(deck, 2);
    assert multiset([card] + extra) == multiset{card} + multiset(extra);
    var h := Bought(g, deck, i);
    assert h.players == qs && h.discardPile == Pop(g.discardPile);
    Regroup(multiset(deck), multiset(deck[2..]), multiset(extra), multiset(g.discardPile),
            multiset(Pop(g.discardPile)), multiset{card}, AllPlayerCards(g.players), AllPlayerCards(qs));
  }

  lemma SplitMultiset(s: seq<Card>, k: nat)
    requires k <= |s|
    ensures multiset(s) == multiset(s[..k]) + multiset(s[k..])
  {
    assert s == s[..k] + s[k..];
  }

  /** Cards e leave the deck and c the pile, both for the players. */
  lemma Regroup(d: multiset<Card>, d': multiset<Card>, e: multiset<Card>, p: multiset<Card>,
                p': multiset<Card>, c: multiset<Card>, a: multiset<Card>, a': multiset<Card>)
    requires d == e + d' && p == p' + c && a' == a + (c + e)
    ensures d' + p' + a' == d + p + a
  {
  }

  lemma CompleteBuyKeeps(g: GameState, deck: seq<Card>, buyerId: string)
    requires Structural(g, deck)
    ensures var r := CompleteBuy(g, deck, buyerId);
            Structural(r.game, r.deck) && TableCards(r.game, r.deck) == TableCards(g, deck)
  {
    var i := IndexOfPlayer(g.players, buyerId);
    if g.topDiscard.Some? && i >= 0 && |deck| >= 2 {
      BoughtKeeps(g, deck, i);
      BoughtConserves(g, deck, i);
    }
  }

  /** endBuyPhase: a named buyer first completes the buy (a failed buy ends
      nothing); then the next seat is to draw and the buy phase is over. */
  function EndBuyPhase(g: GameState, deck: seq<Card>, buyerId: Option<string>): DeckTurn<bool>
    requires |g.players| > 0
  {
    if buyerId.Some? && buyerId.value != "" then
      var c := CompleteBuy(g, deck, buyerId.value);
      if c.reply.None? then DeckTurn(g, deck, false)
      else DeckTurn(CloseBuyPhase(c.game), c.deck, true)
    else DeckTurn(CloseBuyPhase(g), deck, true)
  }

  /** The buy phase ends with the next seat to draw; the discard is dead
      after a buy and otherwise as it was. */
  lemma EndBuyPhaseEffect(g: GameState, deck: seq<Card>, buyerId: Option<string>)
    requires Structural(g, deck)
    ensures var r := EndBuyPhase(g, deck, buyerId); var next := (g.currentPlayerIndex + 1) % |g.players|;
            var buying := buyerId.Some? && buyerId.value != "";
            && (!r.reply ==> buying && r.game == g && r.deck == deck)
            && (r.reply ==>
                  && r.game.currentPlayerIndex == next && r.game.currentPlayerId == g.players[next].id
                  && r.game.turnPhase == Draw && r.game.buyPhase == None
                  && r.game.discardIsDead == (buying || g.discardIsDead))
            && (!buying ==> r.reply && r.game == CloseBuyPhase(g) && r.deck == deck)
  {
    if buyerId.Some? && buyerId.value != "" {
      var c := CompleteBuy(g, deck, buyerId.value);
      CompleteBuyEffect(g, deck, buyerId.value);
      if c.reply.Some? {
        var i := IndexOfPlayer(g.players, buyerId.value);
        assert |c.game.players| == |g.players|;
        assert c.game.currentPlayerIndex == g.currentPlayerIndex;
        assert Buyer(g.players[i], [g.topDiscard.value] + deck[..2]).id == g.players[i].id;
        CloseBuyPhaseEffect(c.game);
      }
    } else {
      CloseBuyPhaseEffect(g);
    }
  }

  /** Closing the buy phase hands the turn on and changes no seat. */
  lemma CloseBuyPhaseEffect(g: GameState)
    requires |g.players| > 0
    ensures var h := CloseBuyPhase(g); var next := (g.currentPlayerIndex + 1) % |g.players|;
            && h.currentPlayerIndex == next && h.currentPlayerId == g.players[next].id
            && h.turnPhase == Draw && h.buyPhase == None
            && h.discardIsDead == g.discardIsDead && h.players == g.players
  {
  }

  lemma EndBuyPhaseKeeps(g: GameState, deck: seq<Card>, buyerId: Option<string>)
    requires Structural(g, deck)
    ensures var r := EndBuyPhase(g, deck, buyerId);
            Structural(r.game, r.deck) && TableCards(r.game, r.deck) == TableCards(g, deck)
  {
    if buyerId.Some? && buyerId.value != "" {
      var c := CompleteBuy(g, deck, buyerId.value);
      CompleteBuyKeeps(g, deck, buyerId.value);
      if c.reply.Some? {
        CloseBuyPhaseKeeps(c.game, c.deck);
      }
    } else {
      CloseBuyPhaseKeeps(g, deck);
    }
  }

  /** A buy accepted by requestBuy and completed by endBuyPhase leaves the
      buyer with at most three buys and at most 20 cards: the 18-card cap is
      checked before the three cards of a buy are added. */
  lemma BuyLimits(g: GameState, deck: seq<Card>, i: nat)
    requires Structural(g, deck) && i < |g.players|
    requires RequestBuy(g, g.players[i].id).reply == Success
    ensures var r := EndBuyPhase(RequestBuy(g, g.players[i].id).game, deck, Some(g.players[i].id));
            r.reply ==> r.game.players[i].buysUsed <= MAX_BUYS && |r.game.players[i].hand| <= MAX_HAND + 2
  {
    var id := g.players[i].id;
    var h := RequestBuy(g, id).game;
    IndexOfOwnId(g.players, i);
    RequestBuyGate(g, deck, id);
    RequestBuyKeeps(g, deck, id);
    assert h.players == g.players;
    if id != "" {
      CompleteBuyEffect(h, deck, id);
    }
  }
}
