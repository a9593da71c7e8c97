/** The game manager of the server (server/src/gameManager.ts): the games by
    id and the remaining deck of each game, both updated in place. Each
    method does what the transition of the same name in module Turns says,
    and keeps every stored game well formed. */
module Manager {
  import opened Types
  import opened Cards
  import opened Melds
  import opened Game
  import Rounds
  import T = Turns

  /** The for-of loop of placeContract: each group is a book or else a run,
      counted as it goes; the first group that is neither stops the loop. */
  method ClassifyGroups(groups: seq<seq<Card>>) returns (r: Option<(nat, nat)>)
    ensures r == Classify(groups)
  {
    var books, runs := 0, 0;
    for i := 0 to |groups|
      invariant ClassifyFrom(groups, i, books, runs) == Classify(groups)
    {
      if IsValidBook(groups[i]) {
        books := books + 1;
      } else {
        var run := IsValidRun(groups[i]);
        if run {
          runs := runs + 1;
        } else {
          return None;
        }
      }
    }
    return Some((books, runs));
  }

  /** The forEach of endRound: every player's hand is scored. */
  method ScoreAll(ps: seq<Player>) returns (qs: seq<Player>)
    ensures qs == T.Scored(ps)
  {
    qs := ps;
    for j := 0 to |qs|
      invariant |qs| == |ps|
      invariant forall k :: 0 <= k < j ==> qs[k] == Score(ps[k])
      invariant forall k :: j <= k < |qs| ==> qs[k] == ps[k]
    {
      qs := qs[j := Score(qs[j])];
    }
  }

  lemma UpdateTwice<K, V>(m: map<K, V>, k: K, a: V, b: V)
    ensures m[k := a][k := b] == m[k := b]
  {
  }

  lemma UpdateSame<K, V>(m: map<K, V>, k: K)
    requires k in m
    ensures m[k := m[k]] == m
  {
  }

  /** Every game has a deck, and each is well formed with it. */
  ghost predicate Stored(games: map<string, GameState>, decks: map<string, seq<Card>>)
  {
    && decks.Keys == games.Keys
    && forall gid :: gid in games ==> T.Structural(games[gid], decks[gid])
  }

  /** ... except perhaps the game gid, which is being rebuilt. */
  ghost predicate StoredExcept(games: map<string, GameState>, decks: map<string, seq<Card>>, gid: string)
  {
    && decks.Keys == games.Keys
    && forall o :: o in games && o != gid ==> T.Structural(games[o], decks[o])
  }

  // ---------------------------------------------------------------------
  // Each operation keeps the store well formed: the Keeps lemmas of module
  // Turns applied to one stored game.
  // ---------------------------------------------------------------------

  lemma Store(games: map<string, GameState>, decks: map<string, seq<Card>>, gid: string, h: GameState, d: seq<Card>)
    requires StoredExcept(games, decks, gid) && T.Structural(h, d)
    ensures Stored(games[gid := h], decks[gid := d])
  {
  }

  lemma StoreGame(games: map<string, GameState>, decks: map<string, seq<Card>>, gid: string, h: GameState)
    requires Stored(games, decks) && gid in games && T.Structural(h, decks[gid])
    ensures Stored(games[gid := h], decks)
  {
  }

  lemma Unstore(games: map<string, GameState>, decks: map<string, seq<Card>>, gid: string, h: GameState)
    requires Stored(games, decks) && gid in games
    ensures StoredExcept(games[gid := h], decks, gid)
  {
  }

  lemma CreateGameStored(games: map<string, GameState>, decks: map<string, seq<Card>>, gameId: string, gameCode: string,
                         playerIds: seq<string>, playerNames: seq<string>, settings: Option<GameSettings>)
    requires Stored(games, decks) && gameId !in games
    requires 2 <= |playerIds| <= 6 && |playerNames| == |playerIds|
    requires forall i, j :: 0 <= i < j < |playerIds| ==> playerIds[i] != playerIds[j]
    ensures Stored(games[gameId := T.CreateGame(gameId, gameCode, playerIds, playerNames, settings)], decks[gameId := []])
  {
    T.CreateGameValid(gameId, gameCode, playerIds, playerNames, settings);
    Store(games, decks, gameId, T.CreateGame(gameId, gameCode, playerIds, playerNames, settings), []);
  }

  lemma StartGameStored(games: map<string, GameState>, decks: map<string, seq<Card>>, gid: string)
    requires Stored(games, decks)
    ensures StoredExcept(games, decks, gid) && (gid in games ==> T.Seated(games[gid]))
  {
  }

  lemma StartRoundStored(games: map<string, GameState>, decks: map<string, seq<Card>>, gid: string, picks: seq<nat>)
    requires StoredExcept(games, decks, gid) && gid in games && T.Seated(games[gid]) && |picks| >= DECK_SIZE
    ensures var r := T.StartRound(games[gid], picks); Stored(games[gid := r.game], decks[gid := r.deck])
  {
    var r := T.StartRound(games[gid], picks);
    T.StartRoundKeeps(games[gid], picks);
    Store(games, decks, gid, r.game, r.deck);
  }

  lemma DrawFromDeckStored(games: map<string, GameState>, decks: map<string, seq<Card>>, gid: string, playerId: string)
    requires Stored(games, decks) && gid in games
    ensures var r := T.DrawFromDeck(games[gid], decks[gid], playerId); Stored(games[gid := r.game], decks[gid := r.deck])
  {
    var r := T.DrawFromDeck(games[gid], decks[gid], playerId);
    T.DrawFromDeckKeeps(games[gid], decks[gid], playerId);
    Unstore(games, decks, gid, games[gid]);
    Store(games, decks, gid, r.game, r.deck);
  }

  lemma DrawFromDiscardStored(games: map<string, GameState>, decks: map<string, seq<Card>>, gid: string, playerId: string)
    requires Stored(games, decks) && gid in games
    ensures Stored(games[gid := T.DrawFromDiscard(games[gid], playerId).game], decks)
  {
    T.DrawFromDiscardKeeps(games[gid], decks[gid], playerId);
    StoreGame(games, decks, gid, T.DrawFromDiscard(games[gid], playerId).game);
  }

  lemma PlaceContractStored(games: map<string, GameState>, decks: map<string, seq<Card>>, gid: string, playerId: string,
                            groups: seq<seq<Card>>)
    requires Stored(games, decks) && gid in games
    ensures Stored(games[gid := T.PlaceContract(games[gid], playerId, groups).game], decks)
  {
    T.PlaceContractKeeps(games[gid], decks[gid], playerId, groups);
    StoreGame(games, decks, gid, T.PlaceContract(games[gid], playerId, groups).game);
  }

  lemma DiscardAtStored(games: map<string, GameState>, decks: map<string, seq<Card>>, gid: string, i: nat, k: nat)
    requires Stored(games, decks) && gid in games && i < |games[gid].players| && k < |games[gid].players[i].hand|
    ensures Stored(games[gid := T.DiscardAt(games[gid], i, k)], decks)
  {
    T.DiscardAtKeeps(games[gid], decks[gid], i, k);
    StoreGame(games, decks, gid, T.DiscardAt(games[gid], i, k));
  }

  /** A discard that passes every check of discardCard moves the card and
      then ends the round or passes the turn. */
  lemma DiscardCardIs(games: map<string, GameState>, decks: map<string, seq<Card>>, gid: string, playerId: string,
                      cardId: nat, i: nat, k: nat)
    requires Stored(games, decks) && gid in games
    requires var g := games[gid];
             && g.phase == Playing && g.currentPlayerId == playerId && (g.turnPhase == Place || g.turnPhase == Discard)
             && i == IndexOfPlayer(g.players, playerId) && k == IndexOfCard(g.players[i].hand, cardId)
    ensures var g := games[gid];
            && i < |g.players| && k < |g.players[i].hand|
            && T.DiscardCard(g, playerId, cardId) == T.Turn(T.AfterDiscard(T.DiscardAt(g, i, k), i), Some(g.players[i].hand[k]))
  {
  }

  lemma PassTurnStored(games: map<string, GameState>, decks: map<string, seq<Card>>, gid: string)
    requires Stored(games, decks) && gid in games && games[gid].turnPhase != Buy
    ensures |games[gid].players| > 0
    ensures Stored(games[gid := T.PassTurn(games[gid])], decks)
  {
    T.PassTurnKeeps(games[gid], decks[gid]);
    StoreGame(games, decks, gid, T.PassTurn(games[gid]));
  }

  lemma AfterDiscardStored(games: map<string, GameState>, decks: map<string, seq<Card>>, gid: string, i: nat)
    requires Stored(games, decks) && gid in games && i < |games[gid].players| && games[gid].turnPhase != Buy
    ensures Stored(games[gid := T.AfterDiscard(games[gid], i)], decks)
  {
    T.AfterDiscardKeeps(games[gid], decks[gid], i);
    StoreGame(games, decks, gid, T.AfterDiscard(games[gid], i));
  }

  lemma EndRoundStored(games: map<string, GameState>, decks: map<string, seq<Card>>, gid: string)
    requires Stored(games, decks) && gid in games
    ensures Stored(games[gid := T.EndRound(games[gid])], decks)
  {
    T.EndRoundKeeps(games[gid], decks[gid]);
    StoreGame(games, decks, gid, T.EndRound(games[gid]));
  }

  lemma NextDealerStored(games: map<string, GameState>, decks: map<string, seq<Card>>, gid: string, picks: seq<nat>)
    requires Stored(games, decks) && gid in games && |picks| >= DECK_SIZE
    requires games[gid].phase == RoundEnd && games[gid].round < Rounds.ROUNDS
    ensures var h := T.NextDealer(games[gid]);
            && StoredExcept(games[gid := h], decks, gid) && T.Seated(h)
            && T.NextRound(games[gid], decks[gid], picks) == T.DeckTurn(T.StartRound(h, picks).game, T.StartRound(h, picks).deck, true)
  {
    T.NextRoundIs(games[gid], decks[gid], picks);
    Unstore(games, decks, gid, T.NextDealer(games[gid]));
  }

  lemma EndGameEarlyStored(games: map<string, GameState>, decks: map<string, seq<Card>>, gid: string)
    requires Stored(games, decks) && gid in games
    ensures Stored(games[gid := T.EndGameEarly(games[gid])], decks)
  {
    T.EndGameEarlyKeeps(games[gid], decks[gid]);
    StoreGame(games, decks, gid, T.EndGameEarly(games[gid]));
  }

  lemma SetDealersChoiceStored(games: map<string, GameState>, decks: map<string, seq<Card>>, gid: string, choice: DealersChoice)
    requires Stored(games, decks) && gid in games
    ensures Stored(games[gid := T.SetDealersChoice(games[gid], choice).game], decks)
  {
    T.SetDealersChoiceKeeps(games[gid], decks[gid], choice);
    StoreGame(games, decks, gid, T.SetDealersChoice(games[gid], choice).game);
  }

  lemma StartBuyPhaseStored(games: map<string, GameState>, decks: map<string, seq<Card>>, gid: string)
    requires Stored(games, decks) && gid in games
    ensures Stored(games[gid := T.StartBuyPhase(games[gid]).game], decks)
  {
    T.StartBuyPhaseEffect(games[gid], decks[gid]);
    StoreGame(games, decks, gid, T.StartBuyPhase(games[gid]).game);
  }

  lemma TakeDiscardStored(games: map<string, GameState>, decks: map<string, seq<Card>>, gid: string, playerId: string)
    requires Stored(games, decks) && gid in games
    ensures Stored(games[gid := T.TakeDiscardCurrentPlayer(games[gid], playerId).game], decks)
  {
    T.TakeDiscardKeeps(games[gid], decks[gid], playerId);
    StoreGame(games, decks, gid, T.TakeDiscardCurrentPlayer(games[gid], playerId).game);
  }

  lemma RequestBuyStored(games: map<string, GameState>, decks: map<string, seq<Card>>, gid: string, playerId: string)
    requires Stored(games, decks) && gid in games
    ensures Stored(games[gid := T.RequestBuy(games[gid], playerId).game], decks)
  {
    T.RequestBuyKeeps(games[gid], decks[gid], playerId);
    StoreGame(games, decks, gid, T.RequestBuy(games[gid], playerId).game);
  }

  lemma DeclineBuyStored(games: map<string, GameState>, decks: map<string, seq<Card>>, gid: string, playerId: string)
    requires Stored(games, decks) && gid in games
    ensures |games[gid].players| > 0
    ensures Stored(games[gid := T.DeclineBuy(games[gid], playerId).game], decks)
  {
    T.DeclineBuyKeeps(games[gid], decks[gid], playerId);
    StoreGame(games, decks, gid, T.DeclineBuy(games[gid], playerId).game);
  }

  lemma CloseBuyPhaseStored(games: map<string, GameState>, decks: map<string, seq<Card>>, gid: string)
    requires Stored(games, decks) && gid in games
    ensures |games[gid].players| > 0
    ensures Stored(games[gid := T.CloseBuyPhase(games[gid])], decks)
  {
    T.CloseBuyPhaseKeeps(games[gid], decks[gid]);
    StoreGame(games, decks, gid, T.CloseBuyPhase(games[gid]));
  }

  lemma CompleteBuyStored(games: map<string, GameState>, decks: map<string, seq<Card>>, gid: string, buyerId: string)
    requires Stored(games, decks) && gid in games
    ensures var r := T.CompleteBuy(games[gid], decks[gid], buyerId); Stored(games[gid := r.game], decks[gid := r.deck])
  {
    var r := T.CompleteBuy(games[gid], decks[gid], buyerId);
    T.CompleteBuyKeeps(games[gid], decks[gid], buyerId);
    Unstore(games, decks, gid, games[gid]);
    Store(games, decks, gid, r.game, r.deck);
  }

  lemma AddToMeldStored(games: map<string, GameState>, decks: map<string, seq<Card>>, gid: string, playerId: string,
                        targetId: string, meldIndex: nat, cardId: nat)
    requires Stored(games, decks) && gid in games
    ensures Stored(games[gid := T.AddToMeld(games[gid], playerId, targetId, meldIndex, cardId).game], decks)
  {
    T.AddToMeldKeeps(games[gid], decks[gid], playerId, targetId, meldIndex, cardId);
    StoreGame(games, decks, gid, T.AddToMeld(games[gid], playerId, targetId, meldIndex, cardId).game);
  }

  class GameManager {
    var games: map<string, GameState>
    /** A game without a stored deck behaves as one with an empty deck, so
        every game has an entry here, empty until its first round. */
    var decks: map<string, seq<Card>>

    /** Every stored game is well formed with its deck. */
    ghost predicate Valid()
      reads this
    {
      Stored(games, decks)
    }

    constructor()
      ensures games == map[] && decks == map[] && Valid()
    {
      games := map[];
      decks := map[];
    }

    /** createGame. The timestamp id is the parameter gameId, fresh on the
        clock; the players come from a lobby of two to six distinct ids. */
    method CreateGame(gameId: string, gameCode: string, playerIds: seq<string>, playerNames: seq<string>,
                      settings: Option<GameSettings>) returns (g: GameState)
      requires Valid() && gameId !in games
      requires 2 <= |playerIds| <= 6 && |playerNames| == |playerIds|
      requires forall i, j :: 0 <= i < j < |playerIds| ==> playerIds[i] != playerIds[j]
      modifies this
      ensures g == T.CreateGame(gameId, gameCode, playerIds, playerNames, settings)
      ensures games == old(games)[gameId := g] && decks == old(decks)[gameId := []]
      ensures Valid()
    {
      g := T.CreateGame(gameId, gameCode, playerIds, playerNames, settings);
      CreateGameStored(games, decks, gameId, gameCode, playerIds, playerNames, settings);
      games := games[gameId := g];
      decks := decks[gameId := []];
    }

    /** startRound: createDeck, shuffle with the random choices picks, deal
        cardsDealt cards to each seat, flip the next card, and open the buy
        phase for the seat after the dealer. The game being started need
        not be well formed yet: nextRound calls this with the round and the
        dealer already moved on. */
    method StartRound(gid: string, picks: seq<nat>) returns (g: Option<GameState>)
      requires StoredExcept(games, decks, gid) && (gid in games ==> T.Seated(games[gid])) && |picks| >= DECK_SIZE
      modifies this
      ensures gid !in old(games) ==> g == None && unchanged(this)
      ensures gid in old(games) ==>
                var r := T.StartRound(old(games[gid]), picks);
                && g == Some(r.game)
                && games == old(games)[gid := r.game] && decks == old(decks)[gid := r.deck]
      ensures Valid()
    {
      if gid !in games {
        return None;
      }
      var game := games[gid];
      var config := ROUND_CONFIGS[game.round - 1];
      var deck := CreateDeck();
      deck := Shuffle(deck, picks);
      assert deck == T.ShuffledDeck(picks);
      var dealt, rest := T.DealHands(game.players, deck, config.cardsDealt);
      var pile, top := game.discardPile, game.topDiscard;
      if rest != [] {
        top := Some(rest[0]);
        pile := [rest[0]];
        rest := rest[1..];
      }
      var h := T.Opened(game, config, dealt, pile, top, rest);
      StartRoundStored(games, decks, gid, picks);
      games := games[gid := h];
      decks := decks[gid := rest];
      g := Some(h);
    }

    /** startGame: the first round. */
    method StartGame(gid: string, picks: seq<nat>) returns (g: Option<GameState>)
      requires Valid() && |picks| >= DECK_SIZE
      modifies this
      ensures gid !in old(games) ==> g == None && unchanged(this)
      ensures gid in old(games) ==>
                var r := T.StartRound(old(games[gid]), picks);
                && g == Some(r.game)
                && games == old(games)[gid := r.game] && decks == old(decks)[gid := r.deck]
      ensures Valid()
    {
      StartGameStored(games, decks, gid);
      g := StartRound(gid, picks);
    }

    method DrawFromDeck(gid: string, playerId: string) returns (card: Option<Card>)
      requires Valid()
      modifies this
      ensures gid !in old(games) ==> card == None && unchanged(this)
      ensures gid in old(games) ==>
                var r := T.DrawFromDeck(old(games[gid]), old(decks[gid]), playerId);
                card == r.reply && games == old(games)[gid := r.game] && decks == old(decks)[gid := r.deck]
      ensures Valid()
    {
      if gid !in games {
        return None;
      }
      var r := T.DrawFromDeck(games[gid], decks[gid], playerId);
      DrawFromDeckStored(games, decks, gid, playerId);
      games := games[gid := r.game];
      decks := decks[gid := r.deck];
      card := r.reply;
    }

    method DrawFromDiscard(gid: string, playerId: string) returns (card: Option<Card>)
      requires Valid()
      modifies this
      ensures gid !in old(games) ==> card == None && unchanged(this`games)
      ensures gid in old(games) ==>
                var r := T.DrawFromDiscard(old(games[gid]), playerId);
                card == r.reply && games == old(games)[gid := r.game]
      ensures unchanged(this`decks) && Valid()
    {
      if gid !in games {
        return None;
      }
      var r := T.DrawFromDiscard(games[gid], playerId);
      DrawFromDiscardStored(games, decks, gid, playerId);
      games := games[gid := r.game];
      card := r.reply;
    }

    /** placeContract, with the loop over the groups run by ClassifyGroups.
        A missing game is refused as not being in the place phase. */
    method PlaceContract(gid: string, playerId: string, groups: seq<seq<Card>>) returns (result: Outcome)
      requires Valid()
      modifies this
      ensures gid !in old(games) ==> result == Failure(NotInPlacePhase) && unchanged(this`games)
      ensures gid in old(games) ==>
                var r := T.PlaceContract(old(games[gid]), playerId, groups);
                result == r.reply && games == old(games)[gid := r.game]
      ensures unchanged(this`decks) && Valid()
    {
      if gid !in games {
        return Failure(NotInPlacePhase);
      }
      var game := games[gid];
      PlaceContractStored(games, decks, gid, playerId, groups);
      UpdateSame(games, gid);
      if game.phase != Playing || game.turnPhase != Place {
        return Failure(NotInPlacePhase);
      }
      if game.currentPlayerId != playerId {
        return Failure(NotYourTurn);
      }
      var i := IndexOfPlayer(game.players, playerId);
      if i < 0 {
        return Null;
      }
      if game.players[i].hasPlacedContract {
        return Failure(AlreadyPlaced);
      }
      var counts := ClassifyGroups(groups);
      if counts.None? {
        return Failure(InvalidGroup);
      }
      var (books, runs) := counts.value;
      if !Rounds.ContractMet(game.round, game.roundConfig, game.dealersChoice, books, runs) {
        return Failure(WrongContract);
      }
      games := games[gid := game.(players := game.players[i := T.Placed(game.players[i], groups)])];
      result := Success;
    }

    /** endRound: the forEach that scores every hand, then the round's end.
        The winner's id is only logged. */
    method EndRound(gid: string)
      requires Valid()
      modifies this
      ensures gid !in old(games) ==> unchanged(this`games)
      ensures gid in old(games) ==> games == old(games)[gid := T.EndRound(old(games[gid]))]
      ensures unchanged(this`decks) && Valid()
    {
      if gid !in games {
        return;
      }
      var game := games[gid];
      var ps := ScoreAll(game.players);
      EndRoundStored(games, decks, gid);
      games := games[gid := game.(players := ps, phase := RoundEnd)];
    }

    /** discardCard: the card goes from the hand onto the pile; an empty
        hand ends the round through endRound, otherwise the turn passes. */
    method DiscardCard(gid: string, playerId: string, cardId: nat) returns (card: Option<Card>)
      requires Valid()
      modifies this
      ensures gid !in old(games) ==> card == None && unchanged(this`games)
      ensures gid in old(games) ==>
                var r := T.DiscardCard(old(games[gid]), playerId, cardId);
                card == r.reply && games == old(games)[gid := r.game]
      ensures unchanged(this`decks) && Valid()
    {
      if gid !in games {
        return None;
      }
      var game := games[gid];
      UpdateSame(games, gid);
      if game.phase != Playing || game.currentPlayerId != playerId {
        return None;
      }
      if game.turnPhase != Place && game.turnPhase != Discard {
        return None;
      }
      var i := IndexOfPlayer(game.players, playerId);
      if i < 0 {
        return None;
      }
      var k := IndexOfCard(game.players[i].hand, cardId);
      if k < 0 {
        return None;
      }
      card := Some(game.players[i].hand[k]);
      DiscardCardIs(games, decks, gid, playerId, cardId, i, k);
      DiscardAt(gid, i, k);
    }

    /** The body of a discard that passed every check: hand.splice(k, 1)
        onto the pile, then endRound when the hand is empty, otherwise the
        next seat is to draw. */
    method DiscardAt(gid: string, i: nat, k: nat)
      requires Valid() && gid in games && i < |games[gid].players| && k < |games[gid].players[i].hand|
      requires games[gid].turnPhase != Buy
      modifies this
      ensures games == old(games)[gid := T.AfterDiscard(T.DiscardAt(old(games[gid]), i, k), i)]
      ensures unchanged(this`decks) && Valid()
    {
      var h := T.DiscardAt(games[gid], i, k);
      DiscardAtStored(games, decks, gid, i, k);
      games := games[gid := h];
      AfterDiscard(gid, i);
      UpdateTwice(old(games), gid, h, T.AfterDiscard(h, i));
    }

    /** After the discard: an empty hand ends the round through endRound,
        otherwise the turn passes. */
    method AfterDiscard(gid: string, i: nat)
      requires Valid() && gid in games && i < |games[gid].players| && games[gid].turnPhase != Buy
      modifies this
      ensures games == old(games)[gid := T.AfterDiscard(old(games[gid]), i)]
      ensures unchanged(this`decks) && Valid()
    {
      if games[gid].players[i].hand == [] {
        EndRound(gid);
      } else {
        PassTurn(gid);
      }
    }

    /** The turn passes to the next seat, which is to draw. */
    method PassTurn(gid: string)
      requires Valid() && gid in games && games[gid].turnPhase != Buy
      modifies this
      ensures games == old(games)[gid := T.PassTurn(old(games[gid]))]
      ensures unchanged(this`decks) && Valid()
    {
      PassTurnStored(games, decks, gid);
      games := games[gid := T.PassTurn(games[gid])];
    }

    /** nextRound: after round 7 the game is finished; otherwise the round
        and the dealer move on, the dealer's choice is cleared and the round
        starts through startRound. */
    method NextRound(gid: string, picks: seq<nat>) returns (g: Option<GameState>)
      requires Valid() && |picks| >= DECK_SIZE
      modifies this
      ensures gid !in old(games) ==> g == None && unchanged(this)
      ensures gid in old(games) ==>
                var r := T.NextRound(old(games[gid]), old(decks[gid]), picks);
                var dealt := old(games[gid]).phase == RoundEnd && old(games[gid]).round < Rounds.ROUNDS;
                && (g.Some? <==> r.reply) && (g.Some? ==> g.value == r.game)
                && games == old(games)[gid := r.game]
                && (dealt ==> decks == old(decks)[gid := r.deck]) && (!dealt ==> unchanged(this`decks))
      ensures Valid()
    {
      if gid !in games {
        return None;
      }
      var game := games[gid];
      UpdateSame(games, gid);
      if game.phase != RoundEnd {
        return None;
      }
      if game.round >= 7 {
        var h := game.(phase := Finished);
        EndGameEarlyStored(games, decks, gid);
        games := games[gid := h];
        return Some(h);
      }
      NextDealerStored(games, decks, gid, picks);
      g := Advance(gid, picks);
    }

    /** The round and the dealer move on, the dealer's choice is cleared,
        and startRound deals the new round. */
    method Advance(gid: string, picks: seq<nat>) returns (g: Option<GameState>)
      requires Valid() && gid in games && |picks| >= DECK_SIZE
      requires StoredExcept(games[gid := T.NextDealer(games[gid])], decks, gid) && T.Seated(T.NextDealer(games[gid]))
      modifies this
      ensures var r := T.StartRound(T.NextDealer(old(games[gid])), picks);
              && g == Some(r.game)
              && games == old(games)[gid := r.game] && decks == old(decks)[gid := r.deck]
      ensures Valid()
    {
      var h := T.NextDealer(games[gid]);
      games := games[gid := h];
      g := StartRound(gid, picks);
      UpdateTwice(old(games), gid, h, T.StartRound(h, picks).game);
    }

    /** endGameEarly: the game is finished at once. */
    method EndGameEarly(gid: string) returns (g: Option<GameState>)
      requires Valid()
      modifies this
      ensures gid !in old(games) ==> g == None && unchanged(this`games)
      ensures gid in old(games) ==>
                g == Some(T.EndGameEarly(old(games[gid]))) && games == old(games)[gid := g.value]
                && g.value.phase == Finished
      ensures unchanged(this`decks) && Valid()
    {
      if gid !in games {
        return None;
      }
      var h := T.EndGameEarly(games[gid]);
      EndGameEarlyStored(games, decks, gid);
      games := games[gid := h];
      g := Some(h);
    }

    method SetDealersChoice(gid: string, choice: DealersChoice) returns (g: Option<GameState>)
      requires Valid()
      modifies this
      ensures gid !in old(games) ==> g == None && unchanged(this`games)
      ensures gid in old(games) ==>
                var r := T.SetDealersChoice(old(games[gid]), choice);
                && (g.Some? <==> r.reply) && (g.Some? ==> g.value == r.game)
                && games == old(games)[gid := r.game]
      ensures unchanged(this`decks) && Valid()
    {
      if gid !in games {
        return None;
      }
      var r := T.SetDealersChoice(games[gid], choice);
      SetDealersChoiceStored(games, decks, gid, choice);
      games := games[gid := r.game];
      g := if r.reply then Some(r.game) else None;
    }

    /** getPlayerView: a copy of the stored game with the other hands hidden. */
    function GetPlayerView(gid: string, playerId: string): (v: Option<GameState>)
      reads this
      ensures v.Some? <==> gid in games
      ensures v.Some? ==> v.value.(players := games[gid].players) == games[gid]
    {
      if gid in games then Some(T.GetPlayerView(games[gid], playerId)) else None
    }

    method StartBuyPhase(gid: string) returns (g: Option<GameState>)
      requires Valid()
      modifies this
      ensures gid !in old(games) ==> g == None && unchanged(this`games)
      ensures gid in old(games) ==>
                var r := T.StartBuyPhase(old(games[gid]));
                && (g.Some? <==> r.reply) && (g.Some? ==> g.value == r.game)
                && games == old(games)[gid := r.game]
      ensures unchanged(this`decks) && Valid()
    {
      if gid !in games {
        return None;
      }
      StartBuyPhaseStored(games, decks, gid);
      var r := T.StartBuyPhase(games[gid]);
      games := games[gid := r.game];
      g := if r.reply then Some(r.game) else None;
    }

    method TakeDiscardCurrentPlayer(gid: string, playerId: string) returns (card: Option<Card>)
      requires Valid()
      modifies this
      ensures gid !in old(games) ==> card == None && unchanged(this`games)
      ensures gid in old(games) ==>
                var r := T.TakeDiscardCurrentPlayer(old(games[gid]), playerId);
                card == r.reply && games == old(games)[gid := r.game]
      ensures unchanged(this`decks) && Valid()
    {
      if gid !in games {
        return None;
      }
      var r := T.TakeDiscardCurrentPlayer(games[gid], playerId);
      TakeDiscardStored(games, decks, gid, playerId);
      games := games[gid := r.game];
      card := r.reply;
    }

    /** requestBuy. A missing game is refused as not being in the buy phase. */
    method RequestBuy(gid: string, playerId: string) returns (result: Outcome)
      requires Valid()
      modifies this
      ensures gid !in old(games) ==> result == Failure(NotInBuyPhase) && unchanged(this`games)
      ensures gid in old(games) ==>
                var r := T.RequestBuy(old(games[gid]), playerId);
                result == r.reply && games == old(games)[gid := r.game]
      ensures unchanged(this`decks) && Valid()
    {
      if gid !in games {
        return Failure(NotInBuyPhase);
      }
      var r := T.RequestBuy(games[gid], playerId);
      RequestBuyStored(games, decks, gid, playerId);
      games := games[gid := r.game];
      result := r.reply;
    }

    /** completeBuy: the buyer takes the top discard and two cards of the deck. */
    method CompleteBuy(gid: string, buyerId: string) returns (bought: Option<(Card, seq<Card>)>)
      requires Valid()
      modifies this
      ensures gid !in old(games) ==> bought == None && unchanged(this)
      ensures gid in old(games) ==>
                var r := T.CompleteBuy(old(games[gid]), old(decks[gid]), buyerId);
                bought == r.reply && games == old(games)[gid := r.game] && decks == old(decks)[gid := r.deck]
      ensures Valid()
    {
      if gid !in games {
        return None;
      }
      var r := T.CompleteBuy(games[gid], decks[gid], buyerId);
      CompleteBuyStored(games, decks, gid, buyerId);
      games := games[gid := r.game];
      decks := decks[gid := r.deck];
      bought := r.reply;
    }

    /** endBuyPhase: a named buyer first completes the buy through
        completeBuy; then the next seat is to draw. */
    method EndBuyPhase(gid: string, buyerId: Option<string>) returns (ok: bool)
      requires Valid()
      modifies this
      ensures gid !in old(games) ==> !ok && unchanged(this)
      ensures gid in old(games) ==>
                var r := T.EndBuyPhase(old(games[gid]), old(decks[gid]), buyerId);
                var buying := buyerId.Some? && buyerId.value != "";
                && ok == r.reply && games == old(games)[gid := r.game]
                && (buying ==> decks == old(decks)[gid := r.deck]) && (!buying ==> unchanged(this`decks))
      ensures Valid()
    {
      if gid !in games {
        return false;
      }
      ghost var before := games;
      if buyerId.Some? && buyerId.value != "" {
        var bought := CompleteBuy(gid, buyerId.value);
        if bought.None? {
          return false;
        }
      }
      ghost var bought := games[gid];
      CloseBuyPhase(gid);
      UpdateTwice(before, gid, bought, T.CloseBuyPhase(bought));
      ok := true;
    }

    /** The end of endBuyPhase: the buy phase is over and the next seat is
        to draw. */
    method CloseBuyPhase(gid: string)
      requires Valid() && gid in games
      modifies this
      ensures games == old(games)[gid := T.CloseBuyPhase(old(games[gid]))]
      ensures unchanged(this`decks) && Valid()
    {
      CloseBuyPhaseStored(games, decks, gid);
      games := games[gid := T.CloseBuyPhase(games[gid])];
    }

    /** declineBuy; the decline that ends a sequential buy phase goes
        through endBuyPhase with no buyer. A missing game or player is a
        failure. */
    method DeclineBuy(gid: string, playerId: string) returns (ok: bool)
      requires Valid()
      modifies this
      ensures gid !in old(games) ==> !ok && unchanged(this`games)
      ensures gid in old(games) ==>
                var r := T.DeclineBuy(old(games[gid]), playerId);
                ok == r.reply && games == old(games)[gid := r.game]
      ensures unchanged(this`decks) && Valid()
    {
      if gid !in games {
        return false;
      }
      var game := games[gid];
      DeclineBuyStored(games, decks, gid, playerId);
      UpdateSame(games, gid);
      match T.DeclineStep(game, playerId)
      case Refused =>
        ok := false;
      case Close =>
        ok := EndBuyPhase(gid, None);
      case Pass(bp) =>
        games := games[gid := game.(buyPhase := Some(bp))];
        ok := true;
    }

    /** addToMeld. A missing game is refused as not being played. */
    method AddToMeld(gid: string, playerId: string, targetId: string, meldIndex: nat, cardId: nat)
      returns (result: Outcome)
      requires Valid()
      modifies this
      ensures gid !in old(games) ==> result == Failure(NotPlaying) && unchanged(this`games)
      ensures gid in old(games) ==>
                var r := T.AddToMeld(old(games[gid]), playerId, targetId, meldIndex, cardId);
                result == r.reply && games == old(games)[gid := r.game]
      ensures unchanged(this`decks) && Valid()
    {
      if gid !in games {
        return Failure(NotPlaying);
      }
      var r := T.AddToMeld(games[gid], playerId, targetId, meldIndex, cardId);
      AddToMeldStored(games, decks, gid, playerId, targetId, meldIndex, cardId);
      games := games[gid := r.game];
      result := r.reply;
    }
  }
}
