/** Shared data shapes of the game: cards, players, the game state, lobbies
    and the static round table (shared/src/types.ts). */
module Types {

  /** `null` / `undefined` in the source. */
  datatype Option<+T> = None | Some(value: T)

  datatype Suit = Hearts | Diamonds | Clubs | Spades | JokerSuit

  datatype Rank =
    | Ace | Two | Three | Four | Five | Six | Seven
    | Eight | Nine | Ten | Jack | Queen | King | Joker

  /** A card record. The source's string id "card-k" is modelled by the number k. */
  datatype Card = Card(suit: Suit, rank: Rank, point: int, id: nat)

  datatype ContractType = Book | Run

  datatype Contract = Contract(kind: ContractType, count: int)

  datatype RoundConfig = RoundConfig(roundNumber: int, cardsDealt: int, contracts: seq<Contract>)

  datatype BuyMode = Sequential | Simultaneous

  datatype GameSettings = GameSettings(buyMode: BuyMode, buyTimeLimit: int)

  datatype Phase = Starting | Playing | RoundEnd | Finished

  datatype TurnPhase = Buy | Draw | Place | Discard

  datatype DealersChoice = Books | Runs

  datatype Player = Player(
    id: string,
    name: string,
    hand: seq<Card>,
    totalScore: int,
    roundScore: int,
    cardCount: int,
    hasPlacedContract: bool,
    placedCards: seq<seq<Card>>,
    buysUsed: int)

  /** The buy sub-state; the source's `startTime` timestamp is not modelled. */
  datatype BuyPhase = BuyPhase(
    askedPlayerIndex: int,
    respondedPlayers: seq<string>,
    buyerPlayerId: Option<string>,
    nextPlayerHasPassed: bool)

  /** The snapshot sent to clients; the deck itself is not part of it, only its count. */
  datatype GameState = GameState(
    id: string,
    gameCode: string,
    players: seq<Player>,
    currentPlayerIndex: int,
    currentPlayerId: string,
    round: int,
    dealerIndex: int,
    deckCount: int,
    topDiscard: Option<Card>,
    discardPile: seq<Card>,
    phase: Phase,
    turnPhase: TurnPhase,
    roundConfig: RoundConfig,
    dealersChoice: Option<DealersChoice>,
    settings: GameSettings,
    buyPhase: Option<BuyPhase>,
    discardIsDead: bool)

  datatype LobbyPlayer = LobbyPlayer(id: string, name: string, isHost: bool)

  /** A lobby; the `createdAt` timestamp is not modelled. */
  datatype Lobby = Lobby(code: string, hostId: string, players: seq<LobbyPlayer>, maxPlayers: int)

  /** The seven rounds of the game. Round 7 has no fixed contract: the dealer
      chooses four books or three runs. */
  const ROUND_CONFIGS: seq<RoundConfig> := [
    RoundConfig(1, 6, [Contract(Book, 2)]),
    RoundConfig(2, 7, [Contract(Book, 1), Contract(Run, 1)]),
    RoundConfig(3, 8, [Contract(Run, 2)]),
    RoundConfig(4, 9, [Contract(Book, 3)]),
    RoundConfig(5, 10, [Contract(Book, 2), Contract(Run, 1)]),
    RoundConfig(6, 11, [Contract(Run, 2), Contract(Book, 1)]),
    RoundConfig(7, 12, [])
  ]

  const DEFAULT_SETTINGS: GameSettings := GameSettings(Sequential, 10)
}
