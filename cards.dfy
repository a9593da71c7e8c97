/** The card model of the server: point values, rank values, the 108-card
    deck and the Fisher-Yates shuffle (server/src/gameManager.ts). */
module Cards {
  import opened Types

  const DECK_SIZE: nat := 108

  /** Suits and ranks in the order the deck is built. */
  const SUITS: seq<Suit> := [Hearts, Diamonds, Clubs, Spades]
  const RANKS: seq<Rank> := [Ace, Two, Three, Four, Five, Six, Seven, Eight, Nine, Ten, Jack, Queen, King]

  /** CARD_POINTS: numerals 5, faces 10, ace 15, joker 50. */
  function CardPoints(r: Rank): int
  {
    match r
    case Two | Three | Four | Five | Six | Seven | Eight | Nine | Ten => 5
    case Jack | Queen | King => 10
    case Ace => 15
    case Joker => 50
  }

  /** RANK_VALUES: ace is 1 and king 13; the joker has no entry (`undefined`). */
  function RankValue(r: Rank): Option<int>
  {
    match r
    case Ace => Some(1)
    case Two => Some(2)
    case Three => Some(3)
    case Four => Some(4)
    case Five => Some(5)
    case Six => Some(6)
    case Seven => Some(7)
    case Eight => Some(8)
    case Nine => Some(9)
    case Ten => Some(10)
    case Jack => Some(11)
    case Queen => Some(12)
    case King => Some(13)
    case Joker => None
  }

  /** The card that createDeck puts at position k: two standard decks
      (suit-major, rank-minor), then four jokers; ids count up from 0. */
  function CardAt(k: nat): Card
    requires k < DECK_SIZE
  {
    if k < 104 then
      var r := RANKS[k % 13];
      Card(SUITS[(k % 52) / 13], r, CardPoints(r), k)
    else
      Card(JokerSuit, Joker, CardPoints(Joker), k)
  }

  /** The deck createDeck returns. */
  function FullDeck(): seq<Card>
  {
    seq(DECK_SIZE, k requires 0 <= k < DECK_SIZE => CardAt(k))
  }

  /** The indices of the deck holding a card of suit s and rank r. */
  ghost function Copies(s: Suit, r: Rank): set<nat>
  {
    set k: nat | k < DECK_SIZE && FullDeck()[k].suit == s && FullDeck()[k].rank == r
  }

  lemma StandardCardAt(d: nat, si: nat, ri: nat)
    requires d < 2 && si < 4 && ri < 13
    ensures CardAt(52 * d + 13 * si + ri) == Card(SUITS[si], RANKS[ri], CardPoints(RANKS[ri]), 52 * d + 13 * si + ri)
  {
    var k := 52 * d + 13 * si + ri;
    assert k % 52 == 13 * si + ri;
    assert (k % 52) / 13 == si;
    assert k % 13 == ri;
  }

  lemma {:induction false} RanksDistinct(i: nat, j: nat)
    requires i < 13 && j < 13 && RANKS[i] == RANKS[j]
    ensures i == j
  {
  }

  lemma {:induction false} SuitsDistinct(i: nat, j: nat)
    requires i < 4 && j < 4 && SUITS[i] == SUITS[j]
    ensures i == j
  {
  }

  /** A standard position k splits into deck, suit and rank digits. */
  lemma StandardDigits(k: nat)
    requires k < 104
    ensures k / 52 < 2 && (k % 52) / 13 < 4 && k % 13 < 13
    ensures k == 52 * (k / 52) + 13 * ((k % 52) / 13) + k % 13
  {
    var m := k % 52;
    assert k == 52 * (k / 52) + m;
    assert m == 13 * (m / 13) + m % 13;
    assert k % 13 == m % 13;
  }

  /** A standard card of suit si and rank ri sits in one of two positions. */
  lemma StandardPosition(si: nat, ri: nat, k: nat)
    requires si < 4 && ri < 13 && k < 104
    requires CardAt(k).suit == SUITS[si] && CardAt(k).rank == RANKS[ri]
    ensures k == 13 * si + ri || k == 52 + 13 * si + ri
  {
    StandardDigits(k);
    var d, s, r := k / 52, (k % 52) / 13, k % 13;
    StandardCardAt(d, s, r);
    SuitsDistinct(s, si);
    RanksDistinct(r, ri);
  }

  /** Positions k and the (suit, rank) pair they carry. */
  lemma DeckPosition(si: nat, ri: nat, k: nat)
    requires si < 4 && ri < 13 && k < DECK_SIZE
    ensures (FullDeck()[k].suit == SUITS[si] && FullDeck()[k].rank == RANKS[ri])
            <==> (k == 13 * si + ri || k == 52 + 13 * si + ri)
  {
    assert FullDeck()[k] == CardAt(k);
    if k < 104 && CardAt(k).suit == SUITS[si] && CardAt(k).rank == RANKS[ri] {
      StandardPosition(si, ri, k);
    }
    if k == 13 * si + ri {
      StandardCardAt(0, si, ri);
    } else if k == 52 + 13 * si + ri {
      StandardCardAt(1, si, ri);
    }
  }

  /** createDeck: 108 cards, ids 0..107 (so pairwise distinct), points from CARD_POINTS. */
  lemma DeckIdsAndPoints()
    ensures |FullDeck()| == DECK_SIZE
    ensures forall k :: 0 <= k < DECK_SIZE ==> FullDeck()[k].id == k
    ensures forall c <- FullDeck() :: c.point == CardPoints(c.rank)
  {
  }

  /** createDeck: each standard suit and rank appears exactly twice. */
  lemma {:induction false} StandardCardTwice(si: nat, ri: nat)
    requires si < 4 && ri < 13
    ensures Copies(SUITS[si], RANKS[ri]) == {13 * si + ri, 52 + 13 * si + ri}
    ensures |Copies(SUITS[si], RANKS[ri])| == 2
  {
    var a, b := 13 * si + ri, 52 + 13 * si + ri;
    forall k: nat ensures k in Copies(SUITS[si], RANKS[ri]) <==> k in {a, b} {
      if k < DECK_SIZE { DeckPosition(si, ri, k); }
    }
    assert Copies(SUITS[si], RANKS[ri]) == {a, b};
  }

  /** createDeck: the last four cards, and only they, are jokers. */
  lemma {:induction false} FourJokers()
    ensures forall k :: 0 <= k < DECK_SIZE ==> (FullDeck()[k].rank == Joker <==> k >= 104)
    ensures Copies(JokerSuit, Joker) == {104, 105, 106, 107}
  {
    forall k: nat | k < 104 ensures FullDeck()[k].rank != Joker {
      assert FullDeck()[k].rank == RANKS[k % 13];
    }
    var js: set<nat> := {104, 105, 106, 107};
    forall k: nat ensures k in Copies(JokerSuit, Joker) <==> k in js {
      if k < 104 {
        assert FullDeck()[k].rank == RANKS[k % 13];
      }
    }
    assert Copies(JokerSuit, Joker) == js;
  }

  /** createDeck, loop by loop: two decks of four suits of thirteen ranks, then four jokers. */
  method CreateDeck() returns (cards: seq<Card>)
    ensures cards == FullDeck()
  {
    cards := [];
    var cardId: nat := 0;
    for deckNum := 0 to 2
      invariant cardId == 52 * deckNum
      invariant cards == FullDeck()[..cardId]
    {
      for s := 0 to 4
        invariant cardId == 52 * deckNum + 13 * s
        invariant cards == FullDeck()[..cardId]
      {
        for r := 0 to 13
          invariant cardId == 52 * deckNum + 13 * s + r
          invariant cards == FullDeck()[..cardId]
        {
          StandardCardAt(deckNum, s, r);
          cards := cards + [Card(SUITS[s], RANKS[r], CardPoints(RANKS[r]), cardId)];
          cardId := cardId + 1;
        }
      }
    }
    for i := 0 to 4
      invariant cardId == 104 + i
      invariant cards == FullDeck()[..cardId]
    {
      cards := cards + [Card(JokerSuit, Joker, CardPoints(Joker), cardId)];
      cardId := cardId + 1;
    }
  }

  function Swap<T>(s: seq<T>, i: nat, j: nat): (r: seq<T>)
    requires i < |s| && j < |s|
    ensures |r| == |s| && r[i] == s[j] && r[j] == s[i]
    ensures forall k :: 0 <= k < |s| && k != i && k != j ==> r[k] == s[k]
  {
    s[i := s[j]][j := s[i]]
  }

  lemma SwapPermutes<T>(s: seq<T>, i: nat, j: nat)
    requires i < |s| && j < |s|
    ensures multiset(Swap(s, i, j)) == multiset(s)
  {
  }

  /** The Fisher-Yates passes i, i-1, ..., 1 applied to s, where pass i swaps
      position i with position picks[i] mod (i+1); picks[i] stands for the
      source's Math.floor(Math.random() * (i + 1)). */
  function FisherYates<T>(s: seq<T>, picks: seq<nat>, i: int): seq<T>
    requires -1 <= i < |s| && |s| <= |picks|
    decreases i + 1
  {
    if i <= 0 then s
    else FisherYates(Swap(s, i, picks[i] % (i + 1)), picks, i - 1)
  }

  /** shuffle(array) for the random choices picks. */
  function Shuffled<T>(s: seq<T>, picks: seq<nat>): seq<T>
    requires |s| <= |picks|
  {
    FisherYates(s, picks, |s| - 1)
  }

  lemma {:induction false} FisherYatesPermutes<T>(s: seq<T>, picks: seq<nat>, i: int)
    requires -1 <= i < |s| && |s| <= |picks|
    ensures |FisherYates(s, picks, i)| == |s|
    ensures multiset(FisherYates(s, picks, i)) == multiset(s)
    decreases i + 1
  {
    if i > 0 {
      var t := Swap(s, i, picks[i] % (i + 1));
      SwapPermutes(s, i, picks[i] % (i + 1));
      FisherYatesPermutes(t, picks, i - 1);
      assert FisherYates(s, picks, i) == FisherYates(t, picks, i - 1);
    }
  }

  /** Whatever the random choices, the shuffle is a permutation of its input. */
  lemma ShuffledPermutes<T>(s: seq<T>, picks: seq<nat>)
    requires |s| <= |picks|
    ensures |Shuffled(s, picks)| == |s|
    ensures multiset(Shuffled(s, picks)) == multiset(s)
  {
    FisherYatesPermutes(s, picks, |s| - 1);
  }

  /** shuffle: copies the input into a fresh array and swaps in place from the back. */
  method Shuffle<T>(cards: seq<T>, picks: seq<nat>) returns (shuffled: seq<T>)
    requires |cards| <= |picks|
    ensures shuffled == Shuffled(cards, picks)
    ensures multiset(shuffled) == multiset(cards)
  {
    var a := new T[|cards|](k requires 0 <= k < |cards| => cards[k]);
    assert a[..] == cards;
    var i := a.Length - 1;
    while i > 0
      invariant -1 <= i < a.Length
      invariant FisherYates(a[..], picks, i) == Shuffled(cards, picks)
      decreases i
    {
      var j := picks[i] % (i + 1);
      ghost var before := a[..];
      a[i], a[j] := a[j], a[i];
      assert a[..] == Swap(before, i, j);
      i := i - 1;
    }
    shuffled := a[..];
    ShuffledPermutes(cards, picks);
  }
}
