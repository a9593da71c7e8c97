/** The server's meld validators isValidBook and isValidRun
    (server/src/gameManager.ts), with the sort they rely on. */
module Melds {
  import opened Types
  import opened Cards

  const MIN_BOOK_CARDS: nat := 3
  const MIN_RUN_CARDS: nat := 4

  predicate IsJoker(c: Card)
  {
    c.rank == Joker
  }

  predicate NoJokers(cards: seq<Card>)
  {
    forall c <- cards :: !IsJoker(c)
  }

  /** cards.filter(c => c.rank !== 'JOKER') */
  function NonJokers(cards: seq<Card>): (r: seq<Card>)
    ensures |r| <= |cards|
    ensures forall c :: c in r <==> c in cards && !IsJoker(c)
  {
    if cards == [] then []
    else (if IsJoker(cards[0]) then [] else [cards[0]]) + NonJokers(cards[1..])
  }

  /** cards.filter(c => c.rank === 'JOKER').length */
  function JokerCount(cards: seq<Card>): nat
  {
    if cards == [] then 0
    else (if IsJoker(cards[0]) then 1 else 0) + JokerCount(cards[1..])
  }

  lemma {:induction false} JokersAndNonJokers(cards: seq<Card>)
    ensures |NonJokers(cards)| + JokerCount(cards) == |cards|
    ensures NoJokers(cards) ==> JokerCount(cards) == 0 && NonJokers(cards) == cards
  {
    if cards != [] {
      JokersAndNonJokers(cards[1..]);
      assert cards == [cards[0]] + cards[1..];
    }
  }

  /** isValidBook */
  predicate IsValidBook(cards: seq<Card>)
  {
    |cards| >= MIN_BOOK_CARDS &&
    var nonJokers := NonJokers(cards);
    |nonJokers| > 0 &&
    var rank := nonJokers[0].rank;
    forall c <- nonJokers :: c.rank == rank
  }

  /** A book is at least three cards, not all jokers, whose non-jokers share one rank. */
  lemma BookMeaning(cards: seq<Card>)
    ensures IsValidBook(cards) <==>
      && |cards| >= 3
      && (exists c <- cards :: !IsJoker(c))
      && (forall c, d | c in cards && d in cards && !IsJoker(c) && !IsJoker(d) :: c.rank == d.rank)
  {
    var nj := NonJokers(cards);
    if |cards| >= 3 && (exists c <- cards :: !IsJoker(c)) {
      var c :| c in cards && !IsJoker(c);
      assert c in nj;
      assert nj[0] in nj;
    }
  }

  /** The rank value of a card that is not a joker. */
  function Value(c: Card): int
    requires !IsJoker(c)
  {
    RankValue(c.rank).value
  }

  /** The sort comparator of isValidRun: 0 as soon as a joker is involved. */
  function Compare(a: Card, b: Card): int
  {
    if IsJoker(a) || IsJoker(b) then 0 else Value(a) - Value(b)
  }

  /** Inserts x into t from the right, moving past elements the comparator puts after x. */
  function Insert(t: seq<Card>, x: Card): (r: seq<Card>)
    ensures |r| == |t| + 1
  {
    if t == [] then [x]
    else if Compare(t[|t| - 1], x) > 0 then Insert(t[..|t| - 1], x) + [t[|t| - 1]]
    else t + [x]
  }

  /** The order `[...cards].sort(comparator)` yields. The comparator is not a
      consistent order once jokers are present, so the language leaves the
      result to the engine; this model fixes one permitted order, a stable
      insertion sort, which for joker-free cards is THE rank order. */
  function SortForRun(cards: seq<Card>): (r: seq<Card>)
    ensures |r| == |cards|
  {
    if cards == [] then []
    else Insert(SortForRun(cards[..|cards| - 1]), cards[|cards| - 1])
  }

  lemma {:induction false} InsertPermutes(t: seq<Card>, x: Card)
    ensures multiset(Insert(t, x)) == multiset(t) + multiset{x}
    ensures forall c :: c in Insert(t, x) <==> c == x || c in t
  {
    if t != [] && Compare(t[|t| - 1], x) > 0 {
      InsertPermutes(t[..|t| - 1], x);
      assert t == t[..|t| - 1] + [t[|t| - 1]];
    }
  }

  /** The sort returns a permutation of its input. */
  lemma {:induction false} SortPermutes(cards: seq<Card>)
    ensures multiset(SortForRun(cards)) == multiset(cards)
  {
    if cards != [] {
      var init := cards[..|cards| - 1];
      SortPermutes(init);
      InsertPermutes(SortForRun(init), cards[|cards| - 1]);
      assert cards == init + [cards[|cards| - 1]];
    }
  }

  /** Nondecreasing rank values (for joker-free sequences). */
  predicate SortedByValue(t: seq<Card>)
    requires NoJokers(t)
  {
    forall i, j :: 0 <= i < j < |t| ==> Value(t[i]) <= Value(t[j])
  }

  lemma SortedAppend(q: seq<Card>, y: Card)
    requires NoJokers(q) && !IsJoker(y) && SortedByValue(q)
    requires forall i :: 0 <= i < |q| ==> Value(q[i]) <= Value(y)
    ensures NoJokers(q + [y]) && SortedByValue(q + [y])
  {
    var r := q + [y];
    assert forall i :: 0 <= i < |q| ==> r[i] == q[i];
  }

  lemma {:induction false} InsertSorted(t: seq<Card>, x: Card)
    requires NoJokers(t) && !IsJoker(x) && SortedByValue(t)
    ensures NoJokers(Insert(t, x)) && SortedByValue(Insert(t, x))
  {
    if t == [] {
      assert Insert(t, x) == [x];
      return;
    }
    var init, last := t[..|t| - 1], t[|t| - 1];
    SortedInit(t);
    if Compare(last, x) > 0 {
      InsertSorted(init, x);
      InsertBelow(t, x);
      SortedAppend(Insert(init, x), last);
    } else {
      UpToLast(t, x);
      SortedAppend(t, x);
    }
  }

  /** Inserting x below the last card of t leaves every other card, and x, below it. */
  lemma InsertBelow(t: seq<Card>, x: Card)
    requires t != [] && NoJokers(t) && !IsJoker(x) && SortedByValue(t)
    requires Compare(t[|t| - 1], x) > 0
    ensures var q := Insert(t[..|t| - 1], x);
      && Insert(t, x) == q + [t[|t| - 1]]
      && NoJokers(q) && forall i :: 0 <= i < |q| ==> Value(q[i]) <= Value(t[|t| - 1])
  {
    var init, last := t[..|t| - 1], t[|t| - 1];
    assert last in t;
    SortedInit(t);
    InsertPermutes(init, x);
    var q := Insert(init, x);
    forall i | 0 <= i < |q| ensures !IsJoker(q[i]) && Value(q[i]) <= Value(last) {
      assert q[i] in q;
      if q[i] != x {
        var j :| 0 <= j < |init| && init[j] == q[i];
        assert t[j] == q[i];
      }
    }
  }

  /** Everything in sorted t is at most x when its last card is. */
  lemma UpToLast(t: seq<Card>, x: Card)
    requires t != [] && NoJokers(t) && !IsJoker(x) && SortedByValue(t)
    requires Compare(t[|t| - 1], x) <= 0
    ensures Insert(t, x) == t + [x]
    ensures forall i :: 0 <= i < |t| ==> Value(t[i]) <= Value(x)
  {
    assert t[|t| - 1] in t;
    forall i | 0 <= i < |t| ensures Value(t[i]) <= Value(x) {
      assert t[i] in t;
    }
  }

  /** For joker-free cards the sort is a real sort: the result is ordered by rank value. */
  lemma {:induction false} SortSortsJokerFree(cards: seq<Card>)
    requires NoJokers(cards)
    ensures NoJokers(SortForRun(cards)) && SortedByValue(SortForRun(cards))
  {
    if cards != [] {
      var init := cards[..|cards| - 1];
      SortSortsJokerFree(init);
      InsertSorted(SortForRun(init), cards[|cards| - 1]);
    }
  }

  /** Sorting joker-free cards that are already in rank order changes nothing. */
  lemma {:induction false} SortKeepsSorted(cards: seq<Card>)
    requires NoJokers(cards) && SortedByValue(cards)
    ensures SortForRun(cards) == cards
  {
    if cards != [] {
      var init, last := cards[..|cards| - 1], cards[|cards| - 1];
      SortedInit(cards);
      SortKeepsSorted(init);
      assert Insert(init, last) == cards;
    }
  }

  lemma SortedInit(cards: seq<Card>)
    requires cards != [] && NoJokers(cards) && SortedByValue(cards)
    ensures NoJokers(cards[..|cards| - 1]) && SortedByValue(cards[..|cards| - 1])
    ensures Insert(cards[..|cards| - 1], cards[|cards| - 1]) == cards
  {
    var init, last := cards[..|cards| - 1], cards[|cards| - 1];
    forall c <- init ensures !IsJoker(c) { assert c in cards; }
    assert forall i :: 0 <= i < |init| ==> init[i] == cards[i];
    assert init != [] ==> Compare(init[|init| - 1], last) <= 0;
    assert cards == init + [last];
  }

  /** `expectedValue++`: NaN stays NaN. */
  function Inc(x: Option<int>): Option<int>
  {
    match x
    case None => None
    case Some(v) => Some(v + 1)
  }

  /** One pass of the loop of isValidRun, from (expectedValue, jokersUsed).
      None is `return false`; an expected value None is NaN, the value of
      RANK_VALUES['JOKER'] when the sorted cards start with a joker. */
  function Step(card: Card, expected: Option<int>, used: int, jokerCount: int): Option<(Option<int>, int)>
  {
    if IsJoker(card) then Some((Inc(expected), used + 1))
    else match expected
      case None => None
      case Some(e) =>
        var v := Value(card);
        var gap := v - e;
        if gap == 1 then Some((Some(v + 1), used))
        else if gap > 1 && used < jokerCount && used + (gap - 1) <= jokerCount then Some((Some(v + 1), used + (gap - 1)))
        else None
  }

  /** The loop of isValidRun from index i on. */
  function ScanFrom(sorted: seq<Card>, i: nat, expected: Option<int>, used: int, jokerCount: int): bool
    decreases |sorted| - i
  {
    if i >= |sorted| then true
    else match Step(sorted[i], expected, used, jokerCount)
      case None => false
      case Some((e, u)) => ScanFrom(sorted, i + 1, e, u, jokerCount)
  }

  /** The sequence check of isValidRun over an arrangement of the cards. */
  predicate RunScan(sorted: seq<Card>, jokerCount: int)
    requires |sorted| > 0
  {
    ScanFrom(sorted, 1, RankValue(sorted[0].rank), 0, jokerCount)
  }

  predicate SameSuit(cards: seq<Card>)
    requires |cards| > 0
  {
    var suit := cards[0].suit;
    forall c <- cards :: c.suit == suit
  }

  /** What isValidRun returns. */
  predicate IsRun(cards: seq<Card>)
  {
    && |cards| >= MIN_RUN_CARDS
    && |NonJokers(cards)| > 0
    && SameSuit(NonJokers(cards))
    && RunScan(SortForRun(cards), JokerCount(cards))
  }

  /** isValidRun, with its loop over expectedValue and jokersUsed. */
  method IsValidRun(cards: seq<Card>) returns (valid: bool)
    ensures valid == IsRun(cards)
  {
    if |cards| < MIN_RUN_CARDS {
      return false;
    }
    var nonJokers := NonJokers(cards);
    if |nonJokers| == 0 {
      return false;
    }
    var suit := nonJokers[0].suit;
    if !(forall c <- nonJokers :: c.suit == suit) {
      return false;
    }
    var sortedCards := SortForRun(cards);
    var expectedValue := RankValue(sortedCards[0].rank);
    var jokerCount := JokerCount(cards);
    var jokersUsed := 0;
    var i := 1;
    while i < |sortedCards|
      invariant 1 <= i <= |sortedCards|
      invariant ScanFrom(sortedCards, i, expectedValue, jokersUsed, jokerCount)
                == RunScan(sortedCards, jokerCount)
    {
      var card := sortedCards[i];
      ScanStep(sortedCards, i, expectedValue, jokersUsed, jokerCount);
      ghost var step := Step(card, expectedValue, jokersUsed, jokerCount);
      if IsJoker(card) {
        jokersUsed := jokersUsed + 1;
        expectedValue := Inc(expectedValue);
        assert step == Some((expectedValue, jokersUsed));
        i := i + 1;
        continue;
      }
      if expectedValue.None? {
        // the gap is NaN: it is neither 1 nor greater than 1
        return false;
      }
      var cardValue := Value(card);
      var gap := cardValue - expectedValue.value;
      if gap == 1 {
        expectedValue := Some(cardValue);
      } else if gap > 1 && jokersUsed < jokerCount {
        var jokersNeeded := gap - 1;
        if jokersUsed + jokersNeeded <= jokerCount {
          jokersUsed := jokersUsed + jokersNeeded;
          expectedValue := Some(cardValue);
        } else {
          return false;
        }
      } else {
        return false;
      }
      expectedValue := Inc(expectedValue);
      assert step == Some((expectedValue, jokersUsed));
      i := i + 1;
    }
    return true;
  }

  /** One iteration of the scan. */
  lemma ScanStep(sorted: seq<Card>, i: nat, expected: Option<int>, used: int, jokerCount: int)
    requires i < |sorted|
    ensures var step := Step(sorted[i], expected, used, jokerCount);
      ScanFrom(sorted, i, expected, used, jokerCount)
      == (step.Some? && ScanFrom(sorted, i + 1, step.value.0, step.value.1, jokerCount))
  {
  }

  /** Without jokers, the scan accepts exactly the arrangements whose values
      go e+1, e+3, e+5, ...: after each card the loop adds one to
      expectedValue a second time. This holds for ANY arrangement. */
  lemma {:induction false} ScanWithoutJokers(sorted: seq<Card>, i: nat, e: int)
    requires i <= |sorted| && NoJokers(sorted[i..])
    ensures ScanFrom(sorted, i, Some(e), 0, 0)
            <==> forall k :: i <= k < |sorted| ==> Value(sorted[k]) == e + 2 * (k - i) + 1
    decreases |sorted| - i
  {
    if i < |sorted| {
      assert sorted[i] in sorted[i..];
      assert sorted[i + 1..] == sorted[i..][1..];
      ScanWithoutJokers(sorted, i + 1, Value(sorted[i]) + 1);
    }
  }

  /** A joker-free list passes the scan iff its values are v, v+1, v+3, v+5, ... */
  lemma JokerFreeScan(sorted: seq<Card>)
    requires |sorted| > 0 && NoJokers(sorted)
    ensures RunScan(sorted, 0)
            <==> forall k :: 1 <= k < |sorted| ==> Value(sorted[k]) == Value(sorted[0]) + 2 * k - 1
  {
    assert sorted[0] in sorted;
    assert NoJokers(sorted[1..]) by {
      forall c <- sorted[1..] ensures !IsJoker(c) { assert c in sorted; }
    }
    ScanWithoutJokers(sorted, 1, Value(sorted[0]));
  }

  /** For joker-free cards: a run is four or more cards of one suit whose
      (rank-sorted) values are v, v+1, v+3, v+5, ... */
  lemma JokerFreeRun(cards: seq<Card>)
    requires NoJokers(cards) && |cards| > 0
    ensures NoJokers(SortForRun(cards))
    ensures var t := SortForRun(cards);
      IsRun(cards) <==>
        && |cards| >= MIN_RUN_CARDS
        && SameSuit(cards)
        && forall k :: 1 <= k < |t| ==> Value(t[k]) == Value(t[0]) + 2 * k - 1
  {
    JokersAndNonJokers(cards);
    SortSortsJokerFree(cards);
    var t := SortForRun(cards);
    JokerFreeScan(t);
    assert NonJokers(cards) == cards && JokerCount(cards) == 0;
    assert IsRun(cards) <==> |cards| >= MIN_RUN_CARDS && SameSuit(cards) && RunScan(t, 0);
  }

  lemma {:induction false} ScanAfterNaN(sorted: seq<Card>, i: nat, used: int, jokerCount: int)
    requires exists k :: i <= k < |sorted| && !IsJoker(sorted[k])
    ensures !ScanFrom(sorted, i, None, used, jokerCount)
    decreases |sorted| - i
  {
    if IsJoker(sorted[i]) {
      ScanAfterNaN(sorted, i + 1, used + 1, jokerCount);
    }
  }

  /** An arrangement that starts with a joker is always rejected: the gap to
      the first non-joker is computed from NaN. Holds for ANY arrangement. */
  lemma LeadingJokerRejected(sorted: seq<Card>, jokerCount: int)
    requires |sorted| > 0 && IsJoker(sorted[0])
    requires exists c <- sorted :: !IsJoker(c)
    ensures !RunScan(sorted, jokerCount)
  {
    var c :| c in sorted && !IsJoker(c);
    var k :| 0 <= k < |sorted| && sorted[k] == c;
    ScanAfterNaN(sorted, 1, 0, jokerCount);
  }

  /** A meld that the validator puts joker-first is never a run. */
  lemma JokerFirstNotRun(cards: seq<Card>)
    requires |cards| > 0 && IsJoker(SortForRun(cards)[0])
    ensures !IsRun(cards)
  {
    if |NonJokers(cards)| > 0 {
      var c := NonJokers(cards)[0];
      assert c in NonJokers(cards);
      assert c in cards && !IsJoker(c);
      SortPermutes(cards);
      assert c in multiset(SortForRun(cards));
      assert c in SortForRun(cards);
      LeadingJokerRejected(SortForRun(cards), JokerCount(cards));
    }
  }

  function C(r: Rank, s: Suit, id: nat): Card
  {
    Card(s, r, CardPoints(r), id)
  }

  /** Joker-free cards already in rank order: the validator scans them as they are. */
  lemma InOrderRun(cards: seq<Card>)
    requires |cards| > 0 && NoJokers(cards) && SortedByValue(cards)
    ensures IsRun(cards) <==> |cards| >= MIN_RUN_CARDS && SameSuit(cards) && RunScan(cards, 0)
  {
    JokersAndNonJokers(cards);
    SortKeepsSorted(cards);
  }

  /** Four joker-free cards with rising values are in rank order. */
  lemma RisingFour(cards: seq<Card>)
    requires |cards| == 4 && NoJokers(cards)
    requires Value(cards[0]) < Value(cards[1]) < Value(cards[2]) < Value(cards[3])
    ensures SortedByValue(cards)
  {
  }

  /** Four consecutive hearts 3-4-5-6 are rejected by the server. */
  lemma ConsecutiveRunRejected()
    ensures !IsRun([C(Three, Hearts, 0), C(Four, Hearts, 1), C(Five, Hearts, 2), C(Six, Hearts, 3)])
  {
    ConsecutiveFourRejected([C(Three, Hearts, 0), C(Four, Hearts, 1), C(Five, Hearts, 2), C(Six, Hearts, 3)]);
  }

  /** After 3-4 the loop expects 6, so a 5 in third place stops the scan. */
  lemma ConsecutiveFourRejected(cards: seq<Card>)
    requires |cards| == 4
    requires cards[0].rank == Three && cards[1].rank == Four && cards[2].rank == Five && cards[3].rank == Six
    ensures !IsRun(cards)
  {
    assert NoJokers(cards);
    RisingFour(cards);
    InOrderRun(cards);
    assert !ScanFrom(cards, 2, Some(5), 0, 0);
  }

  /** Hearts 3-4-6-8 are accepted by the server. */
  lemma SkippingRunAccepted()
    ensures IsRun([C(Three, Hearts, 0), C(Four, Hearts, 1), C(Six, Hearts, 2), C(Eight, Hearts, 3)])
  {
    SkippingFour([C(Three, Hearts, 0), C(Four, Hearts, 1), C(Six, Hearts, 2), C(Eight, Hearts, 3)]);
  }

  /** 3-4-6-8 of one suit: the loop expects 4, then 6, then 8. */
  lemma SkippingFour(cards: seq<Card>)
    requires |cards| == 4
    requires cards[0].rank == Three && cards[1].rank == Four && cards[2].rank == Six && cards[3].rank == Eight
    requires forall k :: 0 <= k < 4 ==> cards[k].suit == cards[0].suit
    ensures IsRun(cards)
  {
    assert NoJokers(cards);
    RisingFour(cards);
    InOrderRun(cards);
    assert SameSuit(cards);
    assert ScanFrom(cards, 3, Some(7), 0, 0);
    assert ScanFrom(cards, 1, Some(3), 0, 0);
  }
}
