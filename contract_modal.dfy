/** The client's contract builder (client/src/components/ContractPlacementModal.tsx):
    the list of groups a round asks for, the client's own meld checks, and
    the selection state the player steps through. The component's three
    pieces of state are replaced, never updated in place, so each handler is
    a function from the old state to the new one. The client's book check
    is the server's isValidBook word for word, so Melds.IsValidBook serves
    for both. */
module ContractModal {
  import opened Types
  import opened Cards
  import opened Melds
  import Rounds

  // ---------------------------------------------------------------------
  // getRequiredContracts

  datatype Requirement = Requirement(kind: ContractType, minCards: nat)

  /** The minimum size the client asks of a group of each kind. */
  function MinCards(kind: ContractType): (n: nat)
    ensures kind == Book ==> n == MIN_BOOK_CARDS
    ensures kind == Run ==> n == MIN_RUN_CARDS
  {
    if kind == Book then 3 else 4
  }

  function ReqOf(kind: ContractType): Requirement
  {
    Requirement(kind, MinCards(kind))
  }

  /** n copies of q; none when n is not positive. */
  function Repeat(q: Requirement, n: int): (r: seq<Requirement>)
    ensures |r| == if n > 0 then n else 0
    ensures forall x <- r :: x == q
    decreases n
  {
    if n <= 0 then [] else Repeat(q, n - 1) + [q]
  }

  /** Each contract expanded `count` times, in order. */
  function Expand(contracts: seq<Contract>): (r: seq<Requirement>)
    ensures forall q <- r :: q == ReqOf(q.kind)
  {
    if contracts == [] then []
    else Repeat(ReqOf(contracts[0].kind), contracts[0].count) + Expand(contracts[1..])
  }

  /** What getRequiredContracts returns. */
  function RequiredContracts(round: int, dealersChoice: Option<DealersChoice>, contracts: seq<Contract>): (r: seq<Requirement>)
    ensures forall q <- r :: q == ReqOf(q.kind)
  {
    if round == 7 && dealersChoice.Some? then
      if dealersChoice.value == Books then Repeat(ReqOf(Book), 4) else Repeat(ReqOf(Run), 3)
    else Expand(contracts)
  }

  lemma {:induction false} ExpandAppend(contracts: seq<Contract>, c: Contract)
    ensures Expand(contracts + [c]) == Expand(contracts) + Repeat(ReqOf(c.kind), c.count)
  {
    if contracts != [] {
      assert (contracts + [c])[1..] == contracts[1..] + [c];
      ExpandAppend(contracts[1..], c);
    } else {
      assert [c][1..] == [];
    }
  }

  /** getRequiredContracts: in round 7 with a dealer's choice, four books or
      three runs; otherwise every contract pushed `count` times. */
  method GetRequiredContracts(round: int, dealersChoice: Option<DealersChoice>, contracts: seq<Contract>)
    returns (required: seq<Requirement>)
    ensures required == RequiredContracts(round, dealersChoice, contracts)
  {
    if round == 7 && dealersChoice.Some? {
      if dealersChoice.value == Books {
        return Repeat(ReqOf(Book), 4);
      } else {
        return Repeat(ReqOf(Run), 3);
      }
    }
    required := [];
    for j := 0 to |contracts|
      invariant required == Expand(contracts[..j])
    {
      var contract := contracts[j];
      var i := 0;
      while i < contract.count
        invariant 0 <= i <= if contract.count > 0 then contract.count else 0
        invariant required == Expand(contracts[..j]) + Repeat(ReqOf(contract.kind), i)
        decreases contract.count - i
      {
        required := required + [Requirement(contract.kind, if contract.kind == Book then 3 else 4)];
        i := i + 1;
      }
      assert Repeat(ReqOf(contract.kind), i) == Repeat(ReqOf(contract.kind), contract.count);
      assert contracts[..j + 1] == contracts[..j] + [contract];
      ExpandAppend(contracts[..j], contract);
    }
    assert contracts[..|contracts|] == contracts;
  }

  /** The number of requirements of one kind. */
  function CountKind(reqs: seq<Requirement>, kind: ContractType): (n: nat)
    ensures n <= |reqs|
  {
    if reqs == [] then 0
    else (if reqs[0].kind == kind then 1 else 0) + CountKind(reqs[1..], kind)
  }

  lemma {:induction false} CountConcat(a: seq<Requirement>, b: seq<Requirement>, kind: ContractType)
    ensures CountKind(a + b, kind) == CountKind(a, kind) + CountKind(b, kind)
  {
    if a != [] {
      assert (a + b)[1..] == a[1..] + b;
      CountConcat(a[1..], b, kind);
    } else {
      assert a + b == b;
    }
  }

  lemma {:induction false} CountRepeat(q: Requirement, n: int, kind: ContractType)
    ensures CountKind(Repeat(q, n), kind) == if q.kind == kind && n > 0 then n else 0
    decreases n
  {
    if n > 0 {
      CountRepeat(q, n - 1, kind);
      CountConcat(Repeat(q, n - 1), [q], kind);
      assert CountKind([q], kind) == CountKind([q][1..], kind) + (if q.kind == kind then 1 else 0);
      assert [q][1..] == [];
    }
  }

  /** With non-negative counts the expansion asks for as many groups of a
      kind as the server's rule sums up for it. */
  lemma {:induction false} ExpandCounts(contracts: seq<Contract>, kind: ContractType)
    requires forall c <- contracts :: c.count >= 0
    ensures CountKind(Expand(contracts), kind) == Rounds.RequiredCount(contracts, kind)
  {
    if contracts != [] {
      assert forall c <- contracts[1..] :: c in contracts;
      ExpandCounts(contracts[1..], kind);
      CountConcat(Repeat(ReqOf(contracts[0].kind), contracts[0].count), Expand(contracts[1..]), kind);
      CountRepeat(ReqOf(contracts[0].kind), contracts[0].count, kind);
    }
  }

  /** In every round the client asks for exactly the numbers of books and
      runs the server's contract rule accepts (round 7 once the dealer has
      chosen). */
  lemma ClientAsksWhatServerAccepts(round: int, choice: Option<DealersChoice>)
    requires 1 <= round <= Rounds.ROUNDS
    requires round == 7 ==> choice.Some?
    ensures var r := RequiredContracts(round, choice, ROUND_CONFIGS[round - 1].contracts);
      Rounds.ContractMet(round, ROUND_CONFIGS[round - 1], choice, CountKind(r, Book), CountKind(r, Run))
  {
    var config := ROUND_CONFIGS[round - 1];
    if round == 7 {
      if choice.value == Books {
        CountRepeat(ReqOf(Book), 4, Book);
        CountRepeat(ReqOf(Book), 4, Run);
      } else {
        CountRepeat(ReqOf(Run), 3, Book);
        CountRepeat(ReqOf(Run), 3, Run);
      }
    } else {
      assert forall c <- config.contracts :: c.count >= 0;
      ExpandCounts(config.contracts, Book);
      ExpandCounts(config.contracts, Run);
    }
  }

  /** Round 7 without a dealer's choice has nothing to ask for. */
  lemma NoChoiceNothingRequired()
    ensures RequiredContracts(7, None, ROUND_CONFIGS[6].contracts) == []
  {
  }

  // ---------------------------------------------------------------------
  // The client's isValidRun

  /** Every adjacent gap of the sorted ranks is at most jokers + 1. Each gap
      is checked on its own: the gaps are not summed against the jokers. */
  predicate GapsWithin(sorted: seq<Card>, jokers: int)
    requires NoJokers(sorted)
  {
    forall i :: 1 <= i < |sorted| ==> Value(sorted[i]) - Value(sorted[i - 1]) <= jokers + 1
  }

  lemma NonJokersHaveNone(cards: seq<Card>)
    ensures NoJokers(NonJokers(cards))
    ensures NoJokers(SortForRun(NonJokers(cards)))
  {
    SortSortsJokerFree(NonJokers(cards));
  }

  /** What the client's isValidRun returns: four or more cards, some not a
      joker, the non-jokers of one suit, and no gap between rank-sorted
      neighbours wider than the jokers could bridge one at a time. The
      comparator on non-jokers is a consistent order and the sort is stable,
      so the sorted order is SortForRun's. */
  predicate ClientRun(cards: seq<Card>)
  {
    && |cards| >= MIN_RUN_CARDS
    && var nonJokers := NonJokers(cards);
    && |nonJokers| > 0
    && SameSuit(nonJokers)
    && (NonJokersHaveNone(cards);
        GapsWithin(SortForRun(nonJokers), |cards| - |nonJokers|))
  }

  /** The client's isValidRun, with its loop over adjacent gaps. */
  method ClientIsValidRun(cards: seq<Card>) returns (valid: bool)
    ensures valid == ClientRun(cards)
  {
    if |cards| < MIN_RUN_CARDS {
      return false;
    }
    var nonJokers := NonJokers(cards);
    if |nonJokers| == 0 {
      return false;
    }
    if !SameSuit(nonJokers) {
      return false;
    }
    NonJokersHaveNone(cards);
    valid := GapsCheck(SortForRun(nonJokers), |cards| - |nonJokers|);
  }

  /** The loop of the client's isValidRun over adjacent sorted non-jokers. */
  method GapsCheck(sortedNonJokers: seq<Card>, jokerCount: int) returns (valid: bool)
    requires NoJokers(sortedNonJokers)
    ensures valid == GapsWithin(sortedNonJokers, jokerCount)
  {
    assert forall k :: 0 <= k < |sortedNonJokers| ==> !IsJoker(sortedNonJokers[k]);
    var i := 1;
    while i < |sortedNonJokers|
      invariant 1 <= i
      invariant forall k :: 1 <= k < i && k < |sortedNonJokers| ==>
        Value(sortedNonJokers[k]) - Value(sortedNonJokers[k - 1]) <= jokerCount + 1
    {
      var gap := Value(sortedNonJokers[i]) - Value(sortedNonJokers[i - 1]);
      if gap > jokerCount + 1 {
        return false;
      }
      i := i + 1;
    }
    return true;
  }

  /** Without jokers the client accepts exactly four or more cards of one
      suit whose sorted ranks never step by more than one: consecutive
      ranks, and repeated ranks too. */
  lemma JokerFreeClientRun(cards: seq<Card>)
    requires NoJokers(cards)
    ensures NoJokers(SortForRun(cards))
    ensures var t := SortForRun(cards);
      ClientRun(cards) <==>
        && |cards| >= MIN_RUN_CARDS
        && SameSuit(cards)
        && forall i :: 1 <= i < |t| ==> Value(t[i]) - Value(t[i - 1]) <= 1
  {
    SortSortsJokerFree(cards);
    JokerFreeClientGaps(cards);
  }

  /** Without jokers the client's check reads the cards themselves, with no joker to spend. */
  lemma JokerFreeClientGaps(cards: seq<Card>)
    requires NoJokers(cards)
    ensures NoJokers(SortForRun(cards))
    ensures ClientRun(cards) <==> |cards| >= MIN_RUN_CARDS && SameSuit(cards) && GapsWithin(SortForRun(cards), 0)
  {
    JokersAndNonJokers(cards);
    SortSortsJokerFree(cards);
    if |cards| > 0 {
      assert |NonJokers(cards)| > 0;
    }
  }

  /** Without jokers every server run fails the client's check: the
      server wants the third sorted rank three above the first and the
      second one above it, a step of two that the client refuses. */
  lemma ServerRunFailsClient(cards: seq<Card>)
    requires NoJokers(cards) && IsRun(cards)
    ensures !ClientRun(cards)
  {
    JokersAndNonJokers(cards);
    SortSortsJokerFree(cards);
    var t := SortForRun(cards);
    JokerFreeScan(t);
    assert Value(t[1]) == Value(t[0]) + 1 && Value(t[2]) == Value(t[0]) + 3;
    JokerFreeClientRun(cards);
  }

  /** So without jokers no meld passes both run checks. */
  lemma JokerFreeNeverBoth(cards: seq<Card>)
    requires NoJokers(cards)
    ensures !(ClientRun(cards) && IsRun(cards))
  {
    if IsRun(cards) {
      ServerRunFailsClient(cards);
    }
  }

  /** Joker-free cards in rank order that step by exactly one pass the client's check. */
  lemma ClientAcceptsConsecutive(cards: seq<Card>)
    requires NoJokers(cards) && |cards| >= MIN_RUN_CARDS && SameSuit(cards)
    requires forall i :: 1 <= i < |cards| ==> Value(cards[i]) == Value(cards[i - 1]) + 1
    ensures ClientRun(cards)
  {
    assert SortedByValue(cards) by {
      forall i, j | 0 <= i < j < |cards| ensures Value(cards[i]) <= Value(cards[j]) {
        ConsecutiveRise(cards, i, j);
      }
    }
    SortKeepsSorted(cards);
    JokerFreeClientRun(cards);
  }

  lemma {:induction false} ConsecutiveRise(cards: seq<Card>, i: nat, j: nat)
    requires NoJokers(cards) && i <= j < |cards|
    requires forall k :: 1 <= k < |cards| ==> Value(cards[k]) == Value(cards[k - 1]) + 1
    ensures Value(cards[j]) == Value(cards[i]) + (j - i)
    decreases j - i
  {
    if i < j {
      ConsecutiveRise(cards, i, j - 1);
    }
  }

  /** Four cards of one suit ranked 3-4-5-6 pass the client's check. */
  lemma ConsecutiveFour(a: Card, b: Card, c: Card, d: Card)
    requires a.rank == Three && b.rank == Four && c.rank == Five && d.rank == Six
    requires a.suit == b.suit == c.suit == d.suit
    ensures ClientRun([a, b, c, d])
  {
    ClientAcceptsConsecutive([a, b, c, d]);
  }

  /** Hearts 3-4-5-6: the client accepts, the server refuses. */
  lemma ConsecutiveRunDisagreement()
    ensures var cards := [C(Three, Hearts, 0), C(Four, Hearts, 1), C(Five, Hearts, 2), C(Six, Hearts, 3)];
      ClientRun(cards) && !IsRun(cards)
  {
    ConsecutiveFour(C(Three, Hearts, 0), C(Four, Hearts, 1), C(Five, Hearts, 2), C(Six, Hearts, 3));
    ConsecutiveRunRejected();
  }

  /** Joker-free cards in rank order with a step wider than one fail the client's check. */
  lemma ClientRefusesWideStep(cards: seq<Card>, i: nat)
    requires NoJokers(cards) && SortedByValue(cards)
    requires 1 <= i < |cards| && Value(cards[i]) - Value(cards[i - 1]) > 1
    ensures !ClientRun(cards)
  {
    SortKeepsSorted(cards);
    JokerFreeClientRun(cards);
  }

  /** Four cards of one suit ranked 3-4-6-8 fail the client's check. */
  lemma SkippingFourRefused(a: Card, b: Card, c: Card, d: Card)
    requires a.rank == Three && b.rank == Four && c.rank == Six && d.rank == Eight
    ensures !ClientRun([a, b, c, d])
  {
    ClientRefusesWideStep([a, b, c, d], 2);
  }

  /** Hearts 3-4-6-8: the server accepts, the client refuses. */
  lemma SkippingRunDisagreement()
    ensures var cards := [C(Three, Hearts, 0), C(Four, Hearts, 1), C(Six, Hearts, 2), C(Eight, Hearts, 3)];
      !ClientRun(cards) && IsRun(cards)
  {
    SkippingFourRefused(C(Three, Hearts, 0), C(Four, Hearts, 1), C(Six, Hearts, 2), C(Eight, Hearts, 3));
    SkippingRunAccepted();
  }

  lemma {:induction false} NonJokersThenJoker(cards: seq<Card>, j: Card)
    requires NoJokers(cards) && IsJoker(j)
    ensures NonJokers(cards + [j]) == cards
  {
    if cards == [] {
      assert NonJokers([j]) == [] + NonJokers([j][1..]);
      assert [j][1..] == [];
    } else {
      assert (cards + [j])[1..] == cards[1..] + [j];
      NonJokersThenJoker(cards[1..], j);
    }
  }

  /** Joker-free cards in rank order whose steps are each at most the
      number of added jokers plus one pass the client's check with them. */
  lemma ClientAcceptsWithJokers(cards: seq<Card>, j: Card)
    requires NoJokers(cards) && SortedByValue(cards) && IsJoker(j)
    requires |cards| >= MIN_RUN_CARDS - 1 && SameSuit(cards)
    requires forall i :: 1 <= i < |cards| ==> Value(cards[i]) - Value(cards[i - 1]) <= 2
    ensures ClientRun(cards + [j])
  {
    NonJokersThenJoker(cards, j);
    SortKeepsSorted(cards);
    NonJokersHaveNone(cards + [j]);
  }

  /** Three cards of one suit ranked 3-5-7 and one joker pass the client's
      check: each gap of two fits the one joker, though the run needs two. */
  lemma GapsNotSummed(a: Card, b: Card, c: Card, j: Card)
    requires a.rank == Three && b.rank == Five && c.rank == Seven && j.rank == Joker
    requires a.suit == b.suit == c.suit
    ensures ClientRun([a, b, c, j])
  {
    ClientAcceptsWithJokers([a, b, c], j);
    assert [a, b, c] + [j] == [a, b, c, j];
  }

  // ---------------------------------------------------------------------
  // The selection state

  /** placedGroups, currentGroup and currentContractIndex. */
  datatype Selection = Selection(placedGroups: seq<seq<Card>>, currentGroup: seq<Card>, contractIndex: nat)

  const Initial: Selection := Selection([], [], 0)

  function Flatten(groups: seq<seq<Card>>): (r: seq<Card>)
    ensures forall g, c | g in groups && c in g :: c in r
    ensures forall c <- r :: exists g <- groups :: c in g
  {
    if groups == [] then [] else groups[0] + Flatten(groups[1..])
  }

  lemma {:induction false} FlattenAppend(groups: seq<seq<Card>>, g: seq<Card>)
    ensures Flatten(groups + [g]) == Flatten(groups) + g
  {
    if groups != [] {
      assert (groups + [g])[1..] == groups[1..] + [g];
      FlattenAppend(groups[1..], g);
    } else {
      assert [g][1..] == [];
    }
  }

  /** The ids of a list of cards. */
  function Ids(cards: seq<Card>): (ids: set<nat>)
  {
    set c | c in cards :: c.id
  }

  /** selectedCardIds: the ids in the placed groups and the current group. */
  function SelectedIds(s: Selection): set<nat>
  {
    Ids(Flatten(s.placedGroups)) + Ids(s.currentGroup)
  }

  /** availableCards: the hand's cards whose ids are not selected, in hand order. */
  function AvailableCards(hand: seq<Card>, s: Selection): (r: seq<Card>)
    ensures |r| <= |hand|
    ensures forall c :: c in r <==> c in hand && c.id !in SelectedIds(s)
  {
    if hand == [] then []
    else
      (if hand[0].id in SelectedIds(s) then [] else [hand[0]]) + AvailableCards(hand[1..], s)
  }

  /** currentGroup.filter(c => c.id !== id) */
  function RemoveId(cards: seq<Card>, id: nat): (r: seq<Card>)
    ensures forall c :: c in r <==> c in cards && c.id != id
    ensures DistinctCards(cards) ==> DistinctCards(r)
  {
    if cards == [] then []
    else
      var rest := RemoveId(cards[1..], id);
      if cards[0].id == id then rest
      else
        assert DistinctCards(cards) ==> forall c <- rest :: c.id != cards[0].id by {
          if DistinctCards(cards) {
            forall c <- rest ensures c.id != cards[0].id {
              var k :| 1 <= k < |cards| && cards[k] == c;
            }
          }
        }
        [cards[0]] + rest
  }

  /** toggleCard: drop every card with the card's id from the current
      group if there is one, else append the card. */
  function ToggleCard(s: Selection, card: Card): (r: Selection)
    ensures r.placedGroups == s.placedGroups && r.contractIndex == s.contractIndex
    ensures card.id in Ids(s.currentGroup) ==> Ids(r.currentGroup) == Ids(s.currentGroup) - {card.id}
    ensures card.id !in Ids(s.currentGroup) ==> Ids(r.currentGroup) == Ids(s.currentGroup) + {card.id}
  {
    if exists c <- s.currentGroup :: c.id == card.id then
      s.(currentGroup := RemoveId(s.currentGroup, card.id))
    else
      s.(currentGroup := s.currentGroup + [card])
  }

  /** Toggling a card that was not selected, and toggling it again,
      restores the selection exactly. */
  lemma ToggleTwice(s: Selection, card: Card)
    requires card.id !in Ids(s.currentGroup)
    ensures ToggleCard(ToggleCard(s, card), card) == s
  {
    var cur := s.currentGroup;
    assert card in cur + [card];
    RemoveAppended(cur, card);
  }

  lemma {:induction false} RemoveAppended(cards: seq<Card>, card: Card)
    requires card.id !in Ids(cards)
    ensures RemoveId(cards + [card], card.id) == cards
  {
    if cards != [] {
      assert (cards + [card])[1..] == cards[1..] + [card];
      assert cards[0] in cards;
      RemoveAppended(cards[1..], card);
    } else {
      assert ([] + [card])[1..] == [];
    }
  }

  /** isCurrentGroupValid: big enough for the requirement and passing the
      validator of its kind. */
  predicate Meets(q: Requirement, group: seq<Card>)
  {
    && |group| >= q.minCards
    && (if q.kind == Book then IsValidBook(group) else ClientRun(group))
  }

  /** confirmGroup: a group that meets the current requirement moves to
      the placed groups; on the last requirement all groups are emitted
      to onPlace, otherwise the index moves on. The second component is
      what onPlace receives. */
  function ConfirmGroup(s: Selection, required: seq<Requirement>): (r: (Selection, Option<seq<seq<Card>>>))
    requires s.contractIndex < |required|
    ensures !Meets(required[s.contractIndex], s.currentGroup) ==> r == (s, None)
    ensures Meets(required[s.contractIndex], s.currentGroup) ==>
      && r.0.placedGroups == s.placedGroups + [s.currentGroup] && r.0.currentGroup == []
      && (s.contractIndex == |required| - 1 <==> r.1.Some?)
      && (r.1.Some? ==> r.1.value == r.0.placedGroups && r.0.contractIndex == s.contractIndex)
      && (r.1.None? ==> r.0.contractIndex == s.contractIndex + 1)
  {
    if !Meets(required[s.contractIndex], s.currentGroup) then (s, None)
    else
      var placed := s.placedGroups + [s.currentGroup];
      if s.contractIndex == |required| - 1 then (Selection(placed, [], s.contractIndex), Some(placed))
      else (Selection(placed, [], s.contractIndex + 1), None)
  }

  /** goBack: the last placed group becomes the current group again. */
  function GoBack(s: Selection): (r: Selection)
    requires s.contractIndex > 0 ==> |s.placedGroups| > 0
    ensures s.contractIndex == 0 ==> r == s
    ensures s.contractIndex > 0 ==>
      && r.placedGroups + [r.currentGroup] == s.placedGroups
      && r.contractIndex == s.contractIndex - 1
  {
    if s.contractIndex > 0 then
      Selection(s.placedGroups[..|s.placedGroups| - 1], s.placedGroups[|s.placedGroups| - 1], s.contractIndex - 1)
    else s
  }

  /** goBack undoes a confirm that did not finish the contract. */
  lemma BackUndoesConfirm(s: Selection, required: seq<Requirement>)
    requires s.contractIndex < |required| - 1
    requires Meets(required[s.contractIndex], s.currentGroup)
    ensures ConfirmGroup(s, required).1 == None
    ensures GoBack(ConfirmGroup(s, required).0) == s
  {
    var t := ConfirmGroup(s, required).0;
    assert t.placedGroups[..|t.placedGroups| - 1] == s.placedGroups;
  }

  /** The state the player steps through: one placed group per passed
      requirement, each meeting its requirement. */
  ghost predicate InProgress(s: Selection, required: seq<Requirement>)
  {
    && s.contractIndex < |required|
    && |s.placedGroups| == s.contractIndex
    && forall i :: 0 <= i < |s.placedGroups| ==> Meets(required[i], s.placedGroups[i])
  }

  lemma InitialInProgress(required: seq<Requirement>)
    requires |required| > 0
    ensures InProgress(Initial, required)
  {
  }

  /** Toggling and going back keep the state in progress. */
  lemma ToggleKeeps(s: Selection, required: seq<Requirement>, card: Card)
    requires InProgress(s, required)
    ensures InProgress(ToggleCard(s, card), required)
  {
  }

  lemma BackKeeps(s: Selection, required: seq<Requirement>)
    requires InProgress(s, required)
    ensures InProgress(GoBack(s), required)
  {
    if s.contractIndex > 0 {
      var r := GoBack(s);
      assert forall i :: 0 <= i < |r.placedGroups| ==> r.placedGroups[i] == s.placedGroups[i];
    }
  }

  /** A confirm either stays in progress or emits one group per
      requirement, each meeting its requirement in order. */
  lemma ConfirmKeeps(s: Selection, required: seq<Requirement>)
    requires InProgress(s, required)
    ensures var (t, out) := ConfirmGroup(s, required);
      && (out.None? ==> InProgress(t, required))
      && (out.Some? ==>
            |out.value| == |required| && forall i :: 0 <= i < |required| ==> Meets(required[i], out.value[i]))
  {
    var (t, out) := ConfirmGroup(s, required);
    if Meets(required[s.contractIndex], s.currentGroup) {
      assert forall i :: 0 <= i < |s.placedGroups| ==> t.placedGroups[i] == s.placedGroups[i];
    }
  }

  // ---------------------------------------------------------------------
  // The cards the player picks

  predicate DistinctCards(cards: seq<Card>)
  {
    forall i, j :: 0 <= i < j < |cards| ==> cards[i].id != cards[j].id
  }

  /** Two lists together repeat no id iff neither does and they share none. */
  lemma DistinctConcat(a: seq<Card>, b: seq<Card>)
    ensures DistinctCards(a + b) <==> DistinctCards(a) && DistinctCards(b) && Ids(a) !! Ids(b)
  {
    var q := a + b;
    assert forall i :: 0 <= i < |a| ==> q[i] == a[i];
    assert forall i :: 0 <= i < |b| ==> q[|a| + i] == b[i];
    if DistinctCards(a) && DistinctCards(b) && Ids(a) !! Ids(b) {
      forall i, j | 0 <= i < j < |q| ensures q[i].id != q[j].id {
        if i < |a| && j >= |a| {
          assert q[i].id in Ids(a) && q[j] == b[j - |a|] && q[j].id in Ids(b);
        } else if i >= |a| {
          assert q[i] == b[i - |a|] && q[j] == b[j - |a|];
        }
      }
    }
    if DistinctCards(q) {
      forall x | x in Ids(a) ensures x !in Ids(b) {
        var c :| c in a && c.id == x;
        var i :| 0 <= i < |a| && a[i] == c;
      }
    }
  }

  /** Every picked card is in the hand and no id is picked twice. */
  ghost predicate PicksFromHand(s: Selection, hand: seq<Card>)
  {
    && (forall c <- Flatten(s.placedGroups) :: c in hand)
    && (forall c <- s.currentGroup :: c in hand)
    && DistinctCards(Flatten(s.placedGroups) + s.currentGroup)
  }

  /** toggleCard is only offered for a card of the hand that is not in a
      placed group (the `isPlaced` guard of the hand grid); under that
      guard the picks stay distinct cards of the hand. */
  lemma ToggleKeepsPicks(s: Selection, hand: seq<Card>, card: Card)
    requires PicksFromHand(s, hand)
    requires card in hand && card.id !in Ids(Flatten(s.placedGroups))
    ensures PicksFromHand(ToggleCard(s, card), hand)
  {
    var f := Flatten(s.placedGroups);
    var t := ToggleCard(s, card);
    DistinctConcat(f, s.currentGroup);
    if exists c <- s.currentGroup :: c.id == card.id {
      assert Ids(t.currentGroup) <= Ids(s.currentGroup);
    } else {
      DistinctConcat(s.currentGroup, [card]);
    }
    DistinctConcat(f, t.currentGroup);
  }

  /** Confirming and going back only move cards between the current group
      and the placed groups. */
  lemma ConfirmKeepsPicks(s: Selection, required: seq<Requirement>, hand: seq<Card>)
    requires s.contractIndex < |required| && PicksFromHand(s, hand)
    ensures PicksFromHand(ConfirmGroup(s, required).0, hand)
  {
    if Meets(required[s.contractIndex], s.currentGroup) {
      FlattenAppend(s.placedGroups, s.currentGroup);
      var t := ConfirmGroup(s, required).0;
      assert Flatten(t.placedGroups) + t.currentGroup == Flatten(s.placedGroups) + s.currentGroup;
    }
  }

  lemma BackKeepsPicks(s: Selection, hand: seq<Card>)
    requires s.contractIndex > 0 ==> |s.placedGroups| > 0
    requires PicksFromHand(s, hand)
    ensures PicksFromHand(GoBack(s), hand)
  {
    if s.contractIndex > 0 {
      var r := GoBack(s);
      FlattenAppend(r.placedGroups, r.currentGroup);
      DistinctConcat(Flatten(s.placedGroups), s.currentGroup);
    }
  }

  /** So the groups emitted to onPlace are distinct cards of the hand:
      the precondition under which the server's placeContract keeps every
      card accounted for. */
  lemma EmittedFromHand(s: Selection, required: seq<Requirement>, hand: seq<Card>)
    requires s.contractIndex < |required| && PicksFromHand(s, hand)
    requires ConfirmGroup(s, required).1.Some?
    ensures var out := Flatten(ConfirmGroup(s, required).1.value);
      && (forall c <- out :: c in hand)
      && DistinctCards(out)
  {
    ConfirmKeepsPicks(s, required, hand);
    var t := ConfirmGroup(s, required).0;
    assert Flatten(t.placedGroups) + t.currentGroup == Flatten(t.placedGroups);
  }
}
