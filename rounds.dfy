/** The round table ROUND_CONFIGS (shared/src/types.ts) and the contract rule
    placeContract checks against it (server/src/gameManager.ts). */
module Rounds {
  import opened Types
  import opened Melds

  const ROUNDS: nat := 7

  /** The summed count of the contracts of one kind:
      a filter on the type followed by a sum of the counts. */
  function RequiredCount(contracts: seq<Contract>, kind: ContractType): (n: int)
    ensures (forall c <- contracts :: c.count >= 0) ==> n >= 0
    ensures (forall c <- contracts :: c.kind != kind) ==> n == 0
  {
    if contracts == [] then 0
    else (if contracts[0].kind == kind then contracts[0].count else 0) + RequiredCount(contracts[1..], kind)
  }

  /** Whether `books` books and `runs` runs satisfy the contract of a round.
      Round 7 ignores its (empty) contract list and asks for exactly four
      books or exactly three runs, as the dealer chose; with no choice made
      nothing is accepted. */
  predicate ContractMet(round: int, config: RoundConfig, choice: Option<DealersChoice>, books: int, runs: int)
  {
    if round == 7 then
      || (choice == Some(Books) && books == 4 && runs == 0)
      || (choice == Some(Runs) && runs == 3 && books == 0)
    else
      books == RequiredCount(config.contracts, Book) && runs == RequiredCount(config.contracts, Run)
  }

  /** The table has seven rounds; round i+1 deals i+6 cards. */
  lemma TableShape()
    ensures |ROUND_CONFIGS| == ROUNDS
    ensures forall i :: 0 <= i < ROUNDS ==>
      ROUND_CONFIGS[i].roundNumber == i + 1 && ROUND_CONFIGS[i].cardsDealt == i + 6
  {
  }

  /** The (books, runs) that rounds 1 to 6 ask for, and the empty list of round 7. */
  lemma TableRequirements()
    ensures RequiredCount(ROUND_CONFIGS[0].contracts, Book) == 2 && RequiredCount(ROUND_CONFIGS[0].contracts, Run) == 0
    ensures RequiredCount(ROUND_CONFIGS[1].contracts, Book) == 1 && RequiredCount(ROUND_CONFIGS[1].contracts, Run) == 1
    ensures RequiredCount(ROUND_CONFIGS[2].contracts, Book) == 0 && RequiredCount(ROUND_CONFIGS[2].contracts, Run) == 2
    ensures RequiredCount(ROUND_CONFIGS[3].contracts, Book) == 3 && RequiredCount(ROUND_CONFIGS[3].contracts, Run) == 0
    ensures RequiredCount(ROUND_CONFIGS[4].contracts, Book) == 2 && RequiredCount(ROUND_CONFIGS[4].contracts, Run) == 1
    ensures RequiredCount(ROUND_CONFIGS[5].contracts, Book) == 1 && RequiredCount(ROUND_CONFIGS[5].contracts, Run) == 2
    ensures ROUND_CONFIGS[6].contracts == []
  {
    assert ROUND_CONFIGS[1].contracts[1..] == [Contract(Run, 1)];
    assert ROUND_CONFIGS[4].contracts[1..] == [Contract(Run, 1)];
    assert ROUND_CONFIGS[5].contracts[1..] == [Contract(Book, 1)];
  }

  /** Every contract the rule accepts has exactly cardsDealt cards when each
      book has its minimum of three and each run its minimum of four, so the
      smallest legal contract of every round uses the whole dealt hand. */
  lemma {:induction false} ContractMinimum(round: int, choice: Option<DealersChoice>, books: int, runs: int)
    requires 1 <= round <= ROUNDS
    requires ContractMet(round, ROUND_CONFIGS[round - 1], choice, books, runs)
    ensures MIN_BOOK_CARDS * books + MIN_RUN_CARDS * runs == ROUND_CONFIGS[round - 1].cardsDealt
  {
    TableShape();
    if round < 7 {
      TableRequirements();
      if round == 1 {
      } else if round == 2 {
      } else if round == 3 {
      } else if round == 4 {
      } else if round == 5 {
      } else {
        assert round == 6;
      }
    }
  }

  /** In round 7 no contract is accepted before the dealer has chosen. */
  lemma NoChoiceNoContract(config: RoundConfig, books: int, runs: int)
    ensures !ContractMet(7, config, None, books, runs)
  {
  }

  /** In rounds 1 to 6 the contract fixes the counts: one (books, runs) pair is accepted. */
  lemma ContractDeterminesCounts(round: int, config: RoundConfig, choice: Option<DealersChoice>, b1: int, r1: int, b2: int, r2: int)
    requires round != 7
    requires ContractMet(round, config, choice, b1, r1) && ContractMet(round, config, choice, b2, r2)
    ensures b1 == b2 && r1 == r2
  {
  }

  lemma MulBound(n: nat, c: nat, nMax: nat, cMax: nat)
    requires n <= nMax && c <= cMax
    ensures n * c <= nMax * cMax
  {
    assert n * c <= nMax * c;
  }

  /** With at most six players the deal and the flipped card take at most 73
      of the 108 cards, so startRound always finds a card to flip. */
  lemma {:induction false} DealFits(round: int, n: nat)
    requires 1 <= round <= ROUNDS && n <= 6
    ensures n * ROUND_CONFIGS[round - 1].cardsDealt + 1 <= 73 < 108
  {
    TableShape();
    MulBound(n, ROUND_CONFIGS[round - 1].cardsDealt, 6, 12);
  }
}
