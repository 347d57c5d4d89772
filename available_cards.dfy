/**
 * The letters a player may build a hint from (`AvailableCards` in
 * client/src/StartedGameRoom.tsx): the card in play of every other player in
 * seating order, then the wildcard, then every dummy numbered from 1, then
 * every bonus letter.
 */
module AvailableCards {
  import opened GameTypes

  /** Every hand's active index points at one of its letters. */
  predicate ActiveCardsInHand(hands: seq<Hand>) {
    forall i :: 0 <= i < |hands| ==> hands[i].activeIndex < |hands[i].letters|
  }

  /** The card a hand has in play. */
  function ActiveCard(hand: Hand): Letter
    requires hand.activeIndex < |hand.letters|
  {
    hand.letters[hand.activeIndex]
  }

  /** The cards in play of the seated players other than `playerNumber`, in seating order. */
  function OtherPlayersCards(hands: seq<Hand>, playerNumber: PlayerNumber): seq<LetterAndSource>
    requires ActiveCardsInHand(hands)
  {
    if hands == [] then
      []
    else
      var last := |hands|;
      OtherPlayersCards(hands[..last - 1], playerNumber)
        + if last != playerNumber then [PlayerLetter(ActiveCard(hands[last - 1]), last)] else []
  }

  function DummyCards(dummies: seq<Dummy>): seq<LetterAndSource> {
    seq(|dummies|, i requires 0 <= i < |dummies| => DummyLetter(dummies[i].currentLetter, i + 1))
  }

  function BonusCards(bonuses: seq<Letter>): seq<LetterAndSource> {
    seq(|bonuses|, i requires 0 <= i < |bonuses| => BonusLetter(bonuses[i]))
  }

  /** The available letters, source by source. */
  function AvailableCardsOf(hands: seq<Hand>, dummies: seq<Dummy>, bonuses: seq<Letter>, playerNumber: PlayerNumber): seq<LetterAndSource>
    requires ActiveCardsInHand(hands)
  {
    OtherPlayersCards(hands, playerNumber) + [WildcardLetter('*')] + DummyCards(dummies) + BonusCards(bonuses)
  }

  /** Builds the list the way the component does, pushing source by source. */
  method AvailableCards(hands: seq<Hand>, dummies: seq<Dummy>, bonuses: seq<Letter>, playerNumber: PlayerNumber)
    returns (lettersAndSources: seq<LetterAndSource>)
    requires ActiveCardsInHand(hands)
    ensures lettersAndSources == AvailableCardsOf(hands, dummies, bonuses, playerNumber)
  {
    lettersAndSources := [];
    var i := 0;
    while i < |hands|
      invariant 0 <= i <= |hands|
      invariant lettersAndSources == OtherPlayersCards(hands[..i], playerNumber)
    {
      assert hands[..i + 1][..i] == hands[..i];
      if i + 1 != playerNumber {
        lettersAndSources := lettersAndSources + [PlayerLetter(hands[i].letters[hands[i].activeIndex], i + 1)];
      }
      i := i + 1;
    }
    assert hands[..|hands|] == hands;

    lettersAndSources := lettersAndSources + [WildcardLetter('*')];
    ghost var fixedPart := lettersAndSources;

    var d := 0;
    while d < |dummies|
      invariant 0 <= d <= |dummies|
      invariant lettersAndSources == fixedPart + DummyCards(dummies[..d])
    {
      assert DummyCards(dummies[..d + 1]) == DummyCards(dummies[..d]) + [DummyLetter(dummies[d].currentLetter, d + 1)];
      lettersAndSources := lettersAndSources + [DummyLetter(dummies[d].currentLetter, d + 1)];
      d := d + 1;
    }
    assert dummies[..|dummies|] == dummies;
    fixedPart := lettersAndSources;

    var b := 0;
    while b < |bonuses|
      invariant 0 <= b <= |bonuses|
      invariant lettersAndSources == fixedPart + BonusCards(bonuses[..b])
    {
      assert BonusCards(bonuses[..b + 1]) == BonusCards(bonuses[..b]) + [BonusLetter(bonuses[b])];
      lettersAndSources := lettersAndSources + [BonusLetter(bonuses[b])];
      b := b + 1;
    }
    assert bonuses[..|bonuses|] == bonuses;
  }

  /** Whether `playerNumber` is one of the seated players. */
  predicate Seated(hands: seq<Hand>, playerNumber: PlayerNumber) {
    1 <= playerNumber <= |hands|
  }

  /** The seat (0-based) whose card is the `k`-th of the other players' cards: the requester's seat is skipped. */
  function SeatOfKth(hands: seq<Hand>, playerNumber: PlayerNumber, k: nat): nat {
    if Seated(hands, playerNumber) && k >= playerNumber - 1 then k + 1 else k
  }

  /**
   * One card per other player: a seated requester gets |hands| - 1 cards, none
   * of them their own, and the k-th is the card in play of the k-th other seat.
   */
  lemma {:induction false} OtherPlayersCardsShape(hands: seq<Hand>, playerNumber: PlayerNumber)
    requires ActiveCardsInHand(hands)
    ensures |OtherPlayersCards(hands, playerNumber)| == if Seated(hands, playerNumber) then |hands| - 1 else |hands|
    ensures forall k :: 0 <= k < |OtherPlayersCards(hands, playerNumber)| ==>
      SeatOfKth(hands, playerNumber, k) < |hands| &&
      OtherPlayersCards(hands, playerNumber)[k]
        == PlayerLetter(ActiveCard(hands[SeatOfKth(hands, playerNumber, k)]), SeatOfKth(hands, playerNumber, k) + 1)
    ensures forall k :: 0 <= k < |OtherPlayersCards(hands, playerNumber)| ==>
      OtherPlayersCards(hands, playerNumber)[k].PlayerLetter? && OtherPlayersCards(hands, playerNumber)[k].playerNumber != playerNumber
    decreases |hands|
  {
    if hands != [] {
      var n := |hands|;
      var before := hands[..n - 1];
      OtherPlayersCardsShape(before, playerNumber);
      var prev := OtherPlayersCards(before, playerNumber);
      var all := OtherPlayersCards(hands, playerNumber);
      forall k | 0 <= k < |all|
        ensures SeatOfKth(hands, playerNumber, k) < |hands|
        ensures all[k] == PlayerLetter(ActiveCard(hands[SeatOfKth(hands, playerNumber, k)]), SeatOfKth(hands, playerNumber, k) + 1)
        ensures all[k].PlayerLetter? && all[k].playerNumber != playerNumber
      {
        if k < |prev| {
          assert all[k] == prev[k];
          assert SeatOfKth(before, playerNumber, k) == SeatOfKth(hands, playerNumber, k);
        }
      }
    }
  }

  /**
   * The whole list: (players - 1) other players' cards, the wildcard '*', the
   * dummies numbered from 1, then the bonus letters, in that order.
   */
  lemma AvailableCardsShape(hands: seq<Hand>, dummies: seq<Dummy>, bonuses: seq<Letter>, playerNumber: PlayerNumber)
    requires ActiveCardsInHand(hands)
    requires Seated(hands, playerNumber)
    ensures var cards := AvailableCardsOf(hands, dummies, bonuses, playerNumber);
      && |cards| == (|hands| - 1) + 1 + |dummies| + |bonuses|
      && (forall k :: 0 <= k < |hands| - 1 ==> cards[k].PlayerLetter? && cards[k].playerNumber != playerNumber)
      && cards[|hands| - 1] == WildcardLetter('*')
      && (forall i :: 0 <= i < |dummies| ==> cards[|hands| + i] == DummyLetter(dummies[i].currentLetter, i + 1))
      && (forall i :: 0 <= i < |bonuses| ==> cards[|hands| + |dummies| + i] == BonusLetter(bonuses[i]))
  {
    OtherPlayersCardsShape(hands, playerNumber);
  }
}
