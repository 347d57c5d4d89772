/**
 * The client's game vocabulary: where a letter comes from, hints, hands and dummies.
 */
module GameTypes {

  /** A card's letter: an upper-case letter, or '*' for the wildcard. */
  type Letter = char

  /** Players are numbered from 1 in seating order. */
  type PlayerNumber = nat

  /** A letter together with where it came from: a closed union over the four sources. */
  datatype LetterAndSource =
    | PlayerLetter(letter: Letter, playerNumber: PlayerNumber)
    | WildcardLetter(letter: Letter)
    | DummyLetter(letter: Letter, dummyNumber: nat)
    | BonusLetter(letter: Letter)

  /** A hint: who gives it and its letters, in clue order. */
  datatype Hint = Hint(givenByPlayer: PlayerNumber, lettersAndSources: seq<LetterAndSource>)

  /** A hand: the player's letters and the index of the card currently in play. */
  datatype Hand = Hand(letters: seq<Letter>, activeIndex: nat)

  /** A dummy pile: its face-up letter and its countdown to a free hint. */
  datatype Dummy = Dummy(currentLetter: Letter, untilFreeHint: int)

  /**
   * A letter picked for a final word. A pick from the player's own hand is
   * recorded as a position in that hand; the other sources carry their letter.
   */
  datatype EndgameLetterChoice =
    | HandChoice(index: nat)
    | WildcardChoice(letter: Letter)
    | DummyChoice(letter: Letter, dummyNumber: nat)
    | BonusChoice(letter: Letter)
}
