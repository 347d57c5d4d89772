/**
 * Building the final word in the endgame (`GuessWordComponent` in
 * client/src/StartedGameRoom.tsx): picking an available letter, taking a pick
 * out, and the gate on committing the word.
 */
module FinalGuess {
  import opened Wrappers
  import opened GameTypes
  import opened ArrayOps
  import opened EndgameView

  type Guess = seq<EndgameLetterChoice>

  /** The word being edited: the pending edit while one is in flight, else the confirmed word. */
  function CurrentGuess(settingGuess: Option<Guess>, confirmed: Guess): (r: Guess)
    ensures settingGuess.Some? ==> r == settingGuess.value
    ensures settingGuess.None? ==> r == confirmed
  {
    settingGuess.GetOr(confirmed)
  }

  /**
   * How the composer draws a pick: a pick from the own hand shows the player's
   * own guess for that position, or '?' when there is none, never the hidden letter.
   */
  function ComposerCard(choice: EndgameLetterChoice, handGuesses: seq<Option<Letter>>, playerNumber: PlayerNumber): (r: LetterAndSource)
    ensures choice.HandChoice? <==> r.PlayerLetter?
    ensures choice.HandChoice? ==> r.playerNumber == playerNumber
    ensures choice.HandChoice? && choice.index < |handGuesses| && handGuesses[choice.index].Some?
      ==> r.letter == handGuesses[choice.index].value
    ensures choice.HandChoice? && (choice.index >= |handGuesses| || handGuesses[choice.index].None?) ==> r.letter == '?'
    ensures !choice.HandChoice? ==> r == SharedSource(choice)
  {
    if choice.HandChoice? then
      PlayerLetter(if choice.index < |handGuesses| then handGuesses[choice.index].GetOr('?') else '?', playerNumber)
    else
      SharedSource(choice)
  }

  /** Clicking the `i`-th available letter appends it to the word. */
  function AddToGuess(guess: Guess, available: seq<EndgameLetterChoice>, i: nat): (r: Guess)
    requires i < |available|
    ensures |r| == |guess| + 1 && r[..|guess|] == guess && r[|guess|] == available[i]
  {
    guess + [available[i]]
  }

  /** Clicking the `i`-th letter of the word takes it out. */
  function RemoveLetterFromGuess(guess: Guess, i: nat): (r: Guess)
    ensures i < |guess| ==> |r| == |guess| - 1
    ensures i < |guess| ==> forall k :: 0 <= k < |r| ==> r[k] == guess[if k < i then k else k + 1]
    ensures i >= |guess| ==> r == guess
  {
    Splice(guess, i)
  }

  /** The word can be committed when no edit is in flight and it has at least `wordLength` letters. */
  predicate CanSubmitGuess(settingGuess: Option<Guess>, guess: Guess, wordLength: nat) {
    settingGuess.None? && |guess| >= wordLength
  }

  /**
   * The gate looks at the confirmed word: while an edit is in flight nothing can
   * be committed, and otherwise the confirmed word must reach the word length.
   */
  lemma GateSeesConfirmed(settingGuess: Option<Guess>, confirmed: Guess, wordLength: nat)
    ensures CanSubmitGuess(settingGuess, CurrentGuess(settingGuess, confirmed), wordLength)
      <==> settingGuess.None? && |confirmed| >= wordLength
  {
  }

  /** Taking out the pick just made gives back the word as it was. */
  lemma AddThenRemoveRestores(guess: Guess, available: seq<EndgameLetterChoice>, i: nat)
    requires i < |available|
    ensures RemoveLetterFromGuess(AddToGuess(guess, available, i), |guess|) == guess
  {
    SpliceAppended(guess, available[i]);
  }

  /**
   * The length policy for a four-letter word: three letters are refused, four
   * are accepted, and so are five (the gate is "at least", not "exactly").
   */
  lemma SubmitLengthPolicyExample(a: EndgameLetterChoice)
    ensures !CanSubmitGuess(None, [a, a, a], 4)
    ensures CanSubmitGuess(None, [a, a, a, a], 4)
    ensures CanSubmitGuess(None, [a, a, a, a, a], 4)
    ensures !CanSubmitGuess(Some([a, a, a, a]), [a, a, a, a], 4)
  {
  }

  /** A committable word stays committable as picks are added, and an edit in flight blocks commit. */
  lemma SubmitGateMonotone(guess: Guess, available: seq<EndgameLetterChoice>, i: nat, wordLength: nat)
    requires i < |available|
    ensures CanSubmitGuess(None, guess, wordLength) ==> CanSubmitGuess(None, AddToGuess(guess, available, i), wordLength)
    ensures forall pending :: !CanSubmitGuess(Some(pending), guess, wordLength)
  {
  }
}
