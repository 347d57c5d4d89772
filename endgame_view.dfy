/**
 * What the sidebar shows of a player's final word during the endgame
 * (`StartedGameRoomSidebar` in client/src/StartedGameRoom.tsx). A committed word
 * is revealed in full. Before commit, other viewers see only the letters the
 * player took from outside their own hand, padded with blanks to the word length;
 * the player's own picks from their hand stay hidden.
 */
module EndgameView {
  import opened Wrappers
  import opened GameTypes

  /** A pick that does not come from the player's hand is already a letter with its source. */
  function SharedSource(choice: EndgameLetterChoice): (r: LetterAndSource)
    requires !choice.HandChoice?
    ensures !r.PlayerLetter? && r.letter == choice.letter
    ensures choice.WildcardChoice? ==> r == WildcardLetter(choice.letter)
    ensures choice.DummyChoice? ==> r == DummyLetter(choice.letter, choice.dummyNumber)
    ensures choice.BonusChoice? ==> r == BonusLetter(choice.letter)
  {
    match choice
    case WildcardChoice(l) => WildcardLetter(l)
    case DummyChoice(l, d) => DummyLetter(l, d)
    case BonusChoice(l) => BonusLetter(l)
  }

  /**
   * `convert`: a pick from the hand becomes the hand's actual letter at that
   * position, attributed to the hand's owner; any other pick is kept as it is.
   */
  function RevealChoice(choice: EndgameLetterChoice, letters: seq<Letter>, playerNumber: PlayerNumber): (r: LetterAndSource)
    requires choice.HandChoice? ==> choice.index < |letters|
    ensures choice.HandChoice? <==> r.PlayerLetter?
    ensures choice.HandChoice? ==> r.letter == letters[choice.index] && r.playerNumber == playerNumber
    ensures !choice.HandChoice? ==> r == SharedSource(choice)
  {
    if choice.HandChoice? then PlayerLetter(letters[choice.index], playerNumber) else SharedSource(choice)
  }

  /** Every pick from the hand names one of its positions. */
  predicate HandChoicesInRange(guess: seq<EndgameLetterChoice>, letters: seq<Letter>) {
    forall i :: 0 <= i < |guess| ==> guess[i].HandChoice? ==> guess[i].index < |letters|
  }

  /** A committed word, every pick converted, as cards that are all shown. */
  function RevealedWord(guess: seq<EndgameLetterChoice>, letters: seq<Letter>, playerNumber: PlayerNumber): (r: seq<Option<LetterAndSource>>)
    requires HandChoicesInRange(guess, letters)
  {
    seq(|guess|, i requires 0 <= i < |guess| => Some(RevealChoice(guess[i], letters, playerNumber)))
  }

  /** The picks that do not come from the player's own hand, in the order they were made. */
  function SharedChoices(guess: seq<EndgameLetterChoice>): (r: seq<EndgameLetterChoice>)
    ensures |r| <= |guess|
    ensures forall i :: 0 <= i < |r| ==> !r[i].HandChoice? && r[i] in guess
    ensures forall i :: 0 <= i < |guess| && !guess[i].HandChoice? ==> guess[i] in r
  {
    if guess == [] then []
    else (if guess[0].HandChoice? then [] else [guess[0]]) + SharedChoices(guess[1..])
  }

  /** Shared picks shown as cards. */
  function SharedCards(guess: seq<EndgameLetterChoice>): (r: seq<Option<LetterAndSource>>)
    ensures |r| == |SharedChoices(guess)|
  {
    var shared := SharedChoices(guess);
    seq(|shared|, i requires 0 <= i < |shared| => Some(SharedSource(shared[i])))
  }

  /** `cards` followed by blank cards up to `wordLength`. */
  function PadToLength(cards: seq<Option<LetterAndSource>>, wordLength: nat): seq<Option<LetterAndSource>> {
    cards + seq(if |cards| < wordLength then wordLength - |cards| else 0, _ => None)
  }

  /**
   * The cards that replace a player's hand in the sidebar, or None when the hand
   * is drawn as usual: the player's own view of their uncommitted word.
   */
  method SidebarOverride(guess: seq<EndgameLetterChoice>, committed: bool, isForViewingPlayer: bool,
                         letters: seq<Letter>, playerNumber: PlayerNumber, wordLength: nat)
    returns (override: Option<seq<Option<LetterAndSource>>>)
    requires committed ==> HandChoicesInRange(guess, letters)
    ensures committed ==> override == Some(RevealedWord(guess, letters, playerNumber))
    ensures !committed && isForViewingPlayer ==> override == None
    ensures !committed && !isForViewingPlayer ==> override == Some(PadToLength(SharedCards(guess), wordLength))
  {
    if committed {
      override := Some(RevealedWord(guess, letters, playerNumber));
    } else if !isForViewingPlayer {
      var cards := SharedCards(guess);
      ghost var shown := cards;
      while |cards| < wordLength
        invariant |shown| <= |cards|
        invariant |cards| == |shown| || |cards| <= wordLength
        invariant cards == shown + seq(|cards| - |shown|, _ => None)
        decreases wordLength - |cards|
      {
        cards := cards + [None];
      }
      assert cards == PadToLength(shown, wordLength);
      override := Some(cards);
    } else {
      override := None;
    }
  }

  /**
   * Before commit, other viewers get at least `wordLength` cards: the shared
   * picks in order, then blanks, and never a letter from the player's own hand.
   */
  lemma UncommittedViewHidesOwnHand(guess: seq<EndgameLetterChoice>, wordLength: nat)
    ensures var view := PadToLength(SharedCards(guess), wordLength);
      && |view| == (if |SharedChoices(guess)| < wordLength then wordLength else |SharedChoices(guess)|)
      && (forall i :: 0 <= i < |SharedChoices(guess)| ==> view[i] == Some(SharedSource(SharedChoices(guess)[i])))
      && (forall i :: |SharedChoices(guess)| <= i < |view| ==> view[i] == None)
      && (forall i :: 0 <= i < |view| && view[i].Some? ==> !view[i].value.PlayerLetter?)
  {
  }

  /** A committed word is revealed whole: one card per pick, each pick's letter and source. */
  lemma CommittedViewRevealsAll(guess: seq<EndgameLetterChoice>, letters: seq<Letter>, playerNumber: PlayerNumber)
    requires HandChoicesInRange(guess, letters)
    ensures var view := RevealedWord(guess, letters, playerNumber);
      && |view| == |guess|
      && forall i :: 0 <= i < |guess| ==> view[i].Some? && view[i].value.letter == (if guess[i].HandChoice? then letters[guess[i].index] else guess[i].letter)
  {
  }

  /** Filtering the picks distributes over joining two runs of picks. */
  lemma {:induction false} SharedChoicesAppend(a: seq<EndgameLetterChoice>, b: seq<EndgameLetterChoice>)
    ensures SharedChoices(a + b) == SharedChoices(a) + SharedChoices(b)
    decreases |a|
  {
    if a == [] {
      assert a + b == b;
    } else {
      assert (a + b)[0] == a[0];
      assert (a + b)[1..] == a[1..] + b;
      SharedChoicesAppend(a[1..], b);
    }
  }

  /** Picking from the own hand changes nothing other viewers see; picking anything else shows one more card. */
  lemma AppendedPickVisibility(guess: seq<EndgameLetterChoice>, choice: EndgameLetterChoice)
    ensures choice.HandChoice? ==> SharedChoices(guess + [choice]) == SharedChoices(guess)
    ensures !choice.HandChoice? ==> SharedChoices(guess + [choice]) == SharedChoices(guess) + [choice]
  {
    SharedChoicesAppend(guess, [choice]);
  }
}
