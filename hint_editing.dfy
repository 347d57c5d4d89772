/**
 * Composing a hint letter by letter (client/src/StartedGameRoom.tsx): adding a
 * letter, taking one out, and the gate that lets a staged hint be submitted.
 * A hint being composed is `Option<Hint>`; the composer never holds an empty
 * hint, because taking out the last letter gives no hint at all.
 */
module HintEditing {
  import opened Wrappers
  import opened GameTypes
  import opened ArrayOps

  /** The letters of a hint being composed; no hint has none. */
  function Letters(hint: Option<Hint>): seq<LetterAndSource> {
    if hint.Some? then hint.value.lettersAndSources else []
  }

  /** Empty and absent are the same state: a present hint has at least one letter. */
  predicate WellFormed(hint: Option<Hint>) {
    hint.Some? ==> |hint.value.lettersAndSources| > 0
  }

  /**
   * Appends a letter to the hint; with no hint yet, starts one given by `playerNumber`.
   */
  function AddLetterAndSourceToHint(hint: Option<Hint>, letterAndSource: LetterAndSource, playerNumber: PlayerNumber): (r: Hint)
    ensures r.givenByPlayer == if hint.Some? then hint.value.givenByPlayer else playerNumber
    ensures |r.lettersAndSources| == |Letters(hint)| + 1
    ensures r.lettersAndSources[..|Letters(hint)|] == Letters(hint)
    ensures r.lettersAndSources[|Letters(hint)|] == letterAndSource
  {
    if hint.None? then
      Hint(playerNumber, [letterAndSource])
    else
      Hint(hint.value.givenByPlayer, hint.value.lettersAndSources + [letterAndSource])
  }

  /**
   * Takes out the letter at index `i`. A one-letter hint becomes no hint,
   * whatever the index; otherwise the proposer stays and the letters are spliced.
   */
  function RemoveLetterFromHintByIndex(hint: Hint, i: nat): (r: Option<Hint>)
    ensures r.None? <==> |hint.lettersAndSources| == 1
    ensures r.Some? ==> r.value.givenByPlayer == hint.givenByPlayer
    ensures r.Some? ==> r.value.lettersAndSources == Splice(hint.lettersAndSources, i)
  {
    if |hint.lettersAndSources| == 1 then
      None
    else
      Some(Hint(hint.givenByPlayer, Splice(hint.lettersAndSources, i)))
  }

  /** Adding a letter and then taking that same letter out gives back the hint it started from. */
  lemma AddThenRemoveRestores(hint: Option<Hint>, letterAndSource: LetterAndSource, playerNumber: PlayerNumber)
    requires WellFormed(hint)
    ensures RemoveLetterFromHintByIndex(AddLetterAndSourceToHint(hint, letterAndSource, playerNumber), |Letters(hint)|) == hint
  {
    if hint.Some? {
      SpliceAppended(hint.value.lettersAndSources, letterAndSource);
    }
  }

  /** Both edits keep the composer's hint well formed. */
  lemma EditsKeepWellFormed(hint: Hint, letterAndSource: LetterAndSource, playerNumber: PlayerNumber, i: nat)
    requires WellFormed(Some(hint))
    ensures WellFormed(Some(AddLetterAndSourceToHint(Some(hint), letterAndSource, playerNumber)))
    ensures WellFormed(RemoveLetterFromHintByIndex(hint, i))
  {
  }

  /** One click in the composer: use an available letter, or take out a letter of the staged hint. */
  datatype Edit = AddLetter(letterAndSource: LetterAndSource) | RemoveAt(index: nat)

  /** The reference meaning of an edit on a plain list of letters, where empty is just empty. */
  function ListEdit(letters: seq<LetterAndSource>, edit: Edit): seq<LetterAndSource>
    requires edit.RemoveAt? ==> edit.index < |letters|
  {
    match edit
    case AddLetter(ls) => letters + [ls]
    case RemoveAt(i) => letters[..i] + letters[i + 1..]
  }

  /** Every removal in `edits` names a letter that is there at that point. */
  predicate InRange(letters: seq<LetterAndSource>, edits: seq<Edit>)
    decreases |edits|
  {
    edits == [] ||
    ((edits[0].RemoveAt? ==> edits[0].index < |letters|) && InRange(ListEdit(letters, edits[0]), edits[1..]))
  }

  function ListEdits(letters: seq<LetterAndSource>, edits: seq<Edit>): seq<LetterAndSource>
    requires InRange(letters, edits)
    decreases |edits|
  {
    if edits == [] then letters else ListEdits(ListEdit(letters, edits[0]), edits[1..])
  }

  /** One click applied to the staged hint, as the composer applies it. */
  function ApplyEdit(hint: Option<Hint>, playerNumber: PlayerNumber, edit: Edit): (r: Option<Hint>)
    requires edit.RemoveAt? ==> edit.index < |Letters(hint)|
    ensures Letters(r) == ListEdit(Letters(hint), edit)
  {
    match edit
    case AddLetter(ls) => Some(AddLetterAndSourceToHint(hint, ls, playerNumber))
    case RemoveAt(i) => RemoveLetterFromHintByIndex(hint.value, i)
  }

  function ApplyEdits(hint: Option<Hint>, playerNumber: PlayerNumber, edits: seq<Edit>): Option<Hint>
    requires InRange(Letters(hint), edits)
    decreases |edits|
  {
    if edits == [] then hint else ApplyEdits(ApplyEdit(hint, playerNumber, edits[0]), playerNumber, edits[1..])
  }

  /**
   * Any run of edits on a hint of this player's leaves exactly the letters the
   * plain list edits leave, in insertion order minus the removed ones; the hint
   * stays well formed and this player's, and it is absent exactly when no letter is left.
   */
  lemma {:induction false} EditsFollowListEdits(hint: Option<Hint>, playerNumber: PlayerNumber, edits: seq<Edit>)
    requires WellFormed(hint)
    requires hint.Some? ==> hint.value.givenByPlayer == playerNumber
    requires InRange(Letters(hint), edits)
    ensures Letters(ApplyEdits(hint, playerNumber, edits)) == ListEdits(Letters(hint), edits)
    ensures WellFormed(ApplyEdits(hint, playerNumber, edits))
    ensures ApplyEdits(hint, playerNumber, edits).None? <==> ListEdits(Letters(hint), edits) == []
    ensures ApplyEdits(hint, playerNumber, edits).Some? ==> ApplyEdits(hint, playerNumber, edits).value.givenByPlayer == playerNumber
    decreases |edits|
  {
    if edits != [] {
      var next := ApplyEdit(hint, playerNumber, edits[0]);
      assert WellFormed(next);
      EditsFollowListEdits(next, playerNumber, edits[1..]);
    }
  }

  /**
   * The submission gate: a staged hint exists, it is structurally equal to the
   * player's last broadcast proposal, and no new proposal is in flight.
   */
  predicate CanSubmitHint(stagedHint: Option<Hint>, proposedHint: Option<Hint>, nextProposedHint: Option<Hint>) {
    stagedHint.Some? && stagedHint == proposedHint && nextProposedHint.None?
  }

  /** Any edit of a submittable staged hint makes it unsubmittable until it is proposed again. */
  lemma EditBlocksSubmission(stagedHint: Option<Hint>, proposedHint: Option<Hint>, playerNumber: PlayerNumber, edit: Edit)
    requires CanSubmitHint(stagedHint, proposedHint, None)
    requires edit.RemoveAt? ==> edit.index < |Letters(stagedHint)|
    ensures !CanSubmitHint(ApplyEdit(stagedHint, playerNumber, edit), proposedHint, None)
  {
    var after := ApplyEdit(stagedHint, playerNumber, edit);
    assert |Letters(after)| != |Letters(stagedHint)|;
  }
}
