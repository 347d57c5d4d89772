/**
 * The hint composer's local state (`HintComposer` in
 * client/src/StartedGameRoom.tsx): the hint the player is staging, edited by
 * clicks, cleared, and handed to the server on submit. The proposal and submit
 * requests themselves go through the game hooks, which are not part of this
 * model; their state arrives here as arguments.
 */
module HintComposing {
  import opened Wrappers
  import opened GameTypes
  import opened HintEditing

  class HintComposer {
    /** The composing player. */
    const playerNumber: PlayerNumber
    /** The staged hint; None when nothing is staged. */
    var stagedHint: Option<Hint>

    /** The composer never holds an empty hint, and what it holds is this player's. */
    ghost predicate Valid()
      reads this
    {
      WellFormed(stagedHint) && (stagedHint.Some? ==> stagedHint.value.givenByPlayer == playerNumber)
    }

    /** Starts from the player's last broadcast proposal, if any. */
    constructor (playerNumber: PlayerNumber, proposedHint: Option<Hint>)
      ensures this.playerNumber == playerNumber && stagedHint == proposedHint
      ensures WellFormed(proposedHint) && (proposedHint.Some? ==> proposedHint.value.givenByPlayer == playerNumber) ==> Valid()
    {
      this.playerNumber := playerNumber;
      stagedHint := proposedHint;
    }

    /** Whether the staged hint may be submitted now. */
    predicate CanSubmit(proposedHint: Option<Hint>, nextProposedHint: Option<Hint>)
      reads this
    {
      CanSubmitHint(stagedHint, proposedHint, nextProposedHint)
    }

    /** Clicking an available letter appends it to the staged hint. */
    method AddToStagedHint(letterAndSource: LetterAndSource)
      requires Valid()
      modifies this
      ensures Valid()
      ensures stagedHint == Some(AddLetterAndSourceToHint(old(stagedHint), letterAndSource, playerNumber))
      ensures Letters(stagedHint) == old(Letters(stagedHint)) + [letterAndSource]
    {
      stagedHint := Some(AddLetterAndSourceToHint(stagedHint, letterAndSource, playerNumber));
    }

    /** Clicking the `i`-th letter of the staged hint takes it out. */
    method RemoveLetterFromHint(i: nat)
      requires Valid()
      requires stagedHint.Some?
      modifies this
      ensures Valid()
      ensures stagedHint == RemoveLetterFromHintByIndex(old(stagedHint).value, i)
      ensures stagedHint.None? <==> |old(Letters(stagedHint))| == 1
    {
      stagedHint := RemoveLetterFromHintByIndex(stagedHint.value, i);
    }

    /** The Clear button discards the staged hint locally. */
    method Clear()
      modifies this
      ensures Valid()
      ensures stagedHint == None
    {
      stagedHint := None;
    }

    /**
     * The Propose button: broadcasts the staged hint, when there is one and the
     * proposal request is available. Returns the hint sent; nothing local changes.
     * The staged hint matches what was sent, so whether it becomes submittable
     * rests only on the server echoing the proposal back with nothing further
     * in flight; the server side is not part of this model.
     */
    method Propose(proposeAvailable: bool) returns (proposal: Option<Hint>)
      ensures proposal.Some? <==> stagedHint.Some? && proposeAvailable
      ensures proposal.Some? ==> proposal == stagedHint
      ensures proposal.Some? ==> CanSubmitHint(stagedHint, proposal, None)
    {
      if stagedHint.Some? && proposeAvailable {
        proposal := stagedHint;
      } else {
        proposal := None;
      }
    }

    /**
     * Submits the staged hint when the gate is open and the submit request is
     * available, and then clears it. Returns the hint handed to the server.
     */
    method Submit(proposedHint: Option<Hint>, nextProposedHint: Option<Hint>, submitAvailable: bool)
      returns (submitted: Option<Hint>)
      requires Valid()
      modifies this
      ensures Valid()
      ensures submitted.Some? <==> old(CanSubmit(proposedHint, nextProposedHint)) && submitAvailable
      ensures submitted.Some? ==> submitted == proposedHint && submitted == old(stagedHint) && stagedHint == None
      ensures submitted.None? ==> stagedHint == old(stagedHint)
    {
      if stagedHint.Some? && CanSubmit(proposedHint, nextProposedHint) && submitAvailable {
        submitted := stagedHint;
        stagedHint := None;
      } else {
        submitted := None;
      }
    }
  }
}
