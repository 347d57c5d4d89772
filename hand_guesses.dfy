/**
 * The viewing player's guesses for the letters of their own hand, as the
 * sidebar draws them (client/src/StartedGameRoom.tsx): a pending edit that the
 * server has not yet confirmed is laid over the confirmed guesses, position by
 * position, without changing the confirmed guesses themselves.
 */
module HandGuesses {
  import opened Wrappers
  import opened GameTypes

  /** One guess per hand position; None is a position not guessed. */
  type Guesses = seq<Option<Letter>>

  /** The confirmed guesses, or `wordLength` unguessed positions for a hand that has none yet. */
  function ConfirmedOrBlank(confirmed: Option<Guesses>, wordLength: nat): (r: Guesses)
    ensures confirmed.Some? ==> r == confirmed.value
    ensures confirmed.None? ==> |r| == wordLength && forall i :: 0 <= i < |r| ==> r[i].None?
  {
    if confirmed.Some? then confirmed.value else seq(wordLength, _ => None)
  }

  /** The pending guess at position `i`, if the pending edit sets one there. */
  function PendingAt(settingGuesses: Option<Guesses>, i: nat): Option<Letter> {
    if settingGuesses.Some? && i < |settingGuesses.value| then settingGuesses.value[i] else None
  }

  /**
   * The guesses drawn: one per confirmed position; a position shows the pending
   * guess when the pending edit has one there and the confirmed one otherwise.
   */
  function HandGuessesShown(confirmed: Option<Guesses>, settingGuesses: Option<Guesses>, wordLength: nat): (r: Guesses)
    ensures |r| == |ConfirmedOrBlank(confirmed, wordLength)|
    ensures forall i :: 0 <= i < |r| && PendingAt(settingGuesses, i).Some? ==> r[i] == PendingAt(settingGuesses, i)
    ensures forall i :: 0 <= i < |r| && PendingAt(settingGuesses, i).None? ==> r[i] == ConfirmedOrBlank(confirmed, wordLength)[i]
  {
    var base := ConfirmedOrBlank(confirmed, wordLength);
    seq(|base|, i requires 0 <= i < |base| => if PendingAt(settingGuesses, i).Some? then PendingAt(settingGuesses, i) else base[i])
  }

  /** With no pending edit (never made, or discarded), the view is exactly the confirmed state. */
  lemma NoPendingEditShowsConfirmed(confirmed: Option<Guesses>, wordLength: nat)
    ensures HandGuessesShown(confirmed, None, wordLength) == ConfirmedOrBlank(confirmed, wordLength)
  {
  }

  /** Laying the same pending edit over its own result changes nothing. */
  lemma OverlayIdempotent(confirmed: Option<Guesses>, settingGuesses: Option<Guesses>, wordLength: nat)
    ensures var shown := HandGuessesShown(confirmed, settingGuesses, wordLength);
      HandGuessesShown(Some(shown), settingGuesses, wordLength) == shown
  {
  }

  /** Once the server confirms the pending guesses, the view no longer depends on the edit. */
  lemma ConfirmedEditSupersedes(settingGuesses: Guesses)
    ensures HandGuessesShown(Some(settingGuesses), Some(settingGuesses), |settingGuesses|) == settingGuesses
  {
  }
}
