# Strawberry word game: a verified model of its core

Strawberry is a cooperative word game played in a browser. Every player holds
the letters of a secret word that the others can see. Players give hints by
spelling words out of the other players' cards in play, a wildcard, dummy
piles and bonus letters. At the end each player guesses their own word. A
small server keeps one versioned blob of game state per room.

This Dafny project models the part of that system that decides things:

- **Hint composition** (`HintEditing`, `HintComposing`). Adding a letter to the
  staged hint and taking one out. A one-letter hint becomes no hint when its
  letter is removed. The submit gate requires the staged hint to equal the
  player's last broadcast proposal with nothing in flight. The composer's local
  state is a class with Propose, Submit and Clear.
- **The letters a player may use** (`AvailableCards`). The method pushes the
  cards source by source, as the component does. It is proved equal to a
  reference list, and the list's shape is proved: one card per other player,
  never the player's own, then the wildcard, the dummies and the bonuses.
- **The hint sentence** (`HintSentence`, `Text`). "3 letters, 1 player,
  wildcard, 1 dummy" is rendered from the hint's statistics. A reader recovers
  them, and the two are proved to round-trip, so the sentence is injective.
- **The endgame sidebar** (`EndgameView`). A committed final word is shown in
  full. An uncommitted word is shown to others only through its non-hand picks,
  padded with blanks, and is not overridden for its owner.
- **Hand-guess overlay** (`HandGuesses`). Unconfirmed guesses are laid over the
  confirmed ones position by position.
- **The final-guess composer** (`FinalGuess`). Picking, removing, how a pick
  from the own hand is drawn, and the commit gate ("at least the word length,
  nothing in flight").
- **The starting room** (`StartGameRoom`). Spectator, needs-a-word and
  game-ready, the placeholder hand, and the prioritized check of a typed word
  with its messages.
- **The server's room store** (`RoomStore`). It is a class over
  `map<string, Room>` with:
  - `commit`, a compare-and-swap on the version;
  - `make_room`, which draws fruit names until one is free;
  - the decision `list` makes on each look at the store.

  Lemmas cover versions never going down, and an accepted commit answering
  waiting readers.

The files are `wrappers.dfy` (Option), `text.dfy`, `game_types.dfy`,
`array_ops.dfy` (JavaScript `splice`), and one file per module above.

## Model

| member | source | states |
|---|---|---|
| Text.Plural | client/src/StartedGameRoom.tsx:262-264 | the suffix is empty exactly for a count of one and "s" for every other count |
| Text.ReadNatToString | client/src/StartedGameRoom.tsx:269 | a number printed by a template literal is read back whole, whatever non-digit text follows it |
| Text.Utf16Length | client/src/StartGameRoom.tsx:57 | JavaScript's `length` of a string: between its character count and twice it; its value is fixed by Utf16LengthOfChar and Utf16LengthAppend |
| Text.Utf16LengthOfChar | client/src/StartGameRoom.tsx:57 | a Basic Multilingual Plane character is one code unit, any other character two |
| Text.Utf16LengthAppend | client/src/StartGameRoom.tsx:57 | the length of a concatenation is the sum of the lengths, so every string's length is the sum over its characters |
| Text.Utf16LengthOfBmp | client/src/StartGameRoom.tsx:57 | on Basic Multilingual Plane text the UTF-16 length is the character count |
| Text.Utf16LengthOfAstral | client/src/StartGameRoom.tsx:57 | one character outside the Basic Multilingual Plane makes the UTF-16 length exceed the character count |
| ArrayOps.Splice | client/src/StartedGameRoom.tsx:317-318 | `splice(i, 1)` on a copy removes exactly the element at `i`, keeps the others in order, and is a no-op past the end |
| HintEditing.AddLetterAndSourceToHint | client/src/StartedGameRoom.tsx:298-310 | the first letter starts a hint given by the composing player; later letters keep the proposer and are appended after the existing letters unchanged |
| HintEditing.RemoveLetterFromHintByIndex | client/src/StartedGameRoom.tsx:312-324 | the result is no hint exactly when the hint had one letter; otherwise the proposer is kept and the letters are the spliced list |
| HintEditing.AddThenRemoveRestores | client/src/StartedGameRoom.tsx:298-324 | removing the letter just added gives back the original hint, including "no hint" |
| HintEditing.EditsKeepWellFormed | client/src/StartedGameRoom.tsx:298-324 | neither edit produces an empty present hint |
| HintEditing.ApplyEdit | client/src/StartedGameRoom.tsx:345-370 | one click changes the hint's letters as the plain list edit (append or delete at index) does |
| HintEditing.EditsFollowListEdits | client/src/StartedGameRoom.tsx:345-370 | any run of clicks leaves exactly the letters of the reference list edits, stays well formed and the player's own, and is "no hint" exactly when no letter is left |
| HintEditing.CanSubmitHint | client/src/StartedGameRoom.tsx:343 | defines the submit gate: a staged hint exists, it equals the last broadcast proposal, and no proposal is in flight; its properties are EditBlocksSubmission and HintComposer.Propose/Submit |
| HintEditing.EditBlocksSubmission | client/src/StartedGameRoom.tsx:343 | any edit of a submittable staged hint makes it unequal to the proposal, so it cannot be submitted until proposed again |
| HintComposing.HintComposer.constructor | client/src/StartedGameRoom.tsx:326-331 | the staged hint starts as the player's last broadcast proposal |
| HintComposing.HintComposer.AddToStagedHint | client/src/StartedGameRoom.tsx:345-356 | the staged hint's letters gain the clicked letter at the end; the composer invariant is kept |
| HintComposing.HintComposer.RemoveLetterFromHint | client/src/StartedGameRoom.tsx:367-370 | the staged hint becomes the spliced hint, and none exactly when its one letter was removed |
| HintComposing.HintComposer.Clear | client/src/StartedGameRoom.tsx:383-385 | the staged hint is discarded |
| HintComposing.HintComposer.Propose | client/src/StartedGameRoom.tsx:391 | a proposal is sent exactly when a hint is staged and the request is available; it is the staged hint, so once it is echoed back as the proposal with nothing in flight the staged hint passes the submit gate |
| HintComposing.HintComposer.Submit | client/src/StartedGameRoom.tsx:358-365 | a hint is submitted exactly when the gate is open and the request is available; the submitted hint is the proposal, and the staged hint is then cleared, else it is unchanged |
| HintSentence.ReadCountClauseRoundTrip | client/src/StartedGameRoom.tsx:269 | "N letter(s)" and "N player(s)" read back as N |
| HintSentence.ReadOptionalClauseRoundTrip | client/src/StartedGameRoom.tsx:271-276 | a positive dummy or bonus count reads back with its singular or plural noun |
| HintSentence.LettersAndPlayersRoundTrip | client/src/StartedGameRoom.tsx:269 | the letters and players clauses read back as their counts, leaving the rest of the sentence |
| HintSentence.DummyExtrasRoundTrip | client/src/StartedGameRoom.tsx:271-273 | the dummy clause reads back as its count, zero when absent, and a bonus clause is not mistaken for it |
| HintSentence.BonusExtrasRoundTrip | client/src/StartedGameRoom.tsx:274-276 | the bonus clause reads back as its count, zero when absent |
| HintSentence.WildcardAndExtrasRoundTrip | client/src/StartedGameRoom.tsx:269-276 | "wildcard" / "no wildcard" and the optional clauses read back as the flag and the two counts |
| HintSentence.HintSentenceRoundTrip | client/src/StartedGameRoom.tsx:266-279 | parsing the sentence gives back exactly the statistics it was built from |
| HintSentence.HintSentenceInjective | client/src/StartedGameRoom.tsx:266-279 | hints with different statistics never get the same sentence |
| HintSentence.HintSentenceOf | client/src/StartedGameRoom.tsx:266-279 | defines the sentence: letters and players with plural suffix, "wildcard" or "no wildcard", then the dummy and bonus clauses only when positive; its meaning is HintSentenceRoundTrip |
| AvailableCards.AvailableCards | client/src/StartedGameRoom.tsx:399-434 | the pushed list is the other players' cards in play in seat order, then the wildcard, the dummies numbered from 1, then the bonuses |
| AvailableCards.OtherPlayersCardsShape | client/src/StartedGameRoom.tsx:406-414 | one card per other seat, the k-th being that seat's card in play; none is attributed to the requesting player |
| AvailableCards.AvailableCardsShape | client/src/StartedGameRoom.tsx:404-434 | a seated player gets players - 1 + 1 + dummies + bonuses cards, at the stated positions |
| EndgameView.SharedSource | client/src/StartedGameRoom.tsx:96 | a pick not from the hand is shown as itself: a wildcard stays a wildcard, a dummy keeps its letter and dummy number, a bonus stays a bonus; never a player letter |
| EndgameView.RevealChoice | client/src/StartedGameRoom.tsx:88-97 | a hand pick shows the hand's letter at that position, attributed to the owner; other picks are unchanged |
| EndgameView.SharedChoices | client/src/StartedGameRoom.tsx:103 | the filtered picks are exactly the non-hand picks of the guess |
| EndgameView.SidebarOverride | client/src/StartedGameRoom.tsx:83-107 | committed: the whole word revealed; uncommitted, other viewer: the shared picks padded with blanks to the word length; own uncommitted word: no override |
| EndgameView.UncommittedViewHidesOwnHand | client/src/StartedGameRoom.tsx:101-106 | the uncommitted view has max(shared picks, word length) cards, the shared picks first, then blanks, and no card from the player's hand |
| EndgameView.CommittedViewRevealsAll | client/src/StartedGameRoom.tsx:98-100 | the committed view has one shown card per pick, carrying the pick's actual letter |
| EndgameView.AppendedPickVisibility | client/src/StartedGameRoom.tsx:103 | adding a hand pick changes nothing others see; adding any other pick shows exactly one more card |
| HandGuesses.ConfirmedOrBlank | client/src/StartedGameRoom.tsx:76 | the confirmed guesses as they are; a hand with no guesses yet has word-length positions, every one unguessed |
| HandGuesses.HandGuessesShown | client/src/StartedGameRoom.tsx:73-79 | one guess per confirmed position; the pending guess where the pending edit sets one, else the confirmed one |
| HandGuesses.NoPendingEditShowsConfirmed | client/src/StartedGameRoom.tsx:73-79 | with no pending edit, or one discarded, the view is exactly the confirmed guesses |
| HandGuesses.OverlayIdempotent | client/src/StartedGameRoom.tsx:73-79 | laying an edit over its own result changes nothing |
| HandGuesses.ConfirmedEditSupersedes | client/src/StartedGameRoom.tsx:73-79 | once the server confirms the edit, the view equals the confirmed guesses |
| FinalGuess.CurrentGuess | client/src/StartedGameRoom.tsx:573 | the pending guess while one is in flight, else the confirmed one |
| FinalGuess.ComposerCard | client/src/StartedGameRoom.tsx:580-589 | a hand pick shows the player's own guess for that position or '?', never the hidden letter; other picks are unchanged |
| FinalGuess.AddToGuess | client/src/StartedGameRoom.tsx:592-594 | the clicked available letter is appended and the rest is unchanged |
| FinalGuess.RemoveLetterFromGuess | client/src/StartedGameRoom.tsx:595-599 | the clicked pick is removed and the others keep their order |
| FinalGuess.AddThenRemoveRestores | client/src/StartedGameRoom.tsx:592-599 | removing the pick just made gives back the previous guess |
| FinalGuess.SubmitLengthPolicyExample | client/src/StartedGameRoom.tsx:601 | for word length 4, three picks are refused, four and five accepted, and an edit in flight refuses |
| FinalGuess.SubmitGateMonotone | client/src/StartedGameRoom.tsx:601 | a committable guess stays committable as picks are added; an edit in flight always blocks commit |
| FinalGuess.CanSubmitGuess | client/src/StartedGameRoom.tsx:601 | defines the commit gate: no edit in flight and at least word-length picks; its properties are SubmitLengthPolicyExample and SubmitGateMonotone |
| FinalGuess.GateSeesConfirmed | client/src/StartedGameRoom.tsx:573-601 | the commit gate applied to the word being edited is open exactly when no edit is in flight and the confirmed word has at least word-length picks |
| StartGameRoom.FindPlayer | client/src/StartGameRoom.tsx:44-45 | none exactly when no player has the name; otherwise the first player with the name |
| StartGameRoom.WordNeededOnlyBeforeReady | client/src/StartGameRoom.tsx:44-49 | spectators are never asked for a word, and nobody is once every player has one |
| StartGameRoom.NeedsWordIffFirstNamesakeHasNone | client/src/StartGameRoom.tsx:44-48 | the viewer must enter a word exactly when the first player with their name has none |
| StartGameRoom.IsSpectator | client/src/StartGameRoom.tsx:46 | defines a spectator: no player has the viewer's name (FindPlayer gives none) |
| StartGameRoom.PlayerNeedsToInputWord | client/src/StartGameRoom.tsx:48 | defines the need for a word: the viewer's first namesake exists and has no word; characterised by NeedsWordIffFirstNamesakeHasNone |
| StartGameRoom.IsGameReady | client/src/StartGameRoom.tsx:49 | defines readiness: every player has a word; related to the others by WordNeededOnlyBeforeReady |
| StartGameRoom.SidebarHandOf | client/src/StartGameRoom.tsx:21-26 | with a non-empty word, one card per character, shown; otherwise word-length strawberry placeholders, hidden; the active index is -1 |
| StartGameRoom.CheckInputWord | client/src/StartGameRoom.tsx:53-67 | valid exactly when the UTF-16 length matches, the word is ASCII letters only and every letter upper-cased is allowed; otherwise the message of the first failing check, the length message naming the UTF-16 length |
| StartGameRoom.ValidityCountsLetters | client/src/StartGameRoom.tsx:57-67 | whether a word is accepted agrees with counting characters, since an accepted word is ASCII letters only |
| StartGameRoom.AstralCharacterCountsTwice | client/src/StartGameRoom.tsx:57-60 | a lone strawberry emoji at word length 1 gets the length message for two code units, not the letters-only message |
| StartGameRoom.EmptyWordNeverValid | client/src/StartGameRoom.tsx:57-66 | the empty word is refused for every length, with the letters-only message when the length is zero |
| StartGameRoom.LengthMessageRoundTrip | client/src/StartGameRoom.tsx:57-60 | the length message says the distance to the required length, "more" exactly when the word is too short, and singular exactly for one |
| StartGameRoom.LengthMessage | client/src/StartGameRoom.tsx:57-60 | defines the message "Try N more/less letter[s]"; its meaning is LengthMessageRoundTrip |
| RoomStore.ListStepOf | server/src/main.rs:101-117 | unknown room: no reply; stored version below the requested one: wait; otherwise reply with the stored version and data |
| RoomStore.CommitOutcome | server/src/main.rs:119-133 | accepted exactly when the room exists at the given version; then the data is replaced and the version is one more, and other rooms are unchanged; rejected commits change nothing |
| RoomStore.FirstVacantName | server/src/main.rs:138-145 | the name settled on is two fruits joined by a dot and is not in use |
| RoomStore.State.constructor | server/src/main.rs:55-63 | the store starts with no rooms |
| RoomStore.State.List | server/src/main.rs:101-117 | one look at the store makes the `list` decision above |
| RoomStore.State.Commit | server/src/main.rs:119-133 | the store after a commit, and its answer, are the compare-and-swap outcome (see the notification caveat under Left out); every version stays at least 1 |
| RoomStore.State.MakeRoom | server/src/main.rs:135-156 | the first free drawn fruit name gets a new room at version 1 with the request's data; nothing else changes |
| RoomStore.VersionsNeverDecrease | server/src/main.rs:119-156 | no sequence of commits and room creations removes a room or lowers its version |
| RoomStore.OpsKeepVersionsPositive | server/src/main.rs:119-156 | no sequence of commits and room creations breaks the invariant that every version is at least 1 (rooms start at 1, line 148) |
| RoomStore.FreshReaderNeverWaits | server/src/main.rs:101-113 | under that invariant, a `list` asking for version 0 or 1 of an existing room is answered at once with the stored state |
| RoomStore.CommitReleasesWaiters | server/src/main.rs:101-133 | after an accepted commit, a waiting `list` for that room up to the new version is answered with the committed data; a rejected commit changes no answer |

## Left out

- Rendering is not modelled: JSX, styling, the notes sidebar, the hint log and the resolve components (flip or guess).
- The "ok stop" alert for an 11-letter hint is not modelled, nor the local-storage flag that shows it only once. It changes no state of the core.
- React hooks (`useProposeHint`, `useGiveHint`, `useSetHandGuess`, `useSetFinalGuess`, `useCommitFinalGuess`) are not modelled. Their state (the proposal, the pending edit, whether a request can be sent) enters as arguments.
- The rules module is not part of this model. `specsOfHint`, `availableLetters`, `setFinalGuess` and `LETTERS` are taken as inputs: the statistics, the available picks and the allowed letters.
- The resolution state machine and the free-hint rule belong to the rules module and are not modelled.
- The endgame sidebar sets `activeIndex` to the word length for drawing purposes. That assignment is not modelled.
- `words::FRUITS` is not part of this model; the fruit list is a parameter.
- The random generator of `make_room` is replaced by the sequence of draws it would produce.
- The server's `RwLock`, the async loop of `list` and the per-room broadcast channel are not modelled. `list` is modelled as the decision it takes on each look at the store, and a commit's wake-up as the change of that decision.
- RoomStore.State.MakeRoom: requires some draw to give a free name. With every name taken, the source loops forever.
- RoomStore.State.Commit: answers `true` for every accepted commit. The source then calls `room.event.send(()).expect("failed to notify")` (main.rs:131) on a one-shot broadcast channel made once per room (main.rs:149) and never replaced. The channel library is not part of this model. If that channel accepts only one value, then from a room's second accepted commit on the handler panics after the store has changed, instead of answering `true`.
- RoomStore.State.Commit: versions are unbounded; the source's `u32` version would overflow after 2^32 - 1 commits.
- AvailableCards.AvailableCards: requires every hand's active index to be in range. The source reads `undefined` past the end; the game keeps the index in range.
- EndgameView.SidebarOverride: requires the committed word's hand picks to be within the hand. The source would show `undefined` for a pick outside it.
- FinalGuess.AddToGuess: requires the clicked index to be one of the available letters, as only those can be clicked.
- HintComposing.HintComposer.RemoveLetterFromHint: requires a staged hint. The source asserts one (`stagedHint!`), since only its letters can be clicked.
- StartGameRoom.SidebarHandOf: one card per character. `split('')` gives one card per UTF-16 code unit, so a stored word with a character outside the Basic Multilingual Plane would show two cards for it in the source.
