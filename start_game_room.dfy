/**
 * The room before the game starts (client/src/StartGameRoom.tsx): who is a
 * player and who a spectator, whether everyone has entered a word, the hand
 * drawn for each player in the sidebar, and the check of the word a player types.
 */
module StartGameRoom {
  import opened Wrappers
  import opened Text

  /** A player of the starting room and the word they entered, if any. */
  datatype StartingPlayer = StartingPlayer(name: string, word: Option<string>)

  /** Seat `i` holds the first player named `username`. */
  predicate FirstNamesakeAt(players: seq<StartingPlayer>, username: string, i: int) {
    0 <= i < |players| && players[i].name == username && forall j :: 0 <= j < i ==> players[j].name != username
  }

  /** The first player with this name (`players.filter(...)[0]`), if any. */
  function FindPlayer(players: seq<StartingPlayer>, username: string): (r: Option<StartingPlayer>)
    ensures r.None? <==> forall i :: 0 <= i < |players| ==> players[i].name != username
    ensures r.Some? ==> exists i :: FirstNamesakeAt(players, username, i) && players[i] == r.value
  {
    if players == [] then None
    else if players[0].name == username then (assert FirstNamesakeAt(players, username, 0); Some(players[0]))
    else
      var r := FindPlayer(players[1..], username);
      if r.Some? then
        var i :| FirstNamesakeAt(players[1..], username, i) && players[1..][i] == r.value;
        assert FirstNamesakeAt(players, username, i + 1) by {
          forall j | 1 <= j < i + 1 ensures players[j].name != username {
            assert players[j] == players[1..][j - 1];
          }
        }
        r
      else
        r
  }

  /** The viewer is a spectator when no player has their name. */
  predicate IsSpectator(players: seq<StartingPlayer>, username: string) {
    FindPlayer(players, username).None?
  }

  /** The viewer must still enter a word: they are a player and their word is null. */
  predicate PlayerNeedsToInputWord(players: seq<StartingPlayer>, username: string) {
    FindPlayer(players, username).Some? && FindPlayer(players, username).value.word.None?
  }

  /** The game can start once every player has a word. */
  predicate IsGameReady(players: seq<StartingPlayer>) {
    forall i :: 0 <= i < |players| ==> players[i].word.Some?
  }

  /** Only players are asked for a word, and nobody is once the game is ready. */
  lemma WordNeededOnlyBeforeReady(players: seq<StartingPlayer>, username: string)
    ensures IsSpectator(players, username) ==> !PlayerNeedsToInputWord(players, username)
    ensures IsGameReady(players) ==> !PlayerNeedsToInputWord(players, username)
    ensures PlayerNeedsToInputWord(players, username) ==> !IsGameReady(players)
  {
  }

  /** The viewer needs to enter a word exactly when the first player with their name has none. */
  lemma NeedsWordIffFirstNamesakeHasNone(players: seq<StartingPlayer>, username: string)
    ensures PlayerNeedsToInputWord(players, username) <==>
      exists i :: FirstNamesakeAt(players, username, i) && players[i].word.None?
  {
    var r := FindPlayer(players, username);
    if r.Some? {
      var k :| FirstNamesakeAt(players, username, k) && players[k] == r.value;
      forall i | FirstNamesakeAt(players, username, i) ensures i == k {
      }
    } else {
      forall i | 0 <= i < |players| ensures !FirstNamesakeAt(players, username, i) {
        assert players[i].name != username;
      }
    }
  }

  /** The hand the sidebar draws for a player in the starting room. */
  datatype SidebarHand = SidebarHand(letters: seq<string>, activeIndex: int, hidden: bool)

  /**
   * A player with a (non-empty) word shows its characters, one card each; a
   * player without one shows `wordLength` strawberry placeholders, hidden.
   */
  function SidebarHandOf(player: StartingPlayer, wordLength: nat): (r: SidebarHand)
    ensures r.hidden <==> player.word.None? || player.word.value == ""
    ensures r.hidden ==> |r.letters| == wordLength && forall i :: 0 <= i < |r.letters| ==> r.letters[i] == "🍓"
    ensures !r.hidden ==> |r.letters| == |player.word.value|
    ensures !r.hidden ==> forall i :: 0 <= i < |r.letters| ==> r.letters[i] == [player.word.value[i]]
    ensures r.activeIndex == -1
  {
    var hidden := player.word.None? || player.word.value == "";
    var letters := if hidden then seq(wordLength, _ => "🍓")
                   else seq(|player.word.value|, i requires 0 <= i < |player.word.value| => [player.word.value[i]]);
    SidebarHand(letters, -1, hidden)
  }

  predicate IsAsciiLetter(c: char) {
    'a' <= c <= 'z' || 'A' <= c <= 'Z'
  }

  function ToUpperAscii(c: char): (u: char)
    requires IsAsciiLetter(c)
    ensures 'A' <= u <= 'Z'
    ensures 'A' <= c <= 'Z' ==> u == c
    ensures 'a' <= c <= 'z' ==> u as int == c as int - 32
  {
    if 'a' <= c <= 'z' then (c as int - 32) as char else c
  }

  /** The pattern /^[a-zA-Z]+$/: one or more ASCII letters and nothing else. */
  predicate LettersOnly(word: string) {
    |word| >= 1 && forall i :: 0 <= i < |word| ==> IsAsciiLetter(word[i])
  }

  /** Every letter, upper-cased, is one of the game's allowed letters. */
  predicate AllAllowed(word: string, allowedLetters: seq<char>)
    requires LettersOnly(word)
  {
    forall i :: 0 <= i < |word| ==> ToUpperAscii(word[i]) in allowedLetters
  }

  function AbsDiff(a: nat, b: nat): nat {
    if a >= b then a - b else b - a
  }

  /** "Try N more letters" / "Try N less letter": N is the distance from the required length. */
  function LengthMessage(wordLength: nat, inputLength: nat): string {
    var absDiff := AbsDiff(wordLength, inputLength);
    "Try " + (NatToString(absDiff) + (" " + ((if wordLength > inputLength then "more" else "less") + (" letter" + Plural(absDiff)))))
  }

  const LettersOnlyMessage: string := "Letters only, please!"
  const DisallowedLettersMessage: string := "J, Q, V, X and Z aren't allowed, sorry"

  /** Whether the typed word may be submitted, and the message shown when it may not. */
  datatype WordCheck = WordCheck(isInputWordValid: bool, errorMessage: string)

  /**
   * The checks in priority order: the length first, then letters only, then
   * only allowed letters. The length is JavaScript's `inputWord.length`, in
   * UTF-16 code units. The allowed letters are the rules module's `LETTERS`,
   * which is not part of this model; the message names J, Q, V, X and Z as the
   * ones left out.
   */
  function CheckInputWord(inputWord: string, wordLength: nat, allowedLetters: seq<char>): (r: WordCheck)
    ensures r.isInputWordValid <==>
      Utf16Length(inputWord) == wordLength && LettersOnly(inputWord) && AllAllowed(inputWord, allowedLetters)
    ensures r.isInputWordValid <==> r.errorMessage == ""
    ensures Utf16Length(inputWord) != wordLength ==> r.errorMessage == LengthMessage(wordLength, Utf16Length(inputWord))
    ensures Utf16Length(inputWord) == wordLength && !LettersOnly(inputWord) ==> r.errorMessage == LettersOnlyMessage
    ensures Utf16Length(inputWord) == wordLength && LettersOnly(inputWord) && !AllAllowed(inputWord, allowedLetters)
      ==> r.errorMessage == DisallowedLettersMessage
  {
    var inputLength := Utf16Length(inputWord);
    if inputLength != wordLength then
      WordCheck(false, LengthMessage(wordLength, inputLength))
    else if !LettersOnly(inputWord) then
      WordCheck(false, LettersOnlyMessage)
    else if !AllAllowed(inputWord, allowedLetters) then
      WordCheck(false, DisallowedLettersMessage)
    else
      WordCheck(true, "")
  }

  /**
   * Whether a word is accepted does not depend on the encoding: an accepted
   * word is ASCII letters only, so its UTF-16 length is its number of letters.
   */
  lemma ValidityCountsLetters(inputWord: string, wordLength: nat, allowedLetters: seq<char>)
    ensures CheckInputWord(inputWord, wordLength, allowedLetters).isInputWordValid <==>
      |inputWord| == wordLength && LettersOnly(inputWord) && AllAllowed(inputWord, allowedLetters)
  {
    if LettersOnly(inputWord) {
      Utf16LengthOfBmp(inputWord);
    }
  }

  /**
   * A character outside the Basic Multilingual Plane counts twice in the length
   * check: a lone strawberry emoji is one letter too many for a one-letter word.
   */
  lemma AstralCharacterCountsTwice(wordLength: nat, allowedLetters: seq<char>)
    requires wordLength == 1
    ensures CheckInputWord([0x1F353 as char], wordLength, allowedLetters).errorMessage == LengthMessage(wordLength, 2)
  {
    var w := [0x1F353 as char];
    assert w[..0] == [];
    assert Utf16Length(w) == 2;
  }

  /** The empty word is never accepted, whatever the required length. */
  lemma EmptyWordNeverValid(wordLength: nat, allowedLetters: seq<char>)
    ensures !CheckInputWord("", wordLength, allowedLetters).isInputWordValid
    ensures wordLength == 0 ==> CheckInputWord("", wordLength, allowedLetters).errorMessage == LettersOnlyMessage
  {
  }

  /** What a length message says: the count, whether to add ("more") or remove, and whether it is plural. */
  datatype LengthAdvice = LengthAdvice(count: nat, more: bool, plural: bool)

  /** Reads "more letter[s]" or "less letter[s]": whether it says more, and whether it is plural. */
  function ReadDirectionAndNoun(s: string): Option<(bool, bool)> {
    var more := "more" <= s;
    if !more && !("less" <= s) then None
    else
      match Expect(s[4..], " letter")
      case None => None
      case Some(rest) =>
        if rest == "" then Some((more, false))
        else if rest == "s" then Some((more, true))
        else None
  }

  /** Reads a length message back. */
  function ReadLengthMessage(s: string): Option<LengthAdvice> {
    match Expect(s, "Try ")
    case None => None
    case Some(s1) =>
      match ReadNat(s1)
      case None => None
      case Some((n, s2)) =>
        match Expect(s2, " ")
        case None => None
        case Some(s3) =>
          match ReadDirectionAndNoun(s3)
          case None => None
          case Some((more, plural)) => Some(LengthAdvice(n, more, plural))
  }

  lemma DirectionAndNounRoundTrip(more: bool, n: nat)
    ensures ReadDirectionAndNoun((if more then "more" else "less") + (" letter" + Plural(n))) == Some((more, n != 1))
  {
    var word := if more then "more" else "less";
    var s := word + (" letter" + Plural(n));
    ExpectPrefix(word, " letter" + Plural(n));
    if !more {
      assert s[0] == 'l';
    }
    ExpectPrefix(" letter", Plural(n));
  }

  /**
   * The length message tells the player exactly how far off they are: the count
   * is |wordLength - length|, it says "more" exactly when the word is too short,
   * and it uses the singular exactly when the count is one.
   */
  lemma LengthMessageRoundTrip(wordLength: nat, inputLength: nat)
    ensures ReadLengthMessage(LengthMessage(wordLength, inputLength))
      == Some(LengthAdvice(AbsDiff(wordLength, inputLength), wordLength > inputLength, AbsDiff(wordLength, inputLength) != 1))
  {
    var n := AbsDiff(wordLength, inputLength);
    var more := wordLength > inputLength;
    var s3 := (if more then "more" else "less") + (" letter" + Plural(n));
    var s1 := NatToString(n) + (" " + s3);
    assert LengthMessage(wordLength, inputLength) == "Try " + s1;
    ExpectPrefix("Try ", s1);
    ReadNatToString(n, " " + s3);
    ExpectPrefix(" ", s3);
    DirectionAndNounRoundTrip(more, n);
  }
}
