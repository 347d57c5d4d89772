/**
 * The sentence everyone at the table sees for a proposed or given hint
 * (`plural` and `getHintSentence` in client/src/StartedGameRoom.tsx). It shows
 * the hint's statistics only. The statistics come from the rules module's
 * `specsOfHint`, which is not part of this model, so they are an input here.
 * The reader `ParseHintSentence` shows that the sentence loses none of them.
 */
module HintSentence {
  import opened Wrappers
  import opened Text

  /** What `specsOfHint` reports about a hint. */
  datatype HintSpecs = HintSpecs(length: nat, players: nat, wildcard: bool, dummies: nat, bonuses: nat)

  /** "<n> <noun>" with the noun's plural suffix. */
  function CountClause(n: nat, noun: string): string {
    NatToString(n) + (" " + noun + Plural(n))
  }

  function WildcardClause(wildcard: bool): string {
    (if wildcard then "" else "no ") + "wildcard"
  }

  /** ", <n> <noun>" for a positive count, nothing for zero. */
  function OptionalClause(n: nat, singular: string, plural: string): string {
    if n > 0 then ", " + (NatToString(n) + (" " + (if n == 1 then singular else plural))) else ""
  }

  function DummyClause(dummies: nat): string {
    OptionalClause(dummies, "dummy", "dummies")
  }

  function BonusClause(bonuses: nat): string {
    OptionalClause(bonuses, "bonus", "bonuses")
  }

  /** The hint's sentence, e.g. "3 letters, 1 player, wildcard, 1 dummy". */
  function HintSentenceOf(specs: HintSpecs): string {
    CountClause(specs.length, "letter") + (", " + (CountClause(specs.players, "player") + (", "
      + (WildcardClause(specs.wildcard) + (DummyClause(specs.dummies) + BonusClause(specs.bonuses))))))
  }

  /** Reads "<n> <noun>" with an optional plural "s". */
  function ReadCountClause(s: string, noun: string): Option<(nat, string)> {
    match ReadNat(s)
    case None => None
    case Some((n, rest)) =>
      match Expect(rest, " " + noun)
      case None => None
      case Some(rest') => Some((n, if "s" <= rest' then rest'[1..] else rest'))
  }

  lemma ReadCountClauseRoundTrip(n: nat, noun: string, rest: string)
    requires rest == [] || rest[0] != 's'
    ensures ReadCountClause(CountClause(n, noun) + rest, noun) == Some((n, rest))
  {
    var tail := " " + noun + (Plural(n) + rest);
    assert CountClause(n, noun) + rest == NatToString(n) + tail;
    ReadNatToString(n, tail);
    ExpectPrefix(" " + noun, Plural(n) + rest);
  }

  /** Reads an optional ", <n> <singular|plural>" clause; without one the count is zero. */
  function ReadOptionalClause(s: string, singular: string, plural: string): (nat, string) {
    match Expect(s, ", ")
    case None => (0, s)
    case Some(s1) =>
      match ReadNat(s1)
      case None => (0, s)
      case Some((n, s2)) =>
        match Expect(s2, " ")
        case None => (0, s)
        case Some(s3) =>
          match Expect(s3, plural)
          case Some(s4) => (n, s4)
          case None =>
            match Expect(s3, singular)
            case Some(s4) => (n, s4)
            case None => (0, s)
  }

  lemma ReadOptionalClauseRoundTrip(n: nat, singular: string, plural: string, rest: string)
    requires n > 0
    requires n == 1 ==> !(plural <= singular + rest)
    ensures ReadOptionalClause(OptionalClause(n, singular, plural) + rest, singular, plural) == (n, rest)
  {
    var noun := if n == 1 then singular else plural;
    var s1 := NatToString(n) + (" " + (noun + rest));
    assert OptionalClause(n, singular, plural) + rest == ", " + s1;
    ExpectPrefix(", ", s1);
    ReadNatToString(n, " " + (noun + rest));
    ExpectPrefix(" ", noun + rest);
    ExpectPrefix(noun, rest);
  }

  /** A bonus clause is not mistaken for a dummy clause. */
  lemma ReadDummyClauseOfBonus(bonuses: nat)
    requires bonuses > 0
    ensures ReadOptionalClause(BonusClause(bonuses), "dummy", "dummies") == (0, BonusClause(bonuses))
  {
    var noun := if bonuses == 1 then "bonus" else "bonuses";
    var s1 := NatToString(bonuses) + (" " + noun);
    assert BonusClause(bonuses) == ", " + s1;
    ExpectPrefix(", ", s1);
    ReadNatToString(bonuses, " " + noun);
    ExpectPrefix(" ", noun);
    NotPrefixWhereTheyDiffer("dummies", noun, 1);
    NotPrefixWhereTheyDiffer("dummy", noun, 1);
  }

  /** Reads "[no ]wildcard" and the optional dummy and bonus clauses, up to the end. */
  function ReadWildcardAndExtras(s: string): Option<(bool, nat, nat)> {
    var wildcard := !("no " <= s);
    var s1 := if wildcard then s else s[3..];
    match Expect(s1, "wildcard")
    case None => None
    case Some(s2) =>
      var (dummies, s3) := ReadOptionalClause(s2, "dummy", "dummies");
      var (bonuses, s4) := ReadOptionalClause(s3, "bonus", "bonuses");
      if s4 == "" then Some((wildcard, dummies, bonuses)) else None
  }

  /** Reads "<n> letter[s], <m> player[s], " from the head of the sentence. */
  function ReadLettersAndPlayers(s: string): Option<(nat, nat, string)> {
    match ReadCountClause(s, "letter")
    case None => None
    case Some((length, s1)) =>
      match Expect(s1, ", ")
      case None => None
      case Some(s2) =>
        match ReadCountClause(s2, "player")
        case None => None
        case Some((players, s3)) =>
          match Expect(s3, ", ")
          case None => None
          case Some(s4) => Some((length, players, s4))
  }

  /** Recovers the statistics from a hint sentence. */
  function ParseHintSentence(s: string): Option<HintSpecs> {
    match ReadLettersAndPlayers(s)
    case None => None
    case Some((length, players, s1)) =>
      match ReadWildcardAndExtras(s1)
      case None => None
      case Some((wildcard, dummies, bonuses)) => Some(HintSpecs(length, players, wildcard, dummies, bonuses))
  }

  /** Two strings that differ at a position neither is shorter than are not prefixes of one another. */
  lemma NotPrefixWhereTheyDiffer(a: string, b: string, k: nat)
    requires k < |a| && k < |b| && a[k] != b[k]
    ensures !(a <= b)
  {
  }

  lemma DummyClauseRoundTrip(dummies: nat, rest: string)
    requires dummies > 0
    ensures ReadOptionalClause(DummyClause(dummies) + rest, "dummy", "dummies") == (dummies, rest)
  {
    if dummies == 1 {
      NotPrefixWhereTheyDiffer("dummies", "dummy" + rest, 4);
    }
    ReadOptionalClauseRoundTrip(dummies, "dummy", "dummies", rest);
  }

  lemma NoDummyClauseBeforeBonus(dummies: nat, bonuses: nat)
    requires dummies == 0 && bonuses > 0
    ensures ReadOptionalClause(DummyClause(dummies) + BonusClause(bonuses), "dummy", "dummies") == (dummies, BonusClause(bonuses))
  {
    assert DummyClause(dummies) + BonusClause(bonuses) == BonusClause(bonuses);
    ReadDummyClauseOfBonus(bonuses);
  }

  lemma NoDummyClause(dummies: nat, bonuses: nat)
    requires dummies == 0 && bonuses == 0
    ensures ReadOptionalClause(DummyClause(dummies) + BonusClause(bonuses), "dummy", "dummies") == (dummies, BonusClause(bonuses))
  {
  }

  lemma NoBonusClause()
    ensures ReadOptionalClause(BonusClause(0), "bonus", "bonuses") == (0, "")
  {
  }

  lemma BonusClauseRoundTrip(bonuses: nat)
    requires bonuses > 0
    ensures ReadOptionalClause(BonusClause(bonuses), "bonus", "bonuses") == (bonuses, "")
  {
    assert BonusClause(bonuses) + "" == BonusClause(bonuses);
    ReadOptionalClauseRoundTrip(bonuses, "bonus", "bonuses", "");
  }

  /** The dummy clause reads back as its count, leaving the bonus clause. */
  lemma DummyExtrasRoundTrip(dummies: nat, bonuses: nat)
    ensures ReadOptionalClause(DummyClause(dummies) + BonusClause(bonuses), "dummy", "dummies") == (dummies, BonusClause(bonuses))
  {
    if dummies > 0 {
      DummyClauseRoundTrip(dummies, BonusClause(bonuses));
    } else if bonuses > 0 {
      NoDummyClauseBeforeBonus(dummies, bonuses);
    } else {
      NoDummyClause(dummies, bonuses);
    }
  }

  /** The bonus clause reads back as its count, leaving nothing. */
  lemma BonusExtrasRoundTrip(bonuses: nat)
    ensures ReadOptionalClause(BonusClause(bonuses), "bonus", "bonuses") == (bonuses, "")
  {
    if bonuses > 0 {
      BonusClauseRoundTrip(bonuses);
    } else {
      NoBonusClause();
    }
  }

  lemma WildcardAndExtrasRoundTrip(wildcard: bool, dummies: nat, bonuses: nat)
    ensures ReadWildcardAndExtras(WildcardClause(wildcard) + (DummyClause(dummies) + BonusClause(bonuses)))
      == Some((wildcard, dummies, bonuses))
  {
    var tail := DummyClause(dummies) + BonusClause(bonuses);
    if wildcard {
      assert WildcardClause(true) + tail == "wildcard" + tail;
      NotPrefixWhereTheyDiffer("no ", "wildcard" + tail, 0);
    } else {
      assert WildcardClause(false) + tail == "no " + ("wildcard" + tail);
      ExpectPrefix("no ", "wildcard" + tail);
    }
    ExpectPrefix("wildcard", tail);
    DummyExtrasRoundTrip(dummies, bonuses);
    BonusExtrasRoundTrip(bonuses);
  }

  lemma LettersAndPlayersRoundTrip(length: nat, players: nat, rest: string)
    ensures ReadLettersAndPlayers(CountClause(length, "letter") + (", " + (CountClause(players, "player") + (", " + rest))))
      == Some((length, players, rest))
  {
    var afterPlayers := ", " + rest;
    var afterLetters := ", " + (CountClause(players, "player") + afterPlayers);
    ReadCountClauseRoundTrip(length, "letter", afterLetters);
    ExpectPrefix(", ", CountClause(players, "player") + afterPlayers);
    ReadCountClauseRoundTrip(players, "player", afterPlayers);
    ExpectPrefix(", ", rest);
  }

  /**
   * The sentence determines the statistics: reading it back gives exactly the
   * specs it was made from.
   */
  lemma HintSentenceRoundTrip(specs: HintSpecs)
    ensures ParseHintSentence(HintSentenceOf(specs)) == Some(specs)
  {
    var rest := WildcardClause(specs.wildcard) + (DummyClause(specs.dummies) + BonusClause(specs.bonuses));
    LettersAndPlayersRoundTrip(specs.length, specs.players, rest);
    WildcardAndExtrasRoundTrip(specs.wildcard, specs.dummies, specs.bonuses);
  }

  /** Two hints with different statistics never read alike. */
  lemma HintSentenceInjective(a: HintSpecs, b: HintSpecs)
    requires HintSentenceOf(a) == HintSentenceOf(b)
    ensures a == b
  {
    HintSentenceRoundTrip(a);
    HintSentenceRoundTrip(b);
  }
}
