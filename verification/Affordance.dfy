/** Affordance cards: what a tool declares about itself, and in which modes it may run. */
module Affordance {
  import opened Prelude
  import opened Router

  /** An absent text field is the empty string; an absent flag is `None`. */
  datatype Card = Card(
    name: string, purpose: string, reading: seq<string>, writing: seq<string>,
    external: Option<bool>, destructive: Option<bool>, reversible: Option<bool>,
    requiresApproval: Option<bool>, minMode: string)

  predicate Space(c: char) {
    '\U{9}' <= c <= '\U{D}' || '\U{1C}' <= c <= ' ' || c == '\U{85}' || c == '\U{A0}' || c == '\U{1680}'
    || '\U{2000}' <= c <= '\U{200A}' || c == '\U{2028}' || c == '\U{2029}' || c == '\U{202F}'
    || c == '\U{205F}' || c == '\U{3000}'
  }

  /** One by one, in the order of their code points. */
  const SPACES: string :=
    "\U{9}\U{A}\U{B}\U{C}\U{D}\U{1C}\U{1D}\U{1E}\U{1F} \U{85}\U{A0}\U{1680}" +
    "\U{2000}\U{2001}\U{2002}\U{2003}\U{2004}\U{2005}\U{2006}\U{2007}\U{2008}\U{2009}\U{200A}" +
    "\U{2028}\U{2029}\U{202F}\U{205F}\U{3000}"

  lemma SpaceIff(c: char)
    ensures Space(c) <==> c in SPACES
  {}

  /** `s.strip() == ""` */
  predicate Blank(s: string) { forall c | c in s :: Space(c) }

  predicate IsKnown(card: Card) {
    && !Blank(card.purpose)
    && (card.reading != [] || card.writing != [])
    && card.external.Some?
    && card.destructive.Some?
    && card.reversible.Some?
    && card.requiresApproval.Some?
    && card.minMode != ""
  }

  function Name(mode: Mode): string {
    match mode
    case FAST => "FAST"
    case THINK => "THINK"
    case GOVERN => "GOVERN"
  }

  /** The least rank a card accepts; a mode name nobody knows is out of reach. */
  function MinRank(minMode: string): nat {
    if minMode == "FAST" then 0 else if minMode == "THINK" then 1 else if minMode == "GOVERN" then 2 else 99
  }

  datatype Check = Allowed | Refused(reason: string)

  /** Every refusal names the tool in quotes. */
  function About(tool: string, rest: string): string {
    "HARAM: tool " + "'" + tool + "'" + rest
  }

  const CARDLESS := " has no affordance card (UNKNOWN = HOLD)"
  const INCOMPLETE := " has incomplete affordance card (UNKNOWN = HOLD)"
  const UNAPPROVED := " is destructive" + " but does not" + " require human approval"

  function ModeTooLow(minMode: string, requested: string): string {
    " requires min_mode" + "=" + minMode + "," + requested
  }

  function Requested(mode: Mode): string { " requested=" + Name(mode) }

  function CheckExecution(cards: map<string, Card>, tool: string, mode: Mode): Check {
    if tool !in cards then Refused(About(tool, CARDLESS))
    else if !IsKnown(cards[tool]) then Refused(About(tool, INCOMPLETE))
    else if mode.Rank() < MinRank(cards[tool].minMode) then
      Refused(About(tool, ModeTooLow(cards[tool].minMode, Requested(mode))))
    else if cards[tool].destructive.value && !cards[tool].requiresApproval.value then Refused(About(tool, UNAPPROVED))
    else Allowed
  }

  /** The refusals, word for word and in the order they are tried. */
  lemma RefusalsRead(cards: map<string, Card>, tool: string, mode: Mode)
    ensures var said := "HARAM: tool " + "'" + tool + "'";
            CheckExecution(cards, tool, mode) ==
              if tool !in cards then Refused(said + " has no affordance card (UNKNOWN = HOLD)")
              else if !IsKnown(cards[tool]) then Refused(said + " has incomplete affordance card (UNKNOWN = HOLD)")
              else if mode.Rank() < MinRank(cards[tool].minMode) then
                Refused(said + (" requires min_mode" + "=" + cards[tool].minMode + "," + (" requested=" +
                        (match mode case FAST => "FAST" case THINK => "THINK" case GOVERN => "GOVERN"))))
              else if cards[tool].destructive.value && !cards[tool].requiresApproval.value then
                Refused(said + (" is destructive" + " but does not" + " require human approval"))
              else Allowed
  {}

  /** A card is complete when its purpose says something, it reads or writes something, none of its
      four flags is left open and it names a mode. */
  lemma KnownIff(card: Card)
    ensures IsKnown(card) <==>
              && (exists i | 0 <= i < |card.purpose| :: !Space(card.purpose[i]))
              && |card.reading| + |card.writing| > 0
              && card.external != None && card.destructive != None
              && card.reversible != None && card.requiresApproval != None
              && |card.minMode| > 0
  {
    if c :| c in card.purpose && !Space(c) {
      var i :| 0 <= i < |card.purpose| && card.purpose[i] == c;
    }
  }

  /** A mode reaches a card's minimum when both are named in the order FAST, THINK, GOVERN; no mode
      reaches one that has another name. */
  lemma ReachesIff(minMode: string, mode: Mode)
    ensures MinRank(minMode) <= mode.Rank() <==>
              || minMode == "FAST"
              || (minMode == "THINK" && mode != FAST)
              || (minMode == "GOVERN" && mode == GOVERN)
  {}

  /** What a check says of a tool: allowed when its card is complete, the mode reaches it, and it is
      not destructive without asking for approval. */
  lemma AllowedIff(cards: map<string, Card>, tool: string, mode: Mode)
    ensures CheckExecution(cards, tool, mode) == Allowed <==>
              && tool in cards && IsKnown(cards[tool]) && MinRank(cards[tool].minMode) <= mode.Rank()
              && (cards[tool].destructive == Some(true) ==> cards[tool].requiresApproval == Some(true))
  {}

  /** The registry: cards under their own name, the last registration winning. */
  class AffordanceRegistry {
    var cards: map<string, Card>

    constructor ()
      ensures cards == map[]
    {
      cards := map[];
    }

    method Register(card: Card)
      modifies this
      ensures cards == old(cards)[card.name := card]
    {
      cards := cards[card.name := card];
    }
  }

  // ---- Hold or deny ----------------------------------------------------------

  /** A refusal is a HOLD, rather than a DENY, by what its text contains. */
  predicate ReadsAsHold(reason: string) {
    Contains(reason, "UNKNOWN") || Contains(reason, "no affordance card")
  }

  datatype Marker = Marker(text: string, letter: char)

  /** The two words that turn a refusal into a HOLD, each with a letter no other fixed text of
      the refusals has. */
  const UNKNOWN_MARK := Marker("UNKNOWN", 'U')
  const NO_CARD_MARK := Marker("no affordance card", 'f')

  predicate Marked(s: string) { Contains(s, UNKNOWN_MARK.text) || Contains(s, NO_CARD_MARK.text) }

  predicate Plain(m: Marker) {
    m.letter in m.text && '\'' !in m.text && ',' !in m.text && '=' !in m.text
  }

  predicate Lacks(text: string, c: char) { c !in text }

  lemma MarkersPlain()
    ensures Plain(UNKNOWN_MARK) && Plain(NO_CARD_MARK)
  {
    assert UNKNOWN_MARK.text[0] == 'U' && NO_CARD_MARK.text[4] == 'f';
  }

  lemma LeadLetters()
    ensures Lacks("HARAM: tool ", 'U') && Lacks("HARAM: tool ", 'f')
  {}

  lemma ModeLetters(mode: Mode)
    ensures Lacks(" requires min_mode", 'U') && Lacks(" requires min_mode", 'f')
    ensures Lacks(Requested(mode), 'U') && Lacks(Requested(mode), 'f')
  {}

  lemma UnapprovedLetters()
    ensures Lacks(UNAPPROVED, 'U') && Lacks(UNAPPROVED, 'f')
  {
    assert Lacks(" is destructive", 'U') && Lacks(" is destructive", 'f');
    assert Lacks(" but does not", 'U') && Lacks(" but does not", 'f');
  }

  lemma InQuotes(tool: string, rest: string, m: Marker)
    requires Plain(m) && Lacks("HARAM: tool ", m.letter)
    ensures Contains(About(tool, rest), m.text) <==> Contains(tool, m.text) || Contains(rest, m.text)
  {
    var lead := "HARAM: tool ";
    LetterMissing(lead, m.text, m.letter);
    ContainsAcross(lead + "'" + tool, '\'', rest, m.text);
    ContainsAcross(lead, '\'', tool, m.text);
  }

  lemma InMode(minMode: string, requested: string, m: Marker)
    requires Plain(m) && Lacks(" requires min_mode", m.letter) && Lacks(requested, m.letter)
    ensures Contains(ModeTooLow(minMode, requested), m.text) <==> Contains(minMode, m.text)
  {
    var lead := " requires min_mode";
    LetterMissing(lead, m.text, m.letter);
    LetterMissing(requested, m.text, m.letter);
    ContainsAcross(lead + "=" + minMode, ',', requested, m.text);
    ContainsAcross(lead, '=', minMode, m.text);
  }

  lemma HoldAbout(tool: string, rest: string)
    ensures ReadsAsHold(About(tool, rest)) <==> Marked(tool) || Marked(rest)
  {
    MarkersPlain();
    LeadLetters();
    InQuotes(tool, rest, UNKNOWN_MARK);
    InQuotes(tool, rest, NO_CARD_MARK);
  }

  lemma ModeTooLowMarked(minMode: string, mode: Mode)
    ensures Marked(ModeTooLow(minMode, Requested(mode))) <==> Marked(minMode)
  {
    MarkersPlain();
    ModeLetters(mode);
    InMode(minMode, Requested(mode), UNKNOWN_MARK);
    InMode(minMode, Requested(mode), NO_CARD_MARK);
  }

  lemma UnapprovedUnmarked()
    ensures !Marked(UNAPPROVED)
  {
    MarkersPlain();
    UnapprovedLetters();
    LetterMissing(UNAPPROVED, UNKNOWN_MARK.text, 'U');
    LetterMissing(UNAPPROVED, NO_CARD_MARK.text, 'f');
  }

  lemma CardlessMarked()
    ensures Marked(CARDLESS) && Marked(INCOMPLETE)
  {
    assert CARDLESS[25..32] == UNKNOWN_MARK.text;
    assert INCOMPLETE[33..40] == UNKNOWN_MARK.text;
    ContainsFrom(CARDLESS, UNKNOWN_MARK.text, 25);
    ContainsFrom(INCOMPLETE, UNKNOWN_MARK.text, 33);
  }

  /** Which refusals are held: those for a missing or incomplete card, as meant, and also any
      other whose tool name or minimum mode happens to spell one of the two markers. */
  lemma HoldIff(cards: map<string, Card>, tool: string, mode: Mode)
    requires CheckExecution(cards, tool, mode).Refused?
    ensures ReadsAsHold(CheckExecution(cards, tool, mode).reason) <==>
              || tool !in cards
              || !IsKnown(cards[tool])
              || Marked(tool)
              || (mode.Rank() < MinRank(cards[tool].minMode) && Marked(cards[tool].minMode))
  {
    CardlessMarked();
    UnapprovedUnmarked();
    HoldAbout(tool, CARDLESS);
    HoldAbout(tool, INCOMPLETE);
    HoldAbout(tool, UNAPPROVED);
    if tool in cards {
      ModeTooLowMarked(cards[tool].minMode, mode);
      HoldAbout(tool, ModeTooLow(cards[tool].minMode, Requested(mode)));
    }
  }
}
