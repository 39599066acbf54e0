/** The three-mode router: word-boundary keyword search, classification, stop rules. What counts
    as a word character and how a character is lowered are parameters, so the results hold for
    every alphabet in which a space lowers to itself and is no word character. */
module Router {
  import opened Prelude

  datatype Mode = FAST | THINK | GOVERN {
    function Rank(): nat {
      match this
      case FAST => 0
      case THINK => 1
      case GOVERN => 2
    }
  }

  datatype Budget = Budget(maxSteps: int, maxTools: int)

  datatype Alphabet = Alphabet(lower: char -> string, isWord: char -> bool) {
    ghost predicate Spaced() { lower(' ') == " " && !isWord(' ') }
  }

  // ---- Keyword search --------------------------------------------------------

  function Lower(al: Alphabet, text: string): string {
    if text == "" then "" else al.lower(text[0]) + Lower(al, text[1..])
  }

  predicate WordAt(al: Alphabet, s: string, i: int) {
    0 <= i < |s| && al.isWord(s[i])
  }

  /** The zero-width assertion \b. */
  predicate Boundary(al: Alphabet, s: string, i: int) {
    WordAt(al, s, i - 1) != WordAt(al, s, i)
  }

  predicate MatchesAt(al: Alphabet, s: string, kw: string, i: int) {
    OccursAt(s, kw, i) && Boundary(al, s, i) && Boundary(al, s, i + |kw|)
  }

  /** `re.search(r"\b" + re.escape(kw) + r"\b", s)` */
  predicate Matches(al: Alphabet, s: string, kw: string) {
    exists i | 0 <= i <= |s| :: MatchesAt(al, s, kw, i)
  }

  predicate ContainsAny(al: Alphabet, text: string, keywords: seq<string>) {
    exists kw | kw in keywords :: Matches(al, Lower(al, text), kw)
  }

  const EXTERNAL: seq<string> := [
    "send", "email", "publish", "deploy", "post", "transfer", "pay", "buy", "sell",
    "commit", "push", "merge", "release", "announce"]

  const IRREVERSIBLE: seq<string> := [
    "delete", "drop", "truncate", "remove permanently", "force push", "rebase", "destroy",
    "purge", "revoke", "terminate", "cancel subscription"]

  const REPUTATION: seq<string> := [
    "public", "press", "announce", "customer", "client", "reputation", "legal", "lawsuit",
    "compliance", "regulatory", "media"]

  const ANALYSIS: seq<string> := [
    "compare", "audit", "critique", "assess", "diagnose", "plan", "strategy", "risk", "risks",
    "architecture", "why", "analyze", "evaluate", "review", "design", "trade-off", "tradeoff",
    "pros and cons", "should i", "what if", "recommend", "suggest approach", "how should",
    "uncertain", "ambiguous", "complex", "investigate"]

  const AMBIGUITY: seq<string> := [
    "not sure", "unclear", "ambiguous", "depends", "either way", "trade-off", "tradeoff",
    "pros and cons", "what should", "which is better"]

  // ---- Classification --------------------------------------------------------

  /** The three lists that demand GOVERN and the two that demand THINK, in the order tried. */
  datatype Lists = Lists(
    external: seq<string>, irreversible: seq<string>, reputation: seq<string>,
    analysis: seq<string>, ambiguity: seq<string>)

  function Classify(al: Alphabet, input: string, ks: Lists): Mode {
    if ContainsAny(al, input, ks.external) then GOVERN
    else if ContainsAny(al, input, ks.irreversible) then GOVERN
    else if ContainsAny(al, input, ks.reputation) then GOVERN
    else if ContainsAny(al, input, ks.analysis) then THINK
    else if ContainsAny(al, input, ks.ambiguity) then THINK
    else FAST
  }

  const KEYWORDS := Lists(EXTERNAL, IRREVERSIBLE, REPUTATION, ANALYSIS, AMBIGUITY)

  function ClassifyTask(al: Alphabet, input: string): Mode { Classify(al, input, KEYWORDS) }

  datatype Reason =
    | ExternalSideEffect | IrreversibleAction | ReputationRisk
    | AnalysisRequested | AmbiguityDetected | SimpleTask

  function ClassifyReason(al: Alphabet, text: string, mode: Mode): Reason {
    if mode == GOVERN && ContainsAny(al, text, EXTERNAL) then ExternalSideEffect
    else if mode == GOVERN && ContainsAny(al, text, IRREVERSIBLE) then IrreversibleAction
    else if mode == GOVERN && ContainsAny(al, text, REPUTATION) then ReputationRisk
    else if mode == THINK && ContainsAny(al, text, ANALYSIS) then AnalysisRequested
    else if mode == THINK && ContainsAny(al, text, AMBIGUITY) then AmbiguityDetected
    else SimpleTask
  }

  /** The reason reported for a routed input is simple_task exactly when its mode is FAST. */
  lemma SimpleTaskIffFast(al: Alphabet, input: string)
    ensures ClassifyReason(al, input, ClassifyTask(al, input)) == SimpleTask <==> ClassifyTask(al, input) == FAST
  {}

  /** Some keyword matches the lowered input. */
  predicate Names(al: Alphabet, input: string, keywords: seq<string>) {
    exists i | 0 <= i < |keywords| :: Matches(al, Lower(al, input), keywords[i])
  }

  lemma NamesIff(al: Alphabet, input: string, keywords: seq<string>)
    ensures Names(al, input, keywords) <==> ContainsAny(al, input, keywords)
  {
    if Names(al, input, keywords) {
      var i :| 0 <= i < |keywords| && Matches(al, Lower(al, input), keywords[i]);
      assert keywords[i] in keywords;
    }
  }

  /** What each mode says about the input, list by list: GOVERN exactly when it names an external,
      an irreversible or a reputation keyword; THINK exactly when it names none of these but one
      of analysis or ambiguity; FAST exactly when it names none at all. */
  lemma ModeIff(al: Alphabet, input: string)
    ensures var govern := Names(al, input, EXTERNAL) || Names(al, input, IRREVERSIBLE) || Names(al, input, REPUTATION);
            var think := Names(al, input, ANALYSIS) || Names(al, input, AMBIGUITY);
            && (ClassifyTask(al, input) == GOVERN <==> govern)
            && (ClassifyTask(al, input) == THINK <==> !govern && think)
            && (ClassifyTask(al, input) == FAST <==> !govern && !think)
  {
    NamesIff(al, input, EXTERNAL);
    NamesIff(al, input, IRREVERSIBLE);
    NamesIff(al, input, REPUTATION);
    NamesIff(al, input, ANALYSIS);
    NamesIff(al, input, AMBIGUITY);
  }

  /** The reason reported is a list the input names, and the first of the five that it does. */
  lemma ReasonIsFirstNamed(al: Alphabet, input: string)
    ensures ClassifyReason(al, input, ClassifyTask(al, input)) ==
              if Names(al, input, EXTERNAL) then ExternalSideEffect
              else if Names(al, input, IRREVERSIBLE) then IrreversibleAction
              else if Names(al, input, REPUTATION) then ReputationRisk
              else if Names(al, input, ANALYSIS) then AnalysisRequested
              else if Names(al, input, AMBIGUITY) then AmbiguityDetected
              else SimpleTask
  {
    NamesIff(al, input, EXTERNAL);
    NamesIff(al, input, IRREVERSIBLE);
    NamesIff(al, input, REPUTATION);
    NamesIff(al, input, ANALYSIS);
    NamesIff(al, input, AMBIGUITY);
  }

  predicate WordLike(al: Alphabet, kw: string) {
    kw != "" && al.isWord(kw[0]) && al.isWord(kw[|kw| - 1])
  }

  /** Here `kw` stands alone: no word character goes before it or comes after it. */
  predicate Alone(al: Alphabet, a: string, b: string) {
    (a == "" || !al.isWord(a[|a| - 1])) && (b == "" || !al.isWord(b[0]))
  }

  lemma MatchesAtIffAlone(al: Alphabet, a: string, kw: string, b: string)
    requires WordLike(al, kw)
    ensures MatchesAt(al, a + kw + b, kw, |a|) <==> Alone(al, a, b)
  {
    var s := a + kw + b;
    assert s[|a|..|a| + |kw|] == kw;
    EndsOf(s, kw, |a|);
    assert a != "" ==> s[|a| - 1] == a[|a| - 1];
    assert b != "" ==> s[|a| + |kw|] == b[0];
  }

  /** A keyword that begins and ends with word characters matches exactly when it stands alone
      somewhere. */
  lemma MatchesIffAlone(al: Alphabet, s: string, kw: string)
    requires WordLike(al, kw)
    ensures Matches(al, s, kw) <==> exists a, b :: s == a + kw + b && Alone(al, a, b)
  {
    if Matches(al, s, kw) {
      var i :| 0 <= i <= |s| && MatchesAt(al, s, kw, i);
      assert s == s[..i] + kw + s[i + |kw|..];
      MatchesAtIffAlone(al, s[..i], kw, s[i + |kw|..]);
    }
    if a, b :| s == a + kw + b && Alone(al, a, b) {
      MatchesAtIffAlone(al, a, kw, b);
      assert MatchesAt(al, s, kw, |a|);
    }
  }

  lemma EndsOf(s: string, kw: string, i: int)
    requires OccursAt(s, kw, i) && kw != ""
    ensures s[i] == kw[0] && s[i + |kw| - 1] == kw[|kw| - 1]
  {
    assert s[i..i + |kw|][0] == s[i];
    assert s[i..i + |kw|][|kw| - 1] == s[i + |kw| - 1];
  }

  /** An alphabet that agrees with ASCII on small letters. */
  ghost predicate Ascii(al: Alphabet) {
    al.Spaced() && forall c | 'a' <= c <= 'z' :: al.lower(c) == [c] && al.isWord(c)
  }

  lemma {:induction false} LowerKeeps(al: Alphabet, text: string)
    requires Ascii(al) && (forall c | c in text :: c == ' ' || 'a' <= c <= 'z')
    ensures Lower(al, text) == text
  {
    if text != "" {
      assert text[0] in text && forall c | c in text[1..] :: c in text;
      LowerKeeps(al, text[1..]);
    }
  }

  /** A request to delete, whatever follows, is GOVERN, for being irreversible if nothing else. */
  lemma DeletingIsGovern(al: Alphabet, what: string)
    requires Ascii(al)
    ensures ClassifyTask(al, "delete " + what) == GOVERN
  {
    LowerConcat(al, "delete ", what);
    LowerKeeps(al, "delete ");
    var text := Lower(al, "delete " + what);
    assert text == "" + "delete" + (" " + Lower(al, what));
    MatchesIffAlone(al, text, "delete");
    assert Alone(al, "", " " + Lower(al, what));
    assert IRREVERSIBLE[0] == "delete";
    ModeIff(al, "delete " + what);
  }

  // ---- Context never lowers a mode -------------------------------------------

  lemma {:induction false} LowerConcat(al: Alphabet, x: string, y: string)
    ensures Lower(al, x + y) == Lower(al, x) + Lower(al, y)
  {
    if x == "" {
      assert x + y == y;
    } else {
      LowerConcat(al, x[1..], y);
      assert (x + y)[1..] == x[1..] + y;
    }
  }

  lemma LowerOne(al: Alphabet, c: char)
    ensures Lower(al, [c]) == al.lower(c)
  {
    assert [c][1..] == "";
  }

  lemma LowerJoin(al: Alphabet, x: string, y: string)
    requires al.Spaced()
    ensures Lower(al, x + " " + y) == Lower(al, x) + " " + Lower(al, y)
  {
    LowerConcat(al, x + " ", y);
    LowerConcat(al, x, " ");
    assert " "[1..] == "";
    assert Lower(al, " ") == al.lower(' ') + Lower(al, "");
  }

  /** Word characters seen from inside a joined text: the joining space is none, and each side
      sees what it saw alone. */
  lemma WordAtJoin(al: Alphabet, x: string, y: string, i: int)
    requires al.Spaced()
    ensures i <= |x| ==> WordAt(al, x + " " + y, i) == WordAt(al, x, i)
    ensures |x| <= i ==> WordAt(al, x + " " + y, i) == WordAt(al, y, i - |x| - 1)
  {
    var s := x + " " + y;
    if 0 <= i < |x| {
      assert s[i] == x[i];
    } else if i == |x| {
      assert s[i] == ' ';
    } else if |x| < i < |s| {
      assert s[i] == y[i - |x| - 1];
    }
  }

  lemma MatchInLeft(al: Alphabet, x: string, y: string, kw: string, i: int)
    requires al.Spaced() && 0 <= i && i + |kw| <= |x|
    ensures MatchesAt(al, x, kw, i) <==> MatchesAt(al, x + " " + y, kw, i)
  {
    var s := x + " " + y;
    assert s[i..i + |kw|] == x[i..i + |kw|];
    WordAtJoin(al, x, y, i - 1);
    WordAtJoin(al, x, y, i);
    WordAtJoin(al, x, y, i + |kw| - 1);
    WordAtJoin(al, x, y, i + |kw|);
  }

  lemma MatchInRight(al: Alphabet, x: string, y: string, kw: string, i: int)
    requires al.Spaced() && 0 <= i && i + |kw| <= |y|
    ensures MatchesAt(al, y, kw, i) <==> MatchesAt(al, x + " " + y, kw, |x| + 1 + i)
  {
    var s, j := x + " " + y, |x| + 1 + i;
    assert s[j..j + |kw|] == y[i..i + |kw|];
    WordAtJoin(al, x, y, j - 1);
    WordAtJoin(al, x, y, j);
    WordAtJoin(al, x, y, j + |kw| - 1);
    WordAtJoin(al, x, y, j + |kw|);
  }

  /** A match that covers the joining space. */
  predicate Straddles(al: Alphabet, x: string, y: string, kw: string) {
    exists i | 0 <= i <= |x| :: |x| < i + |kw| && MatchesAt(al, x + " " + y, kw, i)
  }

  lemma MatchesEither(al: Alphabet, x: string, y: string, kw: string)
    requires al.Spaced()
    ensures Matches(al, x, kw) || Matches(al, y, kw) ==> Matches(al, x + " " + y, kw)
  {
    var s := x + " " + y;
    if Matches(al, x, kw) {
      var i :| 0 <= i <= |x| && MatchesAt(al, x, kw, i);
      MatchInLeft(al, x, y, kw, i);
      assert MatchesAt(al, s, kw, i);
    } else if Matches(al, y, kw) {
      var i :| 0 <= i <= |y| && MatchesAt(al, y, kw, i);
      MatchInRight(al, x, y, kw, i);
      assert MatchesAt(al, s, kw, |x| + 1 + i);
    }
  }

  lemma MatchSomewhere(al: Alphabet, x: string, y: string, kw: string, i: int)
    requires al.Spaced() && MatchesAt(al, x + " " + y, kw, i)
    ensures Matches(al, x, kw) || Matches(al, y, kw) || Straddles(al, x, y, kw)
  {
    if i + |kw| <= |x| {
      MatchInLeft(al, x, y, kw, i);
    } else if |x| < i {
      MatchInRight(al, x, y, kw, i - |x| - 1);
      assert MatchesAt(al, y, kw, i - |x| - 1);
    }
  }

  /** A joined text matches a keyword exactly when one side does or the match lies across the
      join; the last needs a space in the keyword. */
  lemma MatchesJoin(al: Alphabet, x: string, y: string, kw: string)
    requires al.Spaced() && kw != ""
    ensures Matches(al, x + " " + y, kw)
       <==> Matches(al, x, kw) || Matches(al, y, kw) || Straddles(al, x, y, kw)
    ensures Straddles(al, x, y, kw) ==> ' ' in kw
  {
    var s := x + " " + y;
    MatchesEither(al, x, y, kw);
    if Matches(al, s, kw) {
      var i :| 0 <= i <= |s| && MatchesAt(al, s, kw, i);
      MatchSomewhere(al, x, y, kw, i);
    }
    if Straddles(al, x, y, kw) {
      var i :| 0 <= i <= |x| && |x| < i + |kw| && MatchesAt(al, s, kw, i);
      assert s[|x|] == ' ';
      CharInOccurrence(s, kw, i, |x|);
    }
  }

  predicate NonEmpty(keywords: seq<string>) { forall kw | kw in keywords :: kw != "" }

  predicate AllNonEmpty(ks: Lists) {
    && NonEmpty(ks.external) && NonEmpty(ks.irreversible) && NonEmpty(ks.reputation)
    && NonEmpty(ks.analysis) && NonEmpty(ks.ambiguity)
  }

  lemma GovernWords()
    ensures NonEmpty(EXTERNAL) && NonEmpty(IRREVERSIBLE) && NonEmpty(REPUTATION)
  {}

  lemma ThinkWords()
    ensures NonEmpty(ANALYSIS) && NonEmpty(AMBIGUITY)
  {}

  lemma KeywordsNonEmpty()
    ensures AllNonEmpty(KEYWORDS)
  {
    GovernWords();
    ThinkWords();
  }

  lemma ContainsJoin(al: Alphabet, x: string, y: string, keywords: seq<string>)
    requires al.Spaced() && NonEmpty(keywords)
    ensures ContainsAny(al, x, keywords) || ContainsAny(al, y, keywords) ==> ContainsAny(al, x + " " + y, keywords)
    ensures ContainsAny(al, x + " " + y, keywords) ==>
              ContainsAny(al, x, keywords) || ContainsAny(al, y, keywords) || Across(al, x, y, keywords)
  {
    LowerJoin(al, x, y);
    forall kw | kw in keywords
      ensures Matches(al, Lower(al, x + " " + y), kw)
         <==> Matches(al, Lower(al, x), kw) || Matches(al, Lower(al, y), kw)
              || Straddles(al, Lower(al, x), Lower(al, y), kw)
      ensures Straddles(al, Lower(al, x), Lower(al, y), kw) ==> ' ' in kw
    {
      MatchesJoin(al, Lower(al, x), Lower(al, y), kw);
    }
  }

  lemma JoinNeverLowersBy(al: Alphabet, x: string, y: string, ks: Lists)
    requires al.Spaced() && AllNonEmpty(ks)
    ensures Classify(al, x, ks).Rank() <= Classify(al, x + " " + y, ks).Rank()
    ensures Classify(al, y, ks).Rank() <= Classify(al, x + " " + y, ks).Rank()
  {
    ContainsJoin(al, x, y, ks.external);
    ContainsJoin(al, x, y, ks.irreversible);
    ContainsJoin(al, x, y, ks.reputation);
    ContainsJoin(al, x, y, ks.analysis);
    ContainsJoin(al, x, y, ks.ambiguity);
  }

  /** Joining texts with a space never lowers the mode of either. */
  lemma JoinNeverLowers(al: Alphabet, x: string, y: string)
    requires al.Spaced()
    ensures ClassifyTask(al, x).Rank() <= ClassifyTask(al, x + " " + y).Rank()
    ensures ClassifyTask(al, y).Rank() <= ClassifyTask(al, x + " " + y).Rank()
  {
    KeywordsNonEmpty();
    JoinNeverLowersBy(al, x, y, KEYWORDS);
  }

  /** Text placed before and after an input, separated by spaces, never lowers its mode: no
      padding talks the router down. */
  lemma ContextNeverLowers(al: Alphabet, before: string, input: string, after: string)
    requires al.Spaced()
    ensures ClassifyTask(al, input).Rank() <= ClassifyTask(al, before + " " + input + " " + after).Rank()
  {
    JoinNeverLowers(al, before, input);
    JoinNeverLowers(al, before + " " + input, after);
  }

  predicate Across(al: Alphabet, x: string, y: string, keywords: seq<string>) {
    exists kw | kw in keywords :: ' ' in kw && Straddles(al, Lower(al, x), Lower(al, y), kw)
  }

  predicate PhraseAcross(al: Alphabet, x: string, y: string, ks: Lists) {
    || Across(al, x, y, ks.external) || Across(al, x, y, ks.irreversible) || Across(al, x, y, ks.reputation)
    || Across(al, x, y, ks.analysis) || Across(al, x, y, ks.ambiguity)
  }

  function Higher(m: Mode, n: Mode): Mode { if m.Rank() < n.Rank() then n else m }

  lemma JoinIsMaxUnlessAcrossBy(al: Alphabet, x: string, y: string, ks: Lists)
    requires al.Spaced() && AllNonEmpty(ks) && !PhraseAcross(al, x, y, ks)
    ensures Classify(al, x + " " + y, ks) == Higher(Classify(al, x, ks), Classify(al, y, ks))
  {
    ContainsJoin(al, x, y, ks.external);
    ContainsJoin(al, x, y, ks.irreversible);
    ContainsJoin(al, x, y, ks.reputation);
    ContainsJoin(al, x, y, ks.analysis);
    ContainsJoin(al, x, y, ks.ambiguity);
  }

  /** And joining raises the mode above both sides only when a keyword of several words lies
      across the join. */
  lemma JoinIsMaxUnlessAcross(al: Alphabet, x: string, y: string)
    requires al.Spaced() && !PhraseAcross(al, x, y, KEYWORDS)
    ensures ClassifyTask(al, x + " " + y) == Higher(ClassifyTask(al, x), ClassifyTask(al, y))
  {
    KeywordsNonEmpty();
    JoinIsMaxUnlessAcrossBy(al, x, y, KEYWORDS);
  }

  // ---- Stop rules ------------------------------------------------------------

  datatype Gain = High | Medium | Low | Unknown

  datatype AgentState = AgentState(
    stepCount: int, toolCount: int, answerSufficient: bool, riskUnresolved: bool, gain: Gain, repeats: int)

  datatype Stop = Go | AnswerSufficient | MaxSteps | MaxTools | LowGain | ReasoningLoop

  function ShouldStop(a: AgentState, b: Budget): Stop {
    if a.answerSufficient && !a.riskUnresolved then AnswerSufficient
    else if a.stepCount >= b.maxSteps then MaxSteps
    else if a.toolCount >= b.maxTools then MaxTools
    else if a.gain == Low then LowGain
    else if a.repeats >= 2 then ReasoningLoop
    else Go
  }

  /** When an agent goes on: with an answer that is insufficient or leaves a risk, steps and tools left
      in the budget, no known low gain and fewer than two repeats; and else the first of these that
      fails is the reason. */
  lemma StopsFor(a: AgentState, b: Budget)
    ensures var r := ShouldStop(a, b);
            && (r == AnswerSufficient <==> a.answerSufficient && !a.riskUnresolved)
            && (r == MaxSteps <==> !(a.answerSufficient && !a.riskUnresolved) && b.maxSteps <= a.stepCount)
            && (r == Go <==>
                  && (!a.answerSufficient || a.riskUnresolved) && a.stepCount < b.maxSteps && a.toolCount < b.maxTools
                  && a.gain != Low && a.repeats < 2)
            && (r == MaxTools ==> b.maxTools <= a.toolCount && a.stepCount < b.maxSteps)
            && (r == LowGain ==> a.gain == Low && a.toolCount < b.maxTools && a.stepCount < b.maxSteps)
            && (r == ReasoningLoop ==>
                  a.repeats >= 2 && a.gain != Low && a.toolCount < b.maxTools && a.stepCount < b.maxSteps)
  {}
}
