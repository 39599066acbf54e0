/** The front-door guard: every tool call is classified, checked against two budgets and the
    tool's card, traced, and only then run. */
module Guard {
  import opened Affordance
  import opened Prelude
  import opened Router

  datatype Decision = STOP | ALLOW | DENY | HOLD

  datatype Outcome = Blocked | Held | Success | Failure | DryRun

  datatype Why = Stopped(stop: Stop) | Cardwise(text: string) | SessionBudget | NeedsApproval | Fine

  datatype Trace = Trace(
    mode: Mode, tool: string, decision: Decision, why: Why, outcome: Outcome, toolsUsed: nat, stepsUsed: nat)

  datatype Session = Session(mode: Mode, budget: Budget, toolsUsed: nat, stepsUsed: nat, calls: seq<Trace>)

  datatype Setting = Setting(alphabet: Alphabet, budgets: Mode -> Budget)

  datatype State = State(cards: map<string, Card>, sessions: map<string, Session>)

  /** A guarded call; `execute` is absent for a dry run, else whether the tool succeeds. */
  datatype Call = Call(input: string, tool: string, id: string, execute: Option<bool>)

  // ---- One call, as a function -----------------------------------------------

  datatype Verdict = Verdict(decision: Decision, why: Why)

  /** The permission of a call, with the session whose budget it draws on, if it names one. */
  function Permission(cards: map<string, Card>, tool: string, mode: Mode, named: Option<Session>): Verdict {
    match CheckExecution(cards, tool, mode)
    case Refused(text) => Verdict(if ReadsAsHold(text) then HOLD else DENY, Cardwise(text))
    case Allowed =>
      if named.Some? && named.value.toolsUsed >= named.value.budget.maxTools then Verdict(DENY, SessionBudget)
      else Verdict(ALLOW, Fine)
  }

  function Judge(cards: map<string, Card>, tool: string, mode: Mode, budget: Budget, id: string, s: Session): Verdict {
    var stop := ShouldStop(AgentState(s.stepsUsed, s.toolsUsed, false, false, Unknown, 0), budget);
    if stop != Go then Verdict(STOP, Stopped(stop))
    else
      var v := Permission(cards, tool, mode, if id == "" then None else Some(s));
      if v.decision == ALLOW && mode == GOVERN && cards[tool].requiresApproval.value then Verdict(HOLD, NeedsApproval)
      else v
  }

  function OutcomeOf(v: Verdict, execute: Option<bool>): Outcome {
    if v.decision != ALLOW then (if v.why == NeedsApproval then Held else Blocked)
    else match execute
      case None => DryRun
      case Some(ok) => if ok then Success else Failure
  }

  /** A session is opened by its first call, with that call's mode and budget. */
  function Entered(setting: Setting, st: State, id: string, mode: Mode): State {
    if id in st.sessions then st
    else st.(sessions := st.sessions[id := Session(mode, setting.budgets(mode), 0, 0, [])])
  }

  /** The trace of a verdict: an allowed call already counts itself among the tools used. */
  function Traced(c: Call, mode: Mode, v: Verdict, toolsUsed: nat, stepsUsed: nat): Trace {
    Trace(mode, c.tool, v.decision, v.why, OutcomeOf(v, c.execute),
          if v.decision == ALLOW then toolsUsed + 1 else toolsUsed, stepsUsed)
  }

  function TraceOf(setting: Setting, st: State, c: Call): Trace {
    var mode := ClassifyTask(setting.alphabet, c.input);
    var s := Entered(setting, st, c.id, mode).sessions[c.id];
    var v := Judge(st.cards, c.tool, mode, setting.budgets(mode), c.id, s);
    Traced(c, mode, v, s.toolsUsed, s.stepsUsed)
  }

  function Recorded(s: Session, t: Trace): Session {
    s.(calls := s.calls + [t], toolsUsed := s.toolsUsed + 1,
       stepsUsed := if t.decision == ALLOW then s.stepsUsed + 1 else s.stepsUsed)
  }

  function Noted(st: State, id: string, t: Trace): State
    requires id in st.sessions
  {
    st.(sessions := st.sessions[id := Recorded(st.sessions[id], t)])
  }

  function AfterCall(setting: Setting, st: State, c: Call): State {
    Noted(Entered(setting, st, c.id, ClassifyTask(setting.alphabet, c.input)), c.id, TraceOf(setting, st, c))
  }

  // ---- The guard itself ------------------------------------------------------

  class SessionState {
    const sessionId: string
    const mode: Mode
    const budget: Budget
    var toolsUsed: nat
    var stepsUsed: nat
    var toolCalls: seq<Trace>

    ghost function View(): Session
      reads this
    {
      Session(mode, budget, toolsUsed, stepsUsed, toolCalls)
    }

    constructor (sessionId: string, mode: Mode, budget: Budget)
      ensures this.sessionId == sessionId && View() == Session(mode, budget, 0, 0, [])
    {
      this.sessionId, this.mode, this.budget := sessionId, mode, budget;
      toolsUsed, stepsUsed, toolCalls := 0, 0, [];
    }

    method RecordToolCall(t: Trace)
      modifies this
      ensures View() == old(View()).(calls := old(toolCalls) + [t], toolsUsed := old(toolsUsed) + 1)
    {
      toolCalls := toolCalls + [t];
      toolsUsed := toolsUsed + 1;
    }

    method RecordStep()
      modifies this
      ensures View() == old(View()).(stepsUsed := old(stepsUsed) + 1)
    {
      stepsUsed := stepsUsed + 1;
    }

    method RecordCall(t: Trace)
      modifies this
      ensures View() == Recorded(old(View()), t)
    {
      RecordToolCall(t);
      if t.decision == ALLOW {
        RecordStep();
      }
    }
  }

  class MCPGuard {
    const setting: Setting
    const registry: AffordanceRegistry
    var sessions: map<string, SessionState>

    ghost predicate Valid()
      reads this, sessions.Values
    {
      forall id | id in sessions :: sessions[id].sessionId == id
    }

    ghost function View(): State
      reads this, registry, sessions.Values
    {
      State(registry.cards, map id | id in sessions :: sessions[id].View())
    }

    constructor (setting: Setting, registry: AffordanceRegistry)
      ensures Valid() && this.setting == setting && this.registry == registry
      ensures View() == State(registry.cards, map[])
    {
      this.setting, this.registry, sessions := setting, registry, map[];
    }

    method OpenSession(id: string, mode: Mode)
      requires Valid() && id !in sessions
      modifies this
      ensures Valid() && sessions.Keys == old(sessions).Keys + {id} && fresh(sessions[id])
      ensures forall other | other in old(sessions) :: sessions[other] == old(sessions[other])
      ensures sessions[id].View() == Session(mode, setting.budgets(mode), 0, 0, [])
    {
      var started := new SessionState(id, mode, setting.budgets(mode));
      sessions := sessions[id := started];
    }

    /** A session is opened by its first call. */
    method EnsureSession(id: string, mode: Mode) returns (s: SessionState)
      requires Valid()
      modifies this
      ensures Valid() && id in sessions && sessions[id] == s
      ensures fresh(sessions.Values - old(sessions.Values))
      ensures View() == Entered(setting, old(View()), id, mode)
    {
      if id !in sessions {
        OpenSession(id, mode);
        assert View().sessions == old(View()).sessions[id := sessions[id].View()];
      }
      s := sessions[id];
    }

    /** The session a call names: none for an absent, empty or unknown id. */
    ghost function Named(id: Option<string>): Option<Session>
      reads this, sessions.Values
    {
      if id.Some? && id.value != "" && id.value in sessions then Some(sessions[id.value].View()) else None
    }

    method CheckPermission(tool: string, mode: Mode, id: Option<string>) returns (v: Verdict)
      ensures v == Permission(registry.cards, tool, mode, Named(id))
      ensures v.decision == ALLOW ==> tool in registry.cards && IsKnown(registry.cards[tool])
    {
      var check := CheckExecution(registry.cards, tool, mode);
      if check.Refused? {
        return Verdict(if ReadsAsHold(check.reason) then HOLD else DENY, Cardwise(check.reason));
      }
      if id.Some? && id.value != "" && id.value in sessions {
        var s := sessions[id.value];
        if s.toolsUsed >= s.budget.maxTools {
          return Verdict(DENY, SessionBudget);
        }
      }
      v := Verdict(ALLOW, Fine);
    }

    method Decide(c: Call, mode: Mode, s: SessionState) returns (v: Verdict)
      requires Valid() && c.id in sessions && sessions[c.id] == s
      ensures v == Judge(registry.cards, c.tool, mode, setting.budgets(mode), c.id, s.View())
    {
      var stop := ShouldStop(AgentState(s.stepsUsed, s.toolsUsed, false, false, Unknown, 0), setting.budgets(mode));
      if stop != Go {
        return Verdict(STOP, Stopped(stop));
      }
      v := CheckPermission(c.tool, mode, Some(c.id));
      if v.decision == ALLOW && mode == GOVERN && registry.cards[c.tool].requiresApproval.value {
        v := Verdict(HOLD, NeedsApproval);
      }
    }

    method Record(id: string, s: SessionState, t: Trace)
      requires Valid() && id in sessions && sessions[id] == s
      modifies s
      ensures Valid()
      ensures View() == Noted(old(View()), id, t)
    {
      assert forall other | other in sessions && other != id :: sessions[other] != s;
      s.RecordCall(t);
      assert View().sessions == old(View()).sessions[id := s.View()];
    }

    /** The whole guard state after a call is the function of the state before it. */
    method GuardedCall(c: Call) returns (t: Trace)
      requires Valid()
      modifies this, sessions.Values
      ensures Valid() && fresh(sessions.Values - old(sessions.Values))
      ensures t == TraceOf(setting, old(View()), c)
      ensures View() == AfterCall(setting, old(View()), c)
    {
      var mode := ClassifyTask(setting.alphabet, c.input);
      var s := EnsureSession(c.id, mode);
      assert s.View() == View().sessions[c.id];
      var v := Decide(c, mode, s);
      t := Traced(c, mode, v, s.toolsUsed, s.stepsUsed);
      Record(c.id, s, t);
    }
  }

  // ---- When a call runs ------------------------------------------------------

  /** Room in the budget of the call's own mode and, for a named session, in the session's. */
  predicate HasRoom(setting: Setting, st: State, c: Call) {
    var mode := ClassifyTask(setting.alphabet, c.input);
    var s := Entered(setting, st, c.id, mode).sessions[c.id];
    && s.stepsUsed < setting.budgets(mode).maxSteps
    && s.toolsUsed < setting.budgets(mode).maxTools
    && (c.id == "" || s.toolsUsed < s.budget.maxTools)
  }

  /** A call runs exactly when the budgets have room, its card is complete and reaches the
      call's mode, and nothing in it waits for a human. */
  lemma AllowIff(setting: Setting, st: State, c: Call)
    ensures TraceOf(setting, st, c).decision == ALLOW <==>
              var mode := ClassifyTask(setting.alphabet, c.input);
              && HasRoom(setting, st, c)
              && c.tool in st.cards && IsKnown(st.cards[c.tool])
              && MinRank(st.cards[c.tool].minMode) <= mode.Rank()
              && (st.cards[c.tool].requiresApproval.value ==> mode != GOVERN)
              && (st.cards[c.tool].destructive.value ==> st.cards[c.tool].requiresApproval.value)
  {}

  /** STOP exactly when the budget of the call's own mode is spent. */
  lemma StopIff(setting: Setting, st: State, c: Call)
    ensures TraceOf(setting, st, c).decision == STOP <==>
              var mode := ClassifyTask(setting.alphabet, c.input);
              var s := Entered(setting, st, c.id, mode).sessions[c.id];
              s.stepsUsed >= setting.budgets(mode).maxSteps || s.toolsUsed >= setting.budgets(mode).maxTools
  {}

  /** HOLD for a human only in a GOVERN call on a card that passed; any other HOLD is for a card that
      is missing or incomplete, or for a name that spells a marker. */
  lemma HoldMeans(setting: Setting, st: State, c: Call)
    requires TraceOf(setting, st, c).decision == HOLD
    ensures var mode := ClassifyTask(setting.alphabet, c.input);
            if TraceOf(setting, st, c).why == NeedsApproval then
              mode == GOVERN && CheckExecution(st.cards, c.tool, mode) == Allowed
            else
              CheckExecution(st.cards, c.tool, mode).Refused?
              && (c.tool !in st.cards || !IsKnown(st.cards[c.tool]) || Marked(c.tool)
                  || Marked(st.cards[c.tool].minMode))
  {
    var mode := ClassifyTask(setting.alphabet, c.input);
    if CheckExecution(st.cards, c.tool, mode).Refused? {
      HoldIff(st.cards, c.tool, mode);
    }
  }

  /** A call whose card was refused, the budget having room, is held or denied: held when the card is
      missing or incomplete, or when the tool, or a minimum mode that was not reached, spells a
      marker. */
  lemma RefusedIsHeldIff(setting: Setting, st: State, c: Call)
    requires TraceOf(setting, st, c).decision != STOP
    requires CheckExecution(st.cards, c.tool, ClassifyTask(setting.alphabet, c.input)).Refused?
    ensures var mode := ClassifyTask(setting.alphabet, c.input);
            TraceOf(setting, st, c).decision ==
              if || c.tool !in st.cards || !IsKnown(st.cards[c.tool]) || Marked(c.tool)
                 || (mode.Rank() < MinRank(st.cards[c.tool].minMode) && Marked(st.cards[c.tool].minMode))
              then HOLD else DENY
  {
    HoldIff(st.cards, c.tool, ClassifyTask(setting.alphabet, c.input));
  }

  /** A tool is run, for real or dry, for no decision but ALLOW; the outcome says how it went, and
      otherwise whether the call waits for a human. */
  lemma RunsIffAllowed(setting: Setting, st: State, c: Call)
    ensures var t := TraceOf(setting, st, c);
            && (t.outcome in {Success, Failure, DryRun} <==> t.decision == ALLOW)
            && (t.decision == ALLOW ==>
                  && (t.outcome == DryRun <==> c.execute == None)
                  && (t.outcome == Success <==> c.execute == Some(true)))
            && (t.outcome == Held <==> t.why == NeedsApproval && t.decision != ALLOW)
  {}

  /** What a card must say for its tool to have run in a mode. */
  predicate Licensed(card: Card, mode: Mode) {
    && IsKnown(card)
    && MinRank(card.minMode) <= mode.Rank()
    && (card.destructive.value ==> mode != GOVERN && card.minMode != "GOVERN")
  }

  // ---- Whole histories -------------------------------------------------------

  datatype Event = Register(card: Card) | Invoke(call: Call)

  const EMPTY := State(map[], map[])

  function After(setting: Setting, st: State, ev: Event): State {
    match ev
    case Register(card) => st.(cards := st.cards[card.name := card])
    case Invoke(c) => AfterCall(setting, st, c)
  }

  function Run(setting: Setting, evs: seq<Event>): State {
    if evs == [] then EMPTY else After(setting, Run(setting, evs[..|evs| - 1]), evs[|evs| - 1])
  }

  /** The traces answered to one session id, in order. */
  function Answers(setting: Setting, evs: seq<Event>, id: string): seq<Trace> {
    if evs == [] then []
    else
      var n := |evs| - 1;
      var earlier := Answers(setting, evs[..n], id);
      if evs[n].Invoke? && evs[n].call.id == id then earlier + [TraceOf(setting, Run(setting, evs[..n]), evs[n].call)]
      else earlier
  }

  function Allows(calls: seq<Trace>): nat {
    if calls == [] then 0
    else Allows(calls[..|calls| - 1]) + (if calls[|calls| - 1].decision == ALLOW then 1 else 0)
  }

  /** What a trace says by its position among the session's calls: how many tools and steps had
      been used, an allowed call counting itself, and which budgets an allowed call found open. */
  predicate WithinBudgets(setting: Setting, id: string, budget: Budget, calls: seq<Trace>, k: nat)
    requires k < |calls|
  {
    && calls[k].toolsUsed == (if calls[k].decision == ALLOW then k + 1 else k)
    && calls[k].stepsUsed == Allows(calls[..k])
    && (calls[k].decision == ALLOW ==>
      && k < setting.budgets(calls[k].mode).maxTools
      && Allows(calls[..k]) < setting.budgets(calls[k].mode).maxSteps
      && (id != "" ==> k < budget.maxTools))
  }

  predicate Accounted(setting: Setting, id: string, s: Session) {
    && s.calls != []
    && s.mode == s.calls[0].mode && s.budget == setting.budgets(s.mode)
    && s.toolsUsed == |s.calls|
    && s.stepsUsed == Allows(s.calls)
    && forall k | 0 <= k < |s.calls| :: WithinBudgets(setting, id, s.budget, s.calls, k)
  }

  lemma RecordedAccounted(setting: Setting, id: string, s: Session, t: Trace)
    requires Accounted(setting, id, s)
          || s == Session(t.mode, setting.budgets(t.mode), 0, 0, [])
    requires t.decision == ALLOW ==>
               && s.toolsUsed < setting.budgets(t.mode).maxTools && s.stepsUsed < setting.budgets(t.mode).maxSteps
               && (id != "" ==> s.toolsUsed < s.budget.maxTools)
    requires t.toolsUsed == s.toolsUsed + (if t.decision == ALLOW then 1 else 0) && t.stepsUsed == s.stepsUsed
    ensures Accounted(setting, id, Recorded(s, t))
  {
    var calls := s.calls + [t];
    assert calls[..|s.calls|] == s.calls;
    forall k | 0 <= k < |calls|
      ensures WithinBudgets(setting, id, s.budget, calls, k)
    {
      if k < |s.calls| {
        assert WithinBudgets(setting, id, s.budget, s.calls, k);
        assert calls[..k] == s.calls[..k];
      }
    }
  }

  /** In every history each session holds exactly the traces its calls were answered with, one a
      call; its counters are their number and the number allowed; and every allowed call came
      before either budget ran out: the budget of its own mode, and, unless the session id is
      empty, the budget of the session's first call. */
  lemma {:induction false} SessionsAccounted(setting: Setting, evs: seq<Event>, id: string)
    ensures id in Run(setting, evs).sessions <==> Answers(setting, evs, id) != []
    ensures id in Run(setting, evs).sessions ==>
              && Run(setting, evs).sessions[id].calls == Answers(setting, evs, id)
              && Accounted(setting, id, Run(setting, evs).sessions[id])
  {
    if evs != [] {
      var n := |evs| - 1;
      SessionsAccounted(setting, evs[..n], id);
      var st := Run(setting, evs[..n]);
      if evs[n].Invoke? && evs[n].call.id == id {
        var c := evs[n].call;
        var s := Entered(setting, st, id, ClassifyTask(setting.alphabet, c.input)).sessions[id];
        AllowIff(setting, st, c);
        RecordedAccounted(setting, id, s, TraceOf(setting, st, c));
      }
    }
  }

  /** A named session opened by an input whose mode grants no tools never runs one, whatever its
      later inputs are. */
  lemma ToollessStaysToolless(setting: Setting, evs: seq<Event>, id: string, k: nat)
    requires id != "" && k < |Answers(setting, evs, id)|
    requires setting.budgets(Answers(setting, evs, id)[0].mode).maxTools <= 0
    ensures Answers(setting, evs, id)[k].decision != ALLOW
  {
    SessionsAccounted(setting, evs, id);
    var s := Run(setting, evs).sessions[id];
    assert WithinBudgets(setting, id, s.budget, s.calls, k);
  }

  /** The n-th event is the session's call that got this answer. */
  predicate AnsweredAt(setting: Setting, evs: seq<Event>, id: string, k: nat, n: nat) {
    && n < |evs| && evs[n].Invoke? && evs[n].call.id == id
    && |Answers(setting, evs[..n], id)| == k
    && k < |Answers(setting, evs, id)|
    && Answers(setting, evs, id)[k] == TraceOf(setting, Run(setting, evs[..n]), evs[n].call)
  }

  lemma CardsNext(setting: Setting, st: State, ev: Event, tool: string)
    ensures var cards := After(setting, st, ev).cards;
            if ev.Register? && ev.card.name == tool then tool in cards && cards[tool] == ev.card
            else (tool in cards <==> tool in st.cards) && (tool in cards ==> cards[tool] == st.cards[tool])
  {}

  /** The card last registered under a name. */
  function LastCard(evs: seq<Event>, tool: string): Option<Card> {
    if evs == [] then None
    else
      var last := evs[|evs| - 1];
      if last.Register? && last.card.name == tool then Some(last.card) else LastCard(evs[..|evs| - 1], tool)
  }

  lemma {:induction false} CardsAreLast(setting: Setting, evs: seq<Event>, tool: string)
    ensures tool in Run(setting, evs).cards <==> LastCard(evs, tool).Some?
    ensures tool in Run(setting, evs).cards ==> LastCard(evs, tool) == Some(Run(setting, evs).cards[tool])
  {
    if evs != [] {
      var n := |evs| - 1;
      CardsAreLast(setting, evs[..n], tool);
      CardsNext(setting, Run(setting, evs[..n]), evs[n], tool);
    }
  }

  lemma {:induction false} LastCardAt(evs: seq<Event>, tool: string) returns (i: nat)
    requires LastCard(evs, tool).Some?
    ensures i < |evs| && evs[i] == Register(LastCard(evs, tool).value) && evs[i].card.name == tool
    ensures forall j | i < j < |evs| :: evs[j].Register? ==> evs[j].card.name != tool
  {
    i := |evs| - 1;
    if !(evs[i].Register? && evs[i].card.name == tool) {
      i := LastCardAt(evs[..|evs| - 1], tool);
    }
  }

  /** The card in force for a tool: the last one registered under its name. */
  lemma CardInForce(setting: Setting, evs: seq<Event>, tool: string) returns (i: nat)
    requires tool in Run(setting, evs).cards
    ensures i < |evs| && evs[i] == Register(Run(setting, evs).cards[tool])
    ensures Run(setting, evs).cards[tool].name == tool
    ensures forall j | i < j < |evs| :: evs[j].Register? ==> evs[j].card.name != tool
  {
    CardsAreLast(setting, evs, tool);
    i := LastCardAt(evs, tool);
  }

  /** In every history, the call behind each answer that ran a tool found in force a complete card
      whose minimum mode is at most the call's; a destructive tool never runs in a GOVERN call, and
      one that demands GOVERN never runs at all. */
  lemma {:induction false} OnlyLicensedRun(setting: Setting, evs: seq<Event>, id: string, k: nat) returns (n: nat)
    requires k < |Answers(setting, evs, id)|
    ensures AnsweredAt(setting, evs, id, k, n)
    ensures var t, cards := Answers(setting, evs, id)[k], Run(setting, evs[..n]).cards;
            t.decision == ALLOW ==> t.tool in cards && Licensed(cards[t.tool], t.mode)
  {
    n := |evs| - 1;
    var init := evs[..n];
    if k < |Answers(setting, init, id)| {
      n := OnlyLicensedRun(setting, init, id, k);
      assert init[..n] == evs[..n];
    } else {
      AllowIff(setting, Run(setting, init), evs[n].call);
    }
  }

  /** The input names an external, an irreversible or a reputation keyword. */
  predicate Risky(setting: Setting, c: Call) {
    || Names(setting.alphabet, c.input, EXTERNAL) || Names(setting.alphabet, c.input, IRREVERSIBLE)
    || Names(setting.alphabet, c.input, REPUTATION)
  }

  /** Whatever the state, a risky call runs no tool that is destructive or asks for approval. */
  lemma RiskyRunsNothingDestructive(setting: Setting, st: State, c: Call)
    requires Risky(setting, c) && TraceOf(setting, st, c).decision == ALLOW
    ensures c.tool in st.cards && !st.cards[c.tool].destructive.value && !st.cards[c.tool].requiresApproval.value
  {
    ModeIff(setting.alphabet, c.input);
    AllowIff(setting, st, c);
  }

  /** With room in the budgets and a complete card, a tool that asks for approval and names a known
      mode is held for a human exactly in the risky calls. */
  lemma HeldIffRisky(setting: Setting, st: State, c: Call)
    requires HasRoom(setting, st, c) && c.tool in st.cards && IsKnown(st.cards[c.tool])
    requires st.cards[c.tool].requiresApproval.value && st.cards[c.tool].minMode in {"FAST", "THINK", "GOVERN"}
    ensures TraceOf(setting, st, c).why == NeedsApproval <==> Risky(setting, c)
    ensures Risky(setting, c) ==>
              TraceOf(setting, st, c).decision == HOLD && TraceOf(setting, st, c).outcome == Held
  {
    ModeIff(setting.alphabet, c.input);
    ApprovalHolds(setting, st, c);
  }

  lemma ApprovalHolds(setting: Setting, st: State, c: Call)
    requires HasRoom(setting, st, c) && c.tool in st.cards && IsKnown(st.cards[c.tool])
    requires st.cards[c.tool].requiresApproval.value && MinRank(st.cards[c.tool].minMode) <= 2
    ensures var t := TraceOf(setting, st, c);
            if ClassifyTask(setting.alphabet, c.input) == GOVERN
            then t.why == NeedsApproval && t.decision == HOLD && t.outcome == Held
            else t.why != NeedsApproval
  {}

  /** Outside GOVERN nobody is asked: with room in the budgets, a destructive tool whose card
      asks for approval runs exactly when the input is not classified GOVERN and its minimum mode
      is reached. */
  lemma DestructiveRunsIff(setting: Setting, st: State, c: Call)
    requires HasRoom(setting, st, c) && c.tool in st.cards && IsKnown(st.cards[c.tool])
    requires st.cards[c.tool].destructive.value && st.cards[c.tool].requiresApproval.value
    ensures TraceOf(setting, st, c).decision == ALLOW <==>
              && ClassifyTask(setting.alphabet, c.input) != GOVERN
              && MinRank(st.cards[c.tool].minMode) <= ClassifyTask(setting.alphabet, c.input).Rank()
  {}

  lemma Snoc(setting: Setting, evs: seq<Event>, ev: Event, id: string)
    ensures Run(setting, evs + [ev]) == After(setting, Run(setting, evs), ev)
    ensures Answers(setting, evs + [ev], id) == Answers(setting, evs, id)
            + (if ev.Invoke? && ev.call.id == id then [TraceOf(setting, Run(setting, evs), ev.call)] else [])
  {
    assert (evs + [ev])[..|evs|] == evs;
  }

  /** The session budget is skipped for the empty id: after a first call that granted no tools, a
      second call with room of its own and a harmless card runs exactly when the id is empty. */
  lemma SessionBudgetBindsIffNamed(setting: Setting, card: Card, first: string, second: string, id: string)
    requires setting.budgets(ClassifyTask(setting.alphabet, first)).maxTools <= 0
    requires var b := setting.budgets(ClassifyTask(setting.alphabet, second)); 0 < b.maxSteps && 1 < b.maxTools
    requires Licensed(card, ClassifyTask(setting.alphabet, second))
    requires !card.destructive.value && !card.requiresApproval.value
    ensures var c0, c1 := Call(first, card.name, id, None), Call(second, card.name, id, None);
            var evs := [Register(card)] + [Invoke(c0)] + [Invoke(c1)];
            |Answers(setting, evs, id)| == 2 && (Answers(setting, evs, id)[1].decision == ALLOW <==> id == "")
  {
    var c0, c1 := Call(first, card.name, id, None), Call(second, card.name, id, None);
    var e1 := [Register(card)];
    var e2 := e1 + [Invoke(c0)];
    Snoc(setting, [], Register(card), id);
    assert [] + [Register(card)] == e1;
    Snoc(setting, e1, Invoke(c0), id);
    Snoc(setting, e2, Invoke(c1), id);
    AllowIff(setting, Run(setting, e1), c0);
    AllowIff(setting, Run(setting, e2), c1);
  }
}
