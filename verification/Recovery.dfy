/** The recovery agent: one cycle senses, picks the smallest safe action, acts and remembers; the
    limits on restarts live in what it remembers. */
module Recovery {
  import opened Prelude
  import opened Timestamps

  datatype ActionClass = OBSERVE | RETRY_READ | RESTART_SERVICE | HOLD_SERVICE | FORBIDDEN

  datatype Verdict = PROCEED | HOLD | INSUFFICIENT_DATA | BLOCKED

  datatype FailureClass = HEALTHY | TRANSIENT | PERSISTENT | UNKNOWN | CASCADING

  datatype Machine = STABLE | DEGRADED | CRITICAL

  datatype Candidate = Candidate(cls: ActionClass, target: string, executable: bool, toolAvailable: bool)

  datatype Memory = Memory(counts: map<string, nat>, cooldowns: map<string, string>, mutations: nat)

  const MAX_MUTATIONS := 1
  const MAX_RETRIES_BEFORE_HOLD := 1

  /** Any clock reading to which thirty minutes can still be added. */
  type Now = d: Moment | d.year < 9999 witness DateTime(1, 1, 1, 0, 0, 0, 0)

  // ---- Sensing ---------------------------------------------------------------

  /** The allowlist, in order; none of its services is critical. */
  const SERVICES: seq<string> := ["well", "geox", "wealth", "aaa", "aforge"]

  function Down(up: string -> bool, services: seq<string>): seq<string> {
    if services == [] then [] else (if up(services[0]) then [] else [services[0]]) + Down(up, services[1..])
  }

  function MachineState(down: nat): Machine {
    if down == 0 then STABLE else if down == 1 then DEGRADED else CRITICAL
  }

  function Count(m: Memory, service: string): nat { if service in m.counts then m.counts[service] else 0 }

  /** The class of a service found down; `down` is how many a second, quick probe finds down. */
  function ClassifyFailure(m: Memory, service: string, down: nat): FailureClass {
    if down >= 2 then CASCADING
    else if Count(m, service) >= MAX_RETRIES_BEFORE_HOLD then PERSISTENT
    else if Count(m, service) == 0 then TRANSIENT
    else UNKNOWN
  }

  function GenerateOptions(service: string, f: FailureClass): seq<Candidate> {
    var observe := [Candidate(OBSERVE, service, true, true)];
    var retry := if f == TRANSIENT || f == UNKNOWN then [Candidate(RETRY_READ, service, true, true)] else [];
    var restart := if f == TRANSIENT then [Candidate(RESTART_SERVICE, service, true, true)] else [];
    var stuck := f == PERSISTENT || f == CASCADING || f == UNKNOWN;
    var hold := if stuck then [Candidate(HOLD_SERVICE, service, true, true)] else [];
    observe + retry + restart + hold
  }

  /** The services found down are those that are not up, in the order of the list. */
  lemma {:induction false} DownIs(up: string -> bool, services: seq<string>)
    ensures forall s :: s in Down(up, services) <==> s in services && !up(s)
    ensures Down(up, services) != [] ==>
              exists i | 0 <= i < |services| ::
                Down(up, services)[0] == services[i] && !up(services[i]) && forall j | 0 <= j < i :: up(services[j])
  {
    if services != [] {
      var rest := services[1..];
      DownIs(up, rest);
      assert services == [services[0]] + rest;
      if up(services[0]) && Down(up, rest) != [] {
        var i :| && 0 <= i < |rest| && Down(up, rest)[0] == rest[i] && !up(rest[i])
                 && forall j | 0 <= j < i :: up(rest[j]);
        assert services[i + 1] == rest[i];
        assert forall j | 0 < j < i + 1 :: services[j] == rest[j - 1];
      }
    }
  }

  /** Two or more are found down when two places of the list are. */
  lemma {:induction false} TwoDownIff(up: string -> bool, services: seq<string>)
    ensures |Down(up, services)| >= 2 <==> exists i, j | 0 <= i < j < |services| :: !up(services[i]) && !up(services[j])
  {
    if services != [] {
      var rest := services[1..];
      TwoDownIff(up, rest);
      DownIs(up, rest);
      if !up(services[0]) && |Down(up, rest)| >= 1 {
        assert Down(up, rest)[0] in rest;
        var j :| 0 <= j < |rest| && rest[j] == Down(up, rest)[0];
        assert services[j + 1] == rest[j];
      }
      if i, j :| 0 <= i < j < |rest| && !up(rest[i]) && !up(rest[j]) {
        assert services[i + 1] == rest[i] && services[j + 1] == rest[j];
      }
      if i, j :| 0 <= i < j < |services| && !up(services[i]) && !up(services[j]) {
        assert services[j] == rest[j - 1] && rest[j - 1] in rest;
        assert i > 0 ==> services[i] == rest[i - 1];
      }
    }
  }

  /** What each class of failure is offered; the last two never arise of a service found down. */
  lemma OffersByClass(service: string, f: FailureClass, o: Candidate)
    ensures o in GenerateOptions(service, f) <==>
              && o.target == service && o.executable && o.toolAvailable
              && match f
                 case TRANSIENT => o.cls in {OBSERVE, RETRY_READ, RESTART_SERVICE}
                 case PERSISTENT => o.cls in {OBSERVE, HOLD_SERVICE}
                 case CASCADING => o.cls in {OBSERVE, HOLD_SERVICE}
                 case UNKNOWN => o.cls in {OBSERVE, RETRY_READ, HOLD_SERVICE}
                 case HEALTHY => o.cls == OBSERVE
  {}

  /** What is offered for a service found down: to observe, always; a retry and a restart when no
      failure of it is counted and the quick probe finds fewer than two down; to hold otherwise. */
  lemma OffersIff(m: Memory, service: string, down: nat, o: Candidate)
    ensures o in GenerateOptions(service, ClassifyFailure(m, service, down)) <==>
              && o.target == service && o.executable && o.toolAvailable
              && var unspent := down < 2 && (service !in m.counts || m.counts[service] == 0);
                 match o.cls
                 case OBSERVE => true
                 case RETRY_READ => unspent
                 case RESTART_SERVICE => unspent
                 case HOLD_SERVICE => !unspent
                 case FORBIDDEN => false
  {}

  // ---- Fitness and selection -------------------------------------------------

  /** Cooling down is decided on the printed timestamps, as strings. */
  predicate Cooling(m: Memory, service: string, now: Moment) {
    service in m.cooldowns && StrLess(IsoFormat(now), m.cooldowns[service])
  }

  function EvaluateFitness(o: Candidate, machine: Machine, m: Memory, now: Moment): Verdict {
    if o.cls == FORBIDDEN then BLOCKED
    else if Cooling(m, o.target, now) then HOLD
    else if o.cls == RESTART_SERVICE && m.mutations >= MAX_MUTATIONS then HOLD
    else if !o.executable || !o.toolAvailable then INSUFFICIENT_DATA
    else if o.cls == RESTART_SERVICE && machine == CRITICAL then HOLD
    else if o.cls == RESTART_SERVICE && Count(m, o.target) >= MAX_RETRIES_BEFORE_HOLD then HOLD
    else PROCEED
  }

  /** An option passes exactly when it is not forbidden, can be carried out, and its target is not
      cooling down; a restart, moreover, when none was done in this run, fewer than two services are
      down, and no failure of its target is counted. */
  lemma FitIff(o: Candidate, down: nat, m: Memory, now: Moment)
    ensures EvaluateFitness(o, MachineState(down), m, now) == PROCEED <==>
              && o.cls != FORBIDDEN && o.executable && o.toolAvailable
              && (o.target !in m.cooldowns || !StrLess(IsoFormat(now), m.cooldowns[o.target]))
              && (o.cls == RESTART_SERVICE ==>
                    m.mutations == 0 && down < 2 && (o.target !in m.counts || m.counts[o.target] == 0))
  {}

  datatype Entry = Entry(option: Candidate, verdict: Verdict)

  /** Each option is judged at its own reading of the clock. */
  function Judged(options: seq<Candidate>, machine: Machine, m: Memory, clock: nat -> Now): seq<Entry> {
    seq(|options|, i requires 0 <= i < |options| =>
      Entry(options[i], EvaluateFitness(options[i], machine, m, clock(i))))
  }

  function OfKind(es: seq<Entry>, observe: bool): seq<Entry> {
    if es == [] then []
    else
      var n := |es| - 1;
      OfKind(es[..n], observe) + (if (es[n].option.cls == OBSERVE) == observe then [es[n]] else [])
  }

  function FirstProceeding(es: seq<Entry>): Option<Entry> {
    if es == [] then None else if es[0].verdict == PROCEED then Some(es[0]) else FirstProceeding(es[1..])
  }

  function Select(es: seq<Entry>): Entry {
    var actions, observes := OfKind(es, false), OfKind(es, true);
    if FirstProceeding(actions).Some? then FirstProceeding(actions).value
    else if FirstProceeding(observes).Some? then FirstProceeding(observes).value
    else if actions != [] then Entry(actions[0].option, HOLD)
    else Entry(if es != [] then es[0].option else Candidate(OBSERVE, "", false, false), HOLD)
  }

  method FindProceeding(es: seq<Entry>) returns (r: Option<Entry>)
    ensures r == FirstProceeding(es)
  {
    for i := 0 to |es|
      invariant FirstProceeding(es) == FirstProceeding(es[i..])
    {
      assert es[i..][1..] == es[i + 1..];
      if es[i].verdict == PROCEED {
        return Some(es[i]);
      }
    }
    r := None;
  }

  method SelectAction(options: seq<Candidate>, machine: Machine, m: Memory, clock: nat -> Now) returns (r: Entry)
    ensures r == Select(Judged(options, machine, m, clock))
  {
    ghost var es := Judged(options, machine, m, clock);
    var actions: seq<Entry>, observes: seq<Entry> := [], [];
    for i := 0 to |options|
      invariant actions == OfKind(es[..i], false) && observes == OfKind(es[..i], true)
    {
      var entry := Entry(options[i], EvaluateFitness(options[i], machine, m, clock(i)));
      assert es[..i + 1][..i] == es[..i] && es[i] == entry;
      if options[i].cls == OBSERVE {
        observes := observes + [entry];
      } else {
        actions := actions + [entry];
      }
    }
    assert es[..|options|] == es;
    var found := FindProceeding(actions);
    if found.Some? {
      return found.value;
    }
    found := FindProceeding(observes);
    if found.Some? {
      return found.value;
    }
    if actions != [] {
      return Entry(actions[0].option, HOLD);
    }
    r := Entry(if options != [] then options[0] else Candidate(OBSERVE, "", false, false), HOLD);
  }

  lemma {:induction false} KindHas(es: seq<Entry>, observe: bool, e: Entry)
    ensures e in OfKind(es, observe) <==> e in es && (e.option.cls == OBSERVE) == observe
  {
    if es != [] {
      var n := |es| - 1;
      KindHas(es[..n], observe, e);
      assert es == es[..n] + [es[n]];
    }
  }

  lemma {:induction false} ProceedingIsThere(es: seq<Entry>)
    ensures FirstProceeding(es).Some? <==> exists e | e in es :: e.verdict == PROCEED
    ensures FirstProceeding(es).Some? ==>
              FirstProceeding(es).value in es && FirstProceeding(es).value.verdict == PROCEED
  {
    if es != [] {
      ProceedingIsThere(es[1..]);
      assert es == [es[0]] + es[1..];
    }
  }

  /** What is selected: an option that passed its fitness, an action before any observation; or,
      when none passed, something on HOLD. */
  lemma SelectionPasses(es: seq<Entry>)
    ensures Select(es).verdict == PROCEED <==> exists e | e in es :: e.verdict == PROCEED
    ensures Select(es).verdict == PROCEED ==> Select(es) in es
    ensures Select(es).verdict in {PROCEED, HOLD}
    ensures (exists e | e in es :: e.verdict == PROCEED && e.option.cls != OBSERVE) ==> Select(es).option.cls != OBSERVE
  {
    var actions, observes := OfKind(es, false), OfKind(es, true);
    forall e
      ensures e in actions <==> e in es && e.option.cls != OBSERVE
      ensures e in observes <==> e in es && e.option.cls == OBSERVE
    {
      KindHas(es, false, e);
      KindHas(es, true, e);
    }
    ProceedingIsThere(actions);
    ProceedingIsThere(observes);
  }

  predicate Passing(e: Entry, observe: bool) { e.verdict == PROCEED && (e.option.cls == OBSERVE) == observe }

  lemma {:induction false} ProceedingConcat(a: seq<Entry>, b: seq<Entry>)
    ensures FirstProceeding(a + b) == if FirstProceeding(a).Some? then FirstProceeding(a) else FirstProceeding(b)
  {
    if a == [] {
      assert a + b == b;
    } else {
      ProceedingConcat(a[1..], b);
      assert (a + b)[1..] == a[1..] + b;
    }
  }

  lemma {:induction false} FirstOfKind(es: seq<Entry>, observe: bool)
    ensures var first := FirstProceeding(OfKind(es, observe));
            && (first.None? ==> forall i | 0 <= i < |es| :: !Passing(es[i], observe))
            && (first.Some? ==>
                  exists i | 0 <= i < |es| ::
                    && first.value == es[i] && Passing(es[i], observe)
                    && forall j | 0 <= j < i :: !Passing(es[j], observe))
  {
    if es != [] {
      var n := |es| - 1;
      FirstOfKind(es[..n], observe);
      var last := if (es[n].option.cls == OBSERVE) == observe then [es[n]] else [];
      ProceedingConcat(OfKind(es[..n], observe), last);
      assert last != [] ==> last[1..] == [];
    }
  }

  /** The selection is the first action that passes; when none does, the first observation that
      passes. */
  lemma SelectsFirst(es: seq<Entry>, i: nat)
    requires i < |es| && Passing(es[i], false) && forall j | 0 <= j < i :: !Passing(es[j], false)
    ensures Select(es) == es[i]
  {
    FirstOfKind(es, false);
  }

  lemma SelectsObservation(es: seq<Entry>, i: nat)
    requires forall j | 0 <= j < |es| :: !Passing(es[j], false)
    requires i < |es| && Passing(es[i], true) && forall j | 0 <= j < i :: !Passing(es[j], true)
    ensures Select(es) == es[i]
  {
    FirstOfKind(es, false);
    FirstOfKind(es, true);
  }

  /** The first option that is no observation. */
  predicate ActsFirst(es: seq<Entry>, i: nat) {
    i < |es| && es[i].option.cls != OBSERVE && forall j | 0 <= j < i :: es[j].option.cls == OBSERVE
  }

  /** When nothing passes, the first action offered is put on hold; without one, the first option,
      or an empty observation. */
  lemma SelectsHold(es: seq<Entry>)
    requires forall e | e in es :: e.verdict != PROCEED
    ensures Select(es).verdict == HOLD
    ensures es == [] ==> Select(es).option.cls == OBSERVE && !Select(es).option.executable
    ensures es != [] && (forall e | e in es :: e.option.cls == OBSERVE) ==> Select(es).option == es[0].option
    ensures forall i: nat | ActsFirst(es, i) :: Select(es).option == es[i].option
  {
    SelectionPasses(es);
    forall i: nat | ActsFirst(es, i)
      ensures OfKind(es, false) != [] && OfKind(es, false)[0] == es[i]
    {
      FirstAction(es, i);
    }
    NoActions(es);
    FirstOfKind(es, false);
    FirstOfKind(es, true);
  }

  lemma {:induction false} FirstAction(es: seq<Entry>, i: nat)
    requires ActsFirst(es, i)
    ensures OfKind(es, false) != [] && OfKind(es, false)[0] == es[i]
    decreases |es|
  {
    var n := |es| - 1;
    if i < n {
      FirstAction(es[..n], i);
    } else {
      NoActions(es[..n]);
    }
  }

  lemma {:induction false} NoActions(es: seq<Entry>)
    ensures (forall i | 0 <= i < |es| :: es[i].option.cls == OBSERVE) ==> OfKind(es, false) == []
    decreases |es|
  {
    if es != [] {
      NoActions(es[..|es| - 1]);
    }
  }

  // ---- One cycle -------------------------------------------------------------

  /** What a cycle meets: what is up, how many services a second probe finds down, the clock at
      each evaluation and act, and how each act turns out. */
  datatype Probe = Probe(
    dryRun: bool, up: string -> bool, quickDown: nat,
    clock: nat -> Now, escalationClock: nat -> Now, actAt: Now, escalateAt: Now, updateAt: Now,
    retryHealthy: bool, restartOk: bool, verified: bool, escalatedOk: bool)
  {
    function Failed(): seq<string> { Down(up, SERVICES) }

    /** The clock never runs backwards within the cycle. */
    ghost predicate Ordered() {
      && (forall i: nat :: Instant(clock(i)) <= Instant(actAt))
      && (forall i: nat :: Instant(escalationClock(i)) <= Instant(escalateAt))
      && Instant(actAt) <= Instant(updateAt)
      && Instant(escalateAt) <= Instant(updateAt)
    }
  }

  /** A cycle is about the allowlist. */
  lemma FailedAre(p: Probe, service: string)
    ensures service in p.Failed() <==> service in ["well", "geox", "wealth", "aaa", "aforge"] && !p.up(service)
  {
    DownIs(p.up, SERVICES);
  }

  /** A restart command, when it was given, and whether systemd accepted it. */
  datatype Restart = Restart(service: string, at: Now, ok: bool)

  datatype Outcome = Outcome(memory: Memory, restarts: seq<Restart>)

  function Execute(cls: ActionClass, p: Probe): bool {
    match cls
    case OBSERVE => true
    case RETRY_READ => p.retryHealthy
    case RESTART_SERVICE => p.restartOk
    case HOLD_SERVICE => true
    case FORBIDDEN => false
  }

  function Failing(m: Memory, service: string): Memory {
    m.(counts := m.counts[service := Count(m, service) + 1])
  }

  lemma HalfHourLater(at: Now)
    ensures PlusHalfHour(at).Valid() && Instant(PlusHalfHour(at)) == Instant(at) + 30 * MICROS_PER_MINUTE
  {
    PlusHalfHourAddsThirtyMinutes(at);
  }

  /** The printed time half an hour after another. */
  function Limit(at: Now): string {
    HalfHourLater(at);
    IsoFormat(PlusHalfHour(at))
  }

  function Cooled(m: Memory, service: string, at: Now): Memory {
    m.(counts := m.counts[service := 0], cooldowns := m.cooldowns[service := Limit(at)])
  }

  function Remembered(m: Memory, service: string, cls: ActionClass, ok: bool, at: Now): Memory {
    var m' := if cls == RESTART_SERVICE then (if ok then Cooled(m, service, at) else Failing(m, service))
              else if cls == RETRY_READ && !ok then Failing(m, service)
              else m;
    if cls == RESTART_SERVICE then m'.(mutations := m'.mutations + 1) else m'
  }

  /** The first escalated option that is a restart and fit. */
  function EscalatedRestart(es: seq<Entry>): bool {
    exists e | e in es :: e.option.cls == RESTART_SERVICE && e.verdict == PROCEED
  }

  /** A cycle over any option lists; which service is meant is the first one found down. */
  function Cycle(m0: Memory, options: seq<Candidate>, escalation: seq<Candidate>, p: Probe): Outcome {
    var m, machine := m0.(mutations := 0), MachineState(|p.Failed()|);
    if p.Failed() == [] then Outcome(m, [])
    else
      var service, sel := p.Failed()[0], Select(Judged(options, machine, m, p.clock));
      if p.dryRun || sel.verdict != PROCEED then Outcome(m, [])
      else
        var cls, ok := sel.option.cls, Execute(sel.option.cls, p);
        if cls == RESTART_SERVICE then
          Outcome(Remembered(m, service, cls, ok, p.updateAt), [Restart(service, p.actAt, ok)])
        else if cls == RETRY_READ && ok && !p.verified then
          var m' := Failing(m, service);
          Outcome(Remembered(m', service, cls, ok, p.updateAt),
                  if EscalatedRestart(Judged(escalation, machine, m', p.escalationClock))
                  then [Restart(service, p.escalateAt, p.escalatedOk)] else [])
        else Outcome(Remembered(m, service, cls, ok, p.updateAt), [])
  }

  /** The state file, as the cycle updates it. */
  class StateFile {
    var counts: map<string, nat>
    var cooldowns: map<string, string>
    var mutations: nat

    ghost function View(): Memory
      reads this
    {
      Memory(counts, cooldowns, mutations)
    }

    constructor ()
      ensures View() == Memory(map[], map[], 0)
    {
      counts, cooldowns, mutations := map[], map[], 0;
    }

    method CountFailure(service: string)
      modifies this
      ensures View() == Failing(old(View()), service)
    {
      counts := counts[service := (if service in counts then counts[service] else 0) + 1];
    }

    method Update(service: string, cls: ActionClass, ok: bool, at: Now)
      modifies this
      ensures View() == Remembered(old(View()), service, cls, ok, at)
      ensures cls == RESTART_SERVICE && ok ==>
                && counts == old(counts)[service := 0] && cooldowns == old(cooldowns)[service := Limit(at)]
      ensures (cls == RESTART_SERVICE || cls == RETRY_READ) && !ok ==>
                && cooldowns == old(cooldowns)
                && counts == old(counts)[service := if service in old(counts) then old(counts)[service] + 1 else 1]
      ensures cls != RESTART_SERVICE && (cls != RETRY_READ || ok) ==>
                counts == old(counts) && cooldowns == old(cooldowns)
      ensures mutations == if cls == RESTART_SERVICE then old(mutations) + 1 else old(mutations)
    {
      if ok && cls == RESTART_SERVICE {
        counts := counts[service := 0];
        cooldowns := cooldowns[service := Limit(at)];
      } else if !ok && cls == RESTART_SERVICE {
        CountFailure(service);
      } else if cls == RETRY_READ && !ok {
        CountFailure(service);
      }
      if cls == RESTART_SERVICE {
        mutations := mutations + 1;
      }
    }

    method Escalate(escalation: seq<Candidate>, machine: Machine, p: Probe, service: string)
      returns (restarts: seq<Restart>)
      ensures restarts == if EscalatedRestart(Judged(escalation, machine, View(), p.escalationClock))
                          then [Restart(service, p.escalateAt, p.escalatedOk)] else []
    {
      ghost var es := Judged(escalation, machine, View(), p.escalationClock);
      var m := Memory(counts, cooldowns, mutations);
      for i := 0 to |escalation|
        invariant forall j | 0 <= j < i :: !(es[j].option.cls == RESTART_SERVICE && es[j].verdict == PROCEED)
      {
        if escalation[i].cls == RESTART_SERVICE {
          var verdict := EvaluateFitness(escalation[i], machine, m, p.escalationClock(i));
          assert es[i] == Entry(escalation[i], verdict);
          if verdict == PROCEED {
            return [Restart(service, p.escalateAt, p.escalatedOk)];
          }
        }
      }
      restarts := [];
    }

    /** The cycle leaves the file, and gives the restart commands, that the function says. */
    method RunCycle(options: seq<Candidate>, escalation: seq<Candidate>, p: Probe) returns (restarts: seq<Restart>)
      modifies this
      ensures Outcome(View(), restarts) == Cycle(old(View()), options, escalation, p)
    {
      mutations, restarts := 0, [];
      var failed := p.Failed();
      if failed == [] {
        return;
      }
      var service, machine := failed[0], MachineState(|failed|);
      var sel := SelectAction(options, machine, Memory(counts, cooldowns, mutations), p.clock);
      if p.dryRun || sel.verdict != PROCEED {
        return;
      }
      var cls, ok := sel.option.cls, Execute(sel.option.cls, p);
      if cls == RESTART_SERVICE {
        restarts := [Restart(service, p.actAt, ok)];
      } else if cls == RETRY_READ && ok && !p.verified {
        CountFailure(service);
        restarts := Escalate(escalation, machine, p, service);
      }
      Update(service, cls, ok, p.updateAt);
    }
  }

  // ---- What one cycle can do -------------------------------------------------

  /** Every option is about the service the cycle is about. */
  predicate Own(options: seq<Candidate>, service: string) { forall o | o in options :: o.target == service }

  predicate OwnLists(options: seq<Candidate>, escalation: seq<Candidate>, p: Probe) {
    p.Failed() != [] ==> Own(options, p.Failed()[0]) && Own(escalation, p.Failed()[0])
  }

  /** A cycle gives at most one restart command, whatever it is offered. */
  lemma AtMostOneRestart(m: Memory, options: seq<Candidate>, escalation: seq<Candidate>, p: Probe)
    ensures |Cycle(m, options, escalation, p).restarts| <= 1
    ensures forall r | r in Cycle(m, options, escalation, p).restarts :: p.Failed() != [] && r.service == p.Failed()[0]
  {}

  /** Escalation never restarts the service it is about: it has just counted a failure. */
  lemma EscalationHolds(m: Memory, escalation: seq<Candidate>, machine: Machine, service: string, clock: nat -> Now)
    requires Own(escalation, service)
    ensures !EscalatedRestart(Judged(escalation, machine, Failing(m, service), clock))
  {
    var es := Judged(escalation, machine, Failing(m, service), clock);
    forall e | e in es
      ensures !(e.option.cls == RESTART_SERVICE && e.verdict == PROCEED)
    {
      var i :| 0 <= i < |es| && es[i] == e;
      assert escalation[i] in escalation && Count(Failing(m, service), service) >= 1;
      assert e == Entry(escalation[i], EvaluateFitness(escalation[i], machine, Failing(m, service), clock(i)));
    }
  }

  /** So a restart, where options are about their own service, found no failure counted, no second
      service down, and the cooldown over at the clock reading of the option selected. */
  lemma RestartMeans(m: Memory, options: seq<Candidate>, escalation: seq<Candidate>, p: Probe)
    requires OwnLists(options, escalation, p) && Cycle(m, options, escalation, p).restarts != []
    ensures |p.Failed()| == 1
    ensures Cycle(m, options, escalation, p).restarts == [Restart(p.Failed()[0], p.actAt, p.restartOk)]
    ensures Count(m, p.Failed()[0]) == 0
    ensures var es := Judged(options, MachineState(1), m.(mutations := 0), p.clock);
            exists i | 0 <= i < |es| ::
              && es[i] == Select(es) && options[i].cls == RESTART_SERVICE
              && !Cooling(m, p.Failed()[0], p.clock(i))
    ensures Cycle(m, options, escalation, p).memory ==
              Remembered(m.(mutations := 0), p.Failed()[0], RESTART_SERVICE, p.restartOk, p.updateAt)
  {
    RestartedIff(m, options, escalation, p);
    RestartOutcome(m, options, escalation, p);
    var m0 := m.(mutations := 0);
    var es := Judged(options, MachineState(|p.Failed()|), m0, p.clock);
    SelectionPasses(es);
    var i :| 0 <= i < |es| && es[i] == Select(es);
    assert options[i] in options;
    FitIff(options[i], |p.Failed()|, m0, p.clock(i));
  }

  /** A cycle whose selection is a restart that passes gives the command and remembers how it went. */
  lemma RestartOutcome(m: Memory, options: seq<Candidate>, escalation: seq<Candidate>, p: Probe)
    requires p.Failed() != [] && !p.dryRun
    requires var sel := Select(Judged(options, MachineState(|p.Failed()|), m.(mutations := 0), p.clock));
             sel.verdict == PROCEED && sel.option.cls == RESTART_SERVICE
    ensures Cycle(m, options, escalation, p)
         == Outcome(Remembered(m.(mutations := 0), p.Failed()[0], RESTART_SERVICE, p.restartOk, p.updateAt),
                    [Restart(p.Failed()[0], p.actAt, p.restartOk)])
  {}

  /** Over options about its own service, a cycle restarts exactly when the selection is a passed
      restart. */
  lemma RestartedIff(m: Memory, options: seq<Candidate>, escalation: seq<Candidate>, p: Probe)
    requires OwnLists(options, escalation, p)
    ensures Cycle(m, options, escalation, p).restarts != [] <==>
              var sel := Select(Judged(options, MachineState(|p.Failed()|), m.(mutations := 0), p.clock));
              p.Failed() != [] && !p.dryRun && sel.verdict == PROCEED && sel.option.cls == RESTART_SERVICE
  {
    if p.Failed() != [] {
      EscalationHolds(m.(mutations := 0), escalation, MachineState(|p.Failed()|), p.Failed()[0], p.escalationClock);
    }
  }

  // ---- Histories -------------------------------------------------------------

  datatype Step = Step(options: seq<Candidate>, escalation: seq<Candidate>, probe: Probe)

  ghost predicate Admissible(step: Step) {
    step.probe.Ordered() && OwnLists(step.options, step.escalation, step.probe)
  }

  function OutcomeOf(m: Memory, step: Step): Outcome { Cycle(m, step.options, step.escalation, step.probe) }

  /** Cycles one after the other: the memory each starts from, and the restarts each commands. */
  datatype History = History(steps: seq<Step>, memory: seq<Memory>, restarts: seq<seq<Restart>>) {
    ghost predicate Follows(k: nat) {
      && k < |steps| && k + 1 < |memory| && k < |restarts|
      && Admissible(steps[k])
      && Outcome(memory[k + 1], restarts[k]) == OutcomeOf(memory[k], steps[k])
    }

    /** Option lists are arbitrary, but about the service their cycle is about; so is the memory
        the first cycle finds. */
    ghost predicate Valid() {
      && |memory| == |steps| + 1 && |restarts| == |steps|
      && forall k: nat :: k < |steps| ==> Follows(k)
    }
  }

  predicate Failed(m: Memory, service: string) { Count(m, service) >= 1 }

  /** Counted failures survive every cycle, and rule out a restart. */
  lemma FailureSurvives(m: Memory, step: Step, service: string)
    requires OwnLists(step.options, step.escalation, step.probe) && Failed(m, service)
    ensures Failed(OutcomeOf(m, step).memory, service)
    ensures forall r | r in OutcomeOf(m, step).restarts :: r.service != service
  {
    var out := OutcomeOf(m, step);
    if out.restarts != [] {
      RestartMeans(m, step.options, step.escalation, step.probe);
    }
  }

  lemma FailureNext(h: History, service: string, k: nat)
    requires h.Valid() && k < |h.steps| && Failed(h.memory[k], service)
    ensures Failed(h.memory[k + 1], service) && forall q | q in h.restarts[k] :: q.service != service
  {
    assert h.Follows(k);
    FailureSurvives(h.memory[k], h.steps[k], service);
  }

  lemma {:induction false} FailureLasts(h: History, service: string, j: nat, n: nat)
    requires h.Valid() && j <= n <= |h.steps| && Failed(h.memory[j], service)
    ensures Failed(h.memory[n], service)
    decreases n
  {
    if j < n {
      FailureLasts(h, service, j, n - 1);
      FailureNext(h, service, n - 1);
    }
  }

  lemma FailedRestartCounts(m: Memory, step: Step, r: Restart)
    requires Admissible(step) && r in OutcomeOf(m, step).restarts && !r.ok
    ensures Failed(OutcomeOf(m, step).memory, r.service)
  {
    RestartMeans(m, step.options, step.escalation, step.probe);
  }

  lemma FailedRestartNext(h: History, j: nat, r: Restart)
    requires h.Valid() && j < |h.steps| && r in h.restarts[j] && !r.ok
    ensures Failed(h.memory[j + 1], r.service)
  {
    assert h.Follows(j);
    FailedRestartCounts(h.memory[j], h.steps[j], r);
  }

  /** After one failed restart a service is never restarted again. */
  lemma FailedRestartIsTheLast(h: History, j: nat, n: nat, r: Restart)
    requires h.Valid() && j < n < |h.steps| && r in h.restarts[j] && !r.ok
    ensures forall q | q in h.restarts[n] :: q.service != r.service
  {
    FailedRestartNext(h, j, r);
    FailureLasts(h, r.service, j + 1, n);
    FailureNext(h, r.service, n);
  }

  /** The service cools down at least until the printed time. */
  predicate CoolsUntil(m: Memory, service: string, limit: string) {
    service in m.cooldowns && !StrLess(m.cooldowns[service], limit)
  }

  lemma CooledCools(m: Memory, service: string, at: Now, updated: Now)
    requires Instant(at) <= Instant(updated)
    ensures CoolsUntil(Cooled(m, service, updated), service, Limit(at))
  {
    HalfHourLater(at);
    HalfHourLater(updated);
    IsoOrder(PlusHalfHour(updated), PlusHalfHour(at));
  }

  lemma NotCoolingIsLater(m: Memory, service: string, at: Now, now: Moment)
    requires CoolsUntil(m, service, Limit(at)) && !Cooling(m, service, now)
    ensures Instant(now) >= Instant(at) + 30 * MICROS_PER_MINUTE
  {
    var stored, limit, read := m.cooldowns[service], Limit(at), IsoFormat(now);
    StrLessTotal(stored, read);
    if StrLess(read, limit) && stored != read {
      StrLessTransitive(stored, read, limit);
    }
    HalfHourLater(at);
    IsoOrder(now, PlusHalfHour(at));
  }

  /** The step restarts this service. */
  predicate RestartsIt(m: Memory, step: Step, service: string) {
    OutcomeOf(m, step).restarts != [] && step.probe.Failed() != [] && step.probe.Failed()[0] == service
  }

  /** A cycle that restarts a service that was cooling down does so half an hour later. */
  lemma RestartInCooldown(m: Memory, step: Step, service: string, at: Now)
    requires Admissible(step)
    ensures CoolsUntil(m, service, Limit(at)) && RestartsIt(m, step, service) ==>
              && Instant(step.probe.actAt) >= Instant(at) + 30 * MICROS_PER_MINUTE
              && OutcomeOf(m, step).restarts == [Restart(service, step.probe.actAt, step.probe.restartOk)]
              && CoolsUntil(OutcomeOf(m, step).memory, service, Limit(at))
  {
    var p := step.probe;
    if CoolsUntil(m, service, Limit(at)) && RestartsIt(m, step, service) {
      RestartMeans(m, step.options, step.escalation, p);
      var i :| 0 <= i < |step.options| && !Cooling(m, service, p.clock(i));
      NotCoolingIsLater(m, service, at, p.clock(i));
      CooledCools(m.(mutations := 0), service, at, p.updateAt);
    }
  }

  lemma OtherCooldownsKept(m: Memory, step: Step, service: string)
    requires OwnLists(step.options, step.escalation, step.probe)
    requires OutcomeOf(m, step).restarts == [] || step.probe.Failed()[0] != service
    ensures service in m.cooldowns ==>
              service in OutcomeOf(m, step).memory.cooldowns
              && OutcomeOf(m, step).memory.cooldowns[service] == m.cooldowns[service]
  {
    if OutcomeOf(m, step).restarts != [] {
      RestartMeans(m, step.options, step.escalation, step.probe);
    }
  }

  /** One cycle on a service that is cooling down: any restart of it comes half an hour later, and
      it goes on cooling down at least as long. */
  lemma CooldownSurvives(m: Memory, step: Step, service: string, at: Now)
    requires Admissible(step)
    ensures CoolsUntil(m, service, Limit(at)) ==>
              && CoolsUntil(OutcomeOf(m, step).memory, service, Limit(at))
              && forall r | r in OutcomeOf(m, step).restarts && r.service == service ::
                   Instant(r.at) >= Instant(at) + 30 * MICROS_PER_MINUTE
  {
    AtMostOneRestart(m, step.options, step.escalation, step.probe);
    if RestartsIt(m, step, service) {
      RestartInCooldown(m, step, service, at);
    } else {
      OtherCooldownsKept(m, step, service);
    }
  }

  lemma CooldownNext(h: History, service: string, at: Now, k: nat)
    requires h.Valid() && k < |h.steps| && CoolsUntil(h.memory[k], service, Limit(at))
    ensures CoolsUntil(h.memory[k + 1], service, Limit(at))
    ensures forall r | r in h.restarts[k] && r.service == service ::
              Instant(r.at) >= Instant(at) + 30 * MICROS_PER_MINUTE
  {
    assert h.Follows(k);
    CooldownSurvives(h.memory[k], h.steps[k], service, at);
  }

  lemma {:induction false} CooldownLasts(h: History, service: string, at: Now, j: nat, n: nat)
    requires h.Valid() && j <= n <= |h.steps| && CoolsUntil(h.memory[j], service, Limit(at))
    ensures CoolsUntil(h.memory[n], service, Limit(at))
    decreases n
  {
    if j < n {
      CooldownLasts(h, service, at, j, n - 1);
      CooldownNext(h, service, at, n - 1);
    }
  }

  lemma RestartCools(m: Memory, step: Step, r: Restart)
    requires Admissible(step) && r.ok
    ensures r in OutcomeOf(m, step).restarts ==> CoolsUntil(OutcomeOf(m, step).memory, r.service, Limit(r.at))
  {
    if r in OutcomeOf(m, step).restarts {
      RestartMeans(m, step.options, step.escalation, step.probe);
      CooledCools(m.(mutations := 0), r.service, r.at, step.probe.updateAt);
    }
  }

  lemma RestartCoolsNext(h: History, j: nat, r: Restart)
    requires h.Valid() && j < |h.steps| && r in h.restarts[j] && r.ok
    ensures CoolsUntil(h.memory[j + 1], r.service, Limit(r.at))
  {
    assert h.Follows(j);
    RestartCools(h.memory[j], h.steps[j], r);
  }

  /** In every history over any option lists about their own service: a successful restart and any
      later restart of the same service are at least thirty minutes apart. */
  lemma RestartsAreSpaced(h: History, j: nat, n: nat, r: Restart, q: Restart)
    requires h.Valid() && j < n < |h.steps|
    requires r in h.restarts[j] && r.ok
    requires q in h.restarts[n] && q.service == r.service
    ensures Instant(q.at) - Instant(r.at) >= 1_800_000_000
  {
    RestartCoolsNext(h, j, r);
    CooldownLasts(h, r.service, r.at, j + 1, n);
    CooldownNext(h, r.service, r.at, n);
  }

  /** A retry that finds the service still down, at once or on verification, counts a failure: from
      then on the service is not restarted either. */
  lemma FailedRetryCounts(m: Memory, step: Step)
    requires step.probe.Failed() != [] && !step.probe.dryRun
    requires !(step.probe.retryHealthy && step.probe.verified)
    requires var machine := MachineState(|step.probe.Failed()|);
             var sel := Select(Judged(step.options, machine, m.(mutations := 0), step.probe.clock));
             sel.verdict == PROCEED && sel.option.cls == RETRY_READ
    ensures Failed(OutcomeOf(m, step).memory, step.probe.Failed()[0])
    ensures Count(OutcomeOf(m, step).memory, step.probe.Failed()[0]) == Count(m, step.probe.Failed()[0]) + 1
  {}

  /** A cycle that selects an observation or a hold, or a retry that finds the service up, remembers
      and restarts nothing. */
  lemma QuietCycleKeeps(m: Memory, step: Step)
    requires step.probe.Failed() != []
    requires var machine := MachineState(|step.probe.Failed()|);
             var sel := Select(Judged(step.options, machine, m.(mutations := 0), step.probe.clock));
             || sel.option.cls in {OBSERVE, HOLD_SERVICE}
             || (sel.option.cls == RETRY_READ && step.probe.retryHealthy && step.probe.verified)
    ensures OutcomeOf(m, step) == Outcome(m.(mutations := 0), [])
  {}

  /** A restart, executable, of a service other than the one found down, that is neither cooling down
      nor counted as failing, with nothing else down. */
  predicate EscalationFit(m: Memory, o: Candidate, p: Probe, i: nat)
    requires p.Failed() != []
  {
    && o.cls == RESTART_SERVICE && o.executable && o.toolAvailable && |p.Failed()| == 1
    && o.target != p.Failed()[0] && (o.target !in m.counts || m.counts[o.target] == 0)
    && (o.target !in m.cooldowns || !StrLess(IsoFormat(p.escalationClock(i)), m.cooldowns[o.target]))
  }

  lemma EscalatedFitIff(m: Memory, o: Candidate, p: Probe, i: nat)
    requires p.Failed() != [] && m.mutations == 0
    ensures var verdict :=
              EvaluateFitness(o, MachineState(|p.Failed()|), Failing(m, p.Failed()[0]), p.escalationClock(i));
            (o.cls == RESTART_SERVICE && verdict == PROCEED <==> EscalationFit(m, o, p, i))
  {
    FitIff(o, |p.Failed()|, Failing(m, p.Failed()[0]), p.escalationClock(i));
  }

  lemma EscalatedIff(m: Memory, escalation: seq<Candidate>, p: Probe)
    requires p.Failed() != [] && m.mutations == 0
    ensures var m' := Failing(m, p.Failed()[0]);
            (EscalatedRestart(Judged(escalation, MachineState(|p.Failed()|), m', p.escalationClock))
             <==> exists i | 0 <= i < |escalation| :: EscalationFit(m, escalation[i], p, i))
  {
    var es := Judged(escalation, MachineState(|p.Failed()|), Failing(m, p.Failed()[0]), p.escalationClock);
    forall i | 0 <= i < |es|
      ensures es[i].option.cls == RESTART_SERVICE && es[i].verdict == PROCEED <==> EscalationFit(m, escalation[i], p, i)
    {
      EscalatedFitIff(m, escalation[i], p, i);
    }
    if i :| 0 <= i < |es| && EscalationFit(m, escalation[i], p, i) {
      assert es[i] in es;
    }
  }

  /** A retry that finds the service up, and then down on verification, restarts it exactly when an
      escalated restart is fit, the failure just counted included: only one filed under another
      name can be. */
  lemma EscalationIff(m: Memory, step: Step)
    requires step.probe.Failed() != [] && !step.probe.dryRun && step.probe.retryHealthy && !step.probe.verified
    requires var machine := MachineState(|step.probe.Failed()|);
             var sel := Select(Judged(step.options, machine, m.(mutations := 0), step.probe.clock));
             sel.verdict == PROCEED && sel.option.cls == RETRY_READ
    ensures var p := step.probe;
            OutcomeOf(m, step).restarts ==
              if exists i | 0 <= i < |step.escalation| :: EscalationFit(m, step.escalation[i], p, i)
              then [Restart(p.Failed()[0], p.escalateAt, p.escalatedOk)] else []
  {
    EscalatedIff(m.(mutations := 0), step.escalation, step.probe);
  }

  /** The ownership of options matters: a restart filed under a name that is not the failed
      service's is held by nothing that is remembered about the service it restarts. */
  lemma ForeignTargetIgnoresLimits(m: Memory, p: Probe, other: string, escalation: seq<Candidate>)
    requires |p.Failed()| == 1 && !p.dryRun
    requires other !in m.cooldowns && Count(m, other) == 0
    ensures Cycle(m, [Candidate(RESTART_SERVICE, other, true, true)], escalation, p).restarts
         == [Restart(p.Failed()[0], p.actAt, p.restartOk)]
  {
    var options := [Candidate(RESTART_SERVICE, other, true, true)];
    var m0 := m.(mutations := 0);
    var es := Judged(options, DEGRADED, m0, p.clock);
    assert EvaluateFitness(options[0], DEGRADED, m0, p.clock(0)) == PROCEED;
    SelectionPasses(es);
    assert |es| == 1 && es[0] in es && es[0] == Entry(options[0], PROCEED);
  }

  // ---- The options really generated ------------------------------------------

  function RealStep(m: Memory, p: Probe): Step {
    var service := if p.Failed() == [] then "" else p.Failed()[0];
    Step(GenerateOptions(service, ClassifyFailure(m, service, p.quickDown)), GenerateOptions(service, PERSISTENT), p)
  }

  lemma RealStepIsOwn(m: Memory, p: Probe)
    ensures OwnLists(RealStep(m, p).options, RealStep(m, p).escalation, p)
  {}

  lemma SelectFromThree(a: Entry, b: Entry, c: Entry)
    requires a.option.cls == OBSERVE && b.option.cls != OBSERVE && c.option.cls != OBSERVE
    ensures Select([a, b, c]) ==
              if b.verdict == PROCEED then b else if c.verdict == PROCEED then c
              else if a.verdict == PROCEED then a else Entry(b.option, HOLD)
  {
    var es := [a, b, c];
    assert es[..2] == [a, b] && es[..2][..1] == [a] && es[..2][..1][..0] == [];
    assert OfKind([a], true) == [a] && OfKind([a], false) == [];
    assert OfKind([a, b], true) == [a] && OfKind([a, b], false) == [b];
    assert OfKind(es, true) == [a] && OfKind(es, false) == [b, c];
    assert [b, c][1..] == [c] && [c][1..] == [] && [a][1..] == [];
    assert FirstProceeding([a]) == if a.verdict == PROCEED then Some(a) else None;
    assert FirstProceeding([c]) == if c.verdict == PROCEED then Some(c) else None;
    assert FirstProceeding([b, c]) == if b.verdict == PROCEED then Some(b) else FirstProceeding([c]);
  }

  /** Of the three options for a transient failure, the restart is selected exactly when it passes
      and the retry does not. */
  lemma RestartSelectedIff(m: Memory, service: string, machine: Machine, clock: nat -> Now)
    requires m.mutations == 0
    ensures var sel := Select(Judged(GenerateOptions(service, TRANSIENT), machine, m, clock));
            sel.verdict == PROCEED && sel.option.cls == RESTART_SERVICE <==>
              machine != CRITICAL && Count(m, service) == 0
              && Cooling(m, service, clock(1)) && !Cooling(m, service, clock(2))
  {
    var options := GenerateOptions(service, TRANSIENT);
    var es := Judged(options, machine, m, clock);
    var retry, restart := Candidate(RETRY_READ, service, true, true), Candidate(RESTART_SERVICE, service, true, true);
    assert options == [Candidate(OBSERVE, service, true, true), retry, restart];
    assert es[1] == Entry(retry, EvaluateFitness(retry, machine, m, clock(1)));
    assert es[2] == Entry(restart, EvaluateFitness(restart, machine, m, clock(2)));
    assert es == [es[0], es[1], es[2]];
    SelectFromThree(es[0], es[1], es[2]);
  }

  /** With the options the agent really generates, the retry is offered before the restart and
      passes whatever the restart passes. A cycle restarts exactly when a cooldown runs out between
      the two readings of the clock. */
  lemma RealCycleRestartsIff(m: Memory, p: Probe)
    requires p.Failed() != []
    ensures OutcomeOf(m, RealStep(m, p)).restarts != [] <==>
              && !p.dryRun && |p.Failed()| == 1
              && p.quickDown < 2 && Count(m, p.Failed()[0]) == 0
              && Cooling(m, p.Failed()[0], p.clock(1)) && !Cooling(m, p.Failed()[0], p.clock(2))
  {
    if ClassifyFailure(m, p.Failed()[0], p.quickDown) == TRANSIENT {
      TransientRestartsIff(m, p);
    } else {
      NoRestartOffered(m, p);
    }
  }

  lemma TransientStep(m: Memory, p: Probe)
    requires p.Failed() != [] && ClassifyFailure(m, p.Failed()[0], p.quickDown) == TRANSIENT
    ensures RealStep(m, p).options == GenerateOptions(p.Failed()[0], TRANSIENT) && RealStep(m, p).probe == p
    ensures Count(m, p.Failed()[0]) == 0
  {}

  lemma TransientRestartsIff(m: Memory, p: Probe)
    requires p.Failed() != [] && ClassifyFailure(m, p.Failed()[0], p.quickDown) == TRANSIENT
    ensures OutcomeOf(m, RealStep(m, p)).restarts != [] <==>
              && !p.dryRun && |p.Failed()| == 1
              && Cooling(m, p.Failed()[0], p.clock(1)) && !Cooling(m, p.Failed()[0], p.clock(2))
  {
    var step := RealStep(m, p);
    TransientStep(m, p);
    RealStepIsOwn(m, p);
    RestartSelectedIff(m.(mutations := 0), p.Failed()[0], MachineState(|p.Failed()|), p.clock);
    RestartedIff(m, step.options, step.escalation, p);
  }

  lemma OnlyTransientOffersRestart(service: string, f: FailureClass)
    requires f != TRANSIENT
    ensures forall o | o in GenerateOptions(service, f) :: o.cls != RESTART_SERVICE
  {}

  lemma SelectedWasOffered(options: seq<Candidate>, machine: Machine, m: Memory, clock: nat -> Now)
    requires Select(Judged(options, machine, m, clock)).verdict == PROCEED
    ensures Select(Judged(options, machine, m, clock)).option in options
  {
    SelectionPasses(Judged(options, machine, m, clock));
  }

  lemma NoRestartOffered(m: Memory, p: Probe)
    requires p.Failed() != [] && ClassifyFailure(m, p.Failed()[0], p.quickDown) != TRANSIENT
    ensures OutcomeOf(m, RealStep(m, p)).restarts == []
  {
    var step := RealStep(m, p);
    OnlyTransientOffersRestart(p.Failed()[0], ClassifyFailure(m, p.Failed()[0], p.quickDown));
    RestartNeedsOffer(m, step.options, step.escalation, p);
  }

  lemma RestartNeedsOffer(m: Memory, options: seq<Candidate>, escalation: seq<Candidate>, p: Probe)
    requires p.Failed() != [] && OwnLists(options, escalation, p)
    requires forall o | o in options :: o.cls != RESTART_SERVICE
    ensures Cycle(m, options, escalation, p).restarts == []
  {
    RestartedIff(m, options, escalation, p);
    if Cycle(m, options, escalation, p).restarts != [] {
      SelectedWasOffered(options, MachineState(|p.Failed()|), m.(mutations := 0), p.clock);
    }
  }

  lemma RealNext(m: Memory, p: Probe)
    requires m.cooldowns == map[]
    ensures OutcomeOf(m, RealStep(m, p)).restarts == []
    ensures OutcomeOf(m, RealStep(m, p)).memory.cooldowns == map[]
  {
    RealStepIsOwn(m, p);
    if p.Failed() != [] {
      RealCycleRestartsIff(m, p);
    }
    RestartlessKeepsCooldowns(m, RealStep(m, p));
  }

  lemma RealNextIn(h: History, k: nat)
    requires h.Valid() && k < |h.steps| && h.memory[k].cooldowns == map[]
    requires h.steps[k] == RealStep(h.memory[k], h.steps[k].probe)
    ensures h.restarts[k] == [] && h.memory[k + 1].cooldowns == map[]
  {
    assert h.Follows(k);
    RealNext(h.memory[k], h.steps[k].probe);
  }

  /** Generated for what each cycle remembers and sees. */
  ghost predicate RealAt(h: History, k: nat)
    requires k < |h.steps| && k < |h.memory|
  {
    h.steps[k] == RealStep(h.memory[k], h.steps[k].probe)
  }

  /** So an agent that starts with no cooldowns never restarts anything. */
  lemma {:induction false} RealAgentNeverRestarts(h: History, n: nat)
    requires h.Valid() && n < |h.steps| && h.memory[0].cooldowns == map[]
    requires forall k: nat :: k < |h.steps| ==> RealAt(h, k)
    ensures h.restarts[n] == [] && h.memory[n + 1].cooldowns == map[]
  {
    if n > 0 {
      RealAgentNeverRestarts(h, n - 1);
    }
    assert RealAt(h, n);
    RealNextIn(h, n);
  }

  lemma RestartlessKeepsCooldowns(m: Memory, step: Step)
    requires OwnLists(step.options, step.escalation, step.probe) && OutcomeOf(m, step).restarts == []
    ensures OutcomeOf(m, step).memory.cooldowns == m.cooldowns
  {}
}
