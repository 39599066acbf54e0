/** The ingest worker: message handlers and a flush timer interleaved at their await points, over
    one batch, one write in flight and a table that keeps the first row per id. */
module Kabarkan {
  import opened Prelude

  /** A record that carries the required fields, with the clock reading at its acceptance. */
  datatype Rec = Rec(id: string, body: string, at: int)

  /** A delivered message: a record, JSON without the required fields, bytes that are no JSON, or
      anything else the handler chokes on. */
  datatype Message = Good(id: string, body: string) | Incomplete | NotJson | Odd

  /** Where a handler waits for its acknowledgement: after accepting a record; again, after that
      acknowledgement raised; after finding fields missing; or for the last time before giving up. */
  datatype Waiting = Accepted | AcceptedAgain | Rejected | GivingUp

  /** How many handlers wait at each place. */
  datatype Handlers = Handlers(accepted: nat, again: nat, rejected: nat, givingUp: nat) {
    function At(who: Waiting): nat {
      match who
      case Accepted => accepted
      case AcceptedAgain => again
      case Rejected => rejected
      case GivingUp => givingUp
    }

    function Join(who: Waiting): Handlers {
      match who
      case Accepted => this.(accepted := accepted + 1)
      case AcceptedAgain => this.(again := again + 1)
      case Rejected => this.(rejected := rejected + 1)
      case GivingUp => this.(givingUp := givingUp + 1)
    }

    function Leave(who: Waiting): Handlers
      requires At(who) > 0
    {
      match who
      case Accepted => this.(accepted := accepted - 1)
      case AcceptedAgain => this.(again := again - 1)
      case Rejected => this.(rejected := rejected - 1)
      case GivingUp => this.(givingUp := givingUp - 1)
    }
  }

  const NOBODY := Handlers(0, 0, 0, 0)

  type Table = map<string, Rec>

  const BATCH_MAX_SIZE := 100
  const BATCH_MAX_MS := 500

  datatype State = State(
    received: nat, processed: nat, failed: nat, flushes: nat,
    batch: seq<Rec>, deadline: Option<int>, writing: seq<Rec>, handlers: Handlers,
    pool: bool, table: Table, ledger: Ledger)

  /** Bookkeeping the worker does not do: what it accepted, what left the batch and how, and the
      messages its counters count twice or not at all. */
  datatype Ledger = Ledger(
    accepted: seq<Rec>, settled: seq<Rec>, written: seq<Rec>, dropped: nat, doubled: nat, lost: nat)

  datatype Event =
    | Deliver(message: Message, now: int)
    | Acknowledged(who: Waiting, ok: bool)
    | TimerWakes(now: int)
    | WriteEnds(ok: bool)
    | PoolOpens

  // ---- The table -------------------------------------------------------------

  /** INSERT ... ON CONFLICT (id) DO NOTHING */
  function Insert(t: Table, r: Rec): Table { if r.id in t then t else t[r.id := r] }

  function InsertAll(t: Table, rs: seq<Rec>): Table {
    if rs == [] then t else Insert(InsertAll(t, rs[..|rs| - 1]), rs[|rs| - 1])
  }

  // ---- Steps between awaits --------------------------------------------------

  function Received(s: State, m: Message, now: int): State {
    var s := s.(received := s.received + 1);
    match m
    case Good(id, body) =>
      var r := Rec(id, body, now);
      s.(batch := s.batch + [r],
         deadline := if s.deadline.None? then Some(now + BATCH_MAX_MS) else s.deadline,
         handlers := s.handlers.Join(Accepted),
         ledger := s.ledger.(accepted := s.ledger.accepted + [r]))
    case Incomplete => s.(handlers := s.handlers.Join(Rejected))
    case NotJson => s.(handlers := s.handlers.Join(GivingUp))
    case Odd => s.(handlers := s.handlers.Join(GivingUp))
  }

  function Resume(s: State, who: Waiting, ok: bool): State {
    if s.handlers.At(who) == 0 then s
    else
      var s := s.(handlers := s.handlers.Leave(who));
      match who
      case Accepted => if ok then s else s.(handlers := s.handlers.Join(AcceptedAgain))
      case AcceptedAgain =>
        if ok then s.(failed := s.failed + 1, ledger := s.ledger.(doubled := s.ledger.doubled + 1)) else s
      case Rejected => if ok then s.(failed := s.failed + 1) else s.(handlers := s.handlers.Join(GivingUp))
      case GivingUp =>
        if ok then s.(failed := s.failed + 1) else s.(ledger := s.ledger.(lost := s.ledger.lost + 1))
  }

  predicate ShouldFlush(s: State, now: int) {
    |s.batch| >= BATCH_MAX_SIZE || (s.batch != [] && s.deadline.Some? && now >= s.deadline.value)
  }

  /** The timer takes the whole batch; without a pool the write returns at once, having done
      nothing. While a write is in flight the timer does not run. */
  function Wake(s: State, now: int): State {
    if s.writing != [] || !ShouldFlush(s, now) then s
    else
      var taken := s.(batch := [], deadline := None);
      if s.pool then taken.(writing := s.batch)
      else taken.(flushes := s.flushes + 1,
                  ledger := s.ledger.(settled := s.ledger.settled + s.batch, dropped := s.ledger.dropped + |s.batch|))
  }

  function EndWrite(s: State, ok: bool): State {
    if s.writing == [] then s
    else
      var n := |s.writing|;
      var done := s.(writing := [], flushes := s.flushes + 1,
                     ledger := s.ledger.(settled := s.ledger.settled + s.writing));
      if ok then done.(processed := s.processed + n, table := InsertAll(s.table, s.writing),
                       ledger := done.ledger.(written := s.ledger.written + s.writing))
      else done.(failed := s.failed + n)
  }

  function Step(s: State, ev: Event): State {
    match ev
    case Deliver(m, now) => Received(s, m, now)
    case Acknowledged(who, ok) => Resume(s, who, ok)
    case TimerWakes(now) => Wake(s, now)
    case WriteEnds(ok) => EndWrite(s, ok)
    case PoolOpens => s.(pool := true)
  }

  function Start(table: Table): State {
    State(0, 0, 0, 0, [], None, [], NOBODY, false, table, Ledger([], [], [], 0, 0, 0))
  }

  function Run(table: Table, evs: seq<Event>): State {
    if evs == [] then Start(table) else Step(Run(table, evs[..|evs| - 1]), evs[|evs| - 1])
  }

  // ---- The worker ------------------------------------------------------------

  class Worker {
    var received: nat
    var processed: nat
    var failed: nat
    var flushes: nat
    var batch: seq<Rec>
    var deadline: Option<int>
    var writing: seq<Rec>
    var handlers: Handlers
    var pool: bool
    var table: Table
    ghost var ledger: Ledger

    ghost function View(): State
      reads this
    {
      State(received, processed, failed, flushes, batch, deadline, writing, handlers, pool, table, ledger)
    }

    constructor (table: Table)
      ensures View() == Start(table)
    {
      received, processed, failed, flushes, batch, deadline := 0, 0, 0, 0, [], None;
      writing, handlers, pool, this.table := [], NOBODY, false, table;
      ledger := Ledger([], [], [], 0, 0, 0);
    }

    method AddToBatch(r: Rec)
      modifies `batch, `deadline, `ledger
      ensures batch == old(batch) + [r]
      ensures deadline == if old(deadline).None? then Some(r.at + BATCH_MAX_MS) else old(deadline)
      ensures ledger == old(ledger).(accepted := old(ledger).accepted + [r])
    {
      batch := batch + [r];
      ledger := ledger.(accepted := ledger.accepted + [r]);
      if deadline == None {
        deadline := Some(r.at + BATCH_MAX_MS);
      }
    }

    /** The handler, up to its first await. */
    method HandleMessage(m: Message, now: int)
      modifies this
      ensures View() == Received(old(View()), m, now)
    {
      received := received + 1;
      var who: Waiting;
      match m {
        case Good(id, body) =>
          AddToBatch(Rec(id, body, now));
          who := Accepted;
        case Incomplete => who := Rejected;
        case NotJson => who := GivingUp;
        case Odd => who := GivingUp;
      }
      handlers := handlers.Join(who);
    }

    /** A handler whose record is in the batch, after its acknowledgement. */
    method ResumeAccepted(ok: bool)
      requires handlers.At(Accepted) > 0
      modifies this
      ensures View() == Resume(old(View()), Accepted, ok)
    {
      handlers := handlers.Leave(Accepted);
      if !ok {
        handlers := handlers.Join(AcceptedAgain);
      }
    }

    /** A handler that found fields missing, after its acknowledgement. */
    method ResumeRejected(ok: bool)
      requires handlers.At(Rejected) > 0
      modifies this
      ensures View() == Resume(old(View()), Rejected, ok)
    {
      handlers := handlers.Leave(Rejected);
      if ok {
        failed := failed + 1;
      } else {
        handlers := handlers.Join(GivingUp);
      }
    }

    /** A handler in an exception branch, after the acknowledgement there. */
    method ResumeFailing(who: Waiting, ok: bool)
      requires handlers.At(who) > 0 && (who == AcceptedAgain || who == GivingUp)
      modifies this
      ensures View() == Resume(old(View()), who, ok)
    {
      handlers := handlers.Leave(who);
      if ok {
        failed := failed + 1;
      }
      ledger := ledger.(doubled := ledger.doubled + (if ok && who == AcceptedAgain then 1 else 0),
                        lost := ledger.lost + (if !ok && who == GivingUp then 1 else 0));
    }

    /** The timer, from waking to the write. */
    method WakeTimer(now: int)
      requires writing == []
      modifies this
      ensures View() == Wake(old(View()), now)
    {
      var due := false;
      if |batch| >= BATCH_MAX_SIZE {
        due := true;
      } else if batch != [] && deadline.Some? && now >= deadline.value {
        due := true;
      }
      if due && batch != [] {
        var records := batch;
        batch, deadline := [], None;
        if pool {
          writing := records;
        } else {
          ledger := ledger.(settled := ledger.settled + records, dropped := ledger.dropped + |records|);
          flushes := flushes + 1;
        }
      }
    }

    method InsertRows(records: seq<Rec>)
      modifies `table
      ensures table == InsertAll(old(table), records)
    {
      for i := 0 to |records|
        invariant table == InsertAll(old(table), records[..i])
      {
        assert records[..i + 1][..i] == records[..i];
        table := Insert(table, records[i]);
      }
      assert records[..|records|] == records;
    }

    /** The write, row by row in one transaction, and the timer's accounting after it. */
    method FinishWrite(ok: bool)
      requires writing != []
      modifies this
      ensures View() == EndWrite(old(View()), ok)
    {
      if ok {
        InsertRows(writing);
        processed := processed + |writing|;
        ledger := ledger.(written := ledger.written + writing);
      } else {
        failed := failed + |writing|;
      }
      ledger := ledger.(settled := ledger.settled + writing);
      writing, flushes := [], flushes + 1;
    }
  }

  // ---- Conservation ----------------------------------------------------------

  /** Every received message is in one place: processed, failed, batched, in flight, in the hands of
      a handler about to reject it, dropped for want of a pool, or lost to a raising last
      acknowledgement; and it is in two when its record was accepted but its acknowledgement had to
      be repeated. */
  predicate Conserved(s: State) {
    s.received + s.ledger.doubled ==
    s.processed + s.failed + |s.batch| + |s.writing|
    + s.handlers.At(Rejected) + s.handlers.At(GivingUp) + s.ledger.dropped + s.ledger.lost
  }

  /** Nothing overtakes: what was accepted is what left the batch, what is in flight, and what is
      batched, in that order. The deadline is set exactly while there is a batch, by its first
      record. The table is the flushed records inserted one by one. */
  predicate Orderly(table: Table, s: State) {
    && s.ledger.accepted == s.ledger.settled + s.writing + s.batch
    && s.deadline == (if s.batch == [] then None else Some(s.batch[0].at + BATCH_MAX_MS))
    && s.table == InsertAll(table, s.ledger.written)
  }

  lemma {:induction false} InsertAllConcat(t: Table, a: seq<Rec>, b: seq<Rec>)
    ensures InsertAll(t, a + b) == InsertAll(InsertAll(t, a), b)
  {
    if b == [] {
      assert a + b == a;
    } else {
      var n := |b| - 1;
      InsertAllConcat(t, a, b[..n]);
      assert (a + b)[..|a + b| - 1] == a + b[..n];
    }
  }

  lemma ResumeConserves(s: State, who: Waiting, ok: bool)
    requires Conserved(s)
    ensures Conserved(Resume(s, who, ok))
  {}

  lemma StepConserves(s: State, ev: Event)
    requires Conserved(s)
    ensures Conserved(Step(s, ev))
  {
    if ev.Acknowledged? {
      ResumeConserves(s, ev.who, ev.ok);
    }
  }

  lemma WriteOrderly(table: Table, s: State, ok: bool)
    requires Orderly(table, s)
    ensures Orderly(table, EndWrite(s, ok))
  {
    InsertAllConcat(table, s.ledger.written, s.writing);
  }

  lemma ReceivedOrderly(table: Table, s: State, m: Message, now: int)
    requires Orderly(table, s)
    ensures Orderly(table, Received(s, m, now))
  {}

  lemma WakeOrderly(table: Table, s: State, now: int)
    requires Orderly(table, s)
    ensures Orderly(table, Wake(s, now))
  {}

  lemma ResumeOrderly(table: Table, s: State, who: Waiting, ok: bool)
    requires Orderly(table, s)
    ensures Orderly(table, Resume(s, who, ok))
  {}

  lemma StepOrderly(table: Table, s: State, ev: Event)
    requires Orderly(table, s)
    ensures Orderly(table, Step(s, ev))
  {
    match ev
    case WriteEnds(ok) => WriteOrderly(table, s, ok);
    case Deliver(m, now) => ReceivedOrderly(table, s, m, now);
    case Acknowledged(who, ok) => ResumeOrderly(table, s, who, ok);
    case TimerWakes(now) => WakeOrderly(table, s, now);
    case PoolOpens =>
  }

  /** Both hold at every await point of every interleaving. */
  lemma {:induction false} EveryPointHolds(table: Table, evs: seq<Event>)
    ensures Conserved(Run(table, evs)) && Orderly(table, Run(table, evs))
  {
    if evs != [] {
      var n := |evs| - 1;
      EveryPointHolds(table, evs[..n]);
      StepConserves(Run(table, evs[..n]), evs[n]);
      StepOrderly(table, Run(table, evs[..n]), evs[n]);
    }
  }

  // ---- What the counters count -----------------------------------------------

  datatype Tally = Tally(
    received: nat, processed: nat, failed: nat, flushes: nat, doubled: nat, dropped: nat, lost: nat)
  {
    function Plus(t: Tally): Tally {
      Tally(received + t.received, processed + t.processed, failed + t.failed, flushes + t.flushes,
            doubled + t.doubled, dropped + t.dropped, lost + t.lost)
    }
  }

  const NOTHING := Tally(0, 0, 0, 0, 0, 0, 0)

  function Counters(s: State): Tally {
    Tally(s.received, s.processed, s.failed, s.flushes, s.ledger.doubled, s.ledger.dropped, s.ledger.lost)
  }

  /** What an event is worth: a delivery is received; an acknowledgement that returns, anywhere but
      after a plain acceptance, is a failure, and one more for a record that stays batched; one
      that raises in the last place loses its message; a write that ends processes its records or
      fails them, and a batch due without a pool is dropped; both are flushes. */
  function Worth(s: State, ev: Event): Tally {
    match ev
    case Deliver(_, _) => NOTHING.(received := 1)
    case Acknowledged(who, ok) =>
      if s.handlers.At(who) == 0 || who == Accepted then NOTHING
      else if ok then NOTHING.(failed := 1, doubled := if who == AcceptedAgain then 1 else 0)
      else NOTHING.(lost := if who == GivingUp then 1 else 0)
    case TimerWakes(now) =>
      if s.pool || s.writing != [] || !Due(s, now) then NOTHING else NOTHING.(dropped := |s.batch|, flushes := 1)
    case WriteEnds(ok) =>
      if s.writing == [] then NOTHING
      else if ok then NOTHING.(processed := |s.writing|, flushes := 1)
      else NOTHING.(failed := |s.writing|, flushes := 1)
    case PoolOpens => NOTHING
  }

  /** The batch is full, or its window is over. */
  predicate Due(s: State, now: int) {
    |s.batch| >= 100 || (s.batch != [] && s.deadline.Some? && s.deadline.value <= now)
  }

  function Worths(table: Table, evs: seq<Event>): Tally {
    if evs == [] then NOTHING
    else
      var n := |evs| - 1;
      Worths(table, evs[..n]).Plus(Worth(Run(table, evs[..n]), evs[n]))
  }

  lemma StepCounts(s: State, ev: Event)
    ensures Counters(Step(s, ev)) == Counters(s).Plus(Worth(s, ev))
  {
    match ev
    case Acknowledged(who, ok) => assert Counters(Resume(s, who, ok)) == Counters(s).Plus(Worth(s, ev));
    case _ =>
  }

  /** In every interleaving the counters are what the events were worth. */
  lemma {:induction false} CountersCount(table: Table, evs: seq<Event>)
    ensures Counters(Run(table, evs)) == Worths(table, evs)
  {
    if evs != [] {
      var n := |evs| - 1;
      CountersCount(table, evs[..n]);
      StepCounts(Run(table, evs[..n]), evs[n]);
    }
  }

  /** A worker begins with no handler waiting and nothing counted, over the table it finds. */
  lemma StartsIdle(table: Table, who: Waiting)
    ensures var s := Run(table, []);
            && s.handlers.At(who) == 0 && Counters(s) == NOTHING && s.table == table
            && s.batch == [] && s.writing == [] && s.deadline == None && !s.pool
  {}

  /** Where an event sends a handler to wait. */
  function Sends(s: State, ev: Event): Option<Waiting> {
    match ev
    case Deliver(Good(_, _), _) => Some(Accepted)
    case Deliver(Incomplete, _) => Some(Rejected)
    case Deliver(_, _) => Some(GivingUp)
    case Acknowledged(who, ok) =>
      if s.handlers.At(who) == 0 || ok then None
      else if who == Accepted then Some(AcceptedAgain)
      else if who == Rejected then Some(GivingUp)
      else None
    case _ => None
  }

  /** And from where it takes one. */
  predicate Frees(s: State, ev: Event, who: Waiting) { ev.Acknowledged? && ev.who == who && s.handlers.At(who) > 0 }

  lemma HandlersMove(s: State, ev: Event, who: Waiting)
    ensures Step(s, ev).handlers.At(who)
         == s.handlers.At(who) + (if Sends(s, ev) == Some(who) then 1 else 0) - (if Frees(s, ev, who) then 1 else 0)
  {}

  // ---- A healthy worker ------------------------------------------------------

  predicate AcksSucceed(evs: seq<Event>) { forall ev | ev in evs && ev.Acknowledged? :: ev.ok }

  predicate WritesSucceed(evs: seq<Event>) { forall ev | ev in evs && ev.WriteEnds? :: ev.ok }

  lemma LastIn(evs: seq<Event>)
    requires evs != []
    ensures evs[|evs| - 1] in evs && forall ev | ev in evs[..|evs| - 1] :: ev in evs
  {}

  predicate Acked(s: State) { s.ledger.doubled == 0 && s.ledger.lost == 0 && s.handlers.again == 0 }

  lemma StepAcked(s: State, ev: Event)
    requires Acked(s) && (ev.Acknowledged? ==> ev.ok)
    ensures Acked(Step(s, ev))
  {}

  lemma {:induction false} AcksKeepLedger(table: Table, evs: seq<Event>)
    requires AcksSucceed(evs)
    ensures Acked(Run(table, evs))
  {
    if evs != [] {
      var n := |evs| - 1;
      LastIn(evs);
      AcksKeepLedger(table, evs[..n]);
      StepAcked(Run(table, evs[..n]), evs[n]);
    }
  }

  predicate Pooled(s: State) { s.pool && s.ledger.dropped == 0 }

  lemma StepPooled(s: State, ev: Event)
    requires Pooled(s)
    ensures Pooled(Step(s, ev))
  {}

  lemma {:induction false} PoolKeepsLedger(table: Table, evs: seq<Event>)
    requires evs != [] && evs[0] == PoolOpens
    ensures Pooled(Run(table, evs))
  {
    var n := |evs| - 1;
    if n == 0 {
      assert evs[..0] == [];
    } else {
      PoolKeepsLedger(table, evs[..n]);
      StepPooled(Run(table, evs[..n]), evs[n]);
    }
  }

  /** With a pool from the start and acknowledgements that succeed: received = processed + failed +
      batched + in flight, but for the messages whose rejection is waiting to be acknowledged. */
  lemma HealthyBalance(table: Table, evs: seq<Event>)
    requires AcksSucceed(evs) && evs != [] && evs[0] == PoolOpens
    ensures var s := Run(table, evs);
            s.received == s.processed + s.failed + |s.batch| + |s.writing|
                          + s.handlers.At(Rejected) + s.handlers.At(GivingUp)
  {
    EveryPointHolds(table, evs);
    AcksKeepLedger(table, evs);
    PoolKeepsLedger(table, evs);
  }

  predicate Dropping(table: Table, s: State) {
    && !s.pool && s.writing == [] && s.table == table && s.processed == 0 && s.ledger.written == []
    && s.ledger.dropped == |s.ledger.settled|
  }

  lemma StepDrops(table: Table, s: State, ev: Event)
    requires Dropping(table, s) && ev != PoolOpens
    ensures Dropping(table, Step(s, ev))
  {
    match ev
    case Deliver(m, now) => assert Dropping(table, Received(s, m, now));
    case Acknowledged(who, ok) => assert Dropping(table, Resume(s, who, ok));
    case TimerWakes(now) => assert Dropping(table, Wake(s, now));
    case WriteEnds(ok) => assert Dropping(table, EndWrite(s, ok));
  }

  /** A worker that never gets a pool writes nothing and counts nothing as processed: whatever it
      flushes is dropped, and no counter says so. */
  lemma {:induction false} PoollessDropsAll(table: Table, evs: seq<Event>)
    requires PoolOpens !in evs
    ensures Dropping(table, Run(table, evs))
  {
    if evs != [] {
      var n := |evs| - 1;
      LastIn(evs);
      PoollessDropsAll(table, evs[..n]);
      StepDrops(table, Run(table, evs[..n]), evs[n]);
    }
  }

  // ---- What the table holds --------------------------------------------------

  function First(rs: seq<Rec>, id: string): Option<Rec> {
    if rs == [] then None else if rs[0].id == id then Some(rs[0]) else First(rs[1..], id)
  }

  lemma {:induction false} FirstConcat(a: seq<Rec>, b: seq<Rec>, id: string)
    ensures First(a + b, id) == if First(a, id).Some? then First(a, id) else First(b, id)
  {
    if a == [] {
      assert a + b == b;
    } else {
      FirstConcat(a[1..], b, id);
      assert (a + b)[1..] == a[1..] + b;
    }
  }

  /** The first row per id stays. */
  lemma {:induction false} FirstWriteWins(t: Table, rs: seq<Rec>, id: string)
    ensures id in InsertAll(t, rs) <==> id in t || First(rs, id).Some?
    ensures id in InsertAll(t, rs) ==> InsertAll(t, rs)[id] == if id in t then t[id] else First(rs, id).value
  {
    if rs != [] {
      var n := |rs| - 1;
      FirstWriteWins(t, rs[..n], id);
      FirstConcat(rs[..n], [rs[n]], id);
      assert rs == rs[..n] + [rs[n]] && [rs[n]][1..] == [];
    }
  }

  /** Writing a record again, anywhere later, changes nothing. */
  lemma RedeliveryChangesNothing(t: Table, a: seq<Rec>, r: Rec, b: seq<Rec>)
    requires r.id in t || First(a, r.id).Some?
    ensures InsertAll(t, a + [r] + b) == InsertAll(t, a + b)
  {
    forall id
      ensures First(a + [r] + b, id) == First(a + b, id) || id == r.id
      ensures First(a, r.id).Some? ==> First(a + [r] + b, r.id) == First(a + b, r.id)
      ensures id in InsertAll(t, a + [r] + b) <==> id in InsertAll(t, a + b)
      ensures id in InsertAll(t, a + b) ==> InsertAll(t, a + [r] + b)[id] == InsertAll(t, a + b)[id]
    {
      SameFirst(a, r, b, id);
      SameFirst(a, r, b, r.id);
      FirstWriteWins(t, a + [r] + b, id);
      FirstWriteWins(t, a + b, id);
    }
  }

  lemma SameFirst(a: seq<Rec>, r: Rec, b: seq<Rec>, id: string)
    ensures id != r.id || First(a, id).Some? ==> First(a + [r] + b, id) == First(a + b, id)
  {
    FirstConcat(a + [r], b, id);
    FirstConcat(a, [r], id);
    FirstConcat(a, b, id);
    assert [r][1..] == [];
  }

  function Arrived(ev: Event): seq<Rec> {
    if ev.Deliver? && ev.message.Good? then [Rec(ev.message.id, ev.message.body, ev.now)] else []
  }

  /** The records of the good messages, in order of delivery. */
  function Arrivals(evs: seq<Event>): seq<Rec> {
    if evs == [] then [] else Arrivals(evs[..|evs| - 1]) + Arrived(evs[|evs| - 1])
  }

  lemma StepAccepts(s: State, ev: Event)
    ensures Step(s, ev).ledger.accepted == s.ledger.accepted + Arrived(ev)
  {}

  lemma {:induction false} AcceptedIsArrivals(table: Table, evs: seq<Event>)
    ensures Run(table, evs).ledger.accepted == Arrivals(evs)
  {
    if evs != [] {
      var n := |evs| - 1;
      AcceptedIsArrivals(table, evs[..n]);
      StepAccepts(Run(table, evs[..n]), evs[n]);
    }
  }

  lemma StepWritesAll(s: State, ev: Event)
    requires Pooled(s) && s.ledger.written == s.ledger.settled && (ev.WriteEnds? ==> ev.ok)
    ensures Step(s, ev).ledger.written == Step(s, ev).ledger.settled
  {}

  lemma {:induction false} HealthyWritesAll(table: Table, evs: seq<Event>)
    requires WritesSucceed(evs) && evs != [] && evs[0] == PoolOpens
    ensures Run(table, evs).ledger.written == Run(table, evs).ledger.settled
  {
    var n := |evs| - 1;
    if n == 0 {
      assert evs[..0] == [];
    } else {
      LastIn(evs);
      HealthyWritesAll(table, evs[..n]);
      PoolKeepsLedger(table, evs[..n]);
      StepWritesAll(Run(table, evs[..n]), evs[n]);
    }
  }

  /** However handlers, timer and writes interleave, and wherever the batches were cut: once a
      worker with a pool and successful writes is drained, the table is the delivered records
      inserted one by one, the first per id winning. */
  lemma DrainedTable(table: Table, evs: seq<Event>)
    requires WritesSucceed(evs) && evs != [] && evs[0] == PoolOpens
    requires Run(table, evs).batch == [] && Run(table, evs).writing == []
    ensures Run(table, evs).table == InsertAll(table, Arrivals(evs))
  {
    EveryPointHolds(table, evs);
    AcceptedIsArrivals(table, evs);
    HealthyWritesAll(table, evs);
    var settled := Run(table, evs).ledger.settled;
    assert settled + [] + [] == settled;
  }

  // ---- The batch window ------------------------------------------------------

  predicate InOrder(rs: seq<Rec>) { forall i, j | 0 <= i < j < |rs| :: rs[i].at <= rs[j].at }

  /** A batch leaves whole or not at all, and leaves exactly when it is full or its first record is
      a window old. */
  lemma BatchLeavesIff(table: Table, evs: seq<Event>, now: int)
    requires Run(table, evs).writing == []
    ensures var s := Run(table, evs);
            var r := Wake(s, now);
            && (r.batch == [] <==> s.batch == [] || |s.batch| >= 100 || now >= s.batch[0].at + 500)
            && (r.batch == [] || r == s)
            && (r.batch == [] ==> if s.pool then r.writing == s.batch && r.ledger == s.ledger
                                  else r.writing == [] && r.ledger.settled == s.ledger.settled + s.batch)
  {
    EveryPointHolds(table, evs);
  }

  /** When the clock does not run backwards, no record outstays the window: if the timer wakes with
      no write in flight and some batched record is a window old, the whole batch leaves. */
  lemma NoRecordOutstays(table: Table, evs: seq<Event>, r: Rec, now: int)
    requires InOrder(Arrivals(evs)) && r in Run(table, evs).batch && r.at + 500 <= now
    requires Run(table, evs).writing == []
    ensures Wake(Run(table, evs), now).batch == []
  {
    var s := Run(table, evs);
    EveryPointHolds(table, evs);
    AcceptedIsArrivals(table, evs);
    var i :| 0 <= i < |s.batch| && s.batch[i] == r;
    var k := |s.ledger.settled|;
    assert s.ledger.accepted[k] == s.batch[0] && s.ledger.accepted[k + i] == r;
  }
}
