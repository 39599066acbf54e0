/** The disclosure watch: which copy of a message seen on two lanes is the witness, and the clock
    that re-alerts an unanswered report. An absent text field is the empty string. */
module Disclosure {
  import opened Prelude
  import opened Timestamps

  datatype Rec = Rec(
    human: bool, seen: string, sender: string, subject: string, received: string, viaLane: Option<string>,
    acknowledged: string, sibling: bool, dismissed: bool, lastRealert: string)
  {
    predicate Open() { human && acknowledged == "" && !dismissed }

    /** What no run and no operator changes once the record is tracked. */
    predicate SameMessage(r: Rec) {
      human == r.human && seen == r.seen && sender == r.sender && subject == r.subject
      && received == r.received && viaLane == r.viaLane
    }
  }

  type Tracked = map<string, Rec>

  /** Subject normalisation, and the reading of a stored timestamp (absent: reading it raises). */
  datatype Setting = Setting(norm: string -> string, parse: string -> Option<int>) {
    /** The reading inverts the printing of UTC instants. */
    ghost predicate ReadsIso() {
      forall t: Moment :: parse(IsoFormat(t)) == Some(Instant(t))
    }
  }

  // ---- Supersession ----------------------------------------------------------

  predicate SamePrint(st: Setting, a: Rec, b: Rec) {
    a.sender == b.sender && st.norm(a.subject) == st.norm(b.subject) && a.received == b.received
  }

  /** The order of (seen, key) pairs. */
  predicate Before(t: Tracked, a: string, b: string)
    requires a in t && b in t
  {
    StrLess(t[a].seen, t[b].seen) || (t[a].seen == t[b].seen && StrLess(a, b))
  }

  /** The lane a record counts as when it is the other one: gws where it carries none. */
  function Lane(r: Rec): string { if r.viaLane.Some? then r.viaLane.value else "gws" }

  /** A record that carries no lane is on another one than every record, its equals included. */
  predicate OtherLane(other: Rec, mine: Rec) { mine.viaLane != Some(Lane(other)) }

  predicate SupersededBy(st: Setting, t: Tracked, key: string, other: string)
    requires key in t && other in t
  {
    other != key && OtherLane(t[other], t[key]) && SamePrint(st, t[other], t[key]) && Before(t, other, key)
  }

  predicate Superseded(st: Setting, t: Tracked, key: string)
    requires key in t
  {
    exists other | other in t :: SupersededBy(st, t, key, other)
  }

  /** The clock runs on this record. */
  predicate Watched(st: Setting, t: Tracked, key: string)
    requires key in t
  {
    t[key].Open() && !Superseded(st, t, key)
  }

  /** Two records tell of different messages: another sender, another subject once normalised, or
      another time of receipt. */
  predicate Differ(st: Setting, a: Rec, b: Rec) {
    a.sender != b.sender || st.norm(a.subject) != st.norm(b.subject) || a.received != b.received
  }

  /** What silences a record is an older one of the same sender, subject and receipt, from another
      lane. */
  lemma SupersededByMeans(st: Setting, t: Tracked, key: string, other: string)
    requires key in t && other in t && SupersededBy(st, t, key, other)
    ensures t[other].sender == t[key].sender && t[other].received == t[key].received
    ensures st.norm(t[other].subject) == st.norm(t[key].subject)
    ensures t[key].viaLane != Some(if t[other].viaLane.Some? then t[other].viaLane.value else "gws")
    ensures StrLess(t[other].seen, t[key].seen) || (t[other].seen == t[key].seen && StrLess(other, key))
  {}

  /** So a report that differs from every other record is watched as long as it is open. */
  lemma DifferentIsWatched(st: Setting, t: Tracked, key: string)
    requires key in t && forall other | other in t && other != key :: Differ(st, t[other], t[key])
    ensures Watched(st, t, key) <==> t[key].human && t[key].acknowledged == "" && !t[key].dismissed
  {}

  lemma BeforeTransitive(t: Tracked, a: string, b: string, c: string)
    requires a in t && b in t && c in t && Before(t, a, b) && Before(t, b, c)
    ensures Before(t, a, c)
  {
    StrLessIrreflexive(t[b].seen);
    if t[a].seen == t[b].seen && t[b].seen == t[c].seen {
      StrLessTransitive(a, b, c);
    } else if StrLess(t[a].seen, t[b].seen) && StrLess(t[b].seen, t[c].seen) {
      StrLessTransitive(t[a].seen, t[b].seen, t[c].seen);
    }
  }

  lemma BeforeIrreflexive(t: Tracked, a: string)
    requires a in t
    ensures !Before(t, a, a)
  {
    StrLessIrreflexive(a);
    StrLessIrreflexive(t[a].seen);
  }

  lemma BeforeTotal(t: Tracked, a: string, b: string)
    requires a in t && b in t
    ensures Before(t, a, b) || a == b || Before(t, b, a)
  {
    StrLessTotal(a, b);
    StrLessTotal(t[a].seen, t[b].seen);
  }

  /** A trail of records, each superseded by the next. */
  predicate Trail(st: Setting, t: Tracked, keys: seq<string>) {
    (forall k | k in keys :: k in t)
    && forall i | 0 <= i < |keys| - 1 :: SupersededBy(st, t, keys[i], keys[i + 1])
  }

  lemma {:induction false} TrailDescends(st: Setting, t: Tracked, keys: seq<string>)
    requires |keys| >= 2 && Trail(st, t, keys)
    ensures Before(t, keys[|keys| - 1], keys[0])
  {
    var n := |keys| - 1;
    assert SupersededBy(st, t, keys[n - 1], keys[n]);
    if n > 1 {
      TrailDescends(st, t, keys[..n]);
      BeforeTransitive(t, keys[n], keys[n - 1], keys[0]);
    }
  }

  /** Supersession is acyclic. */
  lemma SupersessionAcyclic(st: Setting, t: Tracked, keys: seq<string>)
    requires |keys| >= 2 && Trail(st, t, keys)
    ensures keys[0] != keys[|keys| - 1]
  {
    TrailDescends(st, t, keys);
    BeforeIrreflexive(t, keys[0]);
  }

  ghost predicate IsLeast(t: Tracked, s: set<string>, m: string)
    requires s <= t.Keys
  {
    m in s && forall k | k in s && k != m :: Before(t, m, k)
  }

  lemma {:induction false} LeastOf(t: Tracked, s: set<string>) returns (m: string)
    requires s != {} && s <= t.Keys
    ensures IsLeast(t, s, m)
    decreases s
  {
    var x :| x in s;
    if s == {x} {
      return x;
    }
    m := LeastOf(t, s - {x});
    BeforeTotal(t, m, x);
    if Before(t, x, m) {
      forall k | k in s && k != x
        ensures Before(t, x, k)
      {
        if k != m {
          BeforeTransitive(t, x, m, k);
        }
      }
      m := x;
    }
  }

  function Copies(st: Setting, t: Tracked, key: string): set<string>
    requires key in t
  {
    set k | k in t && SamePrint(st, t[k], t[key])
  }

  /** Among the copies of any message the least by (seen, key) is superseded by none. */
  lemma SomeCopyUnsuperseded(st: Setting, t: Tracked, key: string) returns (m: string)
    requires key in t
    ensures IsLeast(t, Copies(st, t, key), m) && !Superseded(st, t, m)
  {
    assert key in Copies(st, t, key);
    m := LeastOf(t, Copies(st, t, key));
    forall other | other in t && SupersededBy(st, t, m, other)
      ensures false
    {
      BeforeTransitive(t, m, other, m);
      BeforeIrreflexive(t, m);
    }
  }

  function OpenCopies(st: Setting, t: Tracked, key: string): set<string>
    requires key in t
  {
    set k | k in Copies(st, t, key) && t[k].Open()
  }

  /** A message with an open copy has an oldest one. */
  lemma OldestOpenCopy(st: Setting, t: Tracked, key: string, k: string) returns (oldest: string)
    requires key in t && k in t && SamePrint(st, t[k], t[key]) && t[k].Open()
    ensures IsLeast(t, OpenCopies(st, t, key), oldest)
  {
    assert k in OpenCopies(st, t, key);
    oldest := LeastOf(t, OpenCopies(st, t, key));
  }

  /** No copy older than this one is on another lane. */
  predicate Unrivalled(st: Setting, t: Tracked, key: string)
    requires key in t
  {
    forall k | k in Copies(st, t, key) && Before(t, k, key) :: !OtherLane(t[k], t[key])
  }

  lemma UnsupersededIff(st: Setting, t: Tracked, key: string)
    requires key in t
    ensures !Superseded(st, t, key) <==> Unrivalled(st, t, key)
  {
    BeforeIrreflexive(t, key);
    if Superseded(st, t, key) {
      var other :| other in t && SupersededBy(st, t, key, other);
      assert other in Copies(st, t, key);
    }
    forall k | k in Copies(st, t, key) && Before(t, k, key) && OtherLane(t[k], t[key])
      ensures Superseded(st, t, key)
    {
      assert SupersededBy(st, t, key, k);
    }
  }

  /** Copies of one message have the same copies. */
  lemma SameCopies(st: Setting, t: Tracked, key: string, k: string)
    requires key in t && k in Copies(st, t, key)
    ensures Copies(st, t, k) == Copies(st, t, key)
  {}

  /** A watched copy younger than the oldest open one: every copy before the oldest open one is on
      its lane too, or the oldest carries none and the watched one is gws. */
  lemma YoungerWatched(st: Setting, t: Tracked, key: string, oldest: string, w: string)
    requires key in t && IsLeast(t, OpenCopies(st, t, key), oldest)
    requires w in Copies(st, t, key) && Watched(st, t, w) && w != oldest
    ensures t[oldest].viaLane.Some? ==> Unrivalled(st, t, oldest)
    ensures t[oldest].viaLane.None? ==> t[w].viaLane == Some("gws")
  {
    SameCopies(st, t, key, w);
    SameCopies(st, t, key, oldest);
    UnsupersededIff(st, t, w);
    assert w in OpenCopies(st, t, key) && Before(t, oldest, w);
    forall k | k in Copies(st, t, key) && Before(t, k, oldest)
      ensures Lane(t[k]) == Lane(t[oldest])
    {
      BeforeTransitive(t, k, oldest, w);
    }
  }

  /** But that copy may be closed, or no disclosure at all. Exactly when an open message keeps a
      watched copy: when every copy older than its oldest open one, open or not, came over that
      one's lane; or, where the oldest open one carries no lane, when some other open copy is gws and
      so is all before it. */
  lemma OpenMessageWatchedIff(st: Setting, t: Tracked, key: string, oldest: string)
    requires key in t && IsLeast(t, OpenCopies(st, t, key), oldest)
    ensures (exists k | k in Copies(st, t, key) :: Watched(st, t, k)) <==>
              || Unrivalled(st, t, oldest)
              || (t[oldest].viaLane.None?
                  && exists w | w in OpenCopies(st, t, key) :: t[w].viaLane == Some("gws") && Unrivalled(st, t, w))
  {
    UnsupersededIff(st, t, oldest);
    if Unrivalled(st, t, oldest) {
      assert Watched(st, t, oldest) && oldest in Copies(st, t, key);
    }
    forall w | w in OpenCopies(st, t, key) && Unrivalled(st, t, w)
      ensures w in Copies(st, t, key) && Watched(st, t, w)
    {
      UnsupersededIff(st, t, w);
    }
    forall w | w in Copies(st, t, key) && Watched(st, t, w) && w != oldest
      ensures t[oldest].viaLane.Some? ==> Unrivalled(st, t, oldest)
      ensures t[oldest].viaLane.None? ==> t[w].viaLane == Some("gws")
      ensures w in OpenCopies(st, t, key) && Unrivalled(st, t, w)
    {
      YoungerWatched(st, t, key, oldest, w);
      UnsupersededIff(st, t, w);
    }
  }

  /** For an oldest open copy that carries a lane, as every record the watch writes does, only the
      copies before it matter. */
  lemma LanedMessageWatchedIff(st: Setting, t: Tracked, key: string, oldest: string)
    requires key in t && IsLeast(t, OpenCopies(st, t, key), oldest)
    requires t[oldest].viaLane.Some?
    ensures (exists k | k in Copies(st, t, key) :: Watched(st, t, k)) <==>
              forall k | k in Copies(st, t, key) && Before(t, k, oldest) :: Lane(t[k]) == Lane(t[oldest])
  {
    OpenMessageWatchedIff(st, t, key, oldest);
    SameCopies(st, t, key, oldest);
  }

  /** A closed or non-human copy on one lane that is older than the only open copy on the other
      silences the message: no copy of it is watched. */
  lemma OlderClosedCopySilences(st: Setting, closed: Rec, open: Rec, k: string, o: string)
    requires o != k && !closed.Open() && open.Open() && SamePrint(st, closed, open)
    requires OtherLane(closed, open) && StrLess(closed.seen, open.seen)
    ensures forall x | x in map[o := closed, k := open] :: !Watched(st, map[o := closed, k := open], x)
  {
    var t := map[o := closed, k := open];
    assert SupersededBy(st, t, k, o);
  }

  /** So does a closed copy on the same lane, when the records were tracked before lanes were
      recorded: neither carries one. */
  lemma LanelessCopySilences(st: Setting, closed: Rec, open: Rec, k: string, o: string)
    requires o != k && !closed.Open() && open.Open() && SamePrint(st, closed, open)
    requires closed.viaLane.None? && open.viaLane.None? && StrLess(closed.seen, open.seen)
    ensures Lane(closed) == Lane(open)
    ensures forall x | x in map[o := closed, k := open] :: !Watched(st, map[o := closed, k := open], x)
  {
    OlderClosedCopySilences(st, closed, open, k, o);
  }

  /** One message is never clocked on two lanes at once. */
  lemma WatchedOnOneLane(st: Setting, t: Tracked, a: string, b: string)
    requires a in t && b in t && SamePrint(st, t[a], t[b])
    requires Watched(st, t, a) && Watched(st, t, b)
    ensures Lane(t[a]) == Lane(t[b])
  {
    BeforeTotal(t, a, b);
    assert !(a != b && SupersededBy(st, t, a, b)) && !(a != b && SupersededBy(st, t, b, a));
  }

  // ---- The clock over one run ------------------------------------------------

  const ACK_WINDOW := 72 * 60 * MICROS_PER_MINUTE
  const REALERT_EVERY := 24 * 60 * MICROS_PER_MINUTE

  /** One run: its clock, the lane that serves it, and what the two reply witnesses say about each
      record (absent: they cannot tell). */
  datatype Round = Round(
    now: Moment, lane: string, thread: string -> Option<bool>, conversation: string -> Option<bool>)

  datatype Verdict = Raises | Quiet(rec: Rec) | Alert(rec: Rec)

  function Since(st: Setting, r: Rec): Option<int> {
    st.parse(if r.received != "" then r.received else r.seen)
  }

  /** Has anyone answered? The thread's silence counts as no only where it could not speak. */
  function Replied(r: Rec, key: string, round: Round): Option<bool> {
    match round.thread(key)
    case Some(b) => Some(b)
    case None => if round.lane != "imap" || r.viaLane == Some("imap") then None else Some(false)
  }

  function Answer(r: Rec, key: string, round: Round): Verdict {
    match Replied(r, key, round)
    case None => Quiet(r)
    case Some(true) => Quiet(r.(acknowledged := IsoFormat(round.now)))
    case Some(false) =>
      match round.conversation(key)
      case None => Quiet(r)
      case Some(true) => Quiet(r.(acknowledged := IsoFormat(round.now), sibling := true))
      case Some(false) => Alert(r.(lastRealert := IsoFormat(round.now)))
  }

  function Clock(st: Setting, t: Tracked, key: string, round: Round): Verdict
    requires key in t
  {
    var r, now := t[key], Instant(round.now);
    if !Watched(st, t, key) then Quiet(r)
    else
      match Since(st, r)
      case None => Raises
      case Some(since) =>
        if now - since < ACK_WINDOW then Quiet(r)
        else if r.lastRealert == "" then Answer(r, key, round)
        else
          match st.parse(r.lastRealert)
          case None => Raises
          case Some(last) => if now - last < REALERT_EVERY then Quiet(r) else Answer(r, key, round)
  }

  function Kept(v: Verdict, r: Rec): Rec { if v.Raises? then r else v.rec }

  /** All records after the clock; nothing is stored when one of them raises. */
  predicate RunRaises(st: Setting, t: Tracked, round: Round)
  {
    exists key | key in t :: Clock(st, t, key, round).Raises?
  }

  function Clocked(st: Setting, t: Tracked, round: Round): Tracked
  {
    map key | key in t :: Kept(Clock(st, t, key, round), t[key])
  }

  function Overdue(st: Setting, t: Tracked, round: Round): set<string>
  {
    set key | key in t && Clock(st, t, key, round).Alert?
  }

  /** Updates made so far do not disturb the verdict on a record not yet reached: supersession
      looks only at what the clock never writes. */
  lemma VerdictStable(st: Setting, t: Tracked, u: Tracked, key: string, round: Round)
    requires t.Keys == u.Keys && key in t && u[key] == t[key]
    requires forall k | k in t :: u[k].SameMessage(t[k])
    ensures Clock(st, u, key, round) == Clock(st, t, key, round)
  {
    forall other | other in t
      ensures SupersededBy(st, u, key, other) == SupersededBy(st, t, key, other)
    {
      assert u[other].SameMessage(t[other]);
    }
    assert Superseded(st, u, key) == Superseded(st, t, key);
  }

  lemma ClockKeeps(st: Setting, t: Tracked, key: string, round: Round)
    requires key in t && !Clock(st, t, key, round).Raises?
    ensures var r := Clock(st, t, key, round).rec;
            r.SameMessage(t[key])
            && r.lastRealert == if Clock(st, t, key, round).Alert? then IsoFormat(round.now) else t[key].lastRealert
  {}

  /** Where the clock stands with the records in `rest` still to come, given the verdict on each. */
  predicate Stands(
      t: Tracked, judge: string --> Verdict, rest: set<string>, after: Tracked, overdue: set<string>)
    requires forall k | k in t :: judge.requires(k)
  {
    && rest <= t.Keys && after.Keys == t.Keys
    && (forall k | k in t :: after[k].SameMessage(t[k]))
    && (forall k | k in rest :: after[k] == t[k])
    && (forall k | k in t && k !in rest :: !judge(k).Raises? && after[k] == judge(k).rec)
    && overdue == set k | k in t && k !in rest && judge(k).Alert?
  }

  predicate Standing(st: Setting, t: Tracked, round: Round, rest: set<string>, after: Tracked, overdue: set<string>) {
    Stands(t, k requires k in t => Clock(st, t, k, round), rest, after, overdue)
  }

  lemma Recorded(
      t: Tracked, judge: string --> Verdict, rest: set<string>, after: Tracked, overdue: set<string>, key: string)
    requires forall k | k in t :: judge.requires(k)
    requires Stands(t, judge, rest, after, overdue) && key in rest
    requires !judge(key).Raises? && judge(key).rec.SameMessage(t[key])
    ensures Stands(t, judge, rest - {key}, after[key := judge(key).rec],
                   if judge(key).Alert? then overdue + {key} else overdue)
  {
    assert after[key := judge(key).rec].Keys == t.Keys;
  }

  lemma StandingAdvances(
      st: Setting, t: Tracked, round: Round, rest: set<string>, after: Tracked, overdue: set<string>, key: string)
    requires Standing(st, t, round, rest, after, overdue) && key in rest
    ensures var v := Clock(st, after, key, round);
            v == Clock(st, t, key, round)
            && (!v.Raises? ==>
                  Standing(st, t, round, rest - {key}, after[key := v.rec],
                           if v.Alert? then overdue + {key} else overdue))
  {
    VerdictStable(st, t, after, key, round);
    if !Clock(st, t, key, round).Raises? {
      ClockKeeps(st, t, key, round);
      Recorded(t, k requires k in t => Clock(st, t, k, round), rest, after, overdue, key);
    }
  }

  /** The clock as it runs: record by record, in whatever order, writing as it goes. It agrees with
      judging every record against the records as they were. */
  method AckClock(st: Setting, t: Tracked, round: Round) returns (raised: bool, after: Tracked, overdue: set<string>)
    ensures raised <==> RunRaises(st, t, round)
    ensures !raised ==> after == Clocked(st, t, round) && overdue == Overdue(st, t, round)
  {
    after, overdue := t, {};
    var rest := t.Keys;
    while rest != {}
      invariant Standing(st, t, round, rest, after, overdue)
      decreases rest
    {
      var key :| key in rest;
      var v := Clock(st, after, key, round);
      StandingAdvances(st, t, round, rest, after, overdue, key);
      if v.Raises? {
        return true, after, overdue;
      }
      after := after[key := v.rec];
      if v.Alert? {
        overdue := overdue + {key};
      }
      rest := rest - {key};
    }
    raised := false;
  }

  /** Exactly when a run re-alerts a record. */
  lemma AlertIff(st: Setting, t: Tracked, key: string, round: Round)
    requires key in t
    ensures Clock(st, t, key, round).Alert? <==>
              && Watched(st, t, key)
              && Since(st, t[key]).Some? && Instant(round.now) - Since(st, t[key]).value >= 72 * 3_600_000_000
              && (t[key].lastRealert == ""
                  || (st.parse(t[key].lastRealert).Some?
                      && Instant(round.now) - st.parse(t[key].lastRealert).value >= 24 * 3_600_000_000))
              && (round.thread(key) == Some(false)
                  || (round.thread(key).None? && round.lane == "imap" && t[key].viaLane != Some("imap")))
              && round.conversation(key) == Some(false)
  {}

  /** Exactly when a run marks a record acknowledged: it was due for a re-alert, and the thread or,
      the thread having none, the conversation has a reply. */
  lemma AcknowledgedIff(st: Setting, t: Tracked, key: string, round: Round)
    requires key in t && !Clock(st, t, key, round).Raises? && t[key].acknowledged == ""
    ensures Clock(st, t, key, round).rec.acknowledged != "" <==>
              && Watched(st, t, key)
              && Instant(round.now) - Since(st, t[key]).value >= 72 * 3_600_000_000
              && (t[key].lastRealert == ""
                  || Instant(round.now) - st.parse(t[key].lastRealert).value >= 24 * 3_600_000_000)
              && (Replied(t[key], key, round) == Some(true)
                  || (Replied(t[key], key, round) == Some(false) && round.conversation(key) == Some(true)))
  {
    IsoNotEmpty(round.now);
  }

  /** How it marks it: with the time of the run, and, where the conversation had the reply, as
      answered beside the thread. Otherwise a run leaves a record that it does not re-alert. */
  lemma AcknowledgedAs(st: Setting, t: Tracked, key: string, round: Round)
    requires key in t && !Clock(st, t, key, round).Raises?
    ensures var r := Clock(st, t, key, round).rec;
            || r == t[key]
            || (r == t[key].(acknowledged := IsoFormat(round.now)) && round.thread(key) == Some(true))
            || (r == t[key].(acknowledged := IsoFormat(round.now), sibling := true)
                && round.thread(key) != Some(true) && round.conversation(key) == Some(true))
            || (r == t[key].(lastRealert := IsoFormat(round.now)) && Clock(st, t, key, round).Alert?)
  {}

  /** An open report that differs from every other record, received (or, where that is not recorded,
      first seen) 72 hours ago or more and not re-alerted within 24: a run in which both witnesses
      find no reply re-alerts it. */
  lemma DifferentIsRealerted(st: Setting, t: Tracked, key: string, round: Round, since: int)
    requires key in t && t[key].Open()
    requires forall other | other in t && other != key :: Differ(st, t[other], t[key])
    requires st.parse(if t[key].received != "" then t[key].received else t[key].seen) == Some(since)
    requires Instant(round.now) - since >= 72 * 3_600_000_000
    requires t[key].lastRealert == ""
          || (st.parse(t[key].lastRealert).Some?
              && Instant(round.now) - st.parse(t[key].lastRealert).value >= 24 * 3_600_000_000)
    requires round.thread(key) == Some(false) && round.conversation(key) == Some(false)
    ensures key in Overdue(st, t, round)
  {
    DifferentIsWatched(st, t, key);
    AlertIff(st, t, key, round);
  }

  lemma IsoNotEmpty(d: Moment)
    ensures IsoFormat(d) != ""
  {}

  // ---- Histories -------------------------------------------------------------

  /** A message found by the search, as recorded: from one of our own or a never-disclosing sender,
      or filed as bulk, it is not human. */
  datatype Found = Found(key: string, sender: string, subject: string, received: Moment, ours: bool, bulk: bool)

  function RecordOf(f: Found, round: Round): Rec {
    Rec(!f.ours && !f.bulk, IsoFormat(round.now), f.sender, f.subject[..if |f.subject| < 180 then |f.subject| else 180],
        IsoFormat(f.received), Some(round.lane), "", false, false, "")
  }

  function Noticed(t: Tracked, f: Found, round: Round): Tracked {
    if f.key in t then t else t[f.key := RecordOf(f, round)]
  }

  function Scanned(t: Tracked, found: seq<Found>, round: Round): Tracked
    decreases found
  {
    if found == [] then t
    else
      Scanned(Noticed(t, found[0], round), found[1..], round)
  }

  /** The candidates reported on first sight: new in this run, human, and superseded by nothing
      tracked at its end. The baseline run reports none. */
  function Reports(st: Setting, t: Tracked, after: Tracked, firstRun: bool): set<string> {
    if firstRun then {}
    else set key | key in after && key !in t && after[key].human && !Superseded(st, after, key)
  }

  /** Everything new came over this run's lane. */
  predicate NewOverLane(t: Tracked, after: Tracked, round: Round) {
    forall k | k in after && k !in t :: after[k].viaLane == Some(round.lane)
  }

  /** A message noticed later in the run, being on the same lane, supersedes no earlier one. */
  lemma NoticingKeepsReports(
      st: Setting, t: Tracked, after: Tracked, f: Found, round: Round, firstRun: bool)
    requires t.Keys <= after.Keys && NewOverLane(t, after, round) && f.key !in after
    ensures var next := after[f.key := RecordOf(f, round)];
            && NewOverLane(t, next, round)
            && Reports(st, t, next, firstRun) == Reports(st, t, after, firstRun)
               + (if !firstRun && next[f.key].human && !Superseded(st, next, f.key) then {f.key} else {})
  {
    var next := after[f.key := RecordOf(f, round)];
    forall k | k in after && k !in t
      ensures Superseded(st, next, k) == Superseded(st, after, k)
    {
      assert !SupersededBy(st, next, k, f.key);
      forall other | other in after
        ensures SupersededBy(st, next, k, other) == SupersededBy(st, after, k, other)
      {
      }
    }
  }

  lemma ScannedNext(t: Tracked, found: seq<Found>, i: nat, round: Round)
    requires i < |found|
    ensures Scanned(t, found[i..], round) == Scanned(Noticed(t, found[i], round), found[i + 1..], round)
  {
    assert found[i..][0] == found[i] && found[i..][1..] == found[i + 1..];
  }

  /** The scan as it runs. Each candidate is compared with what is tracked so far, which comes to
      comparing it with what is tracked at the end. */
  method Scan(st: Setting, t: Tracked, found: seq<Found>, round: Round, firstRun: bool)
    returns (after: Tracked, reports: set<string>)
    ensures after == Scanned(t, found, round)
    ensures reports == Reports(st, t, after, firstRun)
  {
    after, reports := t, {};
    for i := 0 to |found|
      invariant t.Keys <= after.Keys && NewOverLane(t, after, round)
      invariant Scanned(after, found[i..], round) == Scanned(t, found, round)
      invariant reports == Reports(st, t, after, firstRun)
    {
      var f := found[i];
      ScannedNext(after, found, i, round);
      if f.key !in after {
        NoticingKeepsReports(st, t, after, f, round, firstRun);
        var rec := RecordOf(f, round);
        after := after[f.key := rec];
        if rec.human && !firstRun && !Superseded(st, after, f.key) {
          reports := reports + {f.key};
        }
      }
    }
  }

  /** A record as a message found is tracked: from a person unless it comes from one of our own or is
      filed as bulk, with the first 180 characters of its subject, neither acknowledged nor
      dismissed. */
  predicate TrackedAs(r: Rec, f: Found, round: Round) {
    && (r.human <==> !(f.ours || f.bulk))
    && r.seen == IsoFormat(round.now) && r.received == IsoFormat(f.received)
    && r.sender == f.sender
    && r.subject <= f.subject && |r.subject| == (if |f.subject| > 180 then 180 else |f.subject|)
    && r.viaLane == Some(round.lane)
    && r.acknowledged == "" && r.lastRealert == "" && !r.sibling && !r.dismissed
  }

  /** What is tracked stays as it is. */
  lemma {:induction false} ScanKeeps(t: Tracked, found: seq<Found>, round: Round, key: string)
    requires key in t
    ensures key in Scanned(t, found, round) && Scanned(t, found, round)[key] == t[key]
    decreases found
  {
    if found != [] {
      ScanKeeps(Noticed(t, found[0], round), found[1..], round, key);
    }
  }

  /** And a message found under an unknown key is tracked as it was first found. */
  lemma {:induction false} ScannedAs(t: Tracked, found: seq<Found>, round: Round, i: nat)
    requires i < |found| && found[i].key !in t && forall j | 0 <= j < i :: found[j].key != found[i].key
    ensures found[i].key in Scanned(t, found, round)
    ensures TrackedAs(Scanned(t, found, round)[found[i].key], found[i], round)
    decreases found
  {
    var next, rest := Noticed(t, found[0], round), found[1..];
    if i == 0 {
      assert TrackedAs(next[found[0].key], found[0], round);
      ScanKeeps(next, rest, round, found[0].key);
    } else {
      forall j | 0 <= j < i - 1
        ensures rest[j].key != rest[i - 1].key
      {
        assert rest[j] == found[j + 1];
      }
      ScannedAs(next, rest, round, i - 1);
    }
  }

  /** Nothing else is. */
  lemma {:induction false} ScannedKeys(t: Tracked, found: seq<Found>, round: Round, key: string)
    requires key in Scanned(t, found, round)
    ensures key in t || exists f | f in found :: f.key == key
    decreases found
  {
    if found != [] {
      ScannedKeys(Noticed(t, found[0], round), found[1..], round, key);
      assert found == [found[0]] + found[1..];
    }
  }

  /** A message not tracked before, from a person, that differs from all that is tracked after the
      scan is reported by every run but the baseline one. */
  lemma DifferentIsReported(st: Setting, t: Tracked, found: seq<Found>, round: Round, key: string)
    requires key !in t
    ensures var after := Scanned(t, found, round);
            && key in after && after[key].human
            && (forall other | other in after && other != key :: Differ(st, after[other], after[key]))
            ==> key in Reports(st, t, after, false)
  {}

  /** Between runs an operator may acknowledge, dismiss or reopen a record. */
  datatype Event = Run(round: Round, found: seq<Found>) | Edit(key: string, acknowledged: string, dismissed: bool)

  function After(st: Setting, t: Tracked, ev: Event): Tracked
  {
    match ev
    case Edit(key, ack, dismissed) =>
      if key in t then t[key := t[key].(acknowledged := ack, dismissed := dismissed)] else t
    case Run(round, found) =>
      var s := Scanned(t, found, round);
      if RunRaises(st, s, round) then t else Clocked(st, s, round)
  }

  /** An edit sets the two marks of a tracked record, and touches nothing else. */
  lemma EditSets(st: Setting, t: Tracked, key: string, acknowledged: string, dismissed: bool)
    ensures var next := After(st, t, Edit(key, acknowledged, dismissed));
            && next.Keys == t.Keys && (forall k | k in t && k != key :: next[k] == t[k])
            && (key in t ==> next[key] == t[key].(acknowledged := acknowledged, dismissed := dismissed))
  {}

  /** The records a completed run re-alerts. */
  function Realerts(st: Setting, t: Tracked, ev: Event): set<string> {
    match ev
    case Edit(_, _, _) => {}
    case Run(round, found) =>
      var s := Scanned(t, found, round);
      if RunRaises(st, s, round) then {} else Overdue(st, s, round)
  }

  /** The state file before and after each event, and what each event re-alerts. */
  datatype History = History(events: seq<Event>, states: seq<Tracked>, alerts: seq<set<string>>) {
    predicate Follows(st: Setting, k: nat) {
      && k < |events| && k < |alerts| && k + 1 < |states|
      && states[k + 1] == After(st, states[k], events[k])
      && alerts[k] == Realerts(st, states[k], events[k])
    }

    ghost predicate Valid(st: Setting) {
      |states| == |events| + 1 && |alerts| == |events| && forall k: nat :: k < |events| ==> Follows(st, k)
    }

    predicate Alerted(k: nat, key: string) { k < |events| && k < |alerts| && events[k].Run? && key in alerts[k] }
  }

  /** One event on one tracked record: the message stays, and only a re-alert writes its time. */
  lemma EventKeeps(st: Setting, t: Tracked, ev: Event, key: string)
    requires key in t
    ensures key in After(st, t, ev) && After(st, t, ev)[key].SameMessage(t[key])
    ensures After(st, t, ev)[key].lastRealert ==
              if key in Realerts(st, t, ev) then IsoFormat(ev.round.now) else t[key].lastRealert
  {
    if ev.Run? {
      var s := Scanned(t, ev.found, ev.round);
      ScanKeeps(t, ev.found, ev.round, key);
      if !RunRaises(st, s, ev.round) {
        assert !Clock(st, s, key, ev.round).Raises?;
        ClockKeeps(st, s, key, ev.round);
      }
    }
  }

  /** What a re-alert of an already tracked record waited for. */
  lemma RealertWaited(st: Setting, t: Tracked, ev: Event, key: string)
    requires key in t
    ensures key in Realerts(st, t, ev) ==>
              && Since(st, t[key]).Some? && Instant(ev.round.now) - Since(st, t[key]).value >= ACK_WINDOW
              && (t[key].lastRealert == ""
                  || (st.parse(t[key].lastRealert).Some?
                      && Instant(ev.round.now) - st.parse(t[key].lastRealert).value >= REALERT_EVERY))
  {
    if key in Realerts(st, t, ev) {
      ScanKeeps(t, ev.found, ev.round, key);
      AlertIff(st, Scanned(t, ev.found, ev.round), key, ev.round);
    }
  }

  lemma RealertRecorded(st: Setting, t: Tracked, ev: Event, key: string)
    ensures key in Realerts(st, t, ev) ==>
              var after := After(st, t, ev);
              && key in after && after[key].lastRealert == IsoFormat(ev.round.now)
              && Since(st, after[key]).Some? && Instant(ev.round.now) - Since(st, after[key]).value >= ACK_WINDOW
  {
    if key in Realerts(st, t, ev) {
      var s := Scanned(t, ev.found, ev.round);
      ClockKeeps(st, s, key, ev.round);
      AlertIff(st, s, key, ev.round);
    }
  }

  lemma MessageKept(st: Setting, h: History, k: nat, key: string)
    requires h.Valid(st) && k < |h.events| && key in h.states[k]
    ensures key in h.states[k + 1] && h.states[k + 1][key].SameMessage(h.states[k][key])
  {
    assert h.Follows(st, k);
    EventKeeps(st, h.states[k], h.events[k], key);
  }

  /** A tracked record stays tracked, about the same message. */
  lemma {:induction false} RecordsLast(st: Setting, h: History, m: nat, n: nat, key: string)
    requires h.Valid(st) && m <= n <= |h.events| && key in h.states[m]
    ensures key in h.states[n] && h.states[n][key].SameMessage(h.states[m][key])
    decreases n
  {
    if m < n {
      RecordsLast(st, h, m, n - 1, key);
      MessageKept(st, h, n - 1, key);
    }
  }

  /** The record was last re-alerted no earlier than `at`, and says so legibly. */
  predicate StampedFrom(st: Setting, t: Tracked, key: string, at: int) {
    key in t && var last := t[key].lastRealert; last != "" && st.parse(last).Some? && st.parse(last).value >= at
  }

  lemma IsoStamps(st: Setting, t: Tracked, key: string, now: Moment)
    requires st.ReadsIso() && key in t && t[key].lastRealert == IsoFormat(now)
    ensures StampedFrom(st, t, key, Instant(now))
  {}

  lemma AlertStamps(st: Setting, h: History, k: nat, key: string)
    requires st.ReadsIso() && h.Valid(st) && h.Alerted(k, key)
    ensures StampedFrom(st, h.states[k + 1], key, Instant(h.events[k].round.now))
  {
    assert h.Follows(st, k);
    RealertRecorded(st, h.states[k], h.events[k], key);
    IsoStamps(st, h.states[k + 1], key, h.events[k].round.now);
  }

  lemma StampKept(st: Setting, h: History, k: nat, key: string, at: int)
    requires st.ReadsIso() && h.Valid(st) && k < |h.events| && StampedFrom(st, h.states[k], key, at)
    ensures StampedFrom(st, h.states[k + 1], key, at)
  {
    var t, ev := h.states[k], h.events[k];
    assert h.Follows(st, k);
    EventKeeps(st, t, ev, key);
    if key in Realerts(st, t, ev) {
      RealertWaited(st, t, ev, key);
      IsoStamps(st, h.states[k + 1], key, ev.round.now);
    }
  }

  lemma {:induction false} StampLasts(st: Setting, h: History, m: nat, n: nat, key: string, at: int)
    requires st.ReadsIso() && h.Valid(st) && m <= n <= |h.events| && StampedFrom(st, h.states[m], key, at)
    ensures StampedFrom(st, h.states[n], key, at)
    decreases n
  {
    if m < n {
      StampLasts(st, h, m, n - 1, key, at);
      StampKept(st, h, n - 1, key, at);
    }
  }

  lemma StampedWaits(st: Setting, h: History, n: nat, key: string, at: int)
    requires h.Valid(st) && h.Alerted(n, key) && StampedFrom(st, h.states[n], key, at)
    ensures Instant(h.events[n].round.now) - at >= 24 * 3_600_000_000
  {
    assert h.Follows(st, n);
    RealertWaited(st, h.states[n], h.events[n], key);
  }

  /** In every history, whatever the lanes and witnesses do: two re-alerts of one record are at
      least 24 hours apart. */
  lemma RealertsAreSpaced(st: Setting, h: History, m: nat, n: nat, key: string)
    requires st.ReadsIso() && h.Valid(st) && m < n && h.Alerted(m, key) && h.Alerted(n, key)
    ensures Instant(h.events[n].round.now) - Instant(h.events[m].round.now) >= 24 * 3_600_000_000
  {
    AlertStamps(st, h, m, key);
    StampLasts(st, h, m + 1, n, key, Instant(h.events[m].round.now));
    StampedWaits(st, h, n, key, Instant(h.events[m].round.now));
  }

  /** And none comes within 72 hours of the receipt the record carries from when it is tracked. */
  lemma NoEarlyRealert(st: Setting, h: History, m: nat, n: nat, key: string)
    requires h.Valid(st) && h.Alerted(n, key) && m <= n + 1 && key in h.states[m]
    ensures Since(st, h.states[m][key]).Some?
    ensures Instant(h.events[n].round.now) - Since(st, h.states[m][key]).value >= 72 * 3_600_000_000
  {
    assert h.Follows(st, n);
    RealertRecorded(st, h.states[n], h.events[n], key);
    RecordsLast(st, h, m, n + 1, key);
  }
}
