/** The paradox engine on values: what one tick computes, and what holds over any run.
    Floats are reals; the registry's relation and the cosine of two vectors are parameters. */
module Paradox {
  import opened Prelude

  datatype Motif = Motif(id: string, name: string, intensity: real, vector: seq<real>, decayRate: real) {
    predicate Alive() { intensity > 0.0 }

    /** What the constructor of a motif demands, and a decay that is one. */
    predicate Sound() { 0.0 <= intensity <= 1.0 && 0.0 <= decayRate }

    function Decayed(): Motif { this.(intensity := Max(0.0, intensity - decayRate)) }

    function Boosted(factor: real): Motif { this.(intensity := Min(1.0, intensity * factor)) }
  }

  datatype Held = Held(
    id: string, a: Motif, b: Motif, tension: real, duration: int, blocked: bool,
    emerged: bool, birth: int, peak: real, candidate: bool)
  {
    predicate Alive() { a.Alive() && b.Alive() }
  }

  datatype Event = Event(pid: string, tick: int, tension: real, duration: int, aId: string, bId: string)

  datatype Config = Config(
    contradictory: (string, string) -> bool, cosine: (seq<real>, seq<real>) -> real,
    maturation: int, blockRatio: real)

  datatype Engine = Engine(tick: int, paradoxes: seq<Held>, history: seq<real>, log: seq<Event>)

  const START := Engine(0, [], [], [])

  // ---- One tick --------------------------------------------------------------

  /** Order-independent key of a pair. */
  function PairId(x: string, y: string): string {
    if StrLess(y, x) then y + "×" + x else x + "×" + y
  }

  lemma PairIdSymmetric(x: string, y: string)
    ensures PairId(x, y) == PairId(y, x)
  {
    StrLessTotal(x, y);
    if StrLess(x, y) {
      StrLessAsymmetric(x, y);
    }
  }

  /** The two ids around the sign, the one that is not after the other first. */
  lemma PairIdOrdered(x: string, y: string)
    ensures !StrLess(y, x) ==> PairId(x, y) == x + "×" + y
    ensures !StrLess(x, y) ==> PairId(x, y) == y + "×" + x
  {
    StrLessTotal(x, y);
  }

  function Tension(c: Config, a: Motif, b: Motif, duration: int): real
    requires c.maturation != 0
  {
    var opposed := Max(0.0, 1.0 - c.cosine(a.vector, b.vector));
    var strength := if c.contradictory(a.id, b.id) then Max(opposed, 1.0) else opposed;
    var sustained := Min(1.0, duration as real / c.maturation as real);
    Min(1.0, strength * (a.intensity * b.intensity) * (0.5 + 0.5 * sustained))
  }

  predicate Tracked(ps: seq<Held>, id: string) {
    exists i | 0 <= i < |ps| :: ps[i].id == id
  }

  function Decay(ms: seq<Motif>): seq<Motif> {
    seq(|ms|, i requires 0 <= i < |ms| => ms[i].Decayed())
  }

  function Living(ms: seq<Motif>): seq<Motif> {
    if ms == [] then []
    else
      var m := ms[|ms| - 1];
      Living(ms[..|ms| - 1]) + (if m.Alive() then [m] else [])
  }

  function Born(c: Config, tick: int, a: Motif, b: Motif): Held
    requires c.maturation != 0
  {
    var t := Tension(c, a, b, 0);
    Held(PairId(a.id, b.id), a, b, t, 0, true, false, tick, t, false)
  }

  function DetectPair(c: Config, tick: int, ps: seq<Held>, a: Motif, b: Motif): seq<Held>
    requires c.maturation != 0
  {
    if Tracked(ps, PairId(a.id, b.id)) then ps
    else if c.contradictory(a.id, b.id) && a.intensity > 0.1 && b.intensity > 0.1
    then ps + [Born(c, tick, a, b)]
    else ps
  }

  /** What one pair of motifs does to the paradoxes. */
  type Pairing = (seq<Held>, Motif, Motif) -> seq<Held>

  function Detecting(c: Config, tick: int): Pairing
    requires c.maturation != 0
  {
    (ps, a, b) => DetectPair(c, tick, ps, a, b)
  }

  /** Pairs (i, j), (i, j + 1), ... */
  function PairRow(pair: Pairing, ps: seq<Held>, ms: seq<Motif>, i: nat, j: nat): seq<Held>
    requires i < |ms|
    decreases |ms| - j
  {
    if j >= |ms| then ps else PairRow(pair, pair(ps, ms[i], ms[j]), ms, i, j + 1)
  }

  /** The rows from i on, as `combinations` lists the pairs. */
  function PairRows(pair: Pairing, ps: seq<Held>, ms: seq<Motif>, i: nat): seq<Held>
    decreases |ms| - i
  {
    if i >= |ms| then ps else PairRows(pair, PairRow(pair, ps, ms, i, i + 1), ms, i + 1)
  }

  function Detect(c: Config, tick: int, ps: seq<Held>, ms: seq<Motif>): seq<Held>
    requires c.maturation != 0
  {
    PairRows(Detecting(c, tick), ps, ms, 0)
  }

  /** The motif a `{m.id: m}` dictionary holds for `id`. */
  function Lookup(ms: seq<Motif>, id: string): Option<Motif>
    decreases |ms|
  {
    if ms == [] then None
    else if ms[|ms| - 1].id == id then Some(ms[|ms| - 1])
    else Lookup(ms[..|ms| - 1], id)
  }

  /** A tracked copy: refreshed from the active motif of its id, or decayed by itself. */
  function Refreshed(ms: seq<Motif>, m: Motif): Motif {
    if Lookup(ms, m.id).Some? then Lookup(ms, m.id).value else m.Decayed()
  }

  function Sustain(c: Config, p: Held): Held
    requires c.maturation != 0
  {
    if !p.Alive() then p
    else
      var t := Tension(c, p.a, p.b, p.duration);
      p.(tension := t, duration := p.duration + 1, peak := Max(p.peak, t),
         candidate := p.candidate || (p.duration + 1 >= c.maturation && t > 0.2))
  }

  function Update(c: Config, ms: seq<Motif>, p: Held): Held
    requires c.maturation != 0
  {
    Sustain(c, p.(a := Refreshed(ms, p.a), b := Refreshed(ms, p.b)))
  }

  const EPSILON: real := 0.00000001

  function Enforce(c: Config, p: Held): Held {
    if !p.Alive() then p
    else
      var ratio := p.a.intensity / (p.b.intensity + EPSILON);
      if ratio > c.blockRatio then
        p.(b := p.b.Boosted(Min(1.5, ratio * 0.6)), blocked := true)
      else if 1.0 / ratio > c.blockRatio then
        p.(a := p.a.Boosted(Min(1.5, (1.0 / ratio) * 0.6)), blocked := true)
      else p.(blocked := false)
  }

  predicate Emits(c: Config, p: Held) {
    p.candidate && !p.emerged && p.duration >= c.maturation && p.tension > 0.2 && p.Alive()
  }

  function Emerge(c: Config, p: Held): Held {
    if Emits(c, p) then p.(emerged := true) else p
  }

  function EventOf(tick: int, p: Held): Event {
    Event(p.id, tick, p.tension, p.duration, p.a.id, p.b.id)
  }

  function Emissions(c: Config, tick: int, ps: seq<Held>): seq<Event> {
    if ps == [] then []
    else
      var p := ps[|ps| - 1];
      Emissions(c, tick, ps[..|ps| - 1]) + (if Emits(c, p) then [EventOf(tick, p)] else [])
  }

  /** Forgets the paradoxes whose motifs are both dead. */
  function Clean(ps: seq<Held>): seq<Held> {
    if ps == [] then []
    else
      var p := ps[|ps| - 1];
      Clean(ps[..|ps| - 1]) + (if p.a.Alive() || p.b.Alive() then [p] else [])
  }

  function Share(c: Config, tension: real, duration: int): real {
    tension * (if c.maturation < duration then c.maturation else duration) as real
  }

  /** Sum and number of the scores of living paradoxes. */
  function ScoreParts(c: Config, ps: seq<Held>): (real, nat) {
    if ps == [] then (0.0, 0)
    else
      var (sum, n) := ScoreParts(c, ps[..|ps| - 1]);
      var p := ps[|ps| - 1];
      if p.Alive() then (sum + Share(c, p.tension, p.duration), n + 1) else (sum, n)
  }

  function Score(c: Config, ps: seq<Held>): real {
    var (sum, n) := ScoreParts(c, ps);
    if n == 0 then 0.0 else sum / n as real
  }

  function UpdateAll(c: Config, ms: seq<Motif>, ps: seq<Held>): seq<Held>
    requires c.maturation != 0
  {
    seq(|ps|, i requires 0 <= i < |ps| => Update(c, ms, ps[i]))
  }

  function EnforceAll(c: Config, ps: seq<Held>): seq<Held> {
    seq(|ps|, i requires 0 <= i < |ps| => Enforce(c, ps[i]))
  }

  function EmergeAll(c: Config, ps: seq<Held>): seq<Held> {
    seq(|ps|, i requires 0 <= i < |ps| => Emerge(c, ps[i]))
  }

  /** The paradoxes as emergence finds them in a tick, before it marks any. */
  function Ripened(c: Config, e: Engine, motifs: seq<Motif>): seq<Held>
    requires c.maturation != 0
  {
    var live := Living(Decay(motifs));
    EnforceAll(c, UpdateAll(c, live, Detect(c, e.tick + 1, e.paradoxes, live)))
  }

  function Tick(c: Config, e: Engine, motifs: seq<Motif>): Engine
    requires c.maturation != 0
  {
    var ripe := Ripened(c, e, motifs);
    var kept := Clean(EmergeAll(c, ripe));
    Engine(e.tick + 1, kept, e.history + [Score(c, kept)], e.log + Emissions(c, e.tick + 1, ripe))
  }

  // ---- Whole runs: emergence -------------------------------------------------

  function Run(c: Config, inputs: seq<seq<Motif>>): Engine
    requires c.maturation != 0
    decreases |inputs|
  {
    if inputs == [] then START
    else Tick(c, Run(c, inputs[..|inputs| - 1]), inputs[|inputs| - 1])
  }

  predicate DistinctIds(ps: seq<Held>) {
    forall i, j | 0 <= i < j < |ps| :: ps[i].id != ps[j].id
  }

  /** Duration is bounded by age, at tick `now`. */
  predicate Aged(p: Held, now: int) {
    p.birth <= now && 0 <= p.duration <= now - p.birth + 1
  }

  /** An event and a tracked paradox of one pair: either the event is this paradox's own, or it
      belongs to an earlier one that was forgotten before this one was born. */
  predicate Accounted(ev: Event, p: Held) {
    ev.pid == p.id ==> (p.emerged && p.birth <= ev.tick) || ev.tick + 2 <= p.birth
  }

  predicate Spaced(c: Config, log: seq<Event>) {
    forall i, j | 0 <= i < j < |log| :: log[i].pid == log[j].pid ==> log[i].tick + c.maturation < log[j].tick
  }

  predicate Inv(c: Config, e: Engine) {
    && DistinctIds(e.paradoxes)
    && (forall p | p in e.paradoxes :: Aged(p, e.tick))
    && (forall ev | ev in e.log :: ev.tick <= e.tick)
    && (forall ev, p | ev in e.log && p in e.paradoxes :: Accounted(ev, p))
    && (forall ev | ev in e.log :: Tracked(e.paradoxes, ev.pid) || ev.tick < e.tick)
    && Spaced(c, e.log)
  }

  /** `qs` is `ps` followed by paradoxes born at `tick` under keys not in use. */
  predicate Extends(ps: seq<Held>, qs: seq<Held>, tick: int) {
    && ps <= qs && DistinctIds(qs)
    && forall k | |ps| <= k < |qs| ::
         !Tracked(ps, qs[k].id) && qs[k].birth == tick && qs[k].duration == 0 && !qs[k].emerged
  }

  lemma ExtendsTransitive(ps: seq<Held>, qs: seq<Held>, rs: seq<Held>, tick: int)
    requires Extends(ps, qs, tick) && Extends(qs, rs, tick)
    ensures Extends(ps, rs, tick)
  {
    forall k | |ps| <= k < |rs|
      ensures !Tracked(ps, rs[k].id)
    {
      StillTracked(ps, qs, rs[k].id);
      assert k < |qs| ==> rs[k] == qs[k];
    }
  }

  lemma StillTracked(ps: seq<Held>, qs: seq<Held>, id: string)
    requires ps <= qs
    ensures Tracked(ps, id) ==> Tracked(qs, id)
  {
    if Tracked(ps, id) {
      var n :| 0 <= n < |ps| && ps[n].id == id;
      assert qs[n].id == id;
    }
  }

  lemma DetectPairExtends(c: Config, tick: int, ps: seq<Held>, a: Motif, b: Motif)
    requires c.maturation != 0 && DistinctIds(ps)
    ensures Extends(ps, DetectPair(c, tick, ps, a, b), tick)
  {}

  /** Every pair only appends, under keys not in use. */
  ghost predicate Appends(pair: Pairing, tick: int) {
    forall ps, a, b :: DistinctIds(ps) ==> Extends(ps, pair(ps, a, b), tick)
  }

  lemma {:induction false} RowExtends(pair: Pairing, tick: int, ps: seq<Held>, ms: seq<Motif>, i: nat, j: nat)
    requires Appends(pair, tick) && i < |ms| && DistinctIds(ps)
    ensures Extends(ps, PairRow(pair, ps, ms, i, j), tick)
    decreases |ms| - j
  {
    if j < |ms| {
      var next := pair(ps, ms[i], ms[j]);
      RowExtends(pair, tick, next, ms, i, j + 1);
      ExtendsTransitive(ps, next, PairRow(pair, next, ms, i, j + 1), tick);
    }
  }

  lemma {:induction false} RowsExtend(pair: Pairing, tick: int, ps: seq<Held>, ms: seq<Motif>, i: nat)
    requires Appends(pair, tick) && DistinctIds(ps)
    ensures Extends(ps, PairRows(pair, ps, ms, i), tick)
    decreases |ms| - i
  {
    if i < |ms| {
      var next := PairRow(pair, ps, ms, i, i + 1);
      RowExtends(pair, tick, ps, ms, i, i + 1);
      RowsExtend(pair, tick, next, ms, i + 1);
      ExtendsTransitive(ps, next, PairRows(pair, next, ms, i + 1), tick);
    }
  }

  /** Detection only appends, under keys not in use. */
  lemma DetectExtends(c: Config, tick: int, ps: seq<Held>, ms: seq<Motif>)
    requires c.maturation != 0 && DistinctIds(ps)
    ensures Extends(ps, Detect(c, tick, ps, ms), tick)
  {
    forall qs, a, b | DistinctIds(qs)
      ensures Extends(qs, Detecting(c, tick)(qs, a, b), tick)
    {
      DetectPairExtends(c, tick, qs, a, b);
    }
    RowsExtend(Detecting(c, tick), tick, ps, ms, 0);
  }

  // ---- Which pairs become paradoxes ------------------------------------------

  /** Opposed by the registry, and both over 0.1. */
  predicate Clashes(c: Config, a: Motif, b: Motif) {
    c.contradictory(a.id, b.id) && a.intensity > 0.1 && b.intensity > 0.1
  }

  /** A paradox of two of these motifs that clash, as it is when it is detected. */
  predicate NewPair(c: Config, tick: int, ms: seq<Motif>, p: Held)
    requires c.maturation != 0
  {
    exists i, j | 0 <= i < j < |ms| ::
      && Clashes(c, ms[i], ms[j]) && p.a == ms[i] && p.b == ms[j] && p.id == PairId(ms[i].id, ms[j].id)
      && p.birth == tick && p.duration == 0 && p.peak == p.tension == Tension(c, ms[i], ms[j], 0)
      && p.blocked && !p.emerged && !p.candidate
  }

  /** What the pairs of these motifs add is good. */
  ghost predicate AddsOnly(pair: Pairing, ms: seq<Motif>, good: Held -> bool) {
    forall ps, i, j, p | 0 <= i < j < |ms| && p in pair(ps, ms[i], ms[j]) :: p in ps || good(p)
  }

  lemma {:induction false} RowAddsOnly(
      pair: Pairing, good: Held -> bool, ps: seq<Held>, ms: seq<Motif>, i: nat, j: nat)
    requires AddsOnly(pair, ms, good) && i < j && i < |ms|
    ensures forall p | p in PairRow(pair, ps, ms, i, j) :: p in ps || good(p)
    decreases |ms| - j
  {
    if j < |ms| {
      RowAddsOnly(pair, good, pair(ps, ms[i], ms[j]), ms, i, j + 1);
    }
  }

  lemma {:induction false} RowsAddOnly(pair: Pairing, good: Held -> bool, ps: seq<Held>, ms: seq<Motif>, i: nat)
    requires AddsOnly(pair, ms, good)
    ensures forall p | p in PairRows(pair, ps, ms, i) :: p in ps || good(p)
    decreases |ms| - i
  {
    if i < |ms| {
      RowAddsOnly(pair, good, ps, ms, i, i + 1);
      RowsAddOnly(pair, good, PairRow(pair, ps, ms, i, i + 1), ms, i + 1);
    }
  }

  /** Pairs only append. */
  ghost predicate Grows(pair: Pairing) { forall ps, a, b :: ps <= pair(ps, a, b) }

  lemma {:induction false} RowGrows(pair: Pairing, ps: seq<Held>, ms: seq<Motif>, i: nat, j: nat)
    requires Grows(pair) && i < |ms|
    ensures ps <= PairRow(pair, ps, ms, i, j)
    decreases |ms| - j
  {
    if j < |ms| {
      RowGrows(pair, pair(ps, ms[i], ms[j]), ms, i, j + 1);
    }
  }

  lemma {:induction false} RowsGrow(pair: Pairing, ps: seq<Held>, ms: seq<Motif>, i: nat)
    requires Grows(pair)
    ensures ps <= PairRows(pair, ps, ms, i)
    decreases |ms| - i
  {
    if i < |ms| {
      RowGrows(pair, ps, ms, i, i + 1);
      RowsGrow(pair, PairRow(pair, ps, ms, i, i + 1), ms, i + 1);
    }
  }

  /** This pair, once seen, is tracked under this key. */
  ghost predicate Sees(pair: Pairing, a: Motif, b: Motif, id: string) { forall ps :: Tracked(pair(ps, a, b), id) }

  lemma {:induction false} RowTracks(
      pair: Pairing, ps: seq<Held>, ms: seq<Motif>, i: nat, j: nat, n: nat, id: string)
    requires Grows(pair) && i < |ms| && j <= n < |ms| && Sees(pair, ms[i], ms[n], id)
    ensures Tracked(PairRow(pair, ps, ms, i, j), id)
    decreases |ms| - j
  {
    var next := pair(ps, ms[i], ms[j]);
    if j < n {
      RowTracks(pair, next, ms, i, j + 1, n, id);
    } else {
      RowGrows(pair, next, ms, i, j + 1);
      StillTracked(next, PairRow(pair, next, ms, i, j + 1), id);
    }
  }

  lemma {:induction false} RowsTrack(
      pair: Pairing, ps: seq<Held>, ms: seq<Motif>, i: nat, m: nat, n: nat, id: string)
    requires Grows(pair) && i <= m < n < |ms| && Sees(pair, ms[m], ms[n], id)
    ensures Tracked(PairRows(pair, ps, ms, i), id)
    decreases |ms| - i
  {
    var next := PairRow(pair, ps, ms, i, i + 1);
    if i < m {
      RowsTrack(pair, next, ms, i + 1, m, n, id);
    } else {
      RowTracks(pair, ps, ms, i, i + 1, n, id);
      RowsGrow(pair, next, ms, i + 1);
      StillTracked(next, PairRows(pair, next, ms, i + 1), id);
    }
  }

  /** Every paradox detection adds is of two motifs that clash. */
  lemma DetectAddsClashes(c: Config, tick: int, ps: seq<Held>, ms: seq<Motif>)
    requires c.maturation != 0
    ensures forall p | p in Detect(c, tick, ps, ms) :: p in ps || NewPair(c, tick, ms, p)
  {
    RowsAddOnly(Detecting(c, tick), p => NewPair(c, tick, ms, p), ps, ms, 0);
  }

  lemma ClashSeen(c: Config, tick: int, a: Motif, b: Motif)
    requires c.maturation != 0 && Clashes(c, a, b)
    ensures Sees(Detecting(c, tick), a, b, PairId(a.id, b.id))
  {
    forall ps
      ensures Tracked(Detecting(c, tick)(ps, a, b), PairId(a.id, b.id))
    {
      var next := DetectPair(c, tick, ps, a, b);
      if !Tracked(ps, PairId(a.id, b.id)) {
        assert next[|ps|].id == PairId(a.id, b.id);
      }
    }
  }

  lemma DetectGrows(c: Config, tick: int, ps: seq<Held>, ms: seq<Motif>)
    requires c.maturation != 0
    ensures Grows(Detecting(c, tick)) && ps <= Detect(c, tick, ps, ms)
  {
    RowsGrow(Detecting(c, tick), ps, ms, 0);
  }

  /** After detection exactly those keys are tracked that were, and those of the pairs that
      clash. */
  lemma DetectTracksIff(c: Config, tick: int, ps: seq<Held>, ms: seq<Motif>, id: string)
    requires c.maturation != 0
    ensures Tracked(Detect(c, tick, ps, ms), id) <==>
              || Tracked(ps, id)
              || exists i, j | 0 <= i < j < |ms| :: Clashes(c, ms[i], ms[j]) && PairId(ms[i].id, ms[j].id) == id
  {
    var found := Detect(c, tick, ps, ms);
    DetectGrows(c, tick, ps, ms);
    StillTracked(ps, found, id);
    if Tracked(found, id) {
      DetectAddsClashes(c, tick, ps, ms);
      var k :| 0 <= k < |found| && found[k].id == id;
      assert found[k] in found;
    }
    forall i, j | 0 <= i < j < |ms| && Clashes(c, ms[i], ms[j]) && PairId(ms[i].id, ms[j].id) == id
      ensures Tracked(found, id)
    {
      ClashSeen(c, tick, ms[i], ms[j]);
      RowsTrack(Detecting(c, tick), ps, ms, 0, i, j, id);
    }
  }

  /** Updating and enforcing keep a paradox's identity, and add at most one to its duration. */
  lemma RipeningKeepsIdentity(c: Config, ms: seq<Motif>, p: Held)
    requires c.maturation != 0
    ensures var r := Enforce(c, Update(c, ms, p));
            r.id == p.id && r.birth == p.birth && r.emerged == p.emerged && p.duration <= r.duration <= p.duration + 1
  {
    EnforceKeepsIdentity(c, Update(c, ms, p));
  }

  lemma EnforceKeepsIdentity(c: Config, p: Held)
    ensures var r := Enforce(c, p);
            r.id == p.id && r.birth == p.birth && r.emerged == p.emerged && r.duration == p.duration
  {}

  /** Where a ripened paradox comes from: the one already tracked under its key, a tick older,
      or a birth in this very tick. */
  lemma RipenedOrigin(c: Config, e: Engine, motifs: seq<Motif>, k: nat)
    requires c.maturation != 0 && DistinctIds(e.paradoxes)
    requires k < |Ripened(c, e, motifs)|
    ensures var r := Ripened(c, e, motifs)[k];
            if k < |e.paradoxes| then
              && r.id == e.paradoxes[k].id && r.birth == e.paradoxes[k].birth
              && r.emerged == e.paradoxes[k].emerged
              && e.paradoxes[k].duration <= r.duration <= e.paradoxes[k].duration + 1
            else
              && r.birth == e.tick + 1 && !r.emerged && 0 <= r.duration <= 1
              && !Tracked(e.paradoxes, r.id)
  {
    var live := Living(Decay(motifs));
    var found := Detect(c, e.tick + 1, e.paradoxes, live);
    DetectExtends(c, e.tick + 1, e.paradoxes, live);
    RipenedAt(c, e, motifs, k);
    RipeningKeepsIdentity(c, live, found[k]);
  }

  lemma RipenedAt(c: Config, e: Engine, motifs: seq<Motif>, k: nat)
    requires c.maturation != 0 && k < |Ripened(c, e, motifs)|
    ensures var live := Living(Decay(motifs));
            var found := Detect(c, e.tick + 1, e.paradoxes, live);
            k < |found| && Ripened(c, e, motifs)[k] == Enforce(c, Update(c, live, found[k]))
  {
    var live := Living(Decay(motifs));
    var found := Detect(c, e.tick + 1, e.paradoxes, live);
    RipenedIs(c, e, motifs, live, found);
    RipeAt(c, live, found, k);
  }

  lemma RipenedIs(c: Config, e: Engine, motifs: seq<Motif>, live: seq<Motif>, found: seq<Held>)
    requires c.maturation != 0 && live == Living(Decay(motifs))
    requires found == Detect(c, e.tick + 1, e.paradoxes, live)
    ensures Ripened(c, e, motifs) == EnforceAll(c, UpdateAll(c, live, found))
  {}

  lemma RipeAt(c: Config, live: seq<Motif>, found: seq<Held>, k: nat)
    requires c.maturation != 0
    ensures |EnforceAll(c, UpdateAll(c, live, found))| == |found|
    ensures k < |found| ==> EnforceAll(c, UpdateAll(c, live, found))[k] == Enforce(c, Update(c, live, found[k]))
  {}

  lemma RipenedShape(c: Config, e: Engine, motifs: seq<Motif>)
    requires c.maturation != 0 && DistinctIds(e.paradoxes)
    ensures var ripe := Ripened(c, e, motifs);
            |e.paradoxes| <= |ripe| && DistinctIds(ripe) && DistinctIds(EmergeAll(c, ripe))
  {
    var live := Living(Decay(motifs));
    var found := Detect(c, e.tick + 1, e.paradoxes, live);
    DetectExtends(c, e.tick + 1, e.paradoxes, live);
    var ripe := Ripened(c, e, motifs);
    assert |ripe| == |found|;
    forall i | 0 <= i < |ripe|
      ensures ripe[i].id == found[i].id && EmergeAll(c, ripe)[i].id == found[i].id
    {
      RipenedAt(c, e, motifs, i);
      RipeningKeepsIdentity(c, live, found[i]);
    }
  }

  lemma AppendKeepsDistinct(kept: seq<Held>, init: seq<Held>, last: Held)
    requires DistinctIds(init + [last]) && DistinctIds(kept) && forall q | q in kept :: q in init
    ensures DistinctIds(kept + [last])
  {
    forall q | q in kept
      ensures q.id != last.id
    {
      var i :| 0 <= i < |init| && init[i] == q;
      assert (init + [last])[i] == q && (init + [last])[|init|] == last;
    }
  }

  lemma {:induction false} CleanKeeps(ps: seq<Held>)
    ensures forall p :: p in Clean(ps) <==> p in ps && (p.a.Alive() || p.b.Alive())
    ensures DistinctIds(ps) ==> DistinctIds(Clean(ps))
    decreases |ps|
  {
    if ps != [] {
      var init, last := ps[..|ps| - 1], ps[|ps| - 1];
      CleanKeeps(init);
      assert ps == init + [last];
      if DistinctIds(ps) {
        AppendKeepsDistinct(Clean(init), init, last);
      }
    }
  }

  lemma {:induction false} EmissionsAre(c: Config, tick: int, ps: seq<Held>)
    ensures forall ev | ev in Emissions(c, tick, ps) ::
              exists k | 0 <= k < |ps| :: Emits(c, ps[k]) && ev == EventOf(tick, ps[k])
    ensures forall k | 0 <= k < |ps| :: Emits(c, ps[k]) ==> EventOf(tick, ps[k]) in Emissions(c, tick, ps)
    ensures DistinctIds(ps) ==>
              forall i, j | 0 <= i < j < |Emissions(c, tick, ps)| ::
                Emissions(c, tick, ps)[i].pid != Emissions(c, tick, ps)[j].pid
    decreases |ps|
  {
    if ps != [] {
      var init, last := ps[..|ps| - 1], ps[|ps| - 1];
      EmissionsAre(c, tick, init);
      assert forall k | 0 <= k < |init| :: init[k] == ps[k];
      var before := Emissions(c, tick, init);
      forall ev | ev in before
        ensures exists k | 0 <= k < |ps| :: Emits(c, ps[k]) && ev == EventOf(tick, ps[k])
        ensures DistinctIds(ps) ==> ev.pid != last.id
      {
        var k :| 0 <= k < |init| && Emits(c, init[k]) && ev == EventOf(tick, init[k]);
        assert ps[k] == init[k];
      }
    }
  }

  /** A new event: who emitted it, and how old the emitter was. */
  lemma EmissionIsMature(c: Config, e: Engine, motifs: seq<Motif>, ev: Event)
    returns (k: nat)
    requires c.maturation != 0 && Inv(c, e)
    requires ev in Emissions(c, e.tick + 1, Ripened(c, e, motifs))
    ensures k < |Ripened(c, e, motifs)|
    ensures var p := Ripened(c, e, motifs)[k];
            && Emits(c, p) && ev == EventOf(e.tick + 1, p)
            && p.birth + c.maturation - 1 <= ev.tick
            && Emerge(c, p) in Tick(c, e, motifs).paradoxes
  {
    var ripe := Ripened(c, e, motifs);
    EmissionsAre(c, e.tick + 1, ripe);
    k :| 0 <= k < |ripe| && Emits(c, ripe[k]) && ev == EventOf(e.tick + 1, ripe[k]);
    RipenedShape(c, e, motifs);
    RipenedOrigin(c, e, motifs, k);
    if k < |e.paradoxes| {
      assert e.paradoxes[k] in e.paradoxes && Aged(e.paradoxes[k], e.tick);
    }
    CleanKeeps(EmergeAll(c, ripe));
    assert EmergeAll(c, ripe)[k] == Emerge(c, ripe[k]);
    assert EmergeAll(c, ripe)[k] in EmergeAll(c, ripe);
  }

  /** An old event against a ripened paradox of its pair. */
  lemma OldEventAccounted(c: Config, e: Engine, motifs: seq<Motif>, ev: Event, k: nat)
    requires c.maturation != 0 && Inv(c, e) && ev in e.log
    requires k < |Ripened(c, e, motifs)|
    ensures Accounted(ev, Ripened(c, e, motifs)[k])
  {
    RipenedOrigin(c, e, motifs, k);
    if k < |e.paradoxes| {
      assert e.paradoxes[k] in e.paradoxes && Accounted(ev, e.paradoxes[k]);
    }
  }

  lemma NewEventIsSpaced(c: Config, e: Engine, motifs: seq<Motif>, earlier: Event, ev: Event)
    requires c.maturation != 0 && Inv(c, e) && earlier in e.log
    requires ev in Emissions(c, e.tick + 1, Ripened(c, e, motifs)) && ev.pid == earlier.pid
    ensures earlier.tick + c.maturation < ev.tick
  {
    var k := EmissionIsMature(c, e, motifs, ev);
    OldEventAccounted(c, e, motifs, earlier, k);
  }

  /** Every tracked paradox after a tick is a ripened one, possibly just marked. */
  lemma TickOrigin(c: Config, e: Engine, motifs: seq<Motif>, p: Held) returns (k: nat)
    requires c.maturation != 0 && DistinctIds(e.paradoxes) && p in Tick(c, e, motifs).paradoxes
    ensures k < |Ripened(c, e, motifs)| && p == Emerge(c, Ripened(c, e, motifs)[k])
  {
    var ripe := Ripened(c, e, motifs);
    CleanKeeps(EmergeAll(c, ripe));
    assert p in EmergeAll(c, ripe);
    k :| 0 <= k < |ripe| && EmergeAll(c, ripe)[k] == p;
  }

  lemma TickKeepsAges(c: Config, e: Engine, motifs: seq<Motif>)
    requires c.maturation != 0 && Inv(c, e)
    ensures var e' := Tick(c, e, motifs);
            && DistinctIds(e'.paradoxes)
            && forall p | p in e'.paradoxes :: Aged(p, e'.tick)
  {
    RipenedShape(c, e, motifs);
    CleanKeeps(EmergeAll(c, Ripened(c, e, motifs)));
    forall p | p in Tick(c, e, motifs).paradoxes
      ensures Aged(p, e.tick + 1)
    {
      var k := TickOrigin(c, e, motifs, p);
      RipenedOrigin(c, e, motifs, k);
      if k < |e.paradoxes| {
        assert e.paradoxes[k] in e.paradoxes && Aged(e.paradoxes[k], e.tick);
      }
    }
  }

  lemma TickAccounts(c: Config, e: Engine, motifs: seq<Motif>, ev: Event, p: Held)
    requires c.maturation != 0 && Inv(c, e)
    requires ev in Tick(c, e, motifs).log && p in Tick(c, e, motifs).paradoxes
    ensures Accounted(ev, p)
  {
    var ripe := Ripened(c, e, motifs);
    var k := TickOrigin(c, e, motifs, p);
    if ev in e.log {
      OldEventAccounted(c, e, motifs, ev, k);
    } else {
      var n := EmissionIsMature(c, e, motifs, ev);
      RipenedShape(c, e, motifs);
      RipenedOrigin(c, e, motifs, n);
      if ev.pid == p.id {
        assert n == k;
        if k < |e.paradoxes| {
          assert e.paradoxes[k] in e.paradoxes && Aged(e.paradoxes[k], e.tick);
        }
      }
    }
  }

  lemma MemberTracked(ps: seq<Held>, p: Held)
    requires p in ps
    ensures Tracked(ps, p.id)
  {}

  /** Only a paradox both of whose motifs are dead is forgotten, so an event's pair is still
      tracked after the tick that logged it. */
  lemma EmissionStaysTracked(c: Config, e: Engine, motifs: seq<Motif>, ev: Event)
    requires c.maturation != 0 && Inv(c, e) && ev in Emissions(c, e.tick + 1, Ripened(c, e, motifs))
    ensures ev.tick == e.tick + 1 && Tracked(Tick(c, e, motifs).paradoxes, ev.pid)
  {
    var k := EmissionIsMature(c, e, motifs, ev);
    MemberTracked(Tick(c, e, motifs).paradoxes, Emerge(c, Ripened(c, e, motifs)[k]));
  }

  lemma TickTracksItsEvents(c: Config, e: Engine, motifs: seq<Motif>, ev: Event)
    requires c.maturation != 0 && Inv(c, e) && ev in Tick(c, e, motifs).log
    ensures ev.tick <= e.tick + 1
    ensures Tracked(Tick(c, e, motifs).paradoxes, ev.pid) || ev.tick < e.tick + 1
  {
    if ev !in e.log {
      EmissionStaysTracked(c, e, motifs, ev);
    }
  }

  lemma TickSpaces(c: Config, e: Engine, motifs: seq<Motif>)
    requires c.maturation != 0 && Inv(c, e)
    ensures Spaced(c, Tick(c, e, motifs).log)
  {
    var ripe := Ripened(c, e, motifs);
    var news := Emissions(c, e.tick + 1, ripe);
    var log := Tick(c, e, motifs).log;
    RipenedShape(c, e, motifs);
    EmissionsAre(c, e.tick + 1, ripe);
    assert forall n | |e.log| <= n < |log| :: log[n] == news[n - |e.log|];
    forall i, j | 0 <= i < j < |log| && log[i].pid == log[j].pid
      ensures log[i].tick + c.maturation < log[j].tick
    {
      if i < |e.log| <= j {
        NewEventIsSpaced(c, e, motifs, log[i], log[j]);
      }
    }
  }

  lemma TickKeepsInv(c: Config, e: Engine, motifs: seq<Motif>)
    requires c.maturation != 0 && Inv(c, e)
    ensures Inv(c, Tick(c, e, motifs))
  {
    var e' := Tick(c, e, motifs);
    TickKeepsAges(c, e, motifs);
    TickSpaces(c, e, motifs);
    forall ev | ev in e'.log
      ensures ev.tick <= e'.tick && (Tracked(e'.paradoxes, ev.pid) || ev.tick < e'.tick)
    {
      TickTracksItsEvents(c, e, motifs, ev);
    }
    forall ev, p | ev in e'.log && p in e'.paradoxes
      ensures Accounted(ev, p)
    {
      TickAccounts(c, e, motifs, ev, p);
    }
  }

  lemma {:induction false} RunKeepsInv(c: Config, inputs: seq<seq<Motif>>)
    requires c.maturation != 0
    ensures Inv(c, Run(c, inputs)) && Run(c, inputs).tick == |inputs|
    decreases |inputs|
  {
    if inputs != [] {
      var init := inputs[..|inputs| - 1];
      RunKeepsInv(c, init);
      TickKeepsInv(c, Run(c, init), inputs[|inputs| - 1]);
    }
  }

  /** In any run two emergences of one pair are more than `maturation` ticks apart. */
  lemma EmergencesAreSpaced(c: Config, inputs: seq<seq<Motif>>)
    requires c.maturation != 0
    ensures var log := Run(c, inputs).log;
            forall i, j | 0 <= i < j < |log| && log[i].pid == log[j].pid ::
              log[i].tick + c.maturation < log[j].tick
  {
    RunKeepsInv(c, inputs);
  }

  /** The state of a run holds a paradox of this key, born at that tick. */
  predicate Holds(e: Engine, pid: string, birth: int) {
    exists p | p in e.paradoxes :: p.id == pid && p.birth == birth
  }

  lemma HeldBefore(c: Config, e: Engine, motifs: seq<Motif>, pid: string, birth: int)
    requires c.maturation != 0 && DistinctIds(e.paradoxes)
    requires Holds(Tick(c, e, motifs), pid, birth) && birth <= e.tick
    ensures Holds(e, pid, birth)
  {
    var p :| p in Tick(c, e, motifs).paradoxes && p.id == pid && p.birth == birth;
    var k := TickOrigin(c, e, motifs, p);
    RipenedOrigin(c, e, motifs, k);
    assert e.paradoxes[k] in e.paradoxes;
  }

  lemma HeldOneBack(c: Config, inputs: seq<seq<Motif>>, pid: string, birth: int)
    requires c.maturation != 0 && inputs != [] && birth < |inputs|
    ensures Holds(Run(c, inputs), pid, birth) ==> Holds(Run(c, inputs[..|inputs| - 1]), pid, birth)
  {
    var init := inputs[..|inputs| - 1];
    RunKeepsInv(c, init);
    if Holds(Run(c, inputs), pid, birth) {
      HeldBefore(c, Run(c, init), inputs[|inputs| - 1], pid, birth);
    }
  }

  lemma {:induction false} HeldThroughout(c: Config, inputs: seq<seq<Motif>>, pid: string, birth: int, n: nat)
    requires c.maturation != 0 && 0 <= birth <= n <= |inputs|
    ensures Holds(Run(c, inputs), pid, birth) ==> Holds(Run(c, inputs[..n]), pid, birth)
    decreases |inputs|
  {
    if n == |inputs| {
      assert inputs[..n] == inputs;
    } else {
      var init := inputs[..|inputs| - 1];
      HeldOneBack(c, inputs, pid, birth);
      HeldThroughout(c, init, pid, birth, n);
      assert init[..n] == inputs[..n];
    }
  }

  /** An emergence logged by the last tick of a run: the paradox was born at least
      `maturation - 1` ticks before and was held, unforgotten, at every tick since. */
  lemma EmergenceIsEarned(c: Config, inputs: seq<seq<Motif>>, ev: Event) returns (birth: int)
    requires c.maturation != 0 && inputs != []
    ensures ev in Run(c, inputs).log && ev !in Run(c, inputs[..|inputs| - 1]).log ==>
              && ev.tick == |inputs| && c.maturation <= ev.duration && ev.tension > 0.2
              && 1 <= birth && birth + c.maturation - 1 <= ev.tick
              && forall n: nat | birth <= n <= |inputs| :: Holds(Run(c, inputs[..n]), ev.pid, birth)
  {
    if ev !in Run(c, inputs).log || ev in Run(c, inputs[..|inputs| - 1]).log {
      return 0;
    }
    var init, motifs := inputs[..|inputs| - 1], inputs[|inputs| - 1];
    var e := Run(c, init);
    RunKeepsInv(c, init);
    var k := EmissionIsMature(c, e, motifs, ev);
    birth := Ripened(c, e, motifs)[k].birth;
    BirthsArePositive(c, inputs);
    assert Emerge(c, Ripened(c, e, motifs)[k]) in Run(c, inputs).paradoxes;
    assert Holds(Run(c, inputs), ev.pid, birth);
    forall n: nat | birth <= n <= |inputs|
      ensures Holds(Run(c, inputs[..n]), ev.pid, birth)
    {
      HeldThroughout(c, inputs, ev.pid, birth, n);
    }
  }

  lemma {:induction false} BirthsArePositive(c: Config, inputs: seq<seq<Motif>>)
    requires c.maturation != 0
    ensures forall p | p in Run(c, inputs).paradoxes :: 1 <= p.birth
    decreases |inputs|
  {
    if inputs != [] {
      var init, motifs := inputs[..|inputs| - 1], inputs[|inputs| - 1];
      BirthsArePositive(c, init);
      RunKeepsInv(c, init);
      var e := Run(c, init);
      forall p | p in Run(c, inputs).paradoxes
        ensures 1 <= p.birth
      {
        var k := TickOrigin(c, e, motifs, p);
        RipenedOrigin(c, e, motifs, k);
        if k < |e.paradoxes| {
          assert e.paradoxes[k] in e.paradoxes;
        }
      }
    }
  }

  /** Emergence is not missed: after a tick, a living paradox that is old and tense enough has
      emerged. */
  lemma RipeHaveEmerged(c: Config, e: Engine, motifs: seq<Motif>, p: Held)
    requires c.maturation != 0 && DistinctIds(e.paradoxes) && p in Tick(c, e, motifs).paradoxes
    requires p.Alive() && p.duration >= c.maturation && p.tension > 0.2
    ensures p.emerged
  {
    var k := TickOrigin(c, e, motifs, p);
    RipenedAt(c, e, motifs, k);
    var live := Living(Decay(motifs));
    var found := Detect(c, e.tick + 1, e.paradoxes, live);
    SustainedMarksRipe(c, found[k].(a := Refreshed(live, found[k].a), b := Refreshed(live, found[k].b)));
  }

  lemma SustainedMarksRipe(c: Config, p: Held)
    requires c.maturation != 0
    ensures var r := Enforce(c, Sustain(c, p));
            r.Alive() && r.duration >= c.maturation && r.tension > 0.2 ==> r.candidate
  {}

  predicate Logged(log: seq<Event>, p: Held) {
    exists ev | ev in log :: ev.pid == p.id && p.birth <= ev.tick
  }

  predicate AllLogged(e: Engine) { forall q | q in e.paradoxes :: q.emerged ==> Logged(e.log, q) }

  lemma LogGrows(c: Config, e: Engine, motifs: seq<Motif>, q: Held, p: Held)
    requires c.maturation != 0 && Logged(e.log, q) && q.id == p.id && q.birth == p.birth
    ensures Logged(Tick(c, e, motifs).log, p)
  {
    var ev :| ev in e.log && ev.pid == q.id && q.birth <= ev.tick;
    assert ev in Tick(c, e, motifs).log;
  }

  lemma NewMarkLogged(c: Config, e: Engine, motifs: seq<Motif>, k: nat)
    requires c.maturation != 0 && k < |Ripened(c, e, motifs)| && Emits(c, Ripened(c, e, motifs)[k])
    requires Ripened(c, e, motifs)[k].birth <= e.tick + 1
    ensures Logged(Tick(c, e, motifs).log, Emerge(c, Ripened(c, e, motifs)[k]))
  {
    var r := Ripened(c, e, motifs)[k];
    EmissionsAre(c, e.tick + 1, Ripened(c, e, motifs));
    assert EventOf(e.tick + 1, r) in Tick(c, e, motifs).log;
  }

  /** A marked paradox was marked before the tick, with its event logged, or is marked by it. */
  lemma MarkIsLogged(c: Config, e: Engine, motifs: seq<Motif>, p: Held)
    requires c.maturation != 0 && Inv(c, e) && p in Tick(c, e, motifs).paradoxes && p.emerged
    requires AllLogged(e)
    ensures Logged(Tick(c, e, motifs).log, p)
  {
    var k := TickOrigin(c, e, motifs, p);
    RipenedOrigin(c, e, motifs, k);
    if Ripened(c, e, motifs)[k].emerged {
      assert e.paradoxes[k] in e.paradoxes;
      LogGrows(c, e, motifs, e.paradoxes[k], p);
    } else {
      TickKeepsAges(c, e, motifs);
      assert Aged(p, e.tick + 1);
      NewMarkLogged(c, e, motifs, k);
    }
  }

  lemma LoggedIsMarked(c: Config, e: Engine, p: Held)
    requires Inv(c, e) && p in e.paradoxes && Logged(e.log, p)
    ensures p.emerged
  {
    var ev :| ev in e.log && ev.pid == p.id && p.birth <= ev.tick;
    assert Accounted(ev, p);
  }

  lemma TickKeepsMarksLogged(c: Config, e: Engine, motifs: seq<Motif>)
    requires c.maturation != 0 && Inv(c, e) && AllLogged(e)
    ensures forall p | p in Tick(c, e, motifs).paradoxes :: p.emerged <==> Logged(Tick(c, e, motifs).log, p)
  {
    var next := Tick(c, e, motifs);
    TickKeepsInv(c, e, motifs);
    forall p | p in next.paradoxes
      ensures p.emerged <==> Logged(next.log, p)
    {
      if Logged(next.log, p) {
        LoggedIsMarked(c, next, p);
      } else if p.emerged {
        MarkIsLogged(c, e, motifs, p);
      }
    }
  }

  /** And it is not repeated: a tracked paradox is marked emerged exactly when the log has an
      event of its pair since its birth. */
  lemma {:induction false} EmergedIffLogged(c: Config, inputs: seq<seq<Motif>>)
    requires c.maturation != 0
    ensures forall p | p in Run(c, inputs).paradoxes :: p.emerged <==> Logged(Run(c, inputs).log, p)
    decreases |inputs|
  {
    if inputs != [] {
      var init := inputs[..|inputs| - 1];
      EmergedIffLogged(c, init);
      RunKeepsInv(c, init);
      TickKeepsMarksLogged(c, Run(c, init), inputs[|inputs| - 1]);
    }
  }

  /** What scaling by a capped factor does to an intensity: it rises exactly below the cap and by
      a factor over 1, and falls exactly by a factor under 1. */
  lemma ScalingMoves(x: real, factor: real)
    requires 0.0 < x <= 1.0
    ensures Min(1.0, x * factor) > x <==> factor > 1.0 && x < 1.0
    ensures Min(1.0, x * factor) < x <==> factor < 1.0
  {
    if factor > 1.0 {
      assert x * factor > x * 1.0;
    } else if factor < 1.0 {
      assert x * factor < x * 1.0;
    }
  }

  lemma BoostMoves(m: Motif, ratio: real)
    requires m.Sound() && m.Alive()
    ensures m.Boosted(Min(1.5, ratio * 0.6)).intensity > m.intensity <==> ratio * 0.6 > 1.0 && m.intensity < 1.0
    ensures m.Boosted(Min(1.5, ratio * 0.6)).intensity < m.intensity <==> ratio * 0.6 < 1.0
  {
    ScalingMoves(m.intensity, Min(1.5, ratio * 0.6));
  }

  /** How far one motif of a paradox dominates the other. */
  function Dominance(p: Held): real
    requires p.b.intensity >= 0.0
  {
    p.a.intensity / (p.b.intensity + 0.00000001)
  }

  /** Where the first motif dominates, the second is boosted by min(1.5, ratio * 0.6): it rises
      exactly when the ratio is over 5/3 and it is not at its cap, and it falls exactly when the
      ratio is under 5/3, which a configured block ratio below that lets happen. */
  lemma BoostRaisesIff(c: Config, p: Held)
    requires p.a.Sound() && p.b.Sound() && p.Alive() && Dominance(p) > c.blockRatio
    ensures var q, ratio := Enforce(c, p), Dominance(p);
            && (q.b.intensity > p.b.intensity <==> ratio * 0.6 > 1.0 && p.b.intensity < 1.0)
            && (q.b.intensity < p.b.intensity <==> ratio * 0.6 < 1.0)
            && q.a == p.a && q.blocked
  {
    BoostMoves(p.b, Dominance(p));
  }

  /** And where the second dominates, by the inverse ratio, so is the first. */
  lemma MirroredBoostRaisesIff(c: Config, p: Held)
    requires p.a.Sound() && p.b.Sound() && p.Alive()
    requires Dominance(p) <= c.blockRatio && 1.0 / Dominance(p) > c.blockRatio
    ensures var q, ratio := Enforce(c, p), 1.0 / Dominance(p);
            && (q.a.intensity > p.a.intensity <==> ratio * 0.6 > 1.0 && p.a.intensity < 1.0)
            && (q.a.intensity < p.a.intensity <==> ratio * 0.6 < 1.0)
            && q.b == p.b && q.blocked
  {
    BoostMoves(p.a, 1.0 / Dominance(p));
  }

  // ---- What the paradoxes of a run are ---------------------------------------

  /** The motif a dictionary holds for an id is the last one listed under it. */
  lemma {:induction false} LookupIsLast(ms: seq<Motif>, id: string)
    ensures Lookup(ms, id).None? <==> forall m | m in ms :: m.id != id
    ensures Lookup(ms, id).Some? ==>
              exists i | 0 <= i < |ms| ::
                Lookup(ms, id) == Some(ms[i]) && ms[i].id == id && forall j | i < j < |ms| :: ms[j].id != id
    decreases |ms|
  {
    if ms != [] {
      var n := |ms| - 1;
      LookupIsLast(ms[..n], id);
      assert ms == ms[..n] + [ms[n]];
    }
  }

  lemma RipeningKeepsMotifs(c: Config, ms: seq<Motif>, p: Held)
    requires c.maturation != 0
    ensures var r := Enforce(c, Update(c, ms, p)); r.a.id == p.a.id && r.b.id == p.b.id && r.id == p.id
  {
    LookupIsLast(ms, p.a.id);
    LookupIsLast(ms, p.b.id);
    EnforceKeepsMotifs(c, Update(c, ms, p));
  }

  lemma EnforceKeepsMotifs(c: Config, p: Held)
    ensures var r := Enforce(c, p); r.a.id == p.a.id && r.b.id == p.b.id && r.id == p.id
  {}

  lemma {:induction false} LivingAre(ms: seq<Motif>)
    ensures forall m :: m in Living(ms) <==> m in ms && m.Alive()
    decreases |ms|
  {
    if ms != [] {
      var n := |ms| - 1;
      LivingAre(ms[..n]);
      assert ms == ms[..n] + [ms[n]];
    }
  }

  /** Two of the motifs passed in clash once they have decayed, and they are this paradox's. */
  predicate BornOf(c: Config, motifs: seq<Motif>, p: Held) {
    exists x, y | x in motifs && y in motifs ::
      && Clashes(c, x.Decayed(), y.Decayed()) && p.a.id == x.id && p.b.id == y.id
      && p.id == PairId(x.id, y.id)
  }

  lemma LivingDecayed(motifs: seq<Motif>, m: Motif) returns (x: Motif)
    requires m in Living(Decay(motifs))
    ensures x in motifs && m == x.Decayed()
  {
    LivingAre(Decay(motifs));
    var i :| 0 <= i < |motifs| && Decay(motifs)[i] == m;
    x := motifs[i];
  }

  lemma NewPairBornOf(c: Config, tick: int, motifs: seq<Motif>, p: Held)
    requires c.maturation != 0
    ensures NewPair(c, tick, Living(Decay(motifs)), p) ==> BornOf(c, motifs, p)
  {
    var live := Living(Decay(motifs));
    if !NewPair(c, tick, live, p) {
      return;
    }
    var i, j :| 0 <= i < j < |live| && Clashes(c, live[i], live[j]) && p.a == live[i] && p.b == live[j]
                && p.id == PairId(live[i].id, live[j].id);
    var x := LivingDecayed(motifs, live[i]);
    var y := LivingDecayed(motifs, live[j]);
  }

  lemma DetectedBornOf(c: Config, e: Engine, motifs: seq<Motif>, p: Held)
    requires c.maturation != 0 && p !in e.paradoxes
    requires p in Detect(c, e.tick + 1, e.paradoxes, Living(Decay(motifs)))
    ensures BornOf(c, motifs, p)
  {
    DetectAddsClashes(c, e.tick + 1, e.paradoxes, Living(Decay(motifs)));
    NewPairBornOf(c, e.tick + 1, motifs, p);
  }

  /** The paradox as detection leaves it, before the tick goes on with it. */
  lemma TickSource(c: Config, e: Engine, motifs: seq<Motif>, p: Held) returns (k: nat, q: Held)
    requires c.maturation != 0 && DistinctIds(e.paradoxes) && p in Tick(c, e, motifs).paradoxes
    ensures q.id == p.id && q.a.id == p.a.id && q.b.id == p.b.id && q.birth == p.birth
    ensures var found := Detect(c, e.tick + 1, e.paradoxes, Living(Decay(motifs)));
            k < |found| && found[k] == q
  {
    k := TickOrigin(c, e, motifs, p);
    RipenedAt(c, e, motifs, k);
    var live := Living(Decay(motifs));
    q := Detect(c, e.tick + 1, e.paradoxes, live)[k];
    RipeningKeepsMotifs(c, live, q);
    RipeningKeepsIdentity(c, live, q);
  }

  /** Where a paradox tracked after a tick comes from: one tracked before, of the same motifs, or
      two motifs that clash. */
  lemma TickBirths(c: Config, e: Engine, motifs: seq<Motif>, p: Held)
    requires c.maturation != 0 && DistinctIds(e.paradoxes) && p in Tick(c, e, motifs).paradoxes
    ensures || (exists q | q in e.paradoxes ::
                  q.id == p.id && q.a.id == p.a.id && q.b.id == p.b.id && q.birth == p.birth)
            || BornOf(c, motifs, p)
  {
    var k, q := TickSource(c, e, motifs, p);
    if q !in e.paradoxes {
      DetectedBornOf(c, e, motifs, q);
    }
  }

  /** In any run every paradox is of two motifs the registry opposes, filed under their key. */
  lemma {:induction false} RunIsOpposed(c: Config, inputs: seq<seq<Motif>>)
    requires c.maturation != 0
    ensures forall p | p in Run(c, inputs).paradoxes ::
              c.contradictory(p.a.id, p.b.id) && p.id == PairId(p.a.id, p.b.id)
    decreases |inputs|
  {
    if inputs != [] {
      var init, motifs := inputs[..|inputs| - 1], inputs[|inputs| - 1];
      RunIsOpposed(c, init);
      RunKeepsInv(c, init);
      forall p | p in Run(c, inputs).paradoxes
        ensures c.contradictory(p.a.id, p.b.id) && p.id == PairId(p.a.id, p.b.id)
      {
        TickBirths(c, Run(c, init), motifs, p);
      }
    }
  }

  /** And a paradox of this tick is of two motifs passed in, each over 0.1 after its decay. */
  lemma NewbornsClash(c: Config, inputs: seq<seq<Motif>>, p: Held)
    requires c.maturation != 0 && inputs != []
    ensures p in Run(c, inputs).paradoxes && p.birth == |inputs| ==> BornOf(c, inputs[|inputs| - 1], p)
  {
    var init := inputs[..|inputs| - 1];
    RunKeepsInv(c, init);
    if p in Run(c, inputs).paradoxes {
      TickBirths(c, Run(c, init), inputs[|inputs| - 1], p);
    }
  }

  // ---- What a tick makes of one paradox --------------------------------------

  /** A copy is what the active motif of its id has become, or has decayed by itself. */
  predicate Renewed(ms: seq<Motif>, was: Motif, m: Motif) {
    if exists x | x in ms :: x.id == was.id then m in ms && m.id == was.id
    else m == was.(intensity := if was.intensity > was.decayRate then was.intensity - was.decayRate else 0.0)
  }

  lemma RefreshedIs(ms: seq<Motif>, m: Motif)
    ensures Renewed(ms, m, Refreshed(ms, m))
  {
    LookupIsLast(ms, m.id);
  }

  /** The update renews both copies; while both live it adds a tick to the duration, computes the
      tension anew and keeps the peak and the candidacy, and otherwise it leaves these as they
      were. */
  lemma UpdateMeans(c: Config, ms: seq<Motif>, p: Held)
    requires c.maturation != 0
    ensures var q := Update(c, ms, p);
            && Renewed(ms, p.a, q.a) && Renewed(ms, p.b, q.b)
            && q.id == p.id && q.birth == p.birth && q.emerged == p.emerged && q.blocked == p.blocked
            && if q.a.intensity > 0.0 && q.b.intensity > 0.0 then
                 && q.duration == p.duration + 1 && q.tension == Tension(c, q.a, q.b, p.duration)
                 && q.peak >= p.peak && q.peak >= q.tension && (q.peak == p.peak || q.peak == q.tension)
                 && (q.candidate <==> p.candidate || (q.duration >= c.maturation && q.tension > 0.2))
               else q.duration == p.duration && q.tension == p.tension && q.peak == p.peak && q.candidate == p.candidate
  {
    RefreshedIs(ms, p.a);
    RefreshedIs(ms, p.b);
  }

  /** A motif boosted by a ratio: by half as much again, by six tenths of the ratio, or up to 1,
      whichever is least; nothing but its intensity changes. */
  predicate BoostedBy(was: Motif, ratio: real, m: Motif) {
    var x := m.intensity;
    && m == was.(intensity := x)
    && x <= 1.0 && x <= 1.5 * was.intensity && x <= was.intensity * (ratio * 0.6)
    && (x == 1.0 || x == 1.5 * was.intensity || x == was.intensity * (ratio * 0.6))
  }

  lemma BoostGives(m: Motif, ratio: real)
    requires m.Alive()
    ensures BoostedBy(m, ratio, m.Boosted(Min(1.5, ratio * 0.6)))
  {
    if ratio * 0.6 < 1.5 {
      assert m.intensity * (1.5 - ratio * 0.6) >= 0.0;
    } else {
      assert m.intensity * (ratio * 0.6 - 1.5) >= 0.0;
    }
  }

  /** Enforcing boosts the dominated motif of a living paradox and marks it, */
  lemma EnforceBoosts(c: Config, p: Held)
    requires p.Alive()
    ensures var q, ratio := Enforce(c, p), Dominance(p);
            && (ratio > c.blockRatio ==> q == p.(b := q.b, blocked := true) && BoostedBy(p.b, ratio, q.b))
            && (ratio <= c.blockRatio && 1.0 / ratio > c.blockRatio ==>
                  q == p.(a := q.a, blocked := true) && BoostedBy(p.a, 1.0 / ratio, q.a))
  {
    var ratio := Dominance(p);
    BoostGives(p.b, ratio);
    BoostGives(p.a, 1.0 / ratio);
  }

  /** takes the mark off where neither dominates, and leaves a dead one alone. */
  lemma EnforceSpares(c: Config, p: Held)
    ensures !p.Alive() ==> Enforce(c, p) == p
    ensures p.Alive() && Dominance(p) <= c.blockRatio && 1.0 / Dominance(p) <= c.blockRatio ==>
              Enforce(c, p) == p.(blocked := false)
  {}

  // ---- The score -------------------------------------------------------------

  /** The places of the living. */
  function Alives(ps: seq<Held>): set<nat> { set i: nat | i < |ps| && ps[i].Alive() }

  lemma {:induction false} PartsCount(c: Config, ps: seq<Held>)
    ensures ScoreParts(c, ps).1 == |Alives(ps)|
    decreases |ps|
  {
    if ps != [] {
      var n := |ps| - 1;
      PartsCount(c, ps[..n]);
      assert Alives(ps) == Alives(ps[..n]) + (if ps[n].Alive() then {n} else {});
    }
  }

  /** The score is a mean over the living: a dead paradox does not count, and a living one weighs
      with its tension times its duration, up to the threshold. */
  lemma ScoreOfMore(c: Config, ps: seq<Held>, p: Held)
    ensures !p.Alive() ==> Score(c, ps + [p]) == Score(c, ps)
    ensures p.Alive() ==>
              var n, ticks := |Alives(ps)|, if p.duration < c.maturation then p.duration else c.maturation;
              Score(c, ps + [p]) * (n + 1) as real == Score(c, ps) * n as real + p.tension * ticks as real
    ensures Score(c, []) == 0.0
  {
    assert (ps + [p])[..|ps|] == ps;
    PartsCount(c, ps);
    MeanIs(ScoreParts(c, ps).0, ScoreParts(c, ps).1);
    MeanIs(ScoreParts(c, ps + [p]).0, ScoreParts(c, ps + [p]).1);
    if ScoreParts(c, ps).1 == 0 {
      NoneLiving(c, ps);
    }
  }

  lemma MeanIs(sum: real, n: nat)
    ensures n > 0 ==> (sum / n as real) * n as real == sum
  {}

  lemma {:induction false} NoneLiving(c: Config, ps: seq<Held>)
    requires ScoreParts(c, ps).1 == 0
    ensures ScoreParts(c, ps).0 == 0.0
    decreases |ps|
  {
    if ps != [] {
      NoneLiving(c, ps[..|ps| - 1]);
    }
  }
}
