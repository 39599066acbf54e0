/** What the engine makes of one pair that the registry opposes and that is kept up, tick after tick:
    the course of its tension in closed form, and when it emerges. */
module SustainedClash {
  import opened Prelude
  import opened Paradox

  // ---- Tension ---------------------------------------------------------------

  /** How far a duration counts: half at once, and all of it from the threshold on. */
  function Maturity(c: Config, duration: int): real
    requires c.maturation > 0 && 0 <= duration
  {
    0.5 + 0.5 * (if duration < c.maturation then duration as real / c.maturation as real else 1.0)
  }

  /** Opposed motifs count fully, and more when their vectors point apart; others count by how far
      their vectors are from parallel. */
  function Strength(c: Config, a: Motif, b: Motif): real {
    var cosine := c.cosine(a.vector, b.vector);
    if c.contradictory(a.id, b.id) then (if cosine < 0.0 then 1.0 - cosine else 1.0)
    else if cosine > 1.0 then 0.0
    else 1.0 - cosine
  }

  lemma MaturityIsShare(c: Config, duration: int)
    requires c.maturation > 0 && 0 <= duration
    ensures Min(1.0, duration as real / c.maturation as real)
         == (if duration < c.maturation then duration as real / c.maturation as real else 1.0)
    ensures 0.5 <= Maturity(c, duration) <= 1.0
  {
    var m := c.maturation as real;
    assert duration as real == (duration as real / m) * m;
    if duration < c.maturation {
      assert duration as real / m < 1.0;
    } else {
      assert duration as real / m >= 1.0;
    }
    assert duration as real / m >= 0.0;
  }

  lemma TensionIs(c: Config, a: Motif, b: Motif, duration: int)
    requires c.maturation > 0 && 0 <= duration
    ensures Tension(c, a, b, duration)
         == Min(1.0, Strength(c, a, b) * (a.intensity * b.intensity) * Maturity(c, duration))
  {
    MaturityIsShare(c, duration);
  }

  lemma ProductInRange(x: real, y: real)
    requires 0.0 <= x <= 1.0 && 0.0 <= y <= 1.0
    ensures 0.0 <= x * y <= 1.0 && x * y <= x
  {
    assert x * (1.0 - y) >= 0.0;
    assert x * (1.0 - y) == x - x * y;
  }

  lemma ScaleKeepsOrder(x: real, y: real, k: real)
    requires k > 0.0
    ensures x > y <==> x * k > y * k
  {
    if x > y {
      assert (x - y) * k > 0.0;
    } else {
      assert (y - x) * k >= 0.0;
    }
  }

  /** Opposed motifs whose vectors do not point apart: the product of the intensities, as far as the
      duration counts. */
  lemma TensionOfOpposed(c: Config, a: Motif, b: Motif, duration: int)
    requires c.maturation > 0 && 0 <= duration && a.Sound() && b.Sound()
    requires c.contradictory(a.id, b.id) && c.cosine(a.vector, b.vector) >= 0.0
    ensures Tension(c, a, b, duration) == a.intensity * b.intensity * Maturity(c, duration)
  {
    TensionIs(c, a, b, duration);
    MaturityIsShare(c, duration);
    ProductInRange(a.intensity, b.intensity);
    ProductInRange(a.intensity * b.intensity, Maturity(c, duration));
  }

  // ---- One pair, tick after tick ---------------------------------------------

  /** Two motifs that, decayed, clash, and whose vectors do not point apart. */
  predicate Sustained(c: Config, x: Motif, y: Motif) {
    && c.maturation > 0 && x.Sound() && y.Sound() && x.id != y.id
    && Clashes(c, x.Decayed(), y.Decayed()) && c.cosine(x.vector, y.vector) >= 0.0
  }

  /** The product of the decayed intensities. */
  function Weight(x: Motif, y: Motif): real { x.Decayed().intensity * y.Decayed().intensity }

  /** The tension at the n-th tick. */
  function Course(c: Config, x: Motif, y: Motif, n: nat): real
    requires c.maturation > 0 && n > 0
  {
    Weight(x, y) * Maturity(c, n - 1)
  }

  predicate Ripe(c: Config, x: Motif, y: Motif, n: nat)
    requires c.maturation > 0 && n > 0
  {
    n >= c.maturation && Course(c, x, y, n) > 0.2
  }

  /** The tick of the emergence, if there is one. */
  function First(c: Config, x: Motif, y: Motif): nat
    requires c.maturation > 0
  {
    if Course(c, x, y, c.maturation) > 0.2 then c.maturation else c.maturation + 1
  }

  function Emergence(c: Config, x: Motif, y: Motif): Event
    requires c.maturation > 0
  {
    var n := First(c, x, y);
    Event(PairId(x.id, y.id), n, Course(c, x, y, n), n, x.id, y.id)
  }

  /** The one paradox after n ticks, but for how far it was boosted. */
  predicate Lives(c: Config, p: Held, x: Motif, y: Motif, n: nat)
    requires c.maturation > 0 && n > 0
  {
    && p.id == PairId(x.id, y.id) && p.a.id == x.id && p.b.id == y.id && p.Alive()
    && p.birth == 1 && p.duration == n && p.tension == Course(c, x, y, n)
    && (p.candidate <==> Ripe(c, x, y, n))
  }

  /** The engine after n ticks of these two motifs and nothing else. */
  predicate Stands(c: Config, e: Engine, x: Motif, y: Motif, n: nat)
    requires c.maturation > 0 && n > 0
  {
    && e.tick == n && |e.history| == n && |e.paradoxes| == 1
    && Lives(c, e.paradoxes[0], x, y, n)
    && (e.paradoxes[0].emerged <==> Ripe(c, x, y, n))
    && e.log == (if Ripe(c, x, y, n) then [Emergence(c, x, y)] else [])
    && e.history[n - 1] == Course(c, x, y, n) * (if n < c.maturation then n else c.maturation) as real
  }

  lemma {:induction false} LivingAll(ms: seq<Motif>)
    requires forall m | m in ms :: m.Alive()
    ensures Living(ms) == ms
    decreases |ms|
  {
    if ms != [] {
      LivingAll(ms[..|ms| - 1]);
    }
  }

  lemma LivingPair(x: Motif, y: Motif)
    requires x.Decayed().Alive() && y.Decayed().Alive()
    ensures Living(Decay([x, y])) == [x.Decayed(), y.Decayed()]
  {
    assert Decay([x, y]) == [x.Decayed(), y.Decayed()];
    LivingAll([x.Decayed(), y.Decayed()]);
  }

  lemma DetectPairOnly(c: Config, tick: int, ps: seq<Held>, a: Motif, b: Motif)
    requires c.maturation != 0
    ensures Detect(c, tick, ps, [a, b]) == DetectPair(c, tick, ps, a, b)
  {
    var pair, ms := Detecting(c, tick), [a, b];
    var next := pair(ps, a, b);
    assert PairRow(pair, ps, ms, 0, 1) == PairRow(pair, next, ms, 0, 2) == next;
    assert PairRows(pair, ps, ms, 0) == PairRows(pair, next, ms, 1);
    assert PairRow(pair, next, ms, 1, 2) == next;
    assert PairRows(pair, next, ms, 1) == PairRows(pair, next, ms, 2) == next;
  }

  /** An update from both motifs. */
  lemma UpdatePair(c: Config, a: Motif, b: Motif, p: Held)
    requires c.maturation != 0 && a.id != b.id && p.a.id == a.id && p.b.id == b.id
    ensures Update(c, [a, b], p) == Sustain(c, p.(a := a, b := b))
  {
    assert [a, b][..1] == [a];
    assert Lookup([a, b], b.id) == Some(b) && Lookup([a, b], a.id) == Lookup([a], a.id) == Some(a);
  }

  /** Enforcing boosts, and so keeps both motifs alive and all else that counts here. */
  lemma EnforcedLives(c: Config, p: Held)
    requires p.Alive()
    ensures var r := Enforce(c, p);
            r.Alive() && r.a.id == p.a.id && r.b.id == p.b.id
            && r == p.(a := r.a, b := r.b, blocked := r.blocked)
  {
    var ratio := p.a.intensity / (p.b.intensity + EPSILON);
    assert ratio > 0.0 && 1.0 / ratio > 0.0;
    BoostLives(p.b, Min(1.5, ratio * 0.6));
    BoostLives(p.a, Min(1.5, (1.0 / ratio) * 0.6));
  }

  lemma BoostLives(m: Motif, factor: real)
    requires m.Alive() && factor > 0.0
    ensures m.Boosted(factor).Alive()
  {
    assert m.intensity * factor > 0.0;
  }

  lemma RipenedOne(c: Config, e: Engine, motifs: seq<Motif>, p: Held, r: Held)
    requires c.maturation != 0
    requires Detect(c, e.tick + 1, e.paradoxes, Living(Decay(motifs))) == [p]
    requires Enforce(c, Update(c, Living(Decay(motifs)), p)) == r
    ensures Ripened(c, e, motifs) == [r]
  {
    var live := Living(Decay(motifs));
    RipenedIs(c, e, motifs, live, [p]);
    RipeAt(c, live, [p], 0);
  }

  lemma CleanOne(p: Held)
    requires p.Alive()
    ensures Clean([p]) == [p]
  {
    assert [p][..0] == [];
  }

  lemma EmitOne(c: Config, tick: int, p: Held)
    ensures EmergeAll(c, [p]) == [Emerge(c, p)]
    ensures Emissions(c, tick, [p]) == if Emits(c, p) then [EventOf(tick, p)] else []
  {
    assert [p][..0] == [];
  }

  lemma ScoreOne(c: Config, p: Held)
    requires p.Alive()
    ensures Score(c, [p]) == p.tension * (if p.duration < c.maturation then p.duration else c.maturation) as real
  {
    assert [p][..0] == [];
    assert ScoreParts(c, [p]).1 == 1;
  }

  /** The engine once the paradox is marked. */
  function Onward(c: Config, e: Engine, r: Held): Engine {
    Engine(e.tick + 1, [Emerge(c, r)], e.history + [Score(c, [Emerge(c, r)])],
           e.log + if Emits(c, r) then [EventOf(e.tick + 1, r)] else [])
  }

  /** A tick of an engine that tracks one paradox, whose motifs live. */
  lemma TickOfOne(c: Config, e: Engine, motifs: seq<Motif>, p: Held, r: Held)
    requires c.maturation != 0 && r.Alive()
    requires Detect(c, e.tick + 1, e.paradoxes, Living(Decay(motifs))) == [p]
    requires Enforce(c, Update(c, Living(Decay(motifs)), p)) == r
    ensures Tick(c, e, motifs) == Onward(c, e, r)
  {
    RipenedOne(c, e, motifs, p, r);
    EmitOne(c, e.tick + 1, r);
    CleanOne(Emerge(c, r));
  }

  lemma QuotientGrows(x: real, y: real, k: real)
    requires x <= y && k > 0.0
    ensures x / k <= y / k
  {
    assert (x / k) * k == x && (y / k) * k == y;
    ScaleKeepsOrder(x / k, y / k, k);
  }

  lemma CourseGrows(c: Config, x: Motif, y: Motif, n: nat)
    requires Sustained(c, x, y) && n > 0
    ensures Course(c, x, y, n) <= Course(c, x, y, n + 1)
    ensures n > c.maturation ==> Course(c, x, y, n) == Course(c, x, y, c.maturation + 1)
  {
    var w := x.Decayed().intensity * y.Decayed().intensity;
    var m := c.maturation as real;
    ProductInRange(x.Decayed().intensity, y.Decayed().intensity);
    MaturityIsShare(c, n - 1);
    MaturityIsShare(c, n);
    if n < c.maturation {
      QuotientGrows((n - 1) as real, n as real, m);
    }
    var u, v := Maturity(c, n - 1), Maturity(c, n);
    assert u <= v;
    assert w * u <= w * v;
  }

  /** The update of the n+1-st tick. */
  lemma NextUpdate(c: Config, p: Held, x: Motif, y: Motif, n: nat)
    requires Sustained(c, x, y) && p.a.id == x.id && p.b.id == y.id && p.duration == n
    ensures var q := Update(c, [x.Decayed(), y.Decayed()], p);
            && q.a == x.Decayed() && q.b == y.Decayed() && q.id == p.id && q.birth == p.birth
            && q.emerged == p.emerged && q.duration == n + 1 && q.tension == Course(c, x, y, n + 1)
            && (q.candidate <==> p.candidate || Ripe(c, x, y, n + 1))
  {
    UpdatePair(c, x.Decayed(), y.Decayed(), p);
    TensionOfOpposed(c, x.Decayed(), y.Decayed(), n);
  }

  /** The paradox after one more tick, before it is marked. */
  lemma NextLives(c: Config, p: Held, x: Motif, y: Motif, n: nat) returns (r: Held)
    requires Sustained(c, x, y)
    requires p.id == PairId(x.id, y.id) && p.a.id == x.id && p.b.id == y.id && p.birth == 1 && p.duration == n
    requires p.candidate <==> n > 0 && Ripe(c, x, y, n)
    ensures r == Enforce(c, Update(c, [x.Decayed(), y.Decayed()], p))
    ensures Lives(c, r, x, y, n + 1) && r.emerged == p.emerged
  {
    NextUpdate(c, p, x, y, n);
    RipeFrom(c, x, y, n);
    var q := Update(c, [x.Decayed(), y.Decayed()], p);
    EnforcedLives(c, q);
    r := Enforce(c, q);
  }

  lemma RipeFrom(c: Config, x: Motif, y: Motif, n: nat)
    requires Sustained(c, x, y)
    ensures n > 0 && Ripe(c, x, y, n) ==> Ripe(c, x, y, n + 1)
    ensures Ripe(c, x, y, n + 1) && !(n > 0 && Ripe(c, x, y, n)) ==> n + 1 == First(c, x, y)
  {
    CourseGrows(c, x, y, c.maturation);
    if n > 0 {
      CourseGrows(c, x, y, n);
    }
    if Ripe(c, x, y, n + 1) && n + 1 != c.maturation {
      CourseGrows(c, x, y, n + 1);
    }
  }

  /** Marking and logging it, when the tick is the first at which it is ripe. */
  lemma Marked(c: Config, r: Held, x: Motif, y: Motif, n: nat)
    requires Sustained(c, x, y) && Lives(c, r, x, y, n + 1) && (r.emerged <==> n > 0 && Ripe(c, x, y, n))
    ensures Lives(c, Emerge(c, r), x, y, n + 1) && (Emerge(c, r).emerged <==> Ripe(c, x, y, n + 1))
    ensures Emits(c, r) <==> Ripe(c, x, y, n + 1) && !(n > 0 && Ripe(c, x, y, n))
    ensures Emits(c, r) ==> EventOf(n + 1, r) == Emergence(c, x, y)
  {
    RipeFrom(c, x, y, n);
  }

  lemma OnwardStands(c: Config, e: Engine, r: Held, x: Motif, y: Motif, n: nat)
    requires Sustained(c, x, y) && Lives(c, r, x, y, n + 1) && (r.emerged <==> n > 0 && Ripe(c, x, y, n))
    requires e.tick == n && |e.history| == n
    requires e.log == if n > 0 && Ripe(c, x, y, n) then [Emergence(c, x, y)] else []
    ensures Stands(c, Onward(c, e, r), x, y, n + 1)
  {
    Marked(c, r, x, y, n);
    ScoreOne(c, Emerge(c, r));
    RipeFrom(c, x, y, n);
  }

  lemma FirstTick(c: Config, x: Motif, y: Motif)
    requires Sustained(c, x, y)
    ensures Stands(c, Tick(c, START, [x, y]), x, y, 1)
  {
    var p := Born(c, 1, x.Decayed(), y.Decayed());
    LivingPair(x, y);
    DetectPairOnly(c, 1, [], x.Decayed(), y.Decayed());
    assert DetectPair(c, 1, [], x.Decayed(), y.Decayed()) == [p];
    var r := NextLives(c, p, x, y, 0);
    TickOfOne(c, START, [x, y], p, r);
    OnwardStands(c, START, r, x, y, 0);
  }

  lemma DetectKnown(c: Config, tick: int, p: Held, x: Motif, y: Motif)
    requires c.maturation != 0 && p.id == PairId(x.id, y.id)
    requires x.Decayed().Alive() && y.Decayed().Alive()
    ensures Detect(c, tick, [p], Living(Decay([x, y]))) == [p]
  {
    LivingPair(x, y);
    DetectPairOnly(c, tick, [p], x.Decayed(), y.Decayed());
    assert [p][0].id == PairId(x.id, y.id);
  }

  lemma NextTick(c: Config, e: Engine, x: Motif, y: Motif, n: nat)
    requires Sustained(c, x, y) && n > 0 && Stands(c, e, x, y, n)
    ensures Stands(c, Tick(c, e, [x, y]), x, y, n + 1)
  {
    var p := e.paradoxes[0];
    assert e.paradoxes == [p];
    DetectKnown(c, e.tick + 1, p, x, y);
    LivingPair(x, y);
    var r := NextLives(c, p, x, y, n);
    TickOfOne(c, e, [x, y], p, r);
    OnwardStands(c, e, r, x, y, n);
  }

  /** The same two motifs at every tick. */
  function Kept(x: Motif, y: Motif, n: nat): seq<seq<Motif>> { seq(n, i => [x, y]) }

  lemma {:induction false} ClashStands(c: Config, x: Motif, y: Motif, n: nat)
    requires Sustained(c, x, y) && n > 0
    ensures Stands(c, Run(c, Kept(x, y, n)), x, y, n)
  {
    assert Kept(x, y, n)[..n - 1] == Kept(x, y, n - 1);
    assert Run(c, []) == START;
    if n == 1 {
      FirstTick(c, x, y);
    } else {
      ClashStands(c, x, y, n - 1);
      NextTick(c, Run(c, Kept(x, y, n - 1)), x, y, n - 1);
    }
  }

  /** The tick at which a clash of this weight emerges, if it does. */
  function EmergesAt(w: real, m: nat): (tick: nat)
    ensures m <= tick
  {
    if w * (2 * m - 1) as real > 0.4 * m as real then m else m + 1
  }

  lemma ThresholdCourse(c: Config, x: Motif, y: Motif)
    requires c.maturation > 0
    ensures Course(c, x, y, c.maturation) * (2.0 * c.maturation as real)
         == Weight(x, y) * (2 * c.maturation - 1) as real
  {
    var w, m := Weight(x, y), c.maturation as real;
    var share := (c.maturation - 1) as real / m;
    assert share * m == m - 1.0;
    assert Course(c, x, y, c.maturation) == w * (0.5 + 0.5 * share);
    assert w * (0.5 + 0.5 * share) * (2.0 * m) == w * (m + share * m);
    assert (2 * c.maturation - 1) as real == 2.0 * m - 1.0;
  }

  lemma FirstIs(c: Config, x: Motif, y: Motif)
    requires Sustained(c, x, y)
    ensures First(c, x, y) == EmergesAt(Weight(x, y), c.maturation)
  {
    ThresholdCourse(c, x, y);
    ScaleKeepsOrder(Course(c, x, y, c.maturation), 0.2, 2.0 * c.maturation as real);
  }

  lemma ReachesIff(m: nat, n: nat, atM: real, atN: real, last: real)
    requires atM <= last && (n == m ==> atN == atM) && (n > m ==> atN == last)
    ensures n >= m && atN > 0.2 <==> last > 0.2 && (if atM > 0.2 then m else m + 1) <= n
  {}

  lemma RipeIff(c: Config, x: Motif, y: Motif, n: nat)
    requires Sustained(c, x, y) && n > 0
    ensures Ripe(c, x, y, n) <==> Course(c, x, y, c.maturation + 1) > 0.2 && First(c, x, y) <= n
  {
    var m: nat := c.maturation;
    CourseGrows(c, x, y, m);
    CourseGrows(c, x, y, n);
    ReachesIff(m, n, Course(c, x, y, m), Course(c, x, y, n), Course(c, x, y, m + 1));
  }

  /** The one paradox, and the score of the last tick, after n ticks of these two motifs. */
  ghost predicate Lasts(c: Config, e: Engine, x: Motif, y: Motif, n: nat)
    requires c.maturation > 0 && n > 0
  {
    && |e.paradoxes| == 1 && |e.history| == n
    && e.paradoxes[0].id == PairId(x.id, y.id)
    && e.paradoxes[0].birth == 1 && e.paradoxes[0].duration == n
    && e.paradoxes[0].tension == Weight(x, y) * Maturity(c, n - 1)
    && e.history[n - 1] == e.paradoxes[0].tension * (if n < c.maturation then n else c.maturation) as real
  }

  lemma StandingLasts(c: Config, e: Engine, x: Motif, y: Motif, n: nat)
    requires c.maturation > 0 && n > 0 && Stands(c, e, x, y, n)
    ensures Lasts(c, e, x, y, n)
  {}

  /** Two motifs the registry opposes, kept up over n ticks, are one paradox, born at the first tick
      and n ticks old, whose tension grows from half their weight to all of it. */
  lemma ClashLasts(c: Config, x: Motif, y: Motif, n: nat)
    requires Sustained(c, x, y) && n > 0
    ensures Lasts(c, Run(c, Kept(x, y, n)), x, y, n)
  {
    ClashStands(c, x, y, n);
    StandingLasts(c, Run(c, Kept(x, y, n)), x, y, n);
  }

  /** One event, at that tick and of that tension, once the tick is reached. */
  ghost predicate EmergesOnce(c: Config, log: seq<Event>, x: Motif, y: Motif, n: nat)
    requires c.maturation > 0
  {
    var tick := EmergesAt(Weight(x, y), c.maturation);
    if Weight(x, y) > 0.2 && tick <= n
    then log == [Event(PairId(x.id, y.id), tick, Course(c, x, y, tick), tick, x.id, y.id)]
    else log == []
  }

  lemma StandingEmerged(c: Config, e: Engine, x: Motif, y: Motif, n: nat)
    requires Sustained(c, x, y) && n > 0 && Stands(c, e, x, y, n)
    ensures EmergesOnce(c, e.log, x, y, n)
  {
    FirstIs(c, x, y);
    RipeIff(c, x, y, n);
    assert Course(c, x, y, c.maturation + 1) == Weight(x, y);
  }

  /** It emerges exactly once, and only when it weighs over 0.2: at the threshold m when
      w(2m - 1) > 0.4m, and else at the next tick. */
  lemma ClashEmergesOnce(c: Config, x: Motif, y: Motif, n: nat)
    requires Sustained(c, x, y) && n > 0
    ensures EmergesOnce(c, Run(c, Kept(x, y, n)).log, x, y, n)
  {
    ClashStands(c, x, y, n);
    StandingEmerged(c, Run(c, Kept(x, y, n)), x, y, n);
  }
}
