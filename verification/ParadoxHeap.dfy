/** The engine as the objects it is made of: motifs are mutable and shared with the caller,
    and a paradox holds copies of its own. Every tick is proved to compute the value-level tick,
    with the caller's motifs and the paradoxes' copies never the same objects. */
module ParadoxHeap {
  import opened Prelude
  import opened Paradox

  class MotifState {
    const id: string
    const name: string
    const vector: seq<real>
    const decayRate: real
    var intensity: real
    /** The paradox whose copy this is; none for a motif of the caller's. */
    ghost var owner: ParadoxState?

    ghost function V(): Motif
      reads this
    {
      Motif(id, name, intensity, vector, decayRate)
    }

    /** Raises outside [0, 1]; so every construction has to be shown to stay inside. */
    constructor (id: string, name: string, intensity: real, vector: seq<real>, decayRate: real)
      requires 0.0 <= intensity <= 1.0
      ensures V() == Motif(id, name, intensity, vector, decayRate) && owner == null
    {
      owner := null;
      this.id, this.name, this.intensity, this.vector, this.decayRate := id, name, intensity, vector, decayRate;
    }

    predicate IsAlive()
      reads this
    {
      intensity > 0.0
    }

    method Decay()
      modifies this`intensity
      ensures V() == old(V()).Decayed()
    {
      intensity := Max(0.0, intensity - decayRate);
    }

    method Boost(factor: real)
      modifies this`intensity
      ensures V() == old(V()).Boosted(factor)
    {
      intensity := Min(1.0, intensity * factor);
    }

    /** A copy is constructed anew, so this raises outside [0, 1] as well. */
    method Copy() returns (m: MotifState)
      requires 0.0 <= intensity <= 1.0
      ensures fresh(m) && m.V() == V() && m.owner == null
    {
      m := new MotifState(id, name, intensity, vector, decayRate);
    }
  }

  class ParadoxState {
    const id: string
    const birth: int
    var a: MotifState
    var b: MotifState
    var tension: real
    var duration: int
    var blocked: bool
    var emerged: bool
    var peak: real
    var candidate: bool

    ghost function V(): Held
      reads this, a, b
    {
      Held(id, a.V(), b.V(), tension, duration, blocked, emerged, birth, peak, candidate)
    }

    constructor (id: string, a: MotifState, b: MotifState, tension: real, birth: int)
      requires a.owner == null && b.owner == null && a != b
      modifies a`owner, b`owner
      ensures this.a == a && this.b == b && a.owner == this && b.owner == this
      ensures V() == Held(id, a.V(), b.V(), tension, 0, true, false, birth, tension, false)
    {
      this.id, this.a, this.b, this.tension, this.birth := id, a, b, tension, birth;
      duration, blocked, emerged, peak, candidate := 0, true, false, tension, false;
      new;
      a.owner, b.owner := this, this;
    }

    predicate IsAlive()
      reads this, a, b
    {
      a.IsAlive() && b.IsAlive()
    }

    /** A well-made paradox: two copies of its own, filed under the key of their ids. */
    ghost predicate Good()
      reads this, a, b
    {
      && a != b && a.owner == this && b.owner == this
      && a.V().Sound() && b.V().Sound() && id == PairId(a.id, b.id)
    }
  }

  // ---- Views and separation --------------------------------------------------

  ghost function Motifs(ms: seq<MotifState>): seq<Motif>
    reads ms
  {
    seq(|ms|, i requires 0 <= i < |ms| reads ms => ms[i].V())
  }

  ghost predicate DistinctKeys(ps: seq<ParadoxState>) {
    forall i, j | 0 <= i < j < |ps| :: ps[i].id != ps[j].id
  }

  /** The caller's motifs: distinct objects, well made, and none of them a paradox's copy. */
  ghost predicate Outside(ms: seq<MotifState>)
    reads ms
  {
    && (forall i, j | 0 <= i < j < |ms| :: ms[i] != ms[j])
    && (forall m | m in ms :: m.owner == null && m.V().Sound())
  }

  // ---- Phases ----------------------------------------------------------------

  method DecayAll(ms: seq<MotifState>)
    requires Outside(ms)
    modifies ms
    ensures Motifs(ms) == Paradox.Decay(old(Motifs(ms)))
    ensures forall m | m in ms :: m.V() == old(m.V()).Decayed()
    ensures Outside(ms)
  {
    var i := 0;
    while i < |ms|
      invariant 0 <= i <= |ms|
      invariant forall k | 0 <= k < i :: ms[k].V() == old(ms[k].V()).Decayed()
      invariant forall k | i <= k < |ms| :: ms[k].V() == old(ms[k].V())
      invariant forall m | m in ms :: m.owner == null
    {
      ms[i].Decay();
      i := i + 1;
    }
  }

  method AliveOf(ms: seq<MotifState>) returns (live: seq<MotifState>)
    requires Outside(ms)
    ensures Motifs(live) == Living(Motifs(ms))
    ensures Outside(live) && forall m | m in live :: m in ms
  {
    ghost var xs := Motifs(ms);
    live := [];
    var i := 0;
    while i < |ms|
      invariant 0 <= i <= |ms|
      invariant Motifs(live) == Living(xs[..i])
      invariant Outside(live) && forall m | m in live :: m in ms[..i]
    {
      assert xs[..i + 1][..i] == xs[..i] && xs[i] == ms[i].V();
      if ms[i].IsAlive() {
        assert ms[i] !in ms[..i];
        live := live + [ms[i]];
      }
      i := i + 1;
    }
    assert xs[..i] == xs;
  }

  /** `d` is the dictionary of the motifs by id. */
  ghost predicate Serves(d: map<string, MotifState>, ms: seq<MotifState>)
    reads ms
  {
    && (forall id :: id in d <==> Lookup(Motifs(ms), id).Some?)
    && (forall id | id in d :: d[id] in ms && d[id].V() == Lookup(Motifs(ms), id).value)
  }

  method LookupOf(ms: seq<MotifState>) returns (d: map<string, MotifState>)
    ensures Serves(d, ms)
  {
    d := map[];
    var i := 0;
    while i < |ms|
      invariant 0 <= i <= |ms|
      invariant forall id :: id in d <==> Lookup(Motifs(ms)[..i], id).Some?
      invariant forall id | id in d :: d[id] in ms && d[id].V() == Lookup(Motifs(ms)[..i], id).value
    {
      assert Motifs(ms)[..i + 1][..i] == Motifs(ms)[..i];
      d := d[ms[i].id := ms[i]];
      i := i + 1;
    }
    assert Motifs(ms)[..i] == Motifs(ms);
  }

  lemma {:induction false} LookupFindsMember(ms: seq<Motif>, id: string)
    ensures Lookup(ms, id).Some? ==> Lookup(ms, id).value in ms && Lookup(ms, id).value.id == id
    decreases |ms|
  {
    if ms != [] {
      LookupFindsMember(ms[..|ms| - 1], id);
    }
  }

  lemma Spliced(xs: seq<Held>, ys: seq<Held>, i: nat)
    requires i < |xs| == |ys|
    ensures (xs[..i] + ys[i..])[i := xs[i]] == xs[..i + 1] + ys[i + 1..]
  {}

  predicate RowFollows(pair: Pairing, ms: seq<Motif>, i: nat, j: nat, row: seq<seq<Held>>, k: nat) {
    i < |ms| && j + k < |ms| && k + 1 < |row| && row[k + 1] == pair(row[k], ms[i], ms[j + k])
  }

  /** `row` lists what the paradoxes are before each pair (i, j), (i, j + 1), ... and at the end. */
  ghost predicate IsRow(pair: Pairing, ms: seq<Motif>, i: nat, j: nat, row: seq<seq<Held>>) {
    && j <= |ms| && |row| == |ms| - j + 1
    && forall k: nat :: k < |row| - 1 ==> RowFollows(pair, ms, i, j, row, k)
  }

  lemma {:induction false} RowTrail(pair: Pairing, ps: seq<Held>, ms: seq<Motif>, i: nat, j: nat)
    returns (row: seq<seq<Held>>)
    requires i < |ms| && j <= |ms|
    ensures IsRow(pair, ms, i, j, row) && row[0] == ps && row[|row| - 1] == PairRow(pair, ps, ms, i, j)
    decreases |ms| - j
  {
    if j == |ms| {
      return [ps];
    }
    var rest := RowTrail(pair, pair(ps, ms[i], ms[j]), ms, i, j + 1);
    row := RowTrailStep(pair, ps, ms, i, j, j + 1, rest);
  }

  lemma RowTrailStep(
      pair: Pairing, ps: seq<Held>, ms: seq<Motif>, i: nat, j: nat, next: nat, rest: seq<seq<Held>>)
    returns (row: seq<seq<Held>>)
    requires i < |ms| && j < |ms| && next == j + 1
    requires IsRow(pair, ms, i, next, rest) && rest[0] == pair(ps, ms[i], ms[j])
    ensures IsRow(pair, ms, i, j, row)
    ensures row[0] == ps && row[|row| - 1] == rest[|rest| - 1]
  {
    row := [ps] + rest;
    forall k: nat | k < |row| - 1
      ensures RowFollows(pair, ms, i, j, row, k)
    {
      if k > 0 {
        assert RowFollows(pair, ms, i, next, rest, k - 1);
      }
    }
  }

  /** Row k of the detection from row `first` on leads from one list of paradoxes to the next. */
  ghost predicate RowLeads(
      pair: Pairing, ms: seq<Motif>, first: nat, rows: seq<seq<seq<Held>>>, grid: seq<seq<Held>>, k: nat)
  {
    && k < |rows| && k + 1 < |grid| && first + k < |ms|
    && IsRow(pair, ms, first + k, first + k + 1, rows[k])
    && rows[k][0] == grid[k] && rows[k][|rows[k]| - 1] == grid[k + 1]
  }

  ghost predicate IsGrid(
      pair: Pairing, ms: seq<Motif>, first: nat, rows: seq<seq<seq<Held>>>, grid: seq<seq<Held>>)
  {
    && first <= |ms| && |rows| == |ms| - first && |grid| == |rows| + 1
    && forall k: nat :: k < |rows| ==> RowLeads(pair, ms, first, rows, grid, k)
  }

  lemma {:induction false} RowsTrail(pair: Pairing, ps: seq<Held>, ms: seq<Motif>, first: nat)
    returns (rows: seq<seq<seq<Held>>>, grid: seq<seq<Held>>)
    requires first <= |ms|
    ensures IsGrid(pair, ms, first, rows, grid)
    ensures grid[0] == ps && grid[|grid| - 1] == PairRows(pair, ps, ms, first)
    decreases |ms| - first
  {
    if first == |ms| {
      return [], [ps];
    }
    var row := RowTrail(pair, ps, ms, first, first + 1);
    var later, laterGrid := RowsTrail(pair, row[|row| - 1], ms, first + 1);
    rows, grid := GridGrows(pair, ps, ms, first, first + 1, row, later, laterGrid);
  }

  lemma GridGrows(
      pair: Pairing, ps: seq<Held>, ms: seq<Motif>, first: nat, next: nat, row: seq<seq<Held>>,
      later: seq<seq<seq<Held>>>, laterGrid: seq<seq<Held>>)
    returns (rows: seq<seq<seq<Held>>>, grid: seq<seq<Held>>)
    requires first < |ms| && next == first + 1 && IsRow(pair, ms, first, next, row) && row[0] == ps
    requires IsGrid(pair, ms, next, later, laterGrid) && laterGrid[0] == row[|row| - 1]
    ensures IsGrid(pair, ms, first, rows, grid) && grid[0] == ps && grid[|grid| - 1] == laterGrid[|laterGrid| - 1]
  {
    rows, grid := [row] + later, [ps] + laterGrid;
    forall k: nat | k < |rows|
      ensures RowLeads(pair, ms, first, rows, grid, k)
    {
      if k > 0 {
        assert RowLeads(pair, ms, next, later, laterGrid, k - 1);
      }
    }
  }

  class ParadoxEngine {
    const config: Config
    var tickCount: int
    var paradoxes: seq<ParadoxState>
    var history: seq<real>
    var log: seq<Event>
    /** The paradoxes and their copies. */
    ghost var Repr: set<object>

    /** Every paradox owns its copies, so no two paradoxes share one. */
    ghost predicate Valid()
      reads this, Repr
    {
      && config.maturation != 0
      && DistinctKeys(paradoxes)
      && this !in Repr
      && forall p | p in paradoxes :: p in Repr && p.a in Repr && p.b in Repr && p.Good()
    }

    ghost function Views(): seq<Held>
      requires Valid()
      reads this, Repr
    {
      seq(|paradoxes|, i requires 0 <= i < |paradoxes| && Valid() reads this, Repr =>
        assert paradoxes[i] in paradoxes; paradoxes[i].V())
    }

    /** None of the motifs belongs to the engine. */
    ghost predicate Clear(motifs: seq<MotifState>)
      reads this
    {
      forall m | m in motifs :: m !in Repr
    }

    ghost function View(): Engine
      requires Valid()
      reads this, Repr
    {
      Engine(tickCount, Views(), history, log)
    }

    constructor (config: Config)
      requires config.maturation != 0
      ensures Valid() && fresh(Repr)
      ensures this.config == config && View() == START
    {
      this.config := config;
      tickCount, paradoxes, history, log := 0, [], [], [];
      Repr := {};
    }

    /** The duration recorded for a pair, 0 if it is not tracked. */
    method DurationOf(pid: string) returns (duration: int)
      requires DistinctKeys(paradoxes)
      ensures forall p | p in paradoxes && p.id == pid :: duration == p.duration
      ensures (forall p | p in paradoxes :: p.id != pid) ==> duration == 0
    {
      duration := 0;
      var i := 0;
      while i < |paradoxes|
        invariant 0 <= i <= |paradoxes|
        invariant forall k | 0 <= k < i && paradoxes[k].id == pid :: duration == paradoxes[k].duration
        invariant (forall k | 0 <= k < i :: paradoxes[k].id != pid) ==> duration == 0
      {
        if paradoxes[i].id == pid {
          duration := paradoxes[i].duration;
        }
        i := i + 1;
      }
    }

    method ComputeTension(x: MotifState, y: MotifState) returns (t: real)
      requires config.maturation != 0 && DistinctKeys(paradoxes)
      ensures forall p | p in paradoxes && p.id == PairId(x.id, y.id) ::
                t == Tension(config, x.V(), y.V(), p.duration)
      ensures (forall p | p in paradoxes :: p.id != PairId(x.id, y.id)) ==>
                t == Tension(config, x.V(), y.V(), 0)
    {
      var duration := DurationOf(PairId(x.id, y.id));
      var opposed := Max(0.0, 1.0 - config.cosine(x.vector, y.vector));
      var strength := if config.contradictory(x.id, y.id) then Max(opposed, 1.0) else opposed;
      var sustained := Min(1.0, duration as real / config.maturation as real);
      t := Min(1.0, strength * (x.intensity * y.intensity) * (0.5 + 0.5 * sustained));
      assert t == Tension(config, x.V(), y.V(), duration);
    }

    // -- Detection --

    method Conceive(x: MotifState, y: MotifState) returns (p: ParadoxState)
      requires config.maturation != 0 && DistinctKeys(paradoxes)
      requires forall p | p in paradoxes :: p.id != PairId(x.id, y.id)
      requires x.V().Sound() && y.V().Sound()
      ensures fresh(p) && fresh(p.a) && fresh(p.b) && p.Good()
      ensures p.V() == Born(config, tickCount, x.V(), y.V())
    {
      var tension := ComputeTension(x, y);
      var a := x.Copy();
      var b := y.Copy();
      p := new ParadoxState(PairId(x.id, y.id), a, b, tension, tickCount);
    }

    predicate IsTracked(pid: string)
      reads this, paradoxes
    {
      exists p | p in paradoxes :: p.id == pid
    }

    lemma IsTrackedIff(pid: string)
      requires Valid()
      ensures IsTracked(pid) <==> Tracked(Views(), pid)
    {
      var vs := Views();
      assert forall k | 0 <= k < |paradoxes| :: vs[k].id == paradoxes[k].id;
      if IsTracked(pid) {
        var k :| 0 <= k < |paradoxes| && paradoxes[k].id == pid;
        assert vs[k].id == pid;
      }
    }

    method Append(p: ParadoxState)
      requires Valid() && p.Good()
      requires forall q | q in paradoxes :: q.id != p.id
      modifies this`paradoxes, this`Repr
      ensures Valid() && Repr == old(Repr) + {p, p.a, p.b}
      ensures Views() == old(Views()) + [p.V()]
    {
      paradoxes := paradoxes + [p];
      Repr := Repr + {p, p.a, p.b};
    }

    method DetectOne(x: MotifState, y: MotifState)
      requires Valid() && x.V().Sound() && y.V().Sound()
      modifies this`paradoxes, this`Repr
      ensures Valid() && fresh(Repr - old(Repr))
      ensures Views() == DetectPair(config, tickCount, old(Views()), x.V(), y.V())
    {
      IsTrackedIff(PairId(x.id, y.id));
      if IsTracked(PairId(x.id, y.id)) {
        return;
      }
      if config.contradictory(x.id, y.id) && x.intensity > 0.1 && y.intensity > 0.1 {
        var p := Conceive(x, y);
        Append(p);
      }
    }

    method DetectNext(ms: seq<MotifState>, ghost pair: Pairing, ghost xs: seq<Motif>, i: nat, ghost first: nat,
                      j: nat, ghost row: seq<seq<Held>>)
      requires Valid() && Outside(ms) && xs == Motifs(ms) && first <= j < |ms| && pair == Detecting(config, tickCount)
      requires IsRow(pair, xs, i, first, row) && Views() == row[j - first]
      modifies this`paradoxes, this`Repr
      ensures Valid() && fresh(Repr - old(Repr)) && Views() == row[j - first + 1]
    {
      assert RowFollows(pair, xs, i, first, row, j - first);
      DetectOne(ms[i], ms[j]);
    }

    method DetectAlong(ms: seq<MotifState>, ghost pair: Pairing, ghost xs: seq<Motif>, i: nat, first: nat,
                       ghost row: seq<seq<Held>>)
      requires Valid() && Outside(ms) && xs == Motifs(ms) && pair == Detecting(config, tickCount)
      requires IsRow(pair, xs, i, first, row) && row[0] == Views()
      modifies this`paradoxes, this`Repr
      ensures Valid() && fresh(Repr - old(Repr)) && Views() == row[|row| - 1]
    {
      var j := first;
      while j < |ms|
        invariant first <= j <= |ms|
        invariant Valid() && fresh(Repr - old(Repr)) && Views() == row[j - first]
      {
        DetectNext(ms, pair, xs, i, first, j, row);
        j := j + 1;
      }
    }

    method DetectFrom(ms: seq<MotifState>, ghost pair: Pairing, ghost xs: seq<Motif>, i: nat,
                      ghost rows: seq<seq<seq<Held>>>, ghost grid: seq<seq<Held>>)
      requires Valid() && Outside(ms) && xs == Motifs(ms) && i < |ms| && pair == Detecting(config, tickCount)
      requires IsGrid(pair, xs, 0, rows, grid) && Views() == grid[i]
      modifies this`paradoxes, this`Repr
      ensures Valid() && fresh(Repr - old(Repr)) && Views() == grid[i + 1]
    {
      assert RowLeads(pair, xs, 0, rows, grid, i);
      DetectAlong(ms, pair, xs, i, i + 1, rows[i]);
    }

    method DetectAll(ms: seq<MotifState>, ghost pair: Pairing, ghost xs: seq<Motif>,
                     ghost rows: seq<seq<seq<Held>>>, ghost grid: seq<seq<Held>>)
      requires Valid() && Outside(ms) && xs == Motifs(ms) && pair == Detecting(config, tickCount)
      requires IsGrid(pair, xs, 0, rows, grid) && Views() == grid[0]
      modifies this`paradoxes, this`Repr
      ensures Valid() && fresh(Repr - old(Repr)) && Views() == grid[|grid| - 1]
    {
      var i := 0;
      while i < |ms|
        invariant 0 <= i <= |ms|
        invariant Valid() && fresh(Repr - old(Repr)) && Views() == grid[i]
      {
        DetectFrom(ms, pair, xs, i, rows, grid);
        i := i + 1;
      }
    }

    /** The pairs of motifs, in order, leave the paradoxes that detection on values does. */
    method DetectEach(ms: seq<MotifState>)
      requires Valid() && Outside(ms)
      modifies this`paradoxes, this`Repr
      ensures Valid() && fresh(Repr - old(Repr))
      ensures Views() == Detect(config, tickCount, old(Views()), Motifs(ms))
    {
      ghost var rows, grid := RowsTrail(Detecting(config, tickCount), Views(), Motifs(ms), 0);
      DetectAll(ms, Detecting(config, tickCount), Motifs(ms), rows, grid);
    }

    // -- Updating --

    /** Replaces a copy by a fresh copy of the active motif, or decays it where it is. */
    method RefreshCopy(m: MotifState, d: map<string, MotifState>, ghost ms: seq<MotifState>) returns (r: MotifState)
      requires m.V().Sound() && Outside(ms) && m !in ms && Serves(d, ms)
      modifies m`intensity
      ensures r.V() == Refreshed(old(Motifs(ms)), old(m.V()))
      ensures (r == m && r.owner == old(m.owner)) || (fresh(r) && r.owner == null)
      ensures r.V().Sound() && r.id == m.id
    {
      LookupFindsMember(Motifs(ms), m.id);
      if m.id in d {
        r := d[m.id].Copy();
      } else {
        m.Decay();
        r := m;
      }
    }

    method RefreshFirst(p: ParadoxState, d: map<string, MotifState>, ghost ms: seq<MotifState>)
      requires p.Good() && Outside(ms) && Serves(d, ms)
      modifies p`a, p.a
      ensures p.V() == old(p.V()).(a := Refreshed(old(Motifs(ms)), old(p.a.V())))
      ensures p.Good() && (p.a == old(p.a) || fresh(p.a))
    {
      var a := RefreshCopy(p.a, d, ms);
      p.a := a;
      a.owner := p;
    }

    method RefreshSecond(p: ParadoxState, d: map<string, MotifState>, ghost ms: seq<MotifState>)
      requires p.Good() && Outside(ms) && Serves(d, ms)
      modifies p`b, p.b
      ensures p.V() == old(p.V()).(b := Refreshed(old(Motifs(ms)), old(p.b.V())))
      ensures p.Good() && (p.b == old(p.b) || fresh(p.b))
    {
      var b := RefreshCopy(p.b, d, ms);
      p.b := b;
      b.owner := p;
    }

    method RefreshBoth(p: ParadoxState, d: map<string, MotifState>, ghost ms: seq<MotifState>)
      requires p.Good() && Outside(ms) && Serves(d, ms)
      modifies p, p.a, p.b
      ensures p.V() == old(p.V()).(a := Refreshed(old(Motifs(ms)), old(p.a.V())),
                                   b := Refreshed(old(Motifs(ms)), old(p.b.V())))
      ensures p.Good() && (p.a == old(p.a) || fresh(p.a)) && (p.b == old(p.b) || fresh(p.b))
    {
      RefreshFirst(p, d, ms);
      assert Motifs(ms) == old(Motifs(ms));
      RefreshSecond(p, d, ms);
    }

    method SustainOne(p: ParadoxState)
      requires config.maturation != 0 && DistinctKeys(paradoxes) && p in paradoxes && p.Good()
      modifies p
      ensures p.V() == Sustain(config, old(p.V()))
      ensures p.a == old(p.a) && p.b == old(p.b) && p.Good()
    {
      if p.IsAlive() {
        var t := ComputeTension(p.a, p.b);
        p.tension := t;
        p.duration := p.duration + 1;
        p.peak := Max(p.peak, t);
        if p.duration >= config.maturation && p.tension > 0.2 {
          p.candidate := true;
        }
      }
    }

    method UpdateOne(p: ParadoxState, d: map<string, MotifState>, ghost ms: seq<MotifState>)
      requires config.maturation != 0 && DistinctKeys(paradoxes) && p in paradoxes && p.Good()
      requires Outside(ms) && Serves(d, ms)
      modifies p, p.a, p.b
      ensures p.V() == Update(config, old(Motifs(ms)), old(p.V()))
      ensures p.Good()
      ensures Outside(ms) && Motifs(ms) == old(Motifs(ms)) && Serves(d, ms)
      ensures p.a == old(p.a) || fresh(p.a)
      ensures p.b == old(p.b) || fresh(p.b)
    {
      RefreshBoth(p, d, ms);
      SustainOne(p);
    }

    /** Two tracked paradoxes have no copy in common. */
    lemma NoSharing(i: nat, k: nat)
      requires Valid() && i < |paradoxes| && k < |paradoxes| && i != k
      ensures paradoxes[i] != paradoxes[k]
      ensures {paradoxes[i].a, paradoxes[i].b} !! {paradoxes[k].a, paradoxes[k].b}
    {
      assert paradoxes[i] in paradoxes && paradoxes[k] in paradoxes;
      assert paradoxes[i].id != paradoxes[k].id;
    }

    method UpdateOwned(p: ParadoxState, d: map<string, MotifState>, ghost ms: seq<MotifState>)
      requires Valid() && p in paradoxes && p.Good() && Outside(ms) && Serves(d, ms)
      modifies this`Repr, p, p.a, p.b
      ensures p.V() == Update(config, old(Motifs(ms)), old(p.V())) && p.Good()
      ensures Repr == old(Repr) + {p.a, p.b} && fresh(Repr - old(Repr)) && this !in Repr
      ensures Outside(ms) && Motifs(ms) == old(Motifs(ms)) && Serves(d, ms)
    {
      UpdateOne(p, d, ms);
      Repr := Repr + {p.a, p.b};
    }

    /** Updates one paradox; the others stay as they were. */
    method UpdateAlone(i: nat, d: map<string, MotifState>, ghost ms: seq<MotifState>)
      requires Valid() && i < |paradoxes| && Outside(ms) && Serves(d, ms)
      modifies this`Repr, paradoxes[i], paradoxes[i].a, paradoxes[i].b
      ensures paradoxes[i].V() == Update(config, old(Motifs(ms)), old(paradoxes[i].V())) && paradoxes[i].Good()
      ensures Repr == old(Repr) + {paradoxes[i].a, paradoxes[i].b} && fresh(Repr - old(Repr)) && this !in Repr
      ensures Outside(ms) && Motifs(ms) == old(Motifs(ms)) && Serves(d, ms)
      ensures forall k | 0 <= k < |paradoxes| && k != i ::
                && paradoxes[k].V() == old(paradoxes[k].V()) && paradoxes[k].Good()
                && paradoxes[k].a == old(paradoxes[k].a) && paradoxes[k].b == old(paradoxes[k].b)
    {
      forall k | 0 <= k < |paradoxes| && k != i
        ensures paradoxes[k] != paradoxes[i] && {paradoxes[k].a, paradoxes[k].b} !! {paradoxes[i].a, paradoxes[i].b}
        ensures paradoxes[k].Good()
      {
        NoSharing(i, k);
        assert paradoxes[k] in paradoxes;
      }
      assert paradoxes[i] in paradoxes;
      UpdateOwned(paradoxes[i], d, ms);
    }

    method UpdateAt(i: nat, d: map<string, MotifState>, ghost ms: seq<MotifState>, ghost goal: Held)
      requires Valid() && i < |paradoxes| && Outside(ms) && Serves(d, ms)
      requires goal == Update(config, Motifs(ms), Views()[i])
      modifies this`Repr, paradoxes[i], paradoxes[i].a, paradoxes[i].b
      ensures Valid() && fresh(Repr - old(Repr))
      ensures Views() == old(Views())[i := goal]
      ensures Outside(ms) && Motifs(ms) == old(Motifs(ms)) && Serves(d, ms)
    {
      UpdateAlone(i, d, ms);
    }

    method UpdateEach(ms: seq<MotifState>)
      requires Valid() && Outside(ms)
      modifies this`Repr, Repr
      ensures Valid() && fresh(Repr - old(Repr))
      ensures Views() == UpdateAll(config, old(Motifs(ms)), old(Views()))
      ensures paradoxes == old(paradoxes)
    {
      ghost var xs, vs := Motifs(ms), Views();
      ghost var goal := UpdateAll(config, xs, vs);
      var d := LookupOf(ms);
      var i := 0;
      while i < |paradoxes|
        invariant 0 <= i <= |paradoxes|
        invariant Valid() && fresh(Repr - old(Repr))
        invariant Views() == goal[..i] + vs[i..]
        invariant Motifs(ms) == xs && Outside(ms) && Serves(d, ms)
      {
        assert paradoxes[i] in paradoxes;
        UpdateAt(i, d, ms, goal[i]);
        Spliced(goal, vs, i);
        i := i + 1;
      }
    }

    // -- Holding the paradox --

    method EnforceOne(p: ParadoxState)
      requires p.Good()
      modifies p`blocked, p.a`intensity, p.b`intensity
      ensures p.V() == Enforce(config, old(p.V()))
      ensures p.Good()
    {
      if !p.IsAlive() {
        return;
      }
      var ratio := p.a.intensity / (p.b.intensity + EPSILON);
      if ratio > config.blockRatio {
        p.b.Boost(Min(1.5, ratio * 0.6));
        p.blocked := true;
      } else if 1.0 / ratio > config.blockRatio {
        p.a.Boost(Min(1.5, (1.0 / ratio) * 0.6));
        p.blocked := true;
      } else {
        p.blocked := false;
      }
    }

    method EnforceAt(ghost i: nat, p: ParadoxState, ghost goal: Held)
      requires Valid() && i < |paradoxes| && p == paradoxes[i] && goal == Enforce(config, Views()[i])
      modifies p`blocked, p.a`intensity, p.b`intensity
      ensures Valid() && Views() == old(Views())[i := goal]
    {
      forall k | 0 <= k < |paradoxes| && k != i
        ensures paradoxes[k] != paradoxes[i] && {paradoxes[k].a, paradoxes[k].b} !! {paradoxes[i].a, paradoxes[i].b}
      {
        NoSharing(i, k);
      }
      assert p in paradoxes;
      EnforceOne(p);
    }

    method EnforceEach()
      requires Valid()
      modifies Repr
      ensures Valid() && Views() == EnforceAll(config, old(Views()))
    {
      ghost var vs := Views();
      ghost var goal := EnforceAll(config, vs);
      var i := 0;
      while i < |paradoxes|
        invariant 0 <= i <= |paradoxes|
        invariant Valid() && Views() == goal[..i] + vs[i..]
      {
        assert paradoxes[i] in paradoxes;
        EnforceAt(i, paradoxes[i], goal[i]);
        Spliced(goal, vs, i);
        i := i + 1;
      }
    }

    // -- Emergence --

    method EmergeAt(ghost i: nat, p: ParadoxState, ghost goal: Held)
      requires Valid() && i < |paradoxes| && p == paradoxes[i] && goal == Emerge(config, Views()[i])
      modifies this`log, p`emerged
      ensures Valid() && Views() == old(Views())[i := goal]
      ensures log == old(log) + Emissions(config, tickCount, [old(Views())[i]])
    {
      assert p in paradoxes;
      ghost var v := Views()[i];
      assert [v][..0] == [];
      if !p.candidate || p.emerged {
        return;
      }
      if p.duration >= config.maturation && p.tension > 0.2 && p.IsAlive() {
        var event := Event(p.id, tickCount, p.tension, p.duration, p.a.id, p.b.id);
        p.emerged := true;
        log := log + [event];
      }
    }

    lemma EmissionsExtend(before: seq<Event>, tick: int, vs: seq<Held>, i: nat)
      requires i < |vs|
      ensures before + Emissions(config, tick, vs[..i + 1])
           == before + Emissions(config, tick, vs[..i]) + Emissions(config, tick, [vs[i]])
    {
      assert vs[..i + 1][..i] == vs[..i];
      assert [vs[i]][..0] == [];
    }

    method EmergeNext(i: nat, ghost goal: seq<Held>, ghost vs: seq<Held>, ghost logs: seq<seq<Event>>)
      requires Valid() && i < |paradoxes| == |goal| == |vs| && goal[i] == Emerge(config, vs[i])
      requires Views() == goal[..i] + vs[i..] && i + 1 < |logs| && log == logs[i]
      requires logs[i + 1] == logs[i] + Emissions(config, tickCount, [vs[i]])
      modifies this`log, Repr
      ensures Valid() && Views() == goal[..i + 1] + vs[i + 1..] && log == logs[i + 1]
    {
      Spliced(goal, vs, i);
      assert paradoxes[i] in paradoxes && Views()[i] == vs[i];
      EmergeAt(i, paradoxes[i], goal[i]);
    }

    /** The log before each paradox is looked at, and at the end. */
    ghost function LogTrail(before: seq<Event>, tick: int, vs: seq<Held>): (logs: seq<seq<Event>>)
      ensures |logs| == |vs| + 1 && forall k | 0 <= k <= |vs| :: logs[k] == before + Emissions(config, tick, vs[..k])
    {
      seq(|vs| + 1, k requires 0 <= k <= |vs| => before + Emissions(config, tick, vs[..k]))
    }

    lemma LogTrailSteps(before: seq<Event>, tick: int, vs: seq<Held>)
      ensures var logs := LogTrail(before, tick, vs);
              && logs[0] == before && logs[|vs|] == before + Emissions(config, tick, vs)
              && forall k | 0 <= k < |vs| :: logs[k + 1] == logs[k] + Emissions(config, tick, [vs[k]])
    {
      assert vs[..|vs|] == vs;
      forall k | 0 <= k < |vs|
        ensures LogTrail(before, tick, vs)[k + 1] == LogTrail(before, tick, vs)[k] + Emissions(config, tick, [vs[k]])
      {
        EmissionsExtend(before, tick, vs, k);
      }
    }

    method EmergeTo(ghost goal: seq<Held>, ghost logs: seq<seq<Event>>)
      requires Valid() && |goal| == |paradoxes| && |logs| == |paradoxes| + 1 && log == logs[0]
      requires forall k | 0 <= k < |goal| :: goal[k] == Emerge(config, Views()[k])
      requires forall k | 0 <= k < |goal| :: logs[k + 1] == logs[k] + Emissions(config, tickCount, [Views()[k]])
      modifies this`log, Repr
      ensures Valid() && Views() == goal && log == logs[|logs| - 1]
    {
      ghost var vs := Views();
      var i := 0;
      while i < |paradoxes|
        invariant 0 <= i <= |paradoxes| == |goal|
        invariant Valid() && Views() == goal[..i] + vs[i..] && log == logs[i]
      {
        EmergeNext(i, goal, vs, logs);
        i := i + 1;
      }
      assert goal[..i] + vs[i..] == goal;
    }

    method EmergeEach()
      requires Valid()
      modifies this`log, Repr
      ensures Valid() && Views() == EmergeAll(config, old(Views()))
      ensures log == old(log) + Emissions(config, tickCount, old(Views()))
    {
      LogTrailSteps(log, tickCount, Views());
      EmergeTo(EmergeAll(config, Views()), LogTrail(log, tickCount, Views()));
    }

    // -- Cleaning and scoring --

    lemma CleanStep(vs: seq<Held>, i: nat)
      requires i < |vs|
      ensures Clean(vs[..i + 1]) == Clean(vs[..i]) + (if vs[i].a.Alive() || vs[i].b.Alive() then [vs[i]] else [])
    {
      assert vs[..i + 1][..i] == vs[..i];
    }

    method Survivors() returns (kept: seq<ParadoxState>, ghost clean: seq<Held>)
      requires Valid()
      ensures DistinctKeys(kept) && forall p | p in kept :: p in paradoxes
      ensures clean == Clean(Views()) && |kept| == |clean|
      ensures forall k | 0 <= k < |kept| :: kept[k].V() == clean[k]
    {
      ghost var vs := Views();
      kept, clean := [], [];
      var i := 0;
      while i < |paradoxes|
        invariant 0 <= i <= |paradoxes|
        invariant DistinctKeys(kept) && forall p | p in kept :: p in paradoxes[..i]
        invariant clean == Clean(vs[..i]) && |kept| == |clean|
        invariant forall k | 0 <= k < |kept| :: kept[k].V() == clean[k]
      {
        CleanStep(vs, i);
        clean := Clean(vs[..i + 1]);
        assert paradoxes[i] in paradoxes;
        assert forall p | p in kept :: p.id != paradoxes[i].id;
        if paradoxes[i].a.IsAlive() || paradoxes[i].b.IsAlive() {
          kept := kept + [paradoxes[i]];
        }
        i := i + 1;
      }
      assert vs[..i] == vs;
    }

    method Keep(kept: seq<ParadoxState>, ghost clean: seq<Held>)
      requires Valid() && DistinctKeys(kept) && forall p | p in kept :: p in paradoxes
      requires |kept| == |clean| && forall k | 0 <= k < |kept| :: kept[k].V() == clean[k]
      modifies this`paradoxes
      ensures Valid() && Views() == clean
    {
      paradoxes := kept;
    }

    method CleanDead()
      requires Valid()
      modifies this`paradoxes
      ensures Valid() && Views() == Clean(old(Views()))
    {
      var kept, clean := Survivors();
      Keep(kept, clean);
    }

    lemma ScoreStep(vs: seq<Held>, i: nat)
      requires i < |vs|
      ensures ScoreParts(config, vs[..i + 1]) ==
                var (sum, n) := ScoreParts(config, vs[..i]);
                if vs[i].Alive() then (sum + Share(config, vs[i].tension, vs[i].duration), n + 1) else (sum, n)
    {
      assert vs[..i + 1][..i] == vs[..i];
    }

    method ParadoxScore() returns (score: real)
      requires Valid()
      ensures score == Score(config, Views())
    {
      ghost var vs := Views();
      var sum: real, n: nat := 0.0, 0;
      var i := 0;
      while i < |paradoxes|
        invariant 0 <= i <= |paradoxes|
        invariant sum == ScoreParts(config, vs[..i]).0 && n == ScoreParts(config, vs[..i]).1
      {
        var p := paradoxes[i];
        assert p in paradoxes && p.V() == vs[i];
        ScoreStep(vs, i);
        if p.IsAlive() {
          sum := sum + Share(config, p.tension, p.duration);
          n := n + 1;
        }
        i := i + 1;
      }
      assert vs[..i] == vs;
      score := if n == 0 then 0.0 else sum / n as real;
    }

    // -- The clock --

    /** Detection, updating and enforcement. */
    method Ripen(live: seq<MotifState>)
      requires Valid() && Outside(live)
      modifies this`paradoxes, this`Repr, Repr
      ensures Valid() && fresh(Repr - old(Repr))
      ensures Views() == EnforceAll(config, UpdateAll(config, old(Motifs(live)),
                                                      Detect(config, tickCount, old(Views()), old(Motifs(live)))))
    {
      DetectEach(live);
      UpdateEach(live);
      EnforceEach();
    }

    method Record()
      requires Valid()
      modifies this`history
      ensures Valid() && Views() == old(Views())
      ensures history == old(history) + [Score(config, Views())]
    {
      var score := ParadoxScore();
      history := history + [score];
    }

    /** Advances the clock and decays the caller's motifs, which leaves every copy alone. */
    method Begin(motifs: seq<MotifState>)
      requires Valid() && Outside(motifs)
      modifies this`tickCount, motifs
      ensures Valid() && Views() == old(Views()) && tickCount == old(tickCount) + 1
      ensures Outside(motifs) && Motifs(motifs) == Paradox.Decay(old(Motifs(motifs)))
    {
      forall p | p in paradoxes
        ensures p.a !in motifs && p.b !in motifs
      {
        assert p.Good();
      }
      tickCount := tickCount + 1;
      DecayAll(motifs);
    }

    /** Emergence, cleaning and the score. */
    method Harvest()
      requires Valid()
      modifies this`paradoxes, this`history, this`log, Repr
      ensures Valid()
      ensures Views() == Clean(EmergeAll(config, old(Views())))
      ensures log == old(log) + Emissions(config, tickCount, old(Views()))
      ensures history == old(history) + [Score(config, Views())]
    {
      EmergeEach();
      CleanDead();
      Record();
    }

    lemma TickIs(e: Engine, xs: seq<Motif>, after: Engine)
      requires config.maturation != 0 && after.tick == e.tick + 1
      requires after.paradoxes == Clean(EmergeAll(config, Ripened(config, e, xs)))
      requires after.history == e.history + [Score(config, after.paradoxes)]
      requires after.log == e.log + Emissions(config, e.tick + 1, Ripened(config, e, xs))
      ensures after == Paradox.Tick(config, e, xs)
    {}

    method Cycle(live: seq<MotifState>, ghost ripe: seq<Held>)
      requires Valid() && Outside(live)
      requires ripe == EnforceAll(config, UpdateAll(config, Motifs(live),
                                                    Detect(config, tickCount, Views(), Motifs(live))))
      modifies this`paradoxes, this`Repr, this`history, this`log, Repr
      ensures Valid() && fresh(Repr - old(Repr))
      ensures Views() == Clean(EmergeAll(config, ripe))
      ensures log == old(log) + Emissions(config, tickCount, ripe)
      ensures history == old(history) + [Score(config, Views())]
    {
      Ripen(live);
      Harvest();
    }

    /** The rest of a tick, seen from the caller's motifs: none of them is touched or taken. */
    method CycleApart(motifs: seq<MotifState>, live: seq<MotifState>, ghost ripe: seq<Held>)
      requires Valid() && Outside(live) && Outside(motifs) && Clear(motifs)
      requires ripe == EnforceAll(config, UpdateAll(config, Motifs(live),
                                                    Detect(config, tickCount, Views(), Motifs(live))))
      modifies this`paradoxes, this`Repr, this`history, this`log, Repr
      ensures Valid() && fresh(Repr - old(Repr))
      ensures Views() == Clean(EmergeAll(config, ripe))
      ensures log == old(log) + Emissions(config, tickCount, ripe)
      ensures history == old(history) + [Score(config, Views())]
      ensures Clear(motifs) && Outside(motifs) && Motifs(motifs) == old(Motifs(motifs))
    {
      Cycle(live, ripe);
    }

    /** What follows the decay of the caller's motifs makes the tick of the state before it. */
    method FinishTick(motifs: seq<MotifState>, ghost e: Engine, ghost xs: seq<Motif>)
      requires Valid() && Outside(motifs) && Clear(motifs)
      requires Motifs(motifs) == Paradox.Decay(xs) && View() == e.(tick := e.tick + 1)
      modifies this`paradoxes, this`Repr, this`history, this`log, Repr
      ensures Valid() && fresh(Repr - old(Repr)) && View() == Paradox.Tick(config, e, xs)
      ensures Clear(motifs) && Outside(motifs) && Motifs(motifs) == old(Motifs(motifs))
    {
      var live := AliveOf(motifs);
      RipenedIs(config, e, xs, Motifs(live), Detect(config, tickCount, Views(), Motifs(live)));
      CycleApart(motifs, live, Ripened(config, e, xs));
      TickIs(e, xs, View());
    }

    /** One tick over the caller's motifs. The engine's new state is the value-level tick of its
        old one; every motif the caller passed has decayed once and otherwise kept its intensity,
        and none of them has become a paradox's copy. */
    method Tick(motifs: seq<MotifState>)
      requires Valid() && Outside(motifs) && Clear(motifs)
      modifies this, Repr, motifs
      ensures Valid() && fresh(Repr - old(Repr)) && Clear(motifs)
      ensures View() == Paradox.Tick(config, old(View()), old(Motifs(motifs)))
      ensures Outside(motifs) && Motifs(motifs) == Paradox.Decay(old(Motifs(motifs)))
    {
      ghost var e, xs := View(), Motifs(motifs);
      Begin(motifs);
      FinishTick(motifs, e, xs);
    }
  }
}
