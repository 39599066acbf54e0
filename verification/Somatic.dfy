/** The agent-facing interface on values: a dictionary of active motifs beside the engine. */
module Somatic {
  import opened Prelude
  import opened Paradox

  /** `motifs` lists the dictionary of active motifs in its insertion order, one per id. */
  datatype Api = Api(motifs: seq<Motif>, engine: Engine)

  datatype Call =
    | Activate(motif: Motif)
    | SetIntensity(id: string, intensity: real)
    | Deactivate(id: string)
    | TickCall

  predicate UniqueIds(ms: seq<Motif>) {
    forall i, j | 0 <= i < j < |ms| :: ms[i].id != ms[j].id
  }

  /** `d[m.id] = m`: an existing key keeps its place. */
  function Put(ms: seq<Motif>, m: Motif): seq<Motif> {
    if ms == [] then [m]
    else if ms[0].id == m.id then [m] + ms[1..]
    else [ms[0]] + Put(ms[1..], m)
  }

  /** `d.pop(id, None)` */
  function Drop(ms: seq<Motif>, id: string): seq<Motif> {
    if ms == [] then []
    else if ms[0].id == id then ms[1..]
    else [ms[0]] + Drop(ms[1..], id)
  }

  function SetAt(ms: seq<Motif>, id: string, x: real): seq<Motif> {
    seq(|ms|, i requires 0 <= i < |ms| =>
      if ms[i].id == id then ms[i].(intensity := Max(0.0, Min(1.0, x))) else ms[i])
  }

  /** One call. Activating with an intensity outside [0, 1] raises and changes nothing; so does
      setting the intensity of a motif that is not active. */
  function Step(c: Config, s: Api, call: Call): Api
    requires c.maturation != 0
  {
    match call
    case Activate(m) => if 0.0 <= m.intensity <= 1.0 then s.(motifs := Put(s.motifs, m)) else s
    case SetIntensity(id, x) => s.(motifs := SetAt(s.motifs, id, x))
    case Deactivate(id) => s.(motifs := Drop(s.motifs, id))
    case TickCall => Api(Living(Decay(s.motifs)), Tick(c, s.engine, s.motifs))
  }

  function Session(c: Config, s: Api, calls: seq<Call>): Api
    requires c.maturation != 0
    decreases |calls|
  {
    if calls == [] then s else Session(c, Step(c, s, calls[0]), calls[1..])
  }

  predicate Touches(call: Call, id: string) {
    match call
    case Activate(m) => m.id == id
    case SetIntensity(i, _) => i == id
    case Deactivate(i) => i == id
    case TickCall => false
  }

  /** Only these three calls can be about a motif, and each about one. */
  lemma TouchesIff(call: Call, id: string)
    ensures Touches(call, id) <==>
              || (call.Activate? && call.motif.id == id)
              || (call.SetIntensity? && call.id == id)
              || (call.Deactivate? && call.id == id)
  {}

  function Ticks(calls: seq<Call>): nat {
    if calls == [] then 0 else (if calls[0].TickCall? then 1 else 0) + Ticks(calls[1..])
  }

  predicate Absent(ms: seq<Motif>, id: string) {
    forall m | m in ms :: m.id != id
  }

  // ---- One call keeps the dictionary a dictionary -----------------------------

  lemma {:induction false} PutKeeps(ms: seq<Motif>, m: Motif)
    requires UniqueIds(ms)
    ensures UniqueIds(Put(ms, m))
    ensures forall x :: x in Put(ms, m) <==> x == m || (x in ms && x.id != m.id)
  {
    if ms != [] {
      if ms[0].id != m.id {
        PutKeeps(ms[1..], m);
        assert forall x :: x in ms <==> x == ms[0] || x in ms[1..];
      } else {
        assert forall x | x in ms[1..] :: x.id != m.id;
        assert forall x :: x in ms <==> x == ms[0] || x in ms[1..];
      }
    }
  }

  lemma {:induction false} DropKeeps(ms: seq<Motif>, id: string)
    requires UniqueIds(ms)
    ensures UniqueIds(Drop(ms, id))
    ensures forall x :: x in Drop(ms, id) <==> x in ms && x.id != id
  {
    if ms != [] {
      assert forall x :: x in ms <==> x == ms[0] || x in ms[1..];
      if ms[0].id != id {
        DropKeeps(ms[1..], id);
      } else {
        assert forall x | x in ms[1..] :: x.id != id;
      }
    }
  }

  lemma {:induction false} LivingKeeps(ms: seq<Motif>)
    ensures forall x :: x in Living(ms) <==> x in ms && x.Alive()
    ensures UniqueIds(ms) ==> UniqueIds(Living(ms))
    decreases |ms|
  {
    if ms != [] {
      var init, last := ms[..|ms| - 1], ms[|ms| - 1];
      LivingKeeps(init);
      assert ms == init + [last];
      if UniqueIds(ms) {
        forall k | 0 <= k < |Living(init)|
          ensures Living(init)[k].id != last.id
        {
          var x := Living(init)[k];
          assert x in Living(init) && x in init;
          var i :| 0 <= i < |init| && init[i] == x;
          assert ms[i] == x;
        }
      }
    }
  }

  lemma StepKeepsDictionary(c: Config, s: Api, call: Call)
    requires c.maturation != 0 && UniqueIds(s.motifs)
    ensures UniqueIds(Step(c, s, call).motifs)
  {
    match call
    case Activate(m) => PutKeeps(s.motifs, m);
    case SetIntensity(_, _) =>
    case Deactivate(id) => DropKeeps(s.motifs, id);
    case TickCall => LivingKeeps(Decay(s.motifs));
  }

  /** The bounds of an intensity. */
  function Bounded(x: real): real { if x < 0.0 then 0.0 else if x > 1.0 then 1.0 else x }

  /** What each call makes of the active motifs, one by one: activating with an intensity in range
      stores that motif under its id, setting bounds the intensity of that id's motif and leaves
      the rest of it, deactivating removes it, and no call touches another's. */
  lemma CallMeans(c: Config, s: Api, call: Call, x: Motif)
    requires c.maturation != 0 && UniqueIds(s.motifs)
    ensures var next := Step(c, s, call);
            match call
            case Activate(m) =>
              && next.engine == s.engine
              && (if m.intensity < 0.0 || m.intensity > 1.0 then next == s
                  else x in next.motifs <==> x == m || (x in s.motifs && x.id != m.id))
            case SetIntensity(id, y) =>
              && next.engine == s.engine
              && (x in next.motifs <==>
                    exists m | m in s.motifs :: x == if m.id == id then m.(intensity := Bounded(y)) else m)
            case Deactivate(id) => next.engine == s.engine && (x in next.motifs <==> x in s.motifs && x.id != id)
            case TickCall =>
              x in next.motifs <==> x.intensity > 0.0 && exists m | m in s.motifs :: x == m.Decayed()
  {
    match call
    case Activate(m) => PutKeeps(s.motifs, m);
    case SetIntensity(id, y) => SetMeans(s.motifs, id, y, x);
    case Deactivate(id) => DropKeeps(s.motifs, id);
    case TickCall => TickMeans(s.motifs, x);
  }

  lemma SetMeans(ms: seq<Motif>, id: string, y: real, x: Motif)
    ensures x in SetAt(ms, id, y) <==>
              exists m | m in ms :: x == if m.id == id then m.(intensity := Bounded(y)) else m
  {
    var next := SetAt(ms, id, y);
    if x in next {
      var i :| 0 <= i < |next| && next[i] == x;
      assert ms[i] in ms;
    }
    if m :| m in ms && x == if m.id == id then m.(intensity := Bounded(y)) else m {
      var i :| 0 <= i < |ms| && ms[i] == m;
      assert next[i] == x;
    }
  }

  lemma TickMeans(ms: seq<Motif>, x: Motif)
    ensures x in Living(Decay(ms)) <==> x.intensity > 0.0 && exists m | m in ms :: x == m.Decayed()
  {
    LivingKeeps(Decay(ms));
    if x in Decay(ms) {
      var i :| 0 <= i < |ms| && Decay(ms)[i] == x;
      assert ms[i] in ms;
    }
    if m :| m in ms && x == m.Decayed() {
      var i :| 0 <= i < |ms| && ms[i] == m;
      assert Decay(ms)[i] == x;
    }
  }

  // ---- The decay law ---------------------------------------------------------

  /** What a call leaves of an active motif it does not touch. */
  lemma UntouchedStep(c: Config, s: Api, call: Call, m: Motif)
    requires c.maturation != 0 && UniqueIds(s.motifs) && m in s.motifs && !Touches(call, m.id)
    ensures var m' := if call.TickCall? then m.Decayed() else m;
            if call.TickCall? && !m'.Alive() then Absent(Step(c, s, call).motifs, m.id)
            else m' in Step(c, s, call).motifs
  {
    match call
    case Activate(x) => PutKeeps(s.motifs, x);
    case SetIntensity(id, x) =>
      var i :| 0 <= i < |s.motifs| && s.motifs[i] == m;
      assert SetAt(s.motifs, id, x)[i] == m;
    case Deactivate(id) => DropKeeps(s.motifs, id);
    case TickCall =>
      LivingKeeps(Decay(s.motifs));
      var i :| 0 <= i < |s.motifs| && s.motifs[i] == m;
      assert Decay(s.motifs)[i] == m.Decayed();
      forall x | x in Living(Decay(s.motifs)) && x.id == m.id
        ensures x == m.Decayed()
      {
        var j :| 0 <= j < |s.motifs| && Decay(s.motifs)[j] == x;
        assert i == j;
      }
  }

  lemma AbsentStep(c: Config, s: Api, call: Call, id: string)
    requires c.maturation != 0 && UniqueIds(s.motifs) && Absent(s.motifs, id) && !Touches(call, id)
    ensures Absent(Step(c, s, call).motifs, id)
  {
    match call
    case Activate(x) => PutKeeps(s.motifs, x);
    case SetIntensity(_, _) =>
    case Deactivate(d) => DropKeeps(s.motifs, d);
    case TickCall => LivingKeeps(Decay(s.motifs));
  }

  lemma {:induction false} AbsentThroughout(c: Config, s: Api, calls: seq<Call>, id: string)
    requires c.maturation != 0 && UniqueIds(s.motifs) && Absent(s.motifs, id)
    requires forall k | 0 <= k < |calls| :: !Touches(calls[k], id)
    ensures Absent(Session(c, s, calls).motifs, id)
    decreases |calls|
  {
    if calls != [] {
      AbsentStep(c, s, calls[0], id);
      StepKeepsDictionary(c, s, calls[0]);
      AbsentThroughout(c, Step(c, s, calls[0]), calls[1..], id);
    }
  }

  /** `m` after `n` ticks of decay alone. */
  function Faded(m: Motif, n: nat): Motif {
    m.(intensity := Max(0.0, m.intensity - n as real * m.decayRate))
  }

  lemma FadedStep(m: Motif, n: nat)
    requires m.Sound()
    ensures Faded(m.Decayed(), n) == Faded(m, n + 1)
    ensures !m.Decayed().Alive() ==> !Faded(m, n + 1).Alive()
  {
    var x, d := m.intensity, m.decayRate;
    assert (n + 1) as real * d == n as real * d + d;
    assert n as real * d >= 0.0;
  }

  /** The motif as n ticks of decay leave it among the active ones: dropped if it died. */
  predicate Settled(motifs: seq<Motif>, m: Motif, n: nat) {
    if n > 0 && !Faded(m, n).Alive() then Absent(motifs, m.id) else Faded(m, n) in motifs
  }

  lemma SettledTick(motifs: seq<Motif>, m: Motif, n: nat)
    requires m.Sound() && m.Decayed().Alive() && Settled(motifs, m.Decayed(), n)
    ensures Settled(motifs, m, n + 1)
  {
    FadedStep(m, n);
    if n == 0 {
      assert Faded(m.Decayed(), 0) == m.Decayed();
    }
  }

  lemma SettledDead(motifs: seq<Motif>, m: Motif, n: nat)
    requires m.Sound() && !m.Decayed().Alive() && Absent(motifs, m.id)
    ensures Settled(motifs, m, n + 1)
  {
    FadedStep(m, n);
  }

  /** The decay law: over any session that does not touch a motif's id, whatever else is
      activated, whatever paradoxes are held and however often their copies are boosted, the
      motif's intensity after n ticks is exactly max(0, i0 - n * decay_rate), and it is dropped
      exactly when that reaches 0 at a tick. */
  lemma {:induction false} DecayLaw(c: Config, s: Api, calls: seq<Call>, m: Motif)
    requires c.maturation != 0 && UniqueIds(s.motifs) && m in s.motifs && m.Sound()
    requires forall k | 0 <= k < |calls| :: !Touches(calls[k], m.id)
    ensures Settled(Session(c, s, calls).motifs, m, Ticks(calls))
    decreases |calls|
  {
    if calls == [] {
      assert Faded(m, 0) == m;
    } else {
      var s', rest := Step(c, s, calls[0]), calls[1..];
      UntouchedStep(c, s, calls[0], m);
      StepKeepsDictionary(c, s, calls[0]);
      if !calls[0].TickCall? {
        DecayLaw(c, s', rest, m);
      } else if m.Decayed().Alive() {
        DecayLaw(c, s', rest, m.Decayed());
        SettledTick(Session(c, s', rest).motifs, m, Ticks(rest));
      } else {
        AbsentThroughout(c, s', rest, m.id);
        SettledDead(Session(c, s', rest).motifs, m, Ticks(rest));
      }
    }
  }
}
