/** The agent-facing interface as an object: its motifs are the very objects the engine decays,
    and each call is proved to compute the value-level call. */
module SomaticApi {
  import opened Prelude
  import opened Paradox
  import opened ParadoxHeap
  import opened Somatic

  lemma {:induction false} PutReplaces(ms: seq<Motif>, m: Motif, i: nat)
    requires i < |ms| && ms[i].id == m.id && forall k | 0 <= k < i :: ms[k].id != m.id
    ensures Put(ms, m) == ms[i := m]
  {
    if i > 0 {
      PutReplaces(ms[1..], m, i - 1);
    }
  }

  lemma {:induction false} PutAppends(ms: seq<Motif>, m: Motif)
    requires forall k | 0 <= k < |ms| :: ms[k].id != m.id
    ensures Put(ms, m) == ms + [m]
  {
    if ms != [] {
      PutAppends(ms[1..], m);
    }
  }

  lemma {:induction false} DropRemoves(ms: seq<Motif>, id: string, i: nat)
    requires i < |ms| && ms[i].id == id && forall k | 0 <= k < i :: ms[k].id != id
    ensures Drop(ms, id) == ms[..i] + ms[i + 1..]
  {
    if i > 0 {
      DropRemoves(ms[1..], id, i - 1);
    }
  }

  lemma {:induction false} DropMisses(ms: seq<Motif>, id: string)
    requires forall k | 0 <= k < |ms| :: ms[k].id != id
    ensures Drop(ms, id) == ms
  {
    if ms != [] {
      DropMisses(ms[1..], id);
    }
  }

  class SomaticStateAPI {
    const engine: ParadoxEngine
    /** The dictionary of active motifs, in insertion order. */
    var motifs: seq<MotifState>

    ghost predicate Valid()
      reads this, motifs, engine, engine.Repr
    {
      && engine.Valid()
      && this !in engine.Repr
      && Outside(motifs)
      && engine.Clear(motifs)
      && forall i, j | 0 <= i < j < |motifs| :: motifs[i].id != motifs[j].id
    }

    ghost function View(): Api
      requires Valid()
      reads this, motifs, engine, engine.Repr
    {
      Api(Motifs(motifs), engine.View())
    }

    constructor (config: Config)
      requires config.maturation != 0
      ensures Valid() && fresh(engine) && fresh(engine.Repr)
      ensures engine.config == config && View() == Api([], START)
    {
      engine := new ParadoxEngine(config);
      motifs := [];
    }

    /** The position of an id in the dictionary, or its length. */
    method IndexOf(id: string) returns (i: nat)
      ensures i <= |motifs| && forall k | 0 <= k < i :: motifs[k].id != id
      ensures i < |motifs| ==> motifs[i].id == id
    {
      i := 0;
      while i < |motifs| && motifs[i].id != id
        invariant i <= |motifs| && forall k | 0 <= k < i :: motifs[k].id != id
      {
        i := i + 1;
      }
    }

    /** Takes over a motif of the caller's under an id in use. */
    method Replace(i: nat, m: MotifState)
      requires Valid() && i < |motifs| && motifs[i].id == m.id
      requires m.owner == null && m.V().Sound() && m !in motifs && m !in engine.Repr
      modifies this`motifs
      ensures Valid() && motifs == old(motifs)[i := m] && engine.View() == old(engine.View())
      ensures Motifs(motifs) == old(Motifs(motifs))[i := m.V()]
    {
      motifs := motifs[i := m];
    }

    /** Takes over a motif of the caller's under an id not in use. */
    method Append(m: MotifState)
      requires Valid() && forall k | 0 <= k < |motifs| :: motifs[k].id != m.id
      requires m.owner == null && m.V().Sound() && m !in motifs && m !in engine.Repr
      modifies this`motifs
      ensures Valid() && motifs == old(motifs) + [m] && engine.View() == old(engine.View())
      ensures Motifs(motifs) == old(Motifs(motifs)) + [m.V()]
    {
      motifs := motifs + [m];
    }

    /** `d[m.id] = m` */
    method Store(m: MotifState)
      requires Valid()
      requires m.owner == null && m.V().Sound() && m !in motifs && m !in engine.Repr
      modifies this`motifs
      ensures Valid() && engine.View() == old(engine.View()) && m in motifs
      ensures Motifs(motifs) == Put(old(Motifs(motifs)), m.V())
    {
      ghost var xs := Motifs(motifs);
      var i := IndexOf(m.id);
      if i < |motifs| {
        PutReplaces(xs, m.V(), i);
        Replace(i, m);
        assert motifs[i] == m;
      } else {
        PutAppends(xs, m.V());
        Append(m);
      }
    }

    /** `template` is the registry's entry for the id, if it has one. The stored motif is a new
        object, and the one returned; without one the call raised and nothing changed. */
    method ActivateMotif(template: Option<Motif>, intensity: real) returns (r: Option<MotifState>)
      requires Valid() && (template.Some? ==> 0.0 <= template.value.decayRate)
      modifies this`motifs
      ensures Valid()
      ensures r.Some? <==> template.Some? && 0.0 <= intensity <= 1.0
      ensures r.Some? ==>
                && fresh(r.value) && r.value in motifs
                && View() == Step(engine.config, old(View()), Activate(template.value.(intensity := intensity)))
      ensures r.None? ==> View() == old(View()) && motifs == old(motifs)
    {
      if template.None? || !(0.0 <= intensity <= 1.0) {
        return None;
      }
      var t := template.value;
      var m := new MotifState(t.id, t.name, intensity, t.vector, t.decayRate);
      Store(m);
      return Some(m);
    }

    method SetIntensity(id: string, intensity: real) returns (ok: bool)
      requires Valid()
      modifies motifs
      ensures Valid()
      ensures ok <==> exists m | m in motifs :: m.id == id
      ensures View() == Step(engine.config, old(View()), Call.SetIntensity(id, intensity))
    {
      ghost var xs := Motifs(motifs);
      var i := IndexOf(id);
      if i == |motifs| {
        assert SetAt(xs, id, intensity) == xs;
        return false;
      }
      motifs[i].intensity := Max(0.0, Min(1.0, intensity));
      assert Motifs(motifs) == SetAt(xs, id, intensity);
      return true;
    }

    method Remove(i: nat)
      requires Valid() && i < |motifs|
      modifies this`motifs
      ensures Valid() && engine.View() == old(engine.View())
      ensures Motifs(motifs) == old(Motifs(motifs))[..i] + old(Motifs(motifs))[i + 1..]
    {
      motifs := motifs[..i] + motifs[i + 1..];
    }

    method Deactivate(id: string)
      requires Valid()
      modifies this`motifs
      ensures Valid()
      ensures View() == Step(engine.config, old(View()), Call.Deactivate(id))
    {
      ghost var xs := Motifs(motifs);
      var i := IndexOf(id);
      if i < |motifs| {
        Remove(i);
        DropRemoves(xs, id, i);
      } else {
        DropMisses(xs, id);
      }
    }

    /** The engine decays the dictionary's own objects. */
    method TickEngine()
      requires Valid()
      modifies motifs, engine, engine.Repr
      ensures Valid() && fresh(engine.Repr - old(engine.Repr))
      ensures engine.View() == Paradox.Tick(engine.config, old(engine.View()), old(Motifs(motifs)))
      ensures Motifs(motifs) == Paradox.Decay(old(Motifs(motifs)))
    {
      engine.Tick(motifs);
    }

    method Tick()
      requires Valid()
      modifies this, motifs, engine, engine.Repr
      ensures Valid() && fresh(engine.Repr - old(engine.Repr))
      ensures View() == Step(engine.config, old(View()), TickCall)
    {
      TickEngine();
      DropDead();
    }

    /** Forgets the active motifs that have decayed to 0. */
    method DropDead()
      requires Valid()
      modifies this`motifs
      ensures Valid() && Motifs(motifs) == Living(old(Motifs(motifs)))
      ensures engine.View() == old(engine.View())
    {
      var live := AliveOf(motifs);
      motifs := live;
      LivingUnique(old(motifs), live);
    }

    lemma LivingUnique(ms: seq<MotifState>, live: seq<MotifState>)
      requires forall i, j | 0 <= i < j < |ms| :: ms[i].id != ms[j].id
      requires Outside(live) && forall m | m in live :: m in ms
      ensures forall i, j | 0 <= i < j < |live| :: live[i].id != live[j].id
    {
      forall i, j | 0 <= i < j < |live|
        ensures live[i].id != live[j].id
      {
        assert live[i] in live && live[j] in live;
        var a :| 0 <= a < |ms| && ms[a] == live[i];
        var b :| 0 <= b < |ms| && ms[b] == live[j];
      }
    }
  }
}
