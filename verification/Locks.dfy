/** The SET NX EX lock: acquire, compare-and-delete release, and the polling
    context manager, over a store whose entries expire. */
module Locks {
  import opened Prelude

  datatype Held = Held(token: string, expiry: int)

  datatype State = State(store: map<string, Held>, now: int) {
    /** A key past its expiry is as good as deleted. */
    predicate Live(resource: string) {
      resource in store && now < store[resource].expiry
    }

    predicate HeldBy(resource: string, token: string) {
      Live(resource) && store[resource].token == token
    }
  }

  datatype Op =
    | Acquire(resource: string, ttl: int, token: string)
    | Release(resource: string, token: string)
    | Tick(dt: nat)

  datatype Outcome = LockError | Busy | Acquired(token: string) | Deleted(ok: bool) | Elapsed

  /** One atomic step of any client, or of the clock. */
  function Step(s: State, op: Op): (State, Outcome) {
    match op
    case Acquire(r, ttl, token) =>
      if r == "" || ttl <= 0 then (s, LockError)
      else if s.Live(r) then (s, Busy)
      else (s.(store := s.store[r := Held(token, s.now + ttl)]), Acquired(token))
    case Release(r, token) =>
      if s.HeldBy(r, token) then (s.(store := s.store - {r}), Deleted(true))
      else (s, Deleted(false))
    case Tick(dt) => (s.(now := s.now + dt), Elapsed)
  }

  function Run(s: State, ops: seq<Op>): State
    decreases |ops|
  {
    if ops == [] then s
    else Step(Run(s, ops[..|ops| - 1]), ops[|ops| - 1]).0
  }

  /** The state in which operation `i` executes. */
  function At(s: State, ops: seq<Op>, i: nat): State
    requires i <= |ops|
  {
    Run(s, ops[..i])
  }

  lemma AtStep(s: State, ops: seq<Op>, i: nat)
    requires i < |ops|
    ensures At(s, ops, i + 1) == Step(At(s, ops, i), ops[i]).0
  {
    assert ops[..i + 1][..i] == ops[..i];
  }

  lemma AtStart(s: State, ops: seq<Op>)
    ensures At(s, ops, 0) == s
  {
    assert ops[..0] == [];
  }

  lemma {:induction false} ClockNeverRunsBack(s: State, ops: seq<Op>, i: nat, j: nat)
    requires i <= j <= |ops|
    ensures At(s, ops, i).now <= At(s, ops, j).now
    decreases j
  {
    if i < j {
      ClockNeverRunsBack(s, ops, i, j - 1);
      AtStep(s, ops, j - 1);
    }
  }

  // ---- Mutual exclusion ------------------------------------------------------

  /** Operation `i` obtained its lock. */
  predicate Granted(s: State, ops: seq<Op>, i: nat)
    requires i < |ops|
  {
    ops[i].Acquire? && Step(At(s, ops, i), ops[i]).1.Acquired?
  }

  /** Operation `j` is the release belonging to acquisition `i`: same resource, same token. */
  predicate OwnRelease(ops: seq<Op>, i: nat, j: nat)
    requires i < |ops| && j < |ops| && ops[i].Acquire?
  {
    i < j && ops[j] == Release(ops[i].resource, ops[i].token)
  }

  /** `t` lies in the half-open interval [acquire, min(own release, acquire + ttl)). */
  predicate Holds(s: State, ops: seq<Op>, i: nat, t: int)
    requires i < |ops| && Granted(s, ops, i)
  {
    && At(s, ops, i).now <= t < At(s, ops, i).now + ops[i].ttl
    && forall j | 0 <= j < |ops| :: OwnRelease(ops, i, j) ==> t < At(s, ops, j).now
  }

  /** Until it expires or is released under its token, a granted lock stays in the store untouched. */
  lemma {:induction false} GrantPersists(s: State, ops: seq<Op>, i: nat, k: nat)
    requires i < k <= |ops| && Granted(s, ops, i)
    requires forall j | i < j < k :: !OwnRelease(ops, i, j)
    requires At(s, ops, k).now < At(s, ops, i).now + ops[i].ttl
    ensures ops[i].resource in At(s, ops, k).store
    ensures At(s, ops, k).store[ops[i].resource] == Held(ops[i].token, At(s, ops, i).now + ops[i].ttl)
    decreases k
  {
    AtStep(s, ops, k - 1);
    ClockNeverRunsBack(s, ops, k - 1, k);
    if i + 1 < k {
      GrantPersists(s, ops, i, k - 1);
      assert !OwnRelease(ops, i, k - 1);
    }
  }

  /** Mutual exclusion: whatever the interleaving, and whatever tokens the clients use,
      the intervals of two acquisitions of one resource share no instant. */
  lemma MutualExclusion(s: State, ops: seq<Op>, i: nat, k: nat, t: int)
    requires i < k < |ops| && Granted(s, ops, i) && Granted(s, ops, k)
    requires ops[i].resource == ops[k].resource
    ensures !(Holds(s, ops, i, t) && Holds(s, ops, k, t))
  {
    if Holds(s, ops, i, t) && Holds(s, ops, k, t) {
      forall j | i < j < k
        ensures !OwnRelease(ops, i, j)
      {
        ClockNeverRunsBack(s, ops, j, k);
      }
      GrantPersists(s, ops, i, k);
      assert false;
    }
  }

  // ---- When a lock is granted ------------------------------------------------

  /** At operation k the lock of acquisition i has neither expired nor been released under its
      token. */
  predicate Stands(s: State, ops: seq<Op>, i: nat, k: nat)
    requires i < k <= |ops|
  {
    && Granted(s, ops, i) && At(s, ops, k).now < At(s, ops, i).now + ops[i].ttl
    && forall j | i < j < k :: !OwnRelease(ops, i, j)
  }

  /** Entry and lock of acquisition i. */
  predicate Owns(s: State, ops: seq<Op>, i: nat, k: nat, resource: string)
    requires i < k <= |ops|
  {
    && Granted(s, ops, i) && ops[i].resource == resource && resource in At(s, ops, k).store
    && At(s, ops, k).store[resource] == Held(ops[i].token, At(s, ops, i).now + ops[i].ttl)
    && forall j | i < j < k :: !OwnRelease(ops, i, j)
  }

  lemma OwnsNext(s: State, ops: seq<Op>, i: nat, k: nat, resource: string)
    requires i < k < |ops| && Owns(s, ops, i, k, resource) && !Granted(s, ops, k)
    requires resource in At(s, ops, k + 1).store && At(s, ops, k).Live(resource)
    ensures Owns(s, ops, i, k + 1, resource)
  {
    AtStep(s, ops, k);
    forall j | i < j < k + 1
      ensures !OwnRelease(ops, i, j)
    {
      if j == k && OwnRelease(ops, i, k) {
        assert At(s, ops, k).HeldBy(resource, ops[i].token);
      }
    }
  }

  /** A live entry is some acquisition's, and it still stands. */
  lemma {:induction false} LiveHasOwner(s: State, ops: seq<Op>, k: nat, resource: string) returns (i: nat)
    requires k <= |ops| && resource !in s.store && At(s, ops, k).Live(resource)
    ensures i < k && Owns(s, ops, i, k, resource)
    decreases k
  {
    AtStart(s, ops);
    AtStep(s, ops, k - 1);
    if Granted(s, ops, k - 1) && ops[k - 1].resource == resource {
      i := k - 1;
    } else {
      i := LiveHasOwner(s, ops, k - 1, resource);
      if Granted(s, ops, k - 1) {
        OwnsPast(s, ops, i, k - 1, resource);
      } else {
        OwnsNext(s, ops, i, k - 1, resource);
      }
    }
  }

  lemma OwnsPast(s: State, ops: seq<Op>, i: nat, k: nat, resource: string)
    requires i < k < |ops| && Owns(s, ops, i, k, resource) && Granted(s, ops, k) && ops[k].resource != resource
    ensures Owns(s, ops, i, k + 1, resource)
  {
    AtStep(s, ops, k);
  }

  /** In any run of a store that begins without the resource, an acquisition with a name and a ttl is
      granted exactly when no earlier one still stands. */
  lemma GrantedIff(s: State, ops: seq<Op>, k: nat)
    requires k < |ops| && ops[k].Acquire? && ops[k].resource !in s.store
    ensures Granted(s, ops, k) <==>
              && ops[k].resource != "" && ops[k].ttl > 0
              && forall i | 0 <= i < k && Granted(s, ops, i) && ops[i].resource == ops[k].resource ::
                   !Stands(s, ops, i, k)
  {
    forall i: nat | i < k && Granted(s, ops, i) && ops[i].resource == ops[k].resource && Stands(s, ops, i, k)
      ensures At(s, ops, k).Live(ops[k].resource)
    {
      GrantPersists(s, ops, i, k);
    }
    if At(s, ops, k).Live(ops[k].resource) {
      var i := LiveHasOwner(s, ops, k, ops[k].resource);
      assert Stands(s, ops, i, k);
    }
  }

  /** What a grant puts, and what a release takes: one entry, no other. */
  lemma StepChanges(s: State, op: Op)
    ensures var (next, r) := Step(s, op);
            match op
            case Acquire(resource, ttl, token) =>
              && next.now == s.now && (r.Acquired? ==> r.token == token)
              && next.store == if r.Acquired? then s.store[resource := Held(token, s.now + ttl)] else s.store
            case Release(resource, token) =>
              && next.now == s.now
              && next.store == if s.HeldBy(resource, token) then s.store - {resource} else s.store
            case Tick(dt) => next == State(s.store, s.now + dt)
  {}

  // ---- Stale releases --------------------------------------------------------

  /** After acquisition `k`, the key never again carries a token that no acquisition from `k` on uses. */
  lemma {:induction false} ForeignTokenAbsent(s: State, ops: seq<Op>, k: nat, j: nat, token: string)
    requires k < j <= |ops| && Granted(s, ops, k)
    requires forall m | k <= m < |ops| ::
               ops[m].Acquire? && ops[m].resource == ops[k].resource ==> ops[m].token != token
    ensures !At(s, ops, j).HeldBy(ops[k].resource, token)
    ensures ops[k].resource in At(s, ops, j).store ==>
              At(s, ops, j).store[ops[k].resource].token != token
    decreases j
  {
    AtStep(s, ops, j - 1);
    if k + 1 < j {
      ForeignTokenAbsent(s, ops, k, j - 1, token);
    }
  }

  /** With distinct tokens, a release that arrives after the lock expired and another
      client re-acquired it deletes nothing: the whole store is unchanged. */
  lemma StaleReleaseIsHarmless(s: State, ops: seq<Op>, i: nat, k: nat, j: nat)
    requires i < k < j < |ops| && Granted(s, ops, i) && Granted(s, ops, k)
    requires ops[i].resource == ops[k].resource && OwnRelease(ops, i, j)
    requires forall m | i < m < |ops| ::
               ops[m].Acquire? && ops[m].resource == ops[i].resource ==> ops[m].token != ops[i].token
    ensures Step(At(s, ops, j), ops[j]) == (At(s, ops, j), Deleted(false))
    ensures At(s, ops, j + 1) == At(s, ops, j)
  {
    ForeignTokenAbsent(s, ops, k, j, ops[i].token);
    AtStep(s, ops, j);
  }

  /** Distinctness matters: with one token used twice, the first client's late release
      deletes the second client's live lock. */
  lemma SharedTokenBreaksRelease()
    ensures exists ops: seq<Op> ::
              && |ops| == 4
              && Granted(State(map[], 0), ops, 0) && Granted(State(map[], 0), ops, 2)
              && ops[0].resource == ops[2].resource
              && OwnRelease(ops, 0, 3)
              && At(State(map[], 0), ops, 3).Live("r") && !At(State(map[], 0), ops, 4).Live("r")
  {
    var s := State(map[], 0);
    var ops := [Acquire("r", 1, "t"), Tick(1), Acquire("r", 1, "t"), Release("r", "t")];
    assert At(s, ops, 0) == s;
    AtStep(s, ops, 0);
    AtStep(s, ops, 1);
    AtStep(s, ops, 2);
    AtStep(s, ops, 3);
    assert Granted(s, ops, 0) && Granted(s, ops, 2) && OwnRelease(ops, 0, 3);
  }

  // ---- The client over the shared store --------------------------------------

  lemma RunAppend(s: State, xs: seq<Op>, op: Op)
    ensures Run(s, xs + [op]) == Step(Run(s, xs), op).0
  {
    assert (xs + [op])[..|xs|] == xs;
  }

  lemma {:induction false} RunConcat(s: State, xs: seq<Op>, ys: seq<Op>)
    ensures Run(s, xs + ys) == Run(Run(s, xs), ys)
    decreases |ys|
  {
    if ys == [] {
      assert xs + ys == xs;
    } else {
      var init, last := ys[..|ys| - 1], ys[|ys| - 1];
      RunConcat(s, xs, init);
      assert xs + ys == (xs + init) + [last];
      RunAppend(s, xs + init, last);
    }
  }

  /** The clock's advance over the first k sleeps. */
  function Slept(nap: nat -> nat, k: nat): nat { if k == 0 then 0 else Slept(nap, k - 1) + nap(k - 1) }

  lemma {:induction false} SleptGrows(nap: nat -> nat, j: nat, k: nat)
    ensures j <= k ==> Slept(nap, j) <= Slept(nap, k)
    decreases k
  {
    if j < k {
      SleptGrows(nap, j, k - 1);
    }
  }

  lemma SleepPasses(s: State, nap: nat, others: seq<Op>)
    ensures s.now + nap <= Run(s, [Tick(nap)] + others).now
  {
    var slept := [Tick(nap)] + others;
    AtStep(s, slept, 0);
    ClockNeverRunsBack(s, slept, 1, |slept|);
    assert slept[..|slept|] == slept && slept[..0] == [];
  }

  class LockStore {
    var store: map<string, Held>
    var now: int

    ghost function Abs(): State
      reads this
    {
      State(store, now)
    }

    constructor ()
      ensures Abs() == State(map[], 0)
    {
      store, now := map[], 0;
    }

    /** `given` is the caller's token, if any; `minted` stands for uuid4. */
    method AcquireLock(resource: string, ttl: int, given: Option<string>, minted: string)
      returns (r: Outcome, ghost op: Op)
      modifies this
      ensures op == Acquire(resource, ttl, if given.Some? && given.value != "" then given.value else minted)
      ensures (Abs(), r) == Step(old(Abs()), op)
    {
      var token := if given.Some? && given.value != "" then given.value else minted;
      op := Acquire(resource, ttl, token);
      if resource == "" || ttl <= 0 {
        return LockError, op;
      }
      if resource in store && now < store[resource].expiry {
        return Busy, op;
      }
      store := store[resource := Held(token, now + ttl)];
      r := Acquired(token);
    }

    method ReleaseLock(resource: string, token: string) returns (ok: bool)
      modifies this
      ensures (Abs(), Deleted(ok)) == Step(old(Abs()), Release(resource, token))
      ensures ok <==> old(Abs()).HeldBy(resource, token)
      ensures !Abs().HeldBy(resource, token)
      ensures forall r | r != resource :: Abs().Live(r) == old(Abs()).Live(r)
    {
      if resource in store && now < store[resource].expiry && store[resource].token == token {
        store := store - {resource};
        return true;
      }
      return false;
    }

    /** Steps taken by other clients and the clock. */
    method Environment(ops: seq<Op>)
      modifies this
      ensures Abs() == Run(old(Abs()), ops)
    {
      var i := 0;
      while i < |ops|
        invariant 0 <= i <= |ops|
        invariant Abs() == At(old(Abs()), ops, i)
      {
        AtStep(old(Abs()), ops, i);
        match ops[i] {
          case Acquire(r, ttl, token) =>
            if r != "" && 0 < ttl && !(r in store && now < store[r].expiry) {
              store := store[r := Held(token, now + ttl)];
            }
          case Release(r, token) => var _ := ReleaseLock(r, token);
          case Tick(dt) => now := now + dt;
        }
        i := i + 1;
      }
      assert ops[..i] == ops;
    }

    /** One poll: the sleep, during which the clock advances by `nap` and the other clients do
        `others`, and one more attempt. */
    method Poll(resource: string, ttl: int, nap: nat, others: seq<Op>, minted: string)
      returns (r: Outcome, ghost steps: seq<Op>)
      modifies this
      ensures Abs() == Run(old(Abs()), steps) && old(now) + nap <= now
      ensures AttemptEnds(r, resource, ttl)
    {
      var slept := [Tick(nap)] + others;
      Environment(slept);
      SleepPasses(old(Abs()), nap, others);
      ghost var op;
      r, op := AcquireLock(resource, ttl, None, minted);
      RunAppend(old(Abs()), slept, op);
      steps := slept + [op];
    }

    /** What an attempt at the lock leaves. */
    ghost predicate AttemptEnds(r: Outcome, resource: string, ttl: int)
      reads this
    {
      && (r.LockError? || r.Busy? || r.Acquired?)
      && (r.LockError? <==> resource == "" || ttl <= 0)
      && (r.Acquired? ==> resource in store && store[resource] == Held(r.token, now + ttl))
      && (r.Busy? ==> Abs().Live(resource))
    }

    /** `hold(...).__enter__`. During the k-th sleep the clock advances by `nap(k)`, which may be
        nothing, and the other clients do `others(k)`; `minted(k)` is the k-th fresh token. By
        sleep `rounds` the clock has passed the deadline. The whole call is one more sequence of
        ordinary steps, `trace`, so mutual exclusion covers it. */
    method Enter(resource: string, ttl: int, wait: int, minted: nat -> string,
                 nap: nat -> nat, others: nat -> seq<Op>, ghost rounds: nat)
      returns (r: Outcome, ghost trace: seq<Op>)
      requires wait <= Slept(nap, rounds)
      modifies this
      ensures Abs() == Run(old(Abs()), trace)
      ensures AttemptEnds(r, resource, ttl)
      ensures r.Acquired? ==> Abs().HeldBy(resource, r.token)
      ensures r.Busy? ==> old(now) + (if wait < 0 then 0 else wait) <= now
    {
      var deadline := now + (if wait < 0 then 0 else wait);
      ghost var op;
      r, op := AcquireLock(resource, ttl, None, minted(0));
      trace := [] + [op];
      RunAppend(old(Abs()), [], op);
      var k: nat := 0;
      while r.Busy? && now < deadline
        invariant Abs() == Run(old(Abs()), trace) && AttemptEnds(r, resource, ttl)
        invariant old(now) + Slept(nap, k) <= now
        decreases rounds - k
      {
        SleptGrows(nap, rounds, k);
        ghost var steps;
        r, steps := Poll(resource, ttl, nap(k), others(k), minted(k + 1));
        RunConcat(old(Abs()), trace, steps);
        trace := trace + steps;
        k := k + 1;
      }
    }
  }
}
