/** The lease engine: an append-only log of lease records, read by reverse scan. */
module Leases {
  import opened Prelude

  /** A scope as stored or as required: either key may be missing. */
  datatype Scope = Scope(connector: Option<string>, verbs: seq<string>)

  datatype Status = REQUESTED | REJECTED | ACTIVE | REVOKED | EXPIRED

  datatype Lease = Lease(
    id: string, actor: string, scope: Scope, ttl: int,
    expiresAt: Option<int>, status: Status, revoked: bool)

  datatype Verdict =
    | Valid(lease: Lease)
    | NotFound
    | LeaseRevoked
    | NotActive(status: Status)
    | LeaseExpired
    | ConnectorMismatch
    | VerbMissing(verb: string)

  // ---- What the log means ----------------------------------------------------

  /** The record written last for each id. */
  function LastWrite(log: seq<Lease>): map<string, Lease>
    decreases |log|
  {
    if log == [] then map[]
    else LastWrite(log[..|log| - 1])[log[|log| - 1].id := log[|log| - 1]]
  }

  function Latest(log: seq<Lease>, id: string): Option<Lease> {
    if id in LastWrite(log) then Some(LastWrite(log)[id]) else None
  }

  lemma LatestAfterAppend(log: seq<Lease>, l: Lease, id: string)
    ensures Latest(log + [l], id) == if l.id == id then Some(l) else Latest(log, id)
  {
    assert (log + [l])[..|log|] == log;
  }

  lemma {:induction false} LatestIsLastOccurrence(log: seq<Lease>, id: string, i: nat)
    requires i < |log| && log[i].id == id
    requires forall j | i < j < |log| :: log[j].id != id
    ensures Latest(log, id) == Some(log[i])
    decreases |log|
  {
    if i < |log| - 1 {
      LatestIsLastOccurrence(log[..|log| - 1], id, i);
    }
  }

  lemma {:induction false} LatestOfAbsent(log: seq<Lease>, id: string)
    requires forall j | 0 <= j < |log| :: log[j].id != id
    ensures Latest(log, id) == None
    decreases |log|
  {
    if log != [] {
      LatestOfAbsent(log[..|log| - 1], id);
    }
  }

  predicate Covers(held: Scope, required: Scope) {
    && held.connector == required.connector
    && forall v | v in required.verbs :: v in held.verbs
  }

  /** Active, unrevoked and unexpired at time `now`. A record with no expiry expired at 0. */
  predicate InForce(l: Lease, now: int) {
    l.status == ACTIVE && !l.revoked && now <= (if l.expiresAt.Some? then l.expiresAt.value else 0)
  }

  /** When a record is in force: once activated, until it is revoked or its expiry is past. */
  lemma InForceIff(l: Lease, now: int)
    ensures InForce(l, now) <==>
              && !l.revoked && l.status == ACTIVE
              && match l.expiresAt { case None => now <= 0 case Some(end) => now <= end }
  {}

  /** A record that lets its bearer act at time `now`. */
  predicate Usable(l: Lease, required: Scope, now: int) { InForce(l, now) && Covers(l.scope, required) }

  /** Whether the log authorises `id` to act on `required` at time `now`. */
  predicate Authorised(log: seq<Lease>, id: string, required: Scope, now: int) {
    Latest(log, id).Some? && Usable(Latest(log, id).value, required, now)
  }

  // ---- What each call appends ------------------------------------------------

  datatype LeaseOp =
    | Activation(lease: Lease, sealed: bool, at: int)
    | Revocation(id: string)

  /** The log after one call. */
  function Apply(log: seq<Lease>, op: LeaseOp): seq<Lease> {
    match op
    case Activation(l, sealed, at) =>
      if sealed then log + [l.(status := ACTIVE, expiresAt := Some(at + l.ttl))] else log
    case Revocation(id) =>
      if Latest(log, id).Some? then log + [Latest(log, id).value.(revoked := true, status := REVOKED)] else log
  }

  function ApplyAll(log: seq<Lease>, ops: seq<LeaseOp>): seq<Lease>
    decreases |ops|
  {
    if ops == [] then log else ApplyAll(Apply(log, ops[0]), ops[1..])
  }

  /** A history of calls is one call after the other. */
  lemma {:induction false} ApplyOneMore(log: seq<Lease>, ops: seq<LeaseOp>, op: LeaseOp)
    ensures ApplyAll(log, []) == log && ApplyAll(log, ops + [op]) == Apply(ApplyAll(log, ops), op)
    decreases |ops|
  {
    if ops == [] {
      assert [op][1..] == [];
    } else {
      ApplyOneMore(Apply(log, ops[0]), ops[1..], op);
      assert (ops + [op])[1..] == ops[1..] + [op];
    }
  }

  // ---- The engine ------------------------------------------------------------

  /** The first of the wanted verbs that is not among those held. */
  ghost predicate FirstMissing(wanted: seq<string>, held: seq<string>, verb: string) {
    exists i | 0 <= i < |wanted| ::
      wanted[i] == verb && verb !in held && forall j | 0 <= j < i :: wanted[j] in held
  }

  class LeaseEngine {
    var log: seq<Lease>

    constructor ()
      ensures log == []
    {
      log := [];
    }

    /** A pending lease; nothing is written. `minted` stands for the uuid part. */
    function Request(minted: string, actor: string, scope: Scope, ttl: int): Lease {
      Lease(minted, actor, scope, ttl, None, REQUESTED, false)
    }

    /** Returns the caller's record as `activate` leaves it. */
    method Activate(lease: Lease, sealed: bool, now: int) returns (l: Lease)
      modifies this
      ensures !sealed ==> log == old(log) && l == lease.(status := REJECTED)
      ensures sealed ==>
                l == lease.(status := ACTIVE, expiresAt := Some(now + lease.ttl)) && log == old(log) + [l]
      ensures log == Apply(old(log), Activation(lease, sealed, now))
    {
      if !sealed {
        return lease.(status := REJECTED);
      }
      l := lease.(status := ACTIVE, expiresAt := Some(now + lease.ttl));
      log := log + [l];
    }

    /** The reverse scan. */
    method Find(id: string) returns (r: Option<Lease>)
      ensures r == Latest(log, id)
    {
      var i := |log|;
      while 0 < i
        invariant 0 <= i <= |log|
        invariant forall j | i <= j < |log| :: log[j].id != id
      {
        i := i - 1;
        if log[i].id == id {
          LatestIsLastOccurrence(log, id, i);
          return Some(log[i]);
        }
      }
      LatestOfAbsent(log, id);
      return None;
    }

    /** Reads only: marking an expired record EXPIRED touches a private copy. */
    method Validate(id: string, required: Scope, now: int) returns (v: Verdict)
      ensures v.Valid? <==> Authorised(log, id, required, now)
      ensures v.Valid? ==> Some(v.lease) == Latest(log, id)
      ensures v.NotFound? <==> Latest(log, id).None?
      ensures v.LeaseRevoked? <==> Latest(log, id).Some? && Latest(log, id).value.revoked
      ensures v.NotActive? <==>
                Latest(log, id).Some? && !Latest(log, id).value.revoked && Latest(log, id).value.status != ACTIVE
      ensures v.NotActive? ==> v.status == Latest(log, id).value.status
      ensures v.LeaseExpired? <==>
                && Latest(log, id).Some? && !Latest(log, id).value.revoked
                && Latest(log, id).value.status == ACTIVE && !InForce(Latest(log, id).value, now)
      ensures v.ConnectorMismatch? <==>
                && Latest(log, id).Some? && InForce(Latest(log, id).value, now)
                && Latest(log, id).value.scope.connector != required.connector
      ensures v.VerbMissing? <==>
                && Latest(log, id).Some? && InForce(Latest(log, id).value, now)
                && Latest(log, id).value.scope.connector == required.connector
                && exists verb | verb in required.verbs :: verb !in Latest(log, id).value.scope.verbs
      ensures v.VerbMissing? ==> FirstMissing(required.verbs, Latest(log, id).value.scope.verbs, v.verb)
    {
      var found := Find(id);
      if found.None? {
        return NotFound;
      }
      var lease := found.value;
      if lease.revoked {
        return LeaseRevoked;
      }
      if lease.status != ACTIVE {
        return NotActive(lease.status);
      }
      if now > (if lease.expiresAt.Some? then lease.expiresAt.value else 0) {
        return LeaseExpired;
      }
      if lease.scope.connector != required.connector {
        return ConnectorMismatch;
      }
      var i := 0;
      while i < |required.verbs|
        invariant 0 <= i <= |required.verbs|
        invariant forall j | 0 <= j < i :: required.verbs[j] in lease.scope.verbs
      {
        if required.verbs[i] !in lease.scope.verbs {
          return VerbMissing(required.verbs[i]);
        }
        i := i + 1;
      }
      return Verdict.Valid(lease);
    }

    method Revoke(id: string) returns (revoked: bool)
      modifies this
      ensures revoked <==> Latest(old(log), id).Some?
      ensures !revoked ==> log == old(log)
      ensures revoked ==>
                log == old(log) + [Latest(old(log), id).value.(revoked := true, status := REVOKED)]
      ensures log == Apply(old(log), Revocation(id))
    {
      var found := Find(id);
      if found.None? {
        return false;
      }
      log := log + [found.value.(revoked := true, status := REVOKED)];
      return true;
    }
  }

  // ---- Histories of one log --------------------------------------------------

  predicate Activates(op: LeaseOp, id: string) {
    op.Activation? && op.sealed && op.lease.id == id
  }

  /** A record filed under its own id. */
  lemma {:induction false} LatestHasItsId(log: seq<Lease>, id: string)
    ensures Latest(log, id).Some? ==> Latest(log, id).value.id == id
    decreases |log|
  {
    if log != [] {
      LatestHasItsId(log[..|log| - 1], id);
    }
  }

  /** Without an activation of `id`, one call leaves its latest record alone or revokes it. */
  lemma StepWithoutActivation(log: seq<Lease>, op: LeaseOp, id: string)
    requires !Activates(op, id)
    ensures Latest(Apply(log, op), id) == Latest(log, id)
         || (Latest(Apply(log, op), id).Some? && Latest(Apply(log, op), id).value.revoked)
    ensures Latest(log, id).Some? && Latest(log, id).value.revoked ==>
              Latest(Apply(log, op), id).Some? && Latest(Apply(log, op), id).value.revoked
  {
    match op
    case Activation(l, sealed, at) =>
      LatestAfterAppend(log, l.(status := ACTIVE, expiresAt := Some(at + l.ttl)), id);
    case Revocation(rid) =>
      LatestHasItsId(log, rid);
      if Latest(log, rid).Some? {
        LatestAfterAppend(log, Latest(log, rid).value.(revoked := true, status := REVOKED), id);
      }
  }

  lemma {:induction false} RevokedStaysRevoked(log: seq<Lease>, ops: seq<LeaseOp>, id: string)
    requires Latest(log, id).Some? && Latest(log, id).value.revoked
    requires forall i | 0 <= i < |ops| :: !Activates(ops[i], id)
    ensures Latest(ApplyAll(log, ops), id).Some? && Latest(ApplyAll(log, ops), id).value.revoked
    decreases |ops|
  {
    if ops != [] {
      StepWithoutActivation(log, ops[0], id);
      RevokedStaysRevoked(Apply(log, ops[0]), ops[1..], id);
    }
  }

  /** After a revocation that found its lease, nothing authorises that id, at any time and for
      any scope, until the id is activated again. */
  lemma NoAuthorityAfterRevoke(log: seq<Lease>, ops: seq<LeaseOp>, id: string, required: Scope, now: int)
    requires Latest(log, id).Some?
    requires forall i | 0 <= i < |ops| :: !Activates(ops[i], id)
    ensures !Authorised(ApplyAll(Apply(log, Revocation(id)), ops), id, required, now)
  {
    LatestHasItsId(log, id);
    LatestAfterAppend(log, Latest(log, id).value.(revoked := true, status := REVOKED), id);
    RevokedStaysRevoked(Apply(log, Revocation(id)), ops, id);
  }

  /** Authority never grows by itself: later, and without an activation of `id`, it is
      authorised only if it would have been before. So expiry is permanent. */
  lemma {:induction false} AuthorityOnlyShrinks(
      log: seq<Lease>, ops: seq<LeaseOp>, id: string, required: Scope, now: int, later: int)
    requires now <= later
    requires forall i | 0 <= i < |ops| :: !Activates(ops[i], id)
    requires Authorised(ApplyAll(log, ops), id, required, later)
    ensures Authorised(log, id, required, now)
    decreases |ops|
  {
    if ops != [] {
      AuthorityOnlyShrinks(Apply(log, ops[0]), ops[1..], id, required, later, later);
      StepWithoutActivation(log, ops[0], id);
    }
  }

  /** An activation authorises exactly its own scope until `at + ttl`, unless the record handed
      to it already carried the revoked mark: activating does not clear it. */
  lemma ActivationGrants(log: seq<Lease>, l: Lease, at: int, required: Scope, now: int)
    ensures Authorised(Apply(log, Activation(l, true, at)), l.id, required, now)
       <==> !l.revoked && now <= at + l.ttl && Covers(l.scope, required)
  {
    LatestAfterAppend(log, l.(status := ACTIVE, expiresAt := Some(at + l.ttl)), l.id);
  }

  /** A lease asked for authorises nothing until it is activated, and then exactly the verbs asked
      for, on the connector asked for, until its ttl is over. */
  lemma RequestThenActivate(
      engine: LeaseEngine, log: seq<Lease>, minted: string, actor: string, scope: Scope, ttl: int, at: int,
      required: Scope, now: int)
    ensures var l := engine.Request(minted, actor, scope, ttl);
            && l.id == minted && l.actor == actor && !Usable(l, required, now)
            && (Authorised(Apply(log, Activation(l, true, at)), minted, required, now) <==>
                  && scope.connector == required.connector && (forall v | v in required.verbs :: v in scope.verbs)
                  && now <= at + ttl)
  {
    var l := engine.Request(minted, actor, scope, ttl);
    LatestAfterAppend(log, l.(status := ACTIVE, expiresAt := Some(at + ttl)), minted);
  }
}
