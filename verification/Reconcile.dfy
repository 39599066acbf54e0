/** The seven-stage merge pipeline, gated by a lease. Git is abstract: what each git command
    of a run answers is given, `git merge` moves the branch HEAD is on, and a conflict writes
    into the working tree until it is aborted. */
module Reconcile {
  import opened Prelude
  import opened Leases

  datatype Stage = Diff | Validation | Policy | DriftGuard | Merge | ReceiptStage | Witness

  const ORDER: seq<Stage> := [Diff, Validation, Policy, DriftGuard, Merge, ReceiptStage, Witness]

  datatype StageReceipt = StageReceipt(stage: Stage, ok: bool)

  datatype Report = Report(stages: seq<StageReceipt>, finalOk: bool, haltedAt: Option<Stage>)

  datatype Fence = Fence(bannedPaths: set<string>, maxDiffBytes: Option<int>, requiredFiles: seq<string>)

  datatype Request = Request(source: string, target: string, leaseId: string, actor: string, fence: Fence)

  type Commit = nat

  /** The files of the working tree. */
  type Tree = map<string, string>

  /** What `git merge` does: refuses to start, stops at conflicts it has written into these files,
      finds nothing to do, or makes a commit and checks out its files. */
  datatype MergeAnswer = Declined | Conflict(marked: Tree) | UpToDate | Created(commit: Commit, files: Tree) {
    predicate Failed() { Declined? || Conflict? }
  }

  /** The answers git gives to the commands of one run. */
  datatype Git = Git(diffOk: bool, names: seq<string>, patch: string, patchBytes: nat, merge: MergeAnswer)

  datatype OutcomeReceipt = OutcomeReceipt(leaseId: string, actor: string, source: string, target: string)

  const REQUIRED_SCOPE := Scope(Some("git"), ["reconcile"])

  // ---- The gates -------------------------------------------------------------

  /** What follows the last slash. */
  function Component(path: string): string
    decreases |path|
  {
    if path == "" || path[|path| - 1] == '/' then ""
    else Component(path[..|path| - 1]) + [path[|path| - 1]]
  }

  /** `Path(path).name`: the last component, empty ones and dots left out. */
  function Name(path: string): string
    decreases |path|
  {
    if path == "" then ""
    else if Component(path) == "" || Component(path) == "." then Name(path[..|path| - 1])
    else Component(path)
  }

  /** A file's own name: not empty, not a dot, and no slash in it. */
  predicate PlainName(f: string) { f != "" && f != "." && '/' !in f }

  lemma {:induction false} ComponentOfName(d: string, f: string)
    requires '/' !in f && (d == "" || d[|d| - 1] == '/')
    ensures Component(d + f) == f
    decreases |f|
  {
    if f == "" {
      assert d + f == d;
    } else {
      var n := |f| - 1;
      ComponentOfName(d, f[..n]);
      assert (d + f)[..|d + f| - 1] == d + f[..n];
      assert f == f[..n] + [f[n]];
    }
  }

  /** The name of a file is what stands after the last slash, in whatever directory it lies. */
  lemma NameInDirectory(d: string, f: string)
    requires PlainName(f)
    ensures Name(f) == f && Name(d + "/" + f) == f
  {
    assert "" + f == f;
    ComponentOfName("", f);
    ComponentOfName(d + "/", f);
  }

  /** Slashes at the end, and a dot between them, change nothing. */
  lemma NameIgnoresTail(path: string)
    ensures Name(path + "/") == Name(path) && Name(path + "/.") == Name(path)
  {
    var slashed, dotted := path + "/", path + "/.";
    assert slashed[..|slashed| - 1] == path;
    assert dotted[..|dotted| - 1] == slashed;
    assert Component(slashed) == "";
    assert Component(dotted) == ".";
  }

  /** The component begins the path or follows a slash. */
  lemma {:induction false} ComponentEnds(path: string) returns (d: string)
    ensures path == d + Component(path) && '/' !in Component(path) && (d == "" || d[|d| - 1] == '/')
    decreases |path|
  {
    if path == "" || path[|path| - 1] == '/' {
      d := path;
      assert path == d + "";
    } else {
      var n := |path| - 1;
      d := ComponentEnds(path[..n]);
      assert path == path[..n] + [path[n]];
    }
  }

  /** The path is this file's, in some directory or in none. */
  ghost predicate Bears(path: string, f: string) { path == f || exists d: string :: path == d + "/" + f }

  /** The path ends in a name, as those git lists do. */
  predicate Named(path: string) { PlainName(Component(path)) }

  lemma NameIff(path: string, f: string)
    requires PlainName(f) && Named(path)
    ensures Name(path) == f <==> Bears(path, f)
  {
    if Name(path) == f {
      var d := ComponentEnds(path);
      if d != "" {
        assert d == d[..|d| - 1] + "/";
        assert path == d[..|d| - 1] + "/" + f;
      }
    }
    if d: string :| path == d + "/" + f {
      NameInDirectory(d, f);
    }
    NameInDirectory("", f);
  }

  predicate TouchesBanned(fence: Fence, names: seq<string>) {
    exists d | d in names :: exists b | b in fence.bannedPaths :: Contains(d, b)
  }

  predicate TooLarge(fence: Fence, bytes: nat) {
    fence.maxDiffBytes.Some? && fence.maxDiffBytes.value != 0 && fence.maxDiffBytes.value < bytes
  }

  predicate HasRequired(fence: Fence, names: seq<string>) {
    forall r | r in fence.requiredFiles :: exists p | p in names :: Name(p) == r
  }

  predicate FencePasses(fence: Fence, g: Git) {
    !TouchesBanned(fence, g.names) && !TooLarge(fence, g.patchBytes) && HasRequired(fence, g.names)
  }

  /** What lets a diff through the fence: no listed path holds a banned part, the patch is no longer
      than the limit, where there is one other than 0, and each required file is listed, in
      whatever directory. A file required with a directory of its own is never found. */
  ghost predicate FenceOpen(fence: Fence, g: Git) {
    && (forall path, b | path in g.names && b in fence.bannedPaths :: !Contains(path, b))
    && (fence.maxDiffBytes.None? || fence.maxDiffBytes.value == 0 || g.patchBytes <= fence.maxDiffBytes.value)
    && forall r | r in fence.requiredFiles :: PlainName(r) && exists path | path in g.names :: Bears(path, r)
  }

  lemma PolicyIff(fence: Fence, g: Git)
    requires forall path | path in g.names :: Named(path)
    ensures FencePasses(fence, g) <==> FenceOpen(fence, g)
  {
    forall r, p | r in fence.requiredFiles && p in g.names
      ensures Name(p) == r <==> PlainName(r) && Bears(p, r)
    {
      if PlainName(r) {
        NameIff(p, r);
      }
    }
  }

  predicate ScarsPass(scars: seq<string>, g: Git) {
    forall s | s in scars :: !Contains(g.patch, s)
  }

  /** Whether a stage of a run lets the run go on; the last two always do. */
  predicate Passes(stage: Stage, log: seq<Lease>, scars: seq<string>, req: Request, g: Git, now: int) {
    match stage
    case Diff => g.diffOk
    case Validation => Authorised(log, req.leaseId, REQUIRED_SCOPE, now)
    case Policy => FencePasses(req.fence, g)
    case DriftGuard => ScarsPass(scars, g)
    case Merge => !g.merge.Failed()
    case ReceiptStage => true
    case Witness => true
  }

  predicate AllPass(log: seq<Lease>, scars: seq<string>, req: Request, g: Git, now: int) {
    forall s | s in ORDER :: Passes(s, log, scars, req, g, now)
  }

  /** A report that ran the stages in order, stopped at the first one that failed and says so. */
  predicate Truthful(r: Report, log: seq<Lease>, scars: seq<string>, req: Request, g: Git, now: int) {
    && 1 <= |r.stages| <= |ORDER|
    && (forall i | 0 <= i < |r.stages| ::
          r.stages[i] == StageReceipt(ORDER[i], Passes(ORDER[i], log, scars, req, g, now)))
    && (forall i | 0 <= i < |r.stages| - 1 :: r.stages[i].ok)
    && r.finalOk == r.stages[|r.stages| - 1].ok
    && (r.finalOk ==> |r.stages| == |ORDER| && r.haltedAt == None)
    && (!r.finalOk ==> r.haltedAt == Some(r.stages[|r.stages| - 1].stage))
  }

  lemma TruthfulReportIsUnique(
      r: Report, q: Report, log: seq<Lease>, scars: seq<string>, req: Request, g: Git, now: int)
    requires Truthful(r, log, scars, req, g, now) && Truthful(q, log, scars, req, g, now)
    ensures r == q
  {
    var k := (if |r.stages| < |q.stages| then |r.stages| else |q.stages|) - 1;
    assert r.stages[k] == q.stages[k];
    assert r.stages == q.stages;
  }

  lemma TruthfulFinal(r: Report, log: seq<Lease>, scars: seq<string>, req: Request, g: Git, now: int)
    requires Truthful(r, log, scars, req, g, now)
    ensures r.finalOk <==> AllPass(log, scars, req, g, now)
  {
    var last := |r.stages| - 1;
    assert ORDER[last] in ORDER;
    if r.finalOk {
      forall s | s in ORDER
        ensures Passes(s, log, scars, req, g, now)
      {
        var i :| 0 <= i < |ORDER| && ORDER[i] == s;
        assert r.stages[i].ok;
      }
    }
  }

  /** The first k stages, all passed. */
  function Passed(k: nat): seq<StageReceipt>
    requires k <= |ORDER|
  {
    seq(k, i requires 0 <= i < k => StageReceipt(ORDER[i], true))
  }

  predicate PassesFirst(k: nat, log: seq<Lease>, scars: seq<string>, req: Request, g: Git, now: int)
    requires k <= |ORDER|
  {
    forall i | 0 <= i < k :: Passes(ORDER[i], log, scars, req, g, now)
  }

  lemma HaltIsTruthful(k: nat, log: seq<Lease>, scars: seq<string>, req: Request, g: Git, now: int)
    requires k < |ORDER| && PassesFirst(k, log, scars, req, g, now) && !Passes(ORDER[k], log, scars, req, g, now)
    ensures var r := Report(Passed(k) + [StageReceipt(ORDER[k], false)], false, Some(ORDER[k]));
            Truthful(r, log, scars, req, g, now)
  {}

  lemma CompletionIsTruthful(log: seq<Lease>, scars: seq<string>, req: Request, g: Git, now: int)
    requires PassesFirst(|ORDER|, log, scars, req, g, now)
    ensures Truthful(Report(Passed(|ORDER|), true, None), log, scars, req, g, now)
  {}

  // ---- One history of runs, grants and revocations ---------------------------

  datatype World = World(
    log: seq<Lease>, refs: map<string, Commit>, head: string, tree: Tree, receipts: seq<OutcomeReceipt>)

  datatype Event =
    | LeaseCall(op: LeaseOp)
    | Checkout(branch: string, files: Tree)
    | Reconciliation(req: Request, g: Git, scars: seq<string>, now: int)

  /** Branch tips after a successful merge: only HEAD's branch can move. */
  function Merged(refs: map<string, Commit>, head: string, answer: MergeAnswer): map<string, Commit> {
    if answer.Created? then refs[head := answer.commit] else refs
  }

  /** The working tree after a successful merge. */
  function CheckedOut(tree: Tree, answer: MergeAnswer): Tree {
    if answer.Created? then answer.files else tree
  }

  /** What one event does to the world. */
  function After(w: World, e: Event): World {
    match e
    case LeaseCall(op) => w.(log := Apply(w.log, op))
    case Checkout(branch, files) => w.(head := branch, tree := files)
    case Reconciliation(req, g, scars, now) =>
      if AllPass(w.log, scars, req, g, now) then
        w.(refs := Merged(w.refs, w.head, g.merge), tree := CheckedOut(w.tree, g.merge),
           receipts := w.receipts + [OutcomeReceipt(req.leaseId, req.actor, req.source, req.target)])
      else w
  }

  /** A run leaves its receipt, and what the merge made, exactly when the diff could be read, a lease
      for reconciling by git stands, the fence is open, the patch brings no scar back and the merge
      did not fail; else it leaves the world as it was. */
  lemma ReceiptIff(w: World, req: Request, g: Git, scars: seq<string>, now: int)
    requires forall path | path in g.names :: Named(path)
    ensures var next := After(w, Reconciliation(req, g, scars, now));
            if && g.diffOk && Authorised(w.log, req.leaseId, Scope(Some("git"), ["reconcile"]), now)
               && FenceOpen(req.fence, g) && (forall s | s in scars :: !Contains(g.patch, s))
               && !g.merge.Declined? && !g.merge.Conflict?
            then
              && next.receipts == w.receipts + [OutcomeReceipt(req.leaseId, req.actor, req.source, req.target)]
              && next.log == w.log && next.head == w.head
              && next.refs == (if g.merge == UpToDate then w.refs else w.refs[w.head := g.merge.commit])
              && next.tree == if g.merge == UpToDate then w.tree else g.merge.files
            else next == w
  {
    PolicyIff(req.fence, g);
    AllPassIff(w.log, scars, req, g, now);
  }

  /** A checkout moves HEAD and the working tree, a lease call the log, and neither anything else. */
  lemma OtherEvents(w: World, branch: string, files: Tree, op: LeaseOp)
    ensures After(w, Checkout(branch, files)) == World(w.log, w.refs, branch, files, w.receipts)
    ensures After(w, LeaseCall(op)) == World(Apply(w.log, op), w.refs, w.head, w.tree, w.receipts)
  {}

  lemma AllPassIff(log: seq<Lease>, scars: seq<string>, req: Request, g: Git, now: int)
    ensures AllPass(log, scars, req, g, now) <==>
              && g.diffOk && Authorised(log, req.leaseId, REQUIRED_SCOPE, now) && FencePasses(req.fence, g)
              && ScarsPass(scars, g) && !g.merge.Failed()
  {
    if AllPass(log, scars, req, g, now) {
      assert ORDER[0] in ORDER && ORDER[1] in ORDER && ORDER[2] in ORDER && ORDER[3] in ORDER && ORDER[4] in ORDER;
    }
  }

  // ---- The pipeline ----------------------------------------------------------

  class Pipeline {
    const engine: LeaseEngine
    var refs: map<string, Commit>
    var head: string
    var tree: Tree
    /** A merge in progress: the tree to go back to. */
    var unmerged: Option<Tree>
    var scars: seq<string>
    var receipts: seq<OutcomeReceipt>

    ghost function View(): World
      reads this, engine
    {
      World(engine.log, refs, head, tree, receipts)
    }

    constructor (engine: LeaseEngine, refs: map<string, Commit>, head: string, tree: Tree, scars: seq<string>)
      ensures this.engine == engine && View() == World(engine.log, refs, head, tree, [])
      ensures this.scars == scars && unmerged == None
    {
      this.engine, this.refs, this.head, this.tree, this.scars := engine, refs, head, tree, scars;
      unmerged, receipts := None, [];
    }

    method StagePolicy(fence: Fence, g: Git) returns (ok: bool)
      ensures ok == FencePasses(fence, g)
    {
      if TouchesBanned(fence, g.names) {
        return false;
      }
      if TooLarge(fence, g.patchBytes) {
        return false;
      }
      ok := HasRequired(fence, g.names);
    }

    /** `git merge`: a conflict leaves marked files and a merge in progress. */
    method GitMerge(answer: MergeAnswer) returns (ok: bool)
      requires unmerged == None
      modifies `refs, `tree, `unmerged
      ensures ok <==> !answer.Failed()
      ensures refs == Merged(old(refs), head, answer)
      ensures tree == if answer.Conflict? then old(tree) + answer.marked else CheckedOut(old(tree), answer)
      ensures unmerged == if answer.Conflict? then Some(old(tree)) else None
    {
      match answer
      case Declined =>
        ok := false;
      case Conflict(marked) =>
        unmerged := Some(tree);
        tree := tree + marked;
        ok := false;
      case UpToDate =>
        ok := true;
      case Created(commit, files) =>
        refs := refs[head := commit];
        tree := files;
        ok := true;
    }

    /** `git merge --abort`, which does nothing when no merge is in progress. */
    method GitAbort()
      modifies `tree, `unmerged
      ensures unmerged == None
      ensures tree == if old(unmerged).Some? then old(unmerged).value else old(tree)
    {
      if unmerged.Some? {
        tree := unmerged.value;
      }
      unmerged := None;
    }

    /** A failed merge is aborted, which takes back what the conflict wrote. */
    method StageMerge(answer: MergeAnswer) returns (ok: bool)
      requires unmerged == None
      modifies `refs, `tree, `unmerged
      ensures unmerged == None
      ensures ok <==> !answer.Failed()
      ensures refs == Merged(old(refs), head, answer) && tree == CheckedOut(old(tree), answer)
    {
      ok := GitMerge(answer);
      if !ok {
        GitAbort();
      }
    }

    /** The four stages before the merge: how many passed, and whether that is all of them. */
    method Gates(req: Request, g: Git, now: int) returns (stages: seq<StageReceipt>, ok: bool)
      ensures ok ==> stages == Passed(4) && PassesFirst(4, engine.log, scars, req, g, now)
      ensures !ok ==>
                && 1 <= |stages| <= 4
                && PassesFirst(|stages| - 1, engine.log, scars, req, g, now)
                && !Passes(ORDER[|stages| - 1], engine.log, scars, req, g, now)
                && stages == Passed(|stages| - 1) + [StageReceipt(ORDER[|stages| - 1], false)]
    {
      stages := [StageReceipt(Diff, g.diffOk)];
      if !g.diffOk {
        return stages, false;
      }
      var v := engine.Validate(req.leaseId, REQUIRED_SCOPE, now);
      stages := stages + [StageReceipt(Validation, v.Valid?)];
      if !v.Valid? {
        return stages, false;
      }
      var fenceOk := StagePolicy(req.fence, g);
      stages := stages + [StageReceipt(Policy, fenceOk)];
      if !fenceOk {
        return stages, false;
      }
      ok := ScarsPass(scars, g);
      stages := stages + [StageReceipt(DriftGuard, ok)];
    }

    /** The report is truthful, and the repository and the receipts are what the event does. */
    method RunPipeline(req: Request, g: Git, now: int) returns (out: Report)
      requires unmerged == None
      modifies `refs, `tree, `unmerged, `receipts
      ensures unmerged == None
      ensures Truthful(out, engine.log, scars, req, g, now)
      ensures out.finalOk <==> AllPass(engine.log, scars, req, g, now)
      ensures View() == After(old(View()), Reconciliation(req, g, scars, now))
    {
      var stages, ok := Gates(req, g, now);
      if !ok {
        var k := |stages| - 1;
        out := Report(stages, false, Some(stages[k].stage));
        HaltIsTruthful(k, engine.log, scars, req, g, now);
        TruthfulFinal(out, engine.log, scars, req, g, now);
        return;
      }
      var merged := StageMerge(g.merge);
      if !merged {
        out := Report(stages + [StageReceipt(Merge, false)], false, Some(Merge));
        HaltIsTruthful(4, engine.log, scars, req, g, now);
      } else {
        receipts := receipts + [OutcomeReceipt(req.leaseId, req.actor, req.source, req.target)];
        stages := stages + [StageReceipt(Merge, true)];
        stages := stages + [StageReceipt(ReceiptStage, true)] + [StageReceipt(Witness, true)];
        assert stages == Passed(7);
        out := Report(stages, true, None);
        CompletionIsTruthful(engine.log, scars, req, g, now);
      }
      TruthfulFinal(out, engine.log, scars, req, g, now);
    }
  }

  // ---- What every history keeps ----------------------------------------------

  function AfterAll(w: World, es: seq<Event>): World
    decreases |es|
  {
    if es == [] then w else After(AfterAll(w, es[..|es| - 1]), es[|es| - 1])
  }

  /** A history is its events, one after the other. */
  lemma AfterOneMore(w: World, es: seq<Event>, e: Event)
    ensures AfterAll(w, []) == w && AfterAll(w, es + [e]) == After(AfterAll(w, es), e)
  {
    assert (es + [e])[..|es|] == es;
  }

  predicate Reactivates(e: Event, id: string) {
    e.LeaseCall? && Activates(e.op, id)
  }

  /** Merges and checkouts do not bring a revoked lease back. */
  lemma {:induction false} RevokedThroughHistory(w: World, es: seq<Event>, id: string)
    requires Latest(w.log, id).Some? && Latest(w.log, id).value.revoked
    requires forall i | 0 <= i < |es| :: !Reactivates(es[i], id)
    ensures var w' := AfterAll(w, es);
            Latest(w'.log, id).Some? && Latest(w'.log, id).value.revoked
    decreases |es|
  {
    if es != [] {
      var init, e := es[..|es| - 1], es[|es| - 1];
      assert !Reactivates(e, id);
      RevokedThroughHistory(w, init, id);
      if e.LeaseCall? {
        StepWithoutActivation(AfterAll(w, init).log, e.op, id);
      }
    }
  }

  /** End to end: once a lease is revoked, then whatever happens next short of activating it
      again - other grants, other merges, checkouts - a run presenting that lease moves no
      branch and writes no outcome receipt. */
  lemma NoMergeAfterRevoke(w: World, es: seq<Event>, id: string, run: Event)
    requires Latest(w.log, id).Some?
    requires forall i | 0 <= i < |es| :: !Reactivates(es[i], id)
    requires run.Reconciliation? && run.req.leaseId == id
    ensures var before := AfterAll(After(w, LeaseCall(Revocation(id))), es);
            After(before, run) == before
  {
    var revoked := After(w, LeaseCall(Revocation(id)));
    LatestHasItsId(w.log, id);
    LatestAfterAppend(w.log, Latest(w.log, id).value.(revoked := true, status := REVOKED), id);
    RevokedThroughHistory(revoked, es, id);
    assert Validation in ORDER;
    var before := AfterAll(revoked, es);
    assert !Passes(Validation, before.log, run.scars, run.req, run.g, run.now);
  }

  /** Exactly when a run moves its target: every gate passed, the merge made a new commit,
      and HEAD happened to be on the target. Nothing in the pipeline checks the last. */
  lemma TargetMovesIff(w: World, run: Event)
    requires run.Reconciliation? && run.req.target in w.refs
    ensures var w' := After(w, run);
            && run.req.target in w'.refs
            && (w'.refs[run.req.target] != w.refs[run.req.target] <==>
                && AllPass(w.log, run.scars, run.req, run.g, run.now)
                && run.g.merge.Created?
                && run.g.merge.commit != w.refs[run.req.target]
                && w.head == run.req.target)
  {}

  /** Event `k` of a history is a run that passed every gate, its lease included, and left `r`. */
  predicate PassedAt(w: World, es: seq<Event>, k: nat, r: OutcomeReceipt)
    requires k < |es|
  {
    var before := AfterAll(w, es[..k]);
    && es[k].Reconciliation?
    && AllPass(before.log, es[k].scars, es[k].req, es[k].g, es[k].now)
    && r == OutcomeReceipt(es[k].req.leaseId, es[k].req.actor, es[k].req.source, es[k].req.target)
  }

  predicate LeftByPassingRun(w: World, es: seq<Event>, r: OutcomeReceipt) {
    exists k: nat | k < |es| :: PassedAt(w, es, k, r)
  }

  /** Receipts are append-only; every new one was left by a run that passed all gates at its
      own moment; and if none was left, no branch has moved. */
  lemma {:induction false} NoReceiptlessConvergence(w: World, es: seq<Event>)
    ensures var w' := AfterAll(w, es);
            && w.receipts <= w'.receipts
            && (forall i | |w.receipts| <= i < |w'.receipts| :: LeftByPassingRun(w, es, w'.receipts[i]))
            && (w'.receipts == w.receipts ==> w'.refs == w.refs)
    decreases |es|
  {
    if es != [] {
      var init, last := es[..|es| - 1], |es| - 1;
      NoReceiptlessConvergence(w, init);
      var mid, w' := AfterAll(w, init), AfterAll(w, es);
      forall i | |w.receipts| <= i < |w'.receipts|
        ensures LeftByPassingRun(w, es, w'.receipts[i])
      {
        if i < |mid.receipts| {
          var k: nat :| k < |init| && PassedAt(w, init, k, mid.receipts[i]);
          assert es[..k] == init[..k];
          assert PassedAt(w, es, k, w'.receipts[i]);
        } else {
          assert PassedAt(w, es, last, w'.receipts[i]);
        }
      }
    }
  }

  const STRAY_WORLD :=
    World([Leases.Lease("L", "a", REQUIRED_SCOPE, 60, Some(60), ACTIVE, false)],
          map["main" := 1, "dev" := 2], "dev", map[], [])

  const STRAY_RUN :=
    Reconciliation(Request("feature", "main", "L", "a", Fence({}, None, [])),
                   Git(true, [], "", 0, Created(3, map[])), [], 0)

  /** A run that passes every gate and leaves a receipt naming "main", while the branch that
      moved is the one HEAD was on. */
  lemma StrayRunPasses()
    ensures AllPass(STRAY_WORLD.log, STRAY_RUN.scars, STRAY_RUN.req, STRAY_RUN.g, STRAY_RUN.now)
    ensures After(STRAY_WORLD, STRAY_RUN).refs == map["main" := 1, "dev" := 3]
    ensures After(STRAY_WORLD, STRAY_RUN).receipts == [OutcomeReceipt("L", "a", "feature", "main")]
  {
    var l := STRAY_WORLD.log[0];
    LatestAfterAppend([], l, "L");
    assert [] + [l] == STRAY_WORLD.log;
  }
}
