/** The exploration graph: nine nodes dispatched in turn over one state, guarded before every fetch
    and every follow. */
module ExploreGraph {
  import opened Prelude

  datatype Entry = Entry(url: string, priority: real)

  datatype Reason = FrontierEmpty | DepthLimit

  /** A hypothesis, by how much speaks for and against it. */
  datatype Standing = Standing(supporting: nat, contradicting: nat)

  datatype State = State(
    epoch: nat, frontier: seq<Entry>, visited: set<string>, depth: int, maxDepth: int,
    evidence: nat, hypotheses: seq<Standing>, termination: Option<Reason>)

  // ---- Guardrails ------------------------------------------------------------

  datatype Rule = DepthGate | CyclePrevention | CitationGate | GateBypass | SovereignVeto

  datatype Severity = BLOCK | WARN | LOG

  const GUARD_RULES: seq<Rule> := [DepthGate, CyclePrevention, CitationGate, GateBypass, SovereignVeto]

  function SeverityOf(rule: Rule): Severity { BLOCK }

  function Unresolved(hs: seq<Standing>): nat {
    if hs == [] then 0
    else (if hs[0].contradicting > 0 && hs[0].supporting == 0 then 1 else 0) + Unresolved(hs[1..])
  }

  predicate Passes(rule: Rule, tool: string, url: Option<string>, s: State) {
    match rule
    case DepthGate => s.depth < s.maxDepth
    case CyclePrevention =>
      !(tool == "forge_browser_navigate" && url.Some? && url.value != "" && url.value in s.visited)
    case CitationGate => !(tool == "SYNTHESIZE" && s.evidence == 0)
    case GateBypass => true
    case SovereignVeto => s.depth < 3 && Unresolved(s.hypotheses) <= 2
  }

  /** What lets a call through: the depth gates and the contradiction limit, for every tool; no
      revisit, for a follow; some evidence, for a synthesis. */
  predicate Clear(tool: string, url: Option<string>, s: State) {
    && s.depth < s.maxDepth && s.depth < 3
    && Unresolved(s.hypotheses) <= 2
    && (tool == "forge_browser_navigate" && url.Some? && url.value != "" ==> url.value !in s.visited)
    && (tool == "SYNTHESIZE" ==> s.evidence > 0)
  }

  method EvaluateGuardrails(tool: string, url: Option<string>, s: State) returns (passed: bool, failures: seq<Rule>)
    ensures passed <==> Clear(tool, url, s)
    ensures forall rule :: rule in failures <==> !Passes(rule, tool, url, s)
    ensures forall i, j | 0 <= i < j < |failures| :: failures[i] != failures[j]
  {
    failures := [];
    for i := 0 to |GUARD_RULES|
      invariant forall rule :: rule in failures <==> rule in GUARD_RULES[..i] && !Passes(rule, tool, url, s)
      invariant forall i, j | 0 <= i < j < |failures| :: failures[i] != failures[j]
    {
      var rule := GUARD_RULES[i];
      assert rule !in GUARD_RULES[..i];
      if !Passes(rule, tool, url, s) {
        failures := failures + [rule];
      }
    }
    RulesListed();
    ClearIffAllPass(tool, url, s);
    passed := true;
    for i := 0 to |failures|
      invariant passed <==> i == 0
    {
      if SeverityOf(failures[i]) == BLOCK {
        passed := false;
      }
    }
    if failures != [] {
      assert failures[0] in failures;
    }
  }

  lemma RulesListed()
    ensures forall rule :: rule in GUARD_RULES[..|GUARD_RULES|]
  {
    var rules := GUARD_RULES[..|GUARD_RULES|];
    forall rule
      ensures rule in rules
    {
      match rule
      case DepthGate => assert rules[0] == rule;
      case CyclePrevention => assert rules[1] == rule;
      case CitationGate => assert rules[2] == rule;
      case GateBypass => assert rules[3] == rule;
      case SovereignVeto => assert rules[4] == rule;
    }
  }

  lemma ClearIffAllPass(tool: string, url: Option<string>, s: State)
    ensures Clear(tool, url, s) <==> forall rule :: Passes(rule, tool, url, s)
  {
    if forall rule :: Passes(rule, tool, url, s) {
      assert Passes(DepthGate, tool, url, s) && Passes(CyclePrevention, tool, url, s);
      assert Passes(CitationGate, tool, url, s) && Passes(SovereignVeto, tool, url, s);
    }
  }

  /** The places of the hypotheses that something contradicts and nothing supports. */
  function Contradicted(hs: seq<Standing>): set<nat> {
    set i: nat | i < |hs| && hs[i].contradicting >= 1 && hs[i].supporting == 0
  }

  lemma {:induction false} UnresolvedCounts(hs: seq<Standing>)
    ensures Unresolved(hs) == |Contradicted(hs)|
  {
    if hs != [] {
      var tail := hs[1..];
      UnresolvedCounts(tail);
      var later := set i | i in Contradicted(tail) :: i + 1;
      ShiftKeepsSize(Contradicted(tail), later);
      forall i: nat
        ensures i in Contradicted(hs) <==> (i == 0 && 0 in Contradicted(hs)) || i in later
      {
        if i > 0 {
          assert i < |hs| ==> hs[i] == tail[i - 1];
          assert i in later <==> i - 1 in Contradicted(tail);
        }
      }
      assert Contradicted(hs) == (if 0 in Contradicted(hs) then {0} else {}) + later;
      assert 0 !in later;
    }
  }

  lemma {:induction false} ShiftKeepsSize(s: set<nat>, later: set<nat>)
    requires later == set i | i in s :: i + 1
    ensures |later| == |s|
    decreases s
  {
    if s != {} {
      var x :| x in s;
      var rest := s - {x};
      var shifted := set i | i in rest :: i + 1;
      ShiftKeepsSize(rest, shifted);
      forall i
        ensures i in later <==> i in shifted || i == x + 1
      {
        if i in later {
          var j :| j in s && i == j + 1;
          assert j == x || j in rest;
        }
      }
      assert later == shifted + {x + 1} && x + 1 !in shifted;
    }
  }

  /** What lets a call through, spelled out: a depth under both gates, at most two contradicted
      hypotheses, no visited URL for a follow, some evidence for a synthesis. */
  lemma ClearIff(tool: string, url: Option<string>, s: State)
    ensures Clear(tool, url, s) <==>
              && s.depth < s.maxDepth && s.depth <= 2 && |Contradicted(s.hypotheses)| <= 2
              && !(tool == "forge_browser_navigate" && url.Some? && url.value != "" && url.value in s.visited)
              && !(tool == "SYNTHESIZE" && s.evidence == 0)
  {
    UnresolvedCounts(s.hypotheses);
  }

  // ---- Choosing the next URL -------------------------------------------------

  /** The head of the stable sort, by falling priority, of the unvisited entries. */
  function NextUrl(frontier: seq<Entry>, visited: set<string>): Option<Entry> {
    if frontier == [] then None
    else
      var rest := NextUrl(frontier[1..], visited);
      if frontier[0].url in visited then rest
      else if rest.Some? && rest.value.priority > frontier[0].priority then rest
      else Some(frontier[0])
  }

  /** Entry i is unvisited, of the highest priority among the unvisited, and the first such. */
  predicate FirstBest(frontier: seq<Entry>, visited: set<string>, i: nat) {
    && i < |frontier| && frontier[i].url !in visited
    && (forall j | 0 <= j < |frontier| && frontier[j].url !in visited :: frontier[j].priority <= frontier[i].priority)
    && (forall j | 0 <= j < i && frontier[j].url !in visited :: frontier[j].priority < frontier[i].priority)
  }

  lemma HeadIsBest(e: Entry, tail: seq<Entry>, visited: set<string>)
    requires e.url !in visited
    requires forall x | x in tail && x.url !in visited :: x.priority <= e.priority
    ensures FirstBest([e] + tail, visited, 0)
  {
    var frontier := [e] + tail;
    forall j | 0 <= j < |frontier| && frontier[j].url !in visited
      ensures frontier[j].priority <= e.priority
    {
      if j > 0 {
        assert frontier[j] == tail[j - 1] && tail[j - 1] in tail;
      }
    }
  }

  lemma TailIsBest(e: Entry, tail: seq<Entry>, visited: set<string>, i: nat)
    requires FirstBest(tail, visited, i) && (e.url in visited || e.priority < tail[i].priority)
    ensures FirstBest([e] + tail, visited, i + 1)
  {
    var frontier := [e] + tail;
    assert forall j | 0 < j < |frontier| :: frontier[j] == tail[j - 1];
  }

  /** The URL taken is the first unvisited one of the highest priority; none is taken exactly when
      all are visited. */
  lemma {:induction false} NextUrlIsFirstBest(frontier: seq<Entry>, visited: set<string>)
    ensures NextUrl(frontier, visited).None? <==> forall e | e in frontier :: e.url in visited
    ensures NextUrl(frontier, visited).Some? ==>
              exists i: nat | i < |frontier| ::
                FirstBest(frontier, visited, i) && frontier[i] == NextUrl(frontier, visited).value
  {
    if frontier != [] {
      var e, tail := frontier[0], frontier[1..];
      NextUrlIsFirstBest(tail, visited);
      assert frontier == [e] + tail;
      var rest := NextUrl(tail, visited);
      if rest.Some? {
        var i: nat :| i < |tail| && FirstBest(tail, visited, i) && tail[i] == rest.value;
        if e.url in visited || rest.value.priority > e.priority {
          TailIsBest(e, tail, visited, i);
        } else {
          HeadIsBest(e, tail, visited);
        }
      } else if e.url !in visited {
        HeadIsBest(e, tail, visited);
      }
    }
  }

  // ---- Ranking ---------------------------------------------------------------

  function InsertByPriority(e: Entry, sorted: seq<Entry>): seq<Entry> {
    if sorted == [] || e.priority >= sorted[0].priority then [e] + sorted
    else [sorted[0]] + InsertByPriority(e, sorted[1..])
  }

  /** The stable sort by falling priority. */
  function Ranked(frontier: seq<Entry>): seq<Entry> {
    if frontier == [] then [] else InsertByPriority(frontier[0], Ranked(frontier[1..]))
  }

  predicate Falling(es: seq<Entry>) { forall i, j | 0 <= i < j < |es| :: es[i].priority >= es[j].priority }

  lemma {:induction false} InsertKeepsEntries(e: Entry, sorted: seq<Entry>)
    ensures multiset(InsertByPriority(e, sorted)) == multiset(sorted) + multiset{e}
  {
    if sorted != [] && e.priority < sorted[0].priority {
      InsertKeepsEntries(e, sorted[1..]);
      assert sorted == [sorted[0]] + sorted[1..];
    }
  }

  lemma {:induction false} InsertKeepsFalling(e: Entry, sorted: seq<Entry>)
    requires Falling(sorted)
    ensures Falling(InsertByPriority(e, sorted))
    ensures InsertByPriority(e, sorted)[0] == if sorted == [] || e.priority >= sorted[0].priority then e else sorted[0]
  {
    if sorted != [] && e.priority < sorted[0].priority {
      InsertKeepsFalling(e, sorted[1..]);
    }
  }

  lemma NextUrlOfCons(e: Entry, rest: seq<Entry>, visited: set<string>)
    ensures NextUrl([e] + rest, visited) ==
              var next := NextUrl(rest, visited);
              if e.url in visited || (next.Some? && next.value.priority > e.priority) then next else Some(e)
  {
    assert ([e] + rest)[1..] == rest;
  }

  lemma {:induction false} InsertKeepsNext(e: Entry, sorted: seq<Entry>, visited: set<string>)
    ensures NextUrl(InsertByPriority(e, sorted), visited) == NextUrl([e] + sorted, visited)
  {
    if sorted != [] && e.priority < sorted[0].priority {
      var tail := sorted[1..];
      InsertKeepsNext(e, tail, visited);
      NextUrlOfCons(e, tail, visited);
      NextUrlOfCons(e, sorted, visited);
      NextUrlOfCons(sorted[0], InsertByPriority(e, tail), visited);
    }
  }

  /** Ranking loses no entry and adds none, and leaves the next URL to visit the same. */
  lemma {:induction false} RankingKeepsNext(frontier: seq<Entry>, visited: set<string>)
    ensures Falling(Ranked(frontier)) && multiset(Ranked(frontier)) == multiset(frontier)
    ensures NextUrl(Ranked(frontier), visited) == NextUrl(frontier, visited)
  {
    if frontier != [] {
      var tail := frontier[1..];
      RankingKeepsNext(tail, visited);
      InsertKeepsEntries(frontier[0], Ranked(tail));
      InsertKeepsFalling(frontier[0], Ranked(tail));
      InsertKeepsNext(frontier[0], Ranked(tail), visited);
      NextUrlOfCons(frontier[0], Ranked(tail), visited);
      NextUrlOfCons(frontier[0], tail, visited);
      assert frontier == [frontier[0]] + tail;
    }
  }

  // ---- The nodes -------------------------------------------------------------

  /** The adapters: none, or what the k-th dispatch gets from them. A fetch that raises gives
      nothing; else the page's links, extracted where the page lists none. */
  datatype World = World(
    search: Option<nat -> seq<Entry>>, fetch: Option<(nat, string) -> Option<seq<string>>>)

  datatype Node = SEED | SEARCH | FETCH | EXTRACT_LINKS | SCORE | SELECT | FOLLOW | SYNTHESIZE | CHECK_STOP

  const NODE_SEQUENCE: seq<Node> := [
    SEED, SEARCH, FETCH, EXTRACT_LINKS, SCORE, SELECT, FOLLOW, SYNTHESIZE, CHECK_STOP]

  function Without(frontier: seq<Entry>, url: string): seq<Entry> {
    if frontier == [] then []
    else (if frontier[0].url != url then [frontier[0]] else []) + Without(frontier[1..], url)
  }

  function LinkEntries(links: seq<string>, visited: set<string>): seq<Entry> {
    if links == [] then []
    else (if links[0] !in visited then [Entry(links[0], 0.5)] else []) + LinkEntries(links[1..], visited)
  }

  /** What a dispatch leaves: the state, and the URL it handed to the fetch adapter or followed. */
  datatype Dispatch = Dispatch(state: State, touched: Option<string>, followed: bool)

  function Fetch(w: World, k: nat, s: State): Dispatch {
    match NextUrl(s.frontier, s.visited)
    case None => Dispatch(s, None, false)
    case Some(e) =>
      var rest := Without(s.frontier, e.url);
      if !Clear("forge_fetch", Some(e.url), s) then Dispatch(s.(frontier := rest), None, false)
      else if w.fetch.None? then Dispatch(s, None, false)
      else
        var links := w.fetch.value(k, e.url);
        var found := if links.Some? then LinkEntries(links.value, s.visited) else [];
        Dispatch(s.(frontier := rest + found, visited := s.visited + {e.url}), Some(e.url), false)
  }

  function Follow(s: State): Dispatch {
    match NextUrl(s.frontier, s.visited)
    case None => Dispatch(s, None, false)
    case Some(e) =>
      var rest := Without(s.frontier, e.url);
      if !Clear("forge_browser_navigate", Some(e.url), s) then Dispatch(s.(frontier := rest), None, false)
      else Dispatch(s.(frontier := rest, visited := s.visited + {e.url}, depth := s.depth + 1), Some(e.url), true)
  }

  function StopReason(s: State): Option<Reason> {
    if s.frontier == [] then Some(FrontierEmpty) else if s.depth >= s.maxDepth then Some(DepthLimit) else None
  }

  function RunNode(w: World, k: nat, node: Node, s: State): Dispatch {
    match node
    case SEED => Dispatch(s.(epoch := s.epoch + 1), None, false)
    case SEARCH => Dispatch(s.(frontier := if w.search.Some? then w.search.value(k) else []), None, false)
    case FETCH => Fetch(w, k, s)
    case EXTRACT_LINKS => Dispatch(s, None, false)
    case SCORE => Dispatch(s.(frontier := Ranked(s.frontier)), None, false)
    case SELECT => Dispatch(s, None, false)
    case FOLLOW => Follow(s)
    case SYNTHESIZE => Dispatch(s, None, false)
    case CHECK_STOP => Dispatch(s.(termination := StopReason(s)), None, false)
  }

  // ---- What leaves the frontier, and what enters it --------------------------

  predicate DistinctUrls(frontier: seq<Entry>) {
    forall i, j | 0 <= i < j < |frontier| :: frontier[i].url != frontier[j].url
  }

  /** Exactly the entries of that URL go. */
  lemma {:induction false} WithoutIff(frontier: seq<Entry>, url: string)
    ensures forall e :: e in Without(frontier, url) <==> e in frontier && e.url != url
  {
    if frontier != [] {
      WithoutIff(frontier[1..], url);
      assert frontier == [frontier[0]] + frontier[1..];
    }
  }

  /** And the others keep their order: what is taken next is what would be, had the URL been
      visited. */
  lemma {:induction false} WithoutSkips(frontier: seq<Entry>, url: string, visited: set<string>)
    ensures NextUrl(Without(frontier, url), visited + {url}) == NextUrl(frontier, visited + {url})
  {
    if frontier != [] {
      var e, tail := frontier[0], frontier[1..];
      WithoutSkips(tail, url, visited);
      if e.url != url {
        NextUrlOfCons(e, Without(tail, url), visited + {url});
      } else {
        assert [] + Without(tail, url) == Without(tail, url);
      }
    }
  }

  lemma TailDistinct(frontier: seq<Entry>)
    requires frontier != [] && DistinctUrls(frontier)
    ensures DistinctUrls(frontier[1..]) && forall e | e in frontier[1..] :: e.url != frontier[0].url
  {
    var tail := frontier[1..];
    forall i | 0 <= i < |tail|
      ensures tail[i].url != frontier[0].url
    {
      assert frontier[i + 1] == tail[i];
    }
    forall i, j | 0 <= i < j < |tail|
      ensures tail[i].url != tail[j].url
    {
      assert frontier[i + 1] == tail[i] && frontier[j + 1] == tail[j];
    }
  }

  lemma ConsDistinct(e: Entry, rest: seq<Entry>)
    requires DistinctUrls(rest) && forall x | x in rest :: x.url != e.url
    ensures DistinctUrls([e] + rest)
  {}

  lemma {:induction false} WithoutNone(frontier: seq<Entry>, url: string)
    requires forall e | e in frontier :: e.url != url
    ensures Without(frontier, url) == frontier
  {
    if frontier != [] {
      WithoutNone(frontier[1..], url);
    }
  }

  /** From distinct URLs one goes. */
  lemma {:induction false} WithoutDropsOne(frontier: seq<Entry>, e: Entry)
    requires DistinctUrls(frontier) && e in frontier
    ensures DistinctUrls(Without(frontier, e.url)) && |Without(frontier, e.url)| == |frontier| - 1
  {
    var head, tail := frontier[0], frontier[1..];
    TailDistinct(frontier);
    if head == e {
      WithoutNone(tail, e.url);
      assert [] + tail == tail;
    } else {
      WithoutDropsOne(tail, e);
      WithoutIff(tail, e.url);
      ConsDistinct(head, Without(tail, e.url));
    }
  }

  lemma {:induction false} LinkEntriesIff(links: seq<string>, visited: set<string>)
    ensures forall e :: e in LinkEntries(links, visited) <==>
                          e.url in links && e.url !in visited && e.priority == 0.5
  {
    if links != [] {
      LinkEntriesIff(links[1..], visited);
      assert links == [links[0]] + links[1..];
    }
  }

  /** What a page lists: nothing when its fetch raised. */
  function PageLinks(w: World, k: nat, url: string): seq<string>
    requires w.fetch.Some?
  {
    var links := w.fetch.value(k, url);
    if links.Some? then links.value else []
  }

  /** A fetch takes or refuses the first best unvisited URL, and then an entry is in the frontier
      exactly when it was there with another URL or, the URL being taken, it is one of the page's
      links that had not been visited, at 0.5. With nothing unvisited, or with no adapter for a
      URL that passes, nothing changes. */
  lemma FetchFrontierIff(w: World, k: nat, s: State, e: Entry)
    ensures var d, next := Fetch(w, k, s), NextUrl(s.frontier, s.visited);
            && (next.None? ==> d == Dispatch(s, None, false))
            && (next.Some? ==>
                  var u, clear := next.value.url, Clear("forge_fetch", Some(next.value.url), s);
                  && (clear && w.fetch.None? ==> d == Dispatch(s, None, false))
                  && (!clear ==>
                        && d.touched.None?
                        && (e in d.state.frontier <==> e in s.frontier && e.url != u))
                  && (clear && w.fetch.Some? ==>
                        && d.touched == Some(u)
                        && (e in d.state.frontier <==>
                              || (e in s.frontier && e.url != u)
                              || (e.url in PageLinks(w, k, u) && e.url !in s.visited && e.priority == 0.5))))
  {
    var next := NextUrl(s.frontier, s.visited);
    if next.Some? {
      WithoutIff(s.frontier, next.value.url);
      if w.fetch.Some? {
        LinkEntriesIff(PageLinks(w, k, next.value.url), s.visited);
      }
    }
  }

  /** And a follow, which adds no links. */
  lemma FollowFrontierIff(s: State, e: Entry)
    ensures var d, next := Follow(s), NextUrl(s.frontier, s.visited);
            && (next.None? ==> d == Dispatch(s, None, false))
            && (next.Some? ==>
                  && d.touched == (if Clear("forge_browser_navigate", Some(next.value.url), s)
                                   then Some(next.value.url) else None)
                  && (e in d.state.frontier <==> e in s.frontier && e.url != next.value.url))
  {
    var next := NextUrl(s.frontier, s.visited);
    if next.Some? {
      WithoutIff(s.frontier, next.value.url);
    }
  }

  // ---- The runner ------------------------------------------------------------

  datatype Run = Run(state: State, touched: seq<string>, follows: nat)

  function Advance(w: World, k: nat, r: Run): Run {
    var d := RunNode(w, k, NODE_SEQUENCE[k % |NODE_SEQUENCE|], r.state);
    Run(d.state, if d.touched.Some? then r.touched + [d.touched.value] else r.touched,
        if d.followed then r.follows + 1 else r.follows)
  }

  /** The run after n dispatches. */
  function After(w: World, initial: State, n: nat): Run {
    if n == 0 then Run(initial, [], 0) else Advance(w, n - 1, After(w, initial, n - 1))
  }

  /** A dispatch was the n-th, a CHECK_STOP, and found a reason. */
  predicate EndsAt(r: Run, n: nat) { n > 0 && n % |NODE_SEQUENCE| == 0 && r.state.termination.Some? }

  predicate Ended(w: World, initial: State, n: nat) { EndsAt(After(w, initial, n), n) }

  /** The run's states, dispatch by dispatch. */
  type Course = nat -> Run

  function CourseOf(w: World, initial: State): Course { (k: nat) => After(w, initial, k) }

  ghost predicate Advances(w: World, course: Course, k: nat) { course(k + 1) == Advance(w, k, course(k)) }

  ghost predicate EndedBy(course: Course, n: nat) { EndsAt(course(n), n) }

  ghost predicate RunsAlong(course: Course, maxIterations: int, n: nat) {
    && (n == (if maxIterations < 0 then 0 else maxIterations) || (n < maxIterations && EndedBy(course, n)))
    && forall j: nat :: j < n ==> !EndedBy(course, j)
  }

  /** A run of n dispatches: the first to end, or the last allowed. */
  ghost predicate RunsFor(w: World, initial: State, maxIterations: int, n: nat) {
    RunsAlong(CourseOf(w, initial), maxIterations, n)
  }

  method DispatchNode(w: World, k: nat, r: Run, ghost course: Course) returns (next: Run, stop: bool)
    requires r == course(k) && forall i: nat :: Advances(w, course, i)
    ensures next == course(k + 1) && (stop <==> EndedBy(course, k + 1))
  {
    assert Advances(w, course, k);
    var node := NODE_SEQUENCE[k % |NODE_SEQUENCE|];
    next := Advance(w, k, r);
    StopsOnlyAtCheck(k);
    stop := node == CHECK_STOP && next.state.termination.Some?;
  }

  method RunCourse(w: World, initial: State, maxIterations: int, ghost course: Course) returns (r: Run, n: nat)
    requires course(0) == Run(initial, [], 0) && forall k: nat :: Advances(w, course, k)
    ensures RunsAlong(course, maxIterations, n) && r == course(n)
  {
    r, n := Run(initial, [], 0), 0;
    while n < maxIterations
      invariant (n <= maxIterations || n == 0) && r == course(n)
      invariant forall j: nat :: j <= n ==> !EndedBy(course, j)
      decreases maxIterations - n
    {
      var stop: bool;
      r, stop := DispatchNode(w, n, r, course);
      n := n + 1;
      if stop {
        break;
      }
    }
  }

  /** The runner dispatches by index modulo nine until a CHECK_STOP ends it or the iterations run
      out: each time round it starts over at SEED. */
  method RunGraph(w: World, initial: State, maxIterations: int) returns (r: Run, n: nat)
    ensures RunsFor(w, initial, maxIterations, n) && r == After(w, initial, n)
  {
    forall k: nat
      ensures Advances(w, CourseOf(w, initial), k)
    {
    }
    r, n := RunCourse(w, initial, maxIterations, CourseOf(w, initial));
  }

  lemma StopsOnlyAtCheck(k: nat)
    ensures NODE_SEQUENCE[k % |NODE_SEQUENCE|] == CHECK_STOP <==> (k + 1) % |NODE_SEQUENCE| == 0
  {
    var i := k % 9;
    assert (k + 1) % 9 == if i == 8 then 0 else i + 1;
    assert NODE_SEQUENCE[8] == CHECK_STOP;
  }

  /** A run ends early exactly at a CHECK_STOP that finds the frontier empty or the depth spent. */
  lemma EndsForCause(w: World, initial: State, n: nat)
    ensures Ended(w, initial, n) <==>
              n > 0 && n % |NODE_SEQUENCE| == 0
              && var s := After(w, initial, n).state; s.frontier == [] || s.depth >= s.maxDepth
  {
    if n > 0 {
      StopsOnlyAtCheck(n - 1);
    }
  }

  // ---- Rounds ----------------------------------------------------------------

  /** Pages that list nothing. */
  ghost predicate Barren(w: World) {
    w.fetch.Some? && forall k: nat, url: string :: PageLinks(w, k, url) == []
  }

  /** One unvisited URL leaves the frontier and nothing else happens to it; when every URL in it is
      visited, nothing does. */
  ghost predicate TakesOne(s: State, next: State) {
    && DistinctUrls(next.frontier)
    && if forall e | e in s.frontier :: e.url in s.visited then next == s
       else exists u | u in s.frontier && u.url !in s.visited ::
              && |next.frontier| == |s.frontier| - 1
              && (forall e :: e in next.frontier <==> e in s.frontier && e.url != u.url)
              && s.visited <= next.visited <= s.visited + {u.url}
  }

  lemma FetchTakesOne(w: World, k: nat, s: State)
    requires Barren(w) && DistinctUrls(s.frontier)
    ensures TakesOne(s, Fetch(w, k, s).state)
  {
    NextUrlIsFirstBest(s.frontier, s.visited);
    var next := NextUrl(s.frontier, s.visited);
    if next.Some? {
      var u := next.value;
      WithoutIff(s.frontier, u.url);
      WithoutDropsOne(s.frontier, u);
      assert PageLinks(w, k, u.url) == [];
      assert Without(s.frontier, u.url) + [] == Without(s.frontier, u.url);
    }
  }

  lemma FollowTakesOne(s: State)
    requires DistinctUrls(s.frontier)
    ensures TakesOne(s, Follow(s).state)
  {
    NextUrlIsFirstBest(s.frontier, s.visited);
    var next := NextUrl(s.frontier, s.visited);
    if next.Some? {
      WithoutIff(s.frontier, next.value.url);
      WithoutDropsOne(s.frontier, next.value);
    }
  }

  lemma RankedTakesNone(s: State)
    requires DistinctUrls(s.frontier)
    ensures |Ranked(s.frontier)| == |s.frontier| && DistinctUrls(Ranked(s.frontier))
    ensures forall e :: e in Ranked(s.frontier) <==> e in s.frontier
  {
    RankingKeepsNext(s.frontier, s.visited);
    assert |multiset(Ranked(s.frontier))| == |multiset(s.frontier)|;
    forall e
      ensures e in Ranked(s.frontier) <==> e in s.frontier
    {
      assert e in multiset(Ranked(s.frontier)) <==> e in multiset(s.frontier);
    }
    SameEntriesDistinct(s.frontier, Ranked(s.frontier));
  }

  lemma SameEntriesDistinct(es: seq<Entry>, fs: seq<Entry>)
    requires DistinctUrls(es) && multiset(es) == multiset(fs)
    ensures DistinctUrls(fs)
  {
    forall i, j | 0 <= i < j < |fs|
      ensures fs[i].url != fs[j].url
    {
      assert fs[i] in multiset(fs) && fs[j] in multiset(fs);
      var m :| 0 <= m < |es| && es[m] == fs[i];
      var n :| 0 <= n < |es| && es[n] == fs[j];
      if fs[i] == fs[j] {
        OncePerUrl(es, m);
        TwiceIn(fs, i, j);
      }
    }
  }

  lemma OncePerUrl(es: seq<Entry>, m: nat)
    requires DistinctUrls(es) && m < |es|
    ensures multiset(es)[es[m]] == 1
  {
    assert es == es[..m] + [es[m]] + es[m + 1..];
    assert es[m] !in es[..m] && es[m] !in es[m + 1..];
  }

  lemma TwiceIn(fs: seq<Entry>, i: nat, j: nat)
    requires i < j < |fs| && fs[i] == fs[j]
    ensures multiset(fs)[fs[i]] >= 2
  {
    assert fs == fs[..i] + [fs[i]] + fs[i + 1..j] + [fs[j]] + fs[j + 1..];
  }

  /** What the search of a round gives. */
  function Found(w: World, k: nat): seq<Entry> { if w.search.Some? then w.search.value(k) else [] }

  /** The state as SEARCH leaves it, and as FETCH, SCORE and FOLLOW do, in the round that begins at
      dispatch k. */
  function Searched(w: World, k: nat, s: State): State { s.(epoch := s.epoch + 1, frontier := Found(w, k + 1)) }

  function Fetched(w: World, k: nat, s: State): State { Fetch(w, k + 2, Searched(w, k, s)).state }

  function Scored(w: World, k: nat, s: State): State {
    var t := Fetched(w, k, s);
    t.(frontier := Ranked(t.frontier))
  }

  function Followed(w: World, k: nat, s: State): State { Follow(Scored(w, k, s)).state }

  /** Along these states the k-th dispatch is of this node. */
  ghost predicate Steps(w: World, states: nat -> State, k: nat, node: Node) {
    states(k + 1) == RunNode(w, k, node, states(k)).state
  }

  lemma StepsToFetch(w: World, states: nat -> State, k: nat)
    requires Steps(w, states, k, SEED) && Steps(w, states, k + 1, SEARCH) && Steps(w, states, k + 2, FETCH)
    ensures states(k + 3) == Fetched(w, k, states(k))
  {
    assert states(k + 2) == Searched(w, k, states(k));
  }

  lemma StepsToScore(w: World, states: nat -> State, k: nat)
    requires states(k + 3) == Fetched(w, k, states(k))
    requires Steps(w, states, k + 3, EXTRACT_LINKS) && Steps(w, states, k + 4, SCORE)
    requires Steps(w, states, k + 5, SELECT)
    ensures states(k + 6) == Scored(w, k, states(k))
  {}

  lemma StepsToCheck(w: World, states: nat -> State, k: nat)
    requires states(k + 6) == Scored(w, k, states(k))
    requires Steps(w, states, k + 6, FOLLOW) && Steps(w, states, k + 7, SYNTHESIZE)
    requires Steps(w, states, k + 8, CHECK_STOP)
    ensures var t := Followed(w, k, states(k)); states(k + 9) == t.(termination := StopReason(t))
  {}

  function StatesOf(w: World, initial: State): nat -> State { (n: nat) => After(w, initial, n).state }

  lemma StepAt(w: World, initial: State, k: nat)
    ensures Steps(w, StatesOf(w, initial), k, NODE_SEQUENCE[k % |NODE_SEQUENCE|])
  {}

  lemma InTurn(k: nat, i: nat)
    requires k % 9 == 0 && i < 9
    ensures (k + i) % |NODE_SEQUENCE| == i
  {}

  /** What holds of every dispatch and its node holds of the nodes of a round in turn. */
  lemma NodesInTurn(holds: (nat, Node) -> bool, k: nat)
    requires k % 9 == 0 && forall n: nat :: holds(n, NODE_SEQUENCE[n % |NODE_SEQUENCE|])
    ensures holds(k, SEED) && holds(k + 1, SEARCH) && holds(k + 2, FETCH)
    ensures holds(k + 3, EXTRACT_LINKS) && holds(k + 4, SCORE) && holds(k + 5, SELECT)
    ensures holds(k + 6, FOLLOW) && holds(k + 7, SYNTHESIZE) && holds(k + 8, CHECK_STOP)
  {
    forall i: nat | i < 9
      ensures holds(k + i, NODE_SEQUENCE[i])
    {
      InTurn(k, i);
      assert holds(k + i, NODE_SEQUENCE[(k + i) % |NODE_SEQUENCE|]);
    }
    assert holds(k + 0, NODE_SEQUENCE[0]) && holds(k + 1, NODE_SEQUENCE[1]) && holds(k + 2, NODE_SEQUENCE[2]);
    assert holds(k + 3, NODE_SEQUENCE[3]) && holds(k + 4, NODE_SEQUENCE[4]) && holds(k + 5, NODE_SEQUENCE[5]);
    assert holds(k + 6, NODE_SEQUENCE[6]) && holds(k + 7, NODE_SEQUENCE[7]) && holds(k + 8, NODE_SEQUENCE[8]);
  }

  lemma RoundAlong(w: World, states: nat -> State, k: nat)
    requires k % 9 == 0 && forall n: nat :: Steps(w, states, n, NODE_SEQUENCE[n % |NODE_SEQUENCE|])
    ensures var t := Followed(w, k, states(k)); states(k + 9) == t.(termination := StopReason(t))
  {
    NodesInTurn((n: nat, node) => Steps(w, states, n, node), k);
    StepsToFetch(w, states, k);
    StepsToScore(w, states, k);
    StepsToCheck(w, states, k);
  }

  lemma AllStep(w: World, initial: State)
    ensures forall n: nat :: Steps(w, StatesOf(w, initial), n, NODE_SEQUENCE[n % |NODE_SEQUENCE|])
  {
    forall n: nat
      ensures Steps(w, StatesOf(w, initial), n, NODE_SEQUENCE[n % |NODE_SEQUENCE|])
    {
      StepAt(w, initial, n);
    }
  }

  /** A round of nine dispatches: search, fetch, rank, follow, and the check. */
  lemma RoundIs(w: World, initial: State, k: nat)
    requires k % 9 == 0
    ensures var states := StatesOf(w, initial);
            var t := Followed(w, k, states(k));
            states(k + 9) == t.(termination := StopReason(t))
  {
    AllStep(w, initial);
    RoundAlong(w, StatesOf(w, initial), k);
  }

  /** A round over barren pages takes two URLs, one by one. */
  lemma RoundTakesTwo(w: World, k: nat, s: State)
    requires Barren(w) && DistinctUrls(Found(w, k + 1))
    ensures TakesOne(Searched(w, k, s), Fetched(w, k, s)) && TakesOne(Scored(w, k, s), Followed(w, k, s))
    ensures |Scored(w, k, s).frontier| == |Fetched(w, k, s).frontier|
    ensures Scored(w, k, s).visited == Fetched(w, k, s).visited
    ensures forall e :: e in Scored(w, k, s).frontier <==> e in Fetched(w, k, s).frontier
  {
    FetchTakesOne(w, k + 2, Searched(w, k, s));
    RankedTakesNone(Fetched(w, k, s));
    FollowTakesOne(Scored(w, k, s));
  }

  lemma TwoTaken(s: State, t: State, ranked: State, next: State)
    requires DistinctUrls(s.frontier) && TakesOne(s, t) && TakesOne(ranked, next)
    requires ranked.visited == t.visited && |ranked.frontier| == |t.frontier|
    requires forall e :: e in ranked.frontier <==> e in t.frontier
    ensures |s.frontier| - 1 <= |t.frontier| && |s.frontier| - 2 <= |next.frontier|
    ensures next.frontier == [] <==> |s.frontier| <= 2 && forall e | e in s.frontier :: e.url !in s.visited
  {
    if e :| e in s.frontier && e.url in s.visited {
      assert e in t.frontier && e in ranked.frontier && e.url in ranked.visited;
      assert e in next.frontier;
    } else if s.frontier != [] {
      assert s.frontier[0] in s.frontier;
      if |s.frontier| == 2 {
        assert ranked.frontier[0] in ranked.frontier;
      }
    }
  }

  /** So over barren pages a round whose search gives distinct URLs ends with an empty frontier
      exactly when the search gave at most two entries, neither of them visited. What a longer
      search gave is not worked off in later rounds: they search anew. */
  lemma RoundEmptiesIff(w: World, initial: State, k: nat)
    requires k % 9 == 0 && Barren(w) && DistinctUrls(Found(w, k + 1))
    ensures var es, s := Found(w, k + 1), After(w, initial, k).state;
            After(w, initial, k + 9).state.termination == Some(FrontierEmpty) <==>
              |es| <= 2 && forall e | e in es :: e.url !in s.visited
  {
    var s := StatesOf(w, initial)(k);
    RoundIs(w, initial, k);
    RoundTakesTwo(w, k, s);
    TwoTaken(Searched(w, k, s), Fetched(w, k, s), Scored(w, k, s), Followed(w, k, s));
  }

  lemma EndedAt(r: Run, k: nat)
    requires k % 9 == 0
    ensures EndsAt(r, k + 9) <==> r.state.termination.Some?
  {
    assert (k + 9) % 9 == 0;
  }

  /** A run over barren pages whose search always gives the same distinct URLs, none of them visited
      before: it ends with an empty frontier, after its first nine dispatches, when they are two or
      fewer. */
  lemma ShortSearchEmpties(w: World, initial: State, es: seq<Entry>)
    requires Barren(w) && DistinctUrls(es) && Found(w, 1) == es && |es| <= 2
    requires forall e | e in es :: e.url !in initial.visited
    ensures Ended(w, initial, 9) && After(w, initial, 9).state.termination == Some(FrontierEmpty)
  {
    assert After(w, initial, 0).state == initial;
    RoundEmptiesIff(w, initial, 0);
    EndedAt(After(w, initial, 9), 0);
  }

  /** When they are more, no CHECK_STOP of the run ever finds it empty. */
  lemma LongSearchNeverEmpties(w: World, initial: State, es: seq<Entry>, k: nat)
    requires k % 9 == 0 && Barren(w) && DistinctUrls(es) && Found(w, k + 1) == es && |es| > 2
    ensures After(w, initial, k + 9).state.termination != Some(FrontierEmpty)
  {
    RoundEmptiesIff(w, initial, k);
  }

  // ---- What every run keeps --------------------------------------------------

  predicate Distinct(urls: seq<string>) { forall i, j | 0 <= i < j < |urls| :: urls[i] != urls[j] }

  /** The account of visits: what was touched, once each, is exactly what visited has gained; depth
      counts the follows, and never passes a gate that was still ahead of it. */
  predicate Accounts(initial: State, r: Run) {
    && r.state.visited == initial.visited + (set u | u in r.touched)
    && Distinct(r.touched)
    && (forall u | u in r.touched :: u !in initial.visited)
    && r.state.depth == initial.depth + r.follows
    && r.state.maxDepth == initial.maxDepth
    && (r.state.depth <= initial.depth || (r.state.depth <= initial.maxDepth && r.state.depth <= 3))
  }

  /** What one dispatch may do to the account. */
  predicate Orderly(s: State, d: Dispatch) {
    && d.state.maxDepth == s.maxDepth
    && (d.touched.None? ==> d.state.visited == s.visited)
    && (d.touched.Some? ==> d.touched.value !in s.visited && d.state.visited == s.visited + {d.touched.value})
    && (d.followed ==> d.touched.Some? && d.state.depth == s.depth + 1 && s.depth < s.maxDepth && s.depth < 3)
    && (!d.followed ==> d.state.depth == s.depth)
  }

  lemma DispatchOrderly(w: World, k: nat, node: Node, s: State)
    ensures Orderly(s, RunNode(w, k, node, s))
  {
    NextUrlIsFirstBest(s.frontier, s.visited);
    match node
    case FETCH => assert Orderly(s, Fetch(w, k, s));
    case FOLLOW => assert Orderly(s, Follow(s));
    case _ =>
  }

  lemma OrderlyAccounts(initial: State, r: Run, d: Dispatch)
    requires Accounts(initial, r) && Orderly(r.state, d)
    ensures Accounts(initial, Run(d.state, if d.touched.Some? then r.touched + [d.touched.value] else r.touched,
                                  if d.followed then r.follows + 1 else r.follows))
  {
    if d.touched.Some? {
      var u := d.touched.value;
      var now := r.touched + [u];
      assert (set x | x in now) == (set x | x in r.touched) + {u};
    }
  }

  /** Any run, whatever the adapters answer and however long: no URL is fetched or followed twice,
      nor when it had been visited before; visited is what it was and those URLs; depth is where it
      began plus the follows. */
  lemma {:induction false} RunAccounts(w: World, initial: State, n: nat)
    ensures Accounts(initial, After(w, initial, n))
  {
    if n > 0 {
      RunAccounts(w, initial, n - 1);
      var r := After(w, initial, n - 1);
      var node := NODE_SEQUENCE[(n - 1) % |NODE_SEQUENCE|];
      DispatchOrderly(w, n - 1, node, r.state);
      OrderlyAccounts(initial, r, RunNode(w, n - 1, node, r.state));
    }
  }

  /** Depth never passes min(maxDepth, 3), unless it began beyond. */
  lemma DepthBound(w: World, initial: State, n: nat)
    ensures var gate := if initial.maxDepth < 3 then initial.maxDepth else 3;
            After(w, initial, n).state.depth <= if initial.depth < gate then gate else initial.depth
  {
    RunAccounts(w, initial, n);
  }

  /** Visited only grows along a run. */
  lemma {:induction false} VisitedGrows(w: World, initial: State, m: nat, n: nat)
    requires m <= n
    ensures After(w, initial, m).state.visited <= After(w, initial, n).state.visited
    decreases n
  {
    if m < n {
      VisitedGrows(w, initial, m, n - 1);
      DispatchOrderly(w, n - 1, NODE_SEQUENCE[(n - 1) % |NODE_SEQUENCE|], After(w, initial, n - 1).state);
    }
  }

  // ---- Nothing is made up ----------------------------------------------------

  /** A URL an adapter gave: in the frontier at the start, a search result, or a link on a page. */
  ghost predicate Given(w: World, initial: State, url: string) {
    || (exists e | e in initial.frontier :: e.url == url)
    || (w.search.Some? && exists k: nat, e | e in w.search.value(k) :: e.url == url)
    || (w.fetch.Some?
        && exists k: nat, page: string | w.fetch.value(k, page).Some? :: url in w.fetch.value(k, page).value)
  }

  ghost predicate AllGiven(w: World, initial: State, frontier: seq<Entry>) {
    forall e | e in frontier :: Given(w, initial, e.url)
  }

  lemma FetchGiven(w: World, initial: State, k: nat, s: State)
    requires AllGiven(w, initial, s.frontier)
    ensures AllGiven(w, initial, Fetch(w, k, s).state.frontier)
    ensures Fetch(w, k, s).touched.Some? ==> Given(w, initial, Fetch(w, k, s).touched.value)
  {
    NextUrlIsFirstBest(s.frontier, s.visited);
    var next := NextUrl(s.frontier, s.visited);
    if next.Some? {
      WithoutIff(s.frontier, next.value.url);
      if w.fetch.Some? && w.fetch.value(k, next.value.url).Some? {
        LinkEntriesIff(w.fetch.value(k, next.value.url).value, s.visited);
      }
    }
  }

  lemma DispatchGiven(w: World, initial: State, k: nat, node: Node, s: State)
    requires AllGiven(w, initial, s.frontier)
    ensures AllGiven(w, initial, RunNode(w, k, node, s).state.frontier)
    ensures RunNode(w, k, node, s).touched.Some? ==> Given(w, initial, RunNode(w, k, node, s).touched.value)
  {
    match node
    case FETCH => FetchGiven(w, initial, k, s);
    case FOLLOW =>
      NextUrlIsFirstBest(s.frontier, s.visited);
      if NextUrl(s.frontier, s.visited).Some? {
        WithoutIff(s.frontier, NextUrl(s.frontier, s.visited).value.url);
      }
    case SCORE =>
      RankingKeepsNext(s.frontier, s.visited);
      forall e | e in Ranked(s.frontier)
        ensures e in s.frontier
      {
        assert e in multiset(Ranked(s.frontier));
      }
    case _ =>
  }

  /** Every URL fetched or followed came from the caller, a search or a page. */
  lemma {:induction false} TouchedAreGiven(w: World, initial: State, n: nat)
    ensures AllGiven(w, initial, After(w, initial, n).state.frontier)
    ensures forall u | u in After(w, initial, n).touched :: Given(w, initial, u)
  {
    if n > 0 {
      TouchedAreGiven(w, initial, n - 1);
      DispatchGiven(w, initial, n - 1, NODE_SEQUENCE[(n - 1) % |NODE_SEQUENCE|], After(w, initial, n - 1).state);
    }
  }
}
