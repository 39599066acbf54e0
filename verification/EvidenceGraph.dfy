/** The evidence graph: nodes and deduplicated weighted edges, and the list of contradictions the
    report draws from it. */
module EvidenceGraph {
  import opened Prelude

  datatype EdgeType = Supports | Contradicts | References

  datatype NodeType = Source | Claim | HypothesisNode

  datatype Node = Node(id: string, kind: NodeType, caption: string, url: Option<string>, fullClaim: Option<string>)

  /** An edge by value: what identifies it, and its weight. */
  datatype Link = Link(from: string, to: string, kind: EdgeType)

  datatype Weighted = Weighted(link: Link, weight: real)

  // ---- The store, by value ---------------------------------------------------

  function Find(es: seq<Weighted>, link: Link): (r: Option<nat>)
    ensures r.Some? ==> r.value < |es| && es[r.value].link == link
  {
    if es == [] then None
    else if es[0].link == link then Some(0)
    else
      match Find(es[1..], link)
      case None => None
      case Some(i) => Some(i + 1)
  }

  lemma {:induction false} FindIsFirst(es: seq<Weighted>, link: Link)
    ensures Find(es, link).None? <==> forall e | e in es :: e.link != link
    ensures Find(es, link).Some? ==>
              var i := Find(es, link).value;
              i < |es| && es[i].link == link && forall j | 0 <= j < i :: es[j].link != link
  {
    if es != [] {
      FindIsFirst(es[1..], link);
      assert es == [es[0]] + es[1..];
      if Find(es, link).Some? && es[0].link != link {
        var i := Find(es, link).value;
        forall j | 0 <= j < i
          ensures es[j].link != link
        {
          if j > 0 {
            assert es[j] == es[1..][j - 1];
          }
        }
      }
    }
  }

  /** The i-th edge, with the weight of the call added. */
  function Bumped(es: seq<Weighted>, call: Weighted, i: nat): seq<Weighted>
    requires i < |es|
  {
    es[i := Weighted(call.link, es[i].weight + call.weight)]
  }

  function Add(es: seq<Weighted>, call: Weighted): seq<Weighted> {
    match Find(es, call.link)
    case Some(i) => Bumped(es, call, i)
    case None => es + [call]
  }

  function AddAll(es: seq<Weighted>, calls: seq<Weighted>): seq<Weighted> {
    if calls == [] then es else Add(AddAll(es, calls[..|calls| - 1]), calls[|calls| - 1])
  }

  // ---- One edge per triple, weights summed -----------------------------------

  predicate OnePerLink(es: seq<Weighted>) { forall i, j | 0 <= i < j < |es| :: es[i].link != es[j].link }

  predicate Has(es: seq<Weighted>, link: Link) { exists e | e in es :: e.link == link }

  /** The total weight asked for a triple. */
  function Total(es: seq<Weighted>, link: Link): real {
    if es == [] then 0.0
    else Total(es[..|es| - 1], link) + (if es[|es| - 1].link == link then es[|es| - 1].weight else 0.0)
  }

  lemma AddKeepsOnePerLink(es: seq<Weighted>, call: Weighted)
    requires OnePerLink(es)
    ensures OnePerLink(Add(es, call))
    ensures forall link :: Has(Add(es, call), link) <==> Has(es, link) || link == call.link
  {
    FindIsFirst(es, call.link);
    var r := Add(es, call);
    forall link
      ensures Has(r, link) <==> Has(es, link) || link == call.link
    {
      if Find(es, call.link).Some? {
        var i := Find(es, call.link).value;
        assert r[i].link == call.link && r[i] in r;
        if Has(es, link) {
          var j :| 0 <= j < |es| && es[j].link == link;
          assert r[j] in r;
        }
        if Has(r, link) {
          var j :| 0 <= j < |r| && r[j].link == link;
          assert es[j] in es;
        }
      } else {
        assert call in r;
        if Has(es, link) {
          var e :| e in es && e.link == link;
          assert e in r;
        }
      }
    }
  }

  /** The weight found for a triple. */
  function WeightOf(es: seq<Weighted>, link: Link): real {
    match Find(es, link)
    case Some(i) => es[i].weight
    case None => 0.0
  }

  lemma FindUnique(es: seq<Weighted>, i: nat)
    requires OnePerLink(es) && i < |es|
    ensures Find(es, es[i].link) == Some(i)
  {
    FindIsFirst(es, es[i].link);
    assert es[i] in es;
  }

  lemma AddAddsWeight(es: seq<Weighted>, call: Weighted, link: Link)
    requires OnePerLink(es)
    ensures WeightOf(Add(es, call), link) == WeightOf(es, link) + if link == call.link then call.weight else 0.0
  {
    AddKeepsOnePerLink(es, call);
    FindIsFirst(es, call.link);
    FindIsFirst(es, link);
    var r := Add(es, call);
    FindIsFirst(r, link);
    if Find(es, link).Some? {
      var i := Find(es, link).value;
      assert r[i].link == link;
      FindUnique(r, i);
    } else if link == call.link {
      FindUnique(r, |es|);
    } else {
      assert !Has(r, link);
    }
  }

  /** What calls on a deduplicated graph have made of it, at this triple. */
  predicate Sums(es: seq<Weighted>, after: seq<Weighted>, calls: seq<Weighted>, link: Link) {
    && OnePerLink(after)
    && (Has(after, link) <==> Has(es, link) || Has(calls, link))
    && WeightOf(after, link) == WeightOf(es, link) + Total(calls, link)
  }

  lemma SumsNext(es: seq<Weighted>, before: seq<Weighted>, calls: seq<Weighted>, call: Weighted, link: Link)
    requires Sums(es, before, calls, link)
    ensures Sums(es, Add(before, call), calls + [call], link)
  {
    AddKeepsOnePerLink(before, call);
    AddAddsWeight(before, call, link);
    assert (calls + [call])[..|calls|] == calls;
    if Has(calls, link) {
      var e :| e in calls && e.link == link;
      assert e in calls + [call];
    }
    assert call in calls + [call];
  }

  lemma AddAllNext(es: seq<Weighted>, calls: seq<Weighted>)
    requires calls != []
    ensures AddAll(es, calls) == Add(AddAll(es, calls[..|calls| - 1]), calls[|calls| - 1])
  {}

  lemma {:induction false} SumsAll(es: seq<Weighted>, calls: seq<Weighted>, link: Link)
    requires OnePerLink(es)
    ensures Sums(es, AddAll(es, calls), calls, link)
  {
    if calls != [] {
      var n := |calls| - 1;
      SumsAll(es, calls[..n], link);
      SumsNext(es, AddAll(es, calls[..n]), calls[..n], calls[n], link);
      assert calls == calls[..n] + [calls[n]];
      AddAllNext(es, calls);
    }
  }

  /** After any calls on a deduplicated graph there is exactly one edge per distinct triple it had
      or was asked for, and its weight is what it had and the sum of what all calls for that triple
      asked. */
  lemma EdgesAreTotals(es: seq<Weighted>, calls: seq<Weighted>, link: Link)
    requires OnePerLink(es)
    ensures OnePerLink(AddAll(es, calls))
    ensures Has(AddAll(es, calls), link) <==> Has(es, link) || Has(calls, link)
    ensures WeightOf(AddAll(es, calls), link) == WeightOf(es, link) + Total(calls, link)
  {
    SumsAll(es, calls, link);
  }

  // ---- Graph updates ---------------------------------------------------------

  datatype Hypothesis = Hypothesis(statement: string, supporting: seq<string>, contradicting: seq<string>)

  /** An update, with the fresh id its node was given. */
  datatype Op =
    | AddSource(id: string, sourceUrl: string, title: Option<string>)
    | AddClaim(id: string, claim: string, sourceId: string)
    | AddHypothesis(id: string, hypothesis: Hypothesis)
    | AddEdge(call: Weighted)

  /** The first eighty characters. */
  function Clip(s: string): (r: string)
    ensures r <= s && |r| == if |s| < 80 then |s| else 80
  {
    if |s| <= 80 then s else s[..80]
  }

  function Calls(refs: seq<string>, id: string, kind: EdgeType): seq<Weighted> {
    seq(|refs|, i requires 0 <= i < |refs| => Weighted(Link(refs[i], id, kind), 1.0))
  }

  function NodesOf(op: Op): seq<Node> {
    match op
    case AddSource(id, url, title) => [Node(id, Source, if title.Some? then title.value else url, Some(url), None)]
    case AddClaim(id, claim, _) => [Node(id, Claim, Clip(claim), None, Some(claim))]
    case AddHypothesis(id, h) => [Node(id, HypothesisNode, Clip(h.statement), None, None)]
    case AddEdge(_) => []
  }

  function CallsOf(op: Op): seq<Weighted> {
    match op
    case AddSource(_, _, _) => []
    case AddClaim(id, _, sourceId) => [Weighted(Link(sourceId, id, References), 1.0)]
    case AddHypothesis(id, h) => Calls(h.supporting, id, Supports) + Calls(h.contradicting, id, Contradicts)
    case AddEdge(call) => [call]
  }

  function AllNodes(ops: seq<Op>): seq<Node> {
    if ops == [] then [] else AllNodes(ops[..|ops| - 1]) + NodesOf(ops[|ops| - 1])
  }

  function AllCalls(ops: seq<Op>): seq<Weighted> {
    if ops == [] then [] else AllCalls(ops[..|ops| - 1]) + CallsOf(ops[|ops| - 1])
  }

  lemma {:induction false} AddAllConcat(es: seq<Weighted>, a: seq<Weighted>, b: seq<Weighted>)
    ensures AddAll(es, a + b) == AddAll(AddAll(es, a), b)
  {
    if b == [] {
      assert a + b == a;
    } else {
      var n := |b| - 1;
      AddAllConcat(es, a, b[..n]);
      AddAllNext(es, a + b);
      AddAllNext(AddAll(es, a), b);
      assert (a + b)[..|a + b| - 1] == a + b[..n];
    }
  }

  lemma AddAllOne(es: seq<Weighted>, call: Weighted)
    ensures AddAll(es, [call]) == Add(es, call)
  {
    assert [call][..0] == [];
  }

  // ---- The report ------------------------------------------------------------

  datatype Contradiction = Contradiction(claimA: string, claimB: string, sourceA: string, sourceB: string)

  function NodeById(nodes: seq<Node>, id: string): Option<Node> {
    if nodes == [] then None else if nodes[0].id == id then Some(nodes[0]) else NodeById(nodes[1..], id)
  }

  function ClaimText(n: Option<Node>, id: string): string {
    match n
    case None => id
    case Some(node) => if node.fullClaim.Some? then node.fullClaim.value else node.caption
  }

  function SourceText(n: Option<Node>, id: string): string {
    if n.Some? && n.value.url.Some? then n.value.url.value else id
  }

  function Describe(nodes: seq<Node>, link: Link): Contradiction {
    var a, b := NodeById(nodes, link.from), NodeById(nodes, link.to);
    Contradiction(ClaimText(a, link.from), ClaimText(b, link.to), SourceText(a, link.from), SourceText(b, link.to))
  }

  function OfKind(es: seq<Weighted>, kind: EdgeType): seq<Weighted> {
    if es == [] then []
    else OfKind(es[..|es| - 1], kind) + (if es[|es| - 1].link.kind == kind then [es[|es| - 1]] else [])
  }

  function Report(nodes: seq<Node>, es: seq<Weighted>): seq<Contradiction> {
    var cs := OfKind(es, Contradicts);
    seq(|cs|, i requires 0 <= i < |cs| => Describe(nodes, cs[i].link))
  }

  // ---- The graph as it is mutated --------------------------------------------

  class Edge {
    const link: Link
    var weight: real

    constructor (link: Link, weight: real)
      ensures this.link == link && this.weight == weight
    {
      this.link, this.weight := link, weight;
    }
  }

  class Graph {
    var nodes: seq<Node>
    var edges: seq<Edge>

    ghost predicate Valid()
      reads `edges
    {
      forall i, j | 0 <= i < j < |edges| :: edges[i].link != edges[j].link
    }

    ghost function Cells(): set<Edge>
      reads `edges
    {
      set e | e in edges
    }

    ghost function View(): seq<Weighted>
      reads `edges, Cells()
    {
      var es := edges;
      seq(|es|, i requires 0 <= i < |es| reads es => Weighted(es[i].link, es[i].weight))
    }

    constructor ()
      ensures Valid() && nodes == [] && View() == []
    {
      nodes, edges := [], [];
    }

    method FindEdge(link: Link) returns (at: Option<nat>)
      requires Valid()
      ensures at == Find(View(), link)
      ensures at.Some? ==> at.value < |edges| && edges[at.value].link == link
      ensures at.None? ==> forall j | 0 <= j < |edges| :: edges[j].link != link
    {
      FindIsFirst(View(), link);
      for i := 0 to |edges|
        invariant forall j | 0 <= j < i :: edges[j].link != link
      {
        if edges[i].link == link {
          assert View()[i] in View();
          return Some(i);
        }
      }
      forall e | e in View()
        ensures e.link != link
      {
        var j :| 0 <= j < |edges| && View()[j] == e;
      }
      at := None;
    }

    method Bump(i: nat, weight: real)
      requires Valid() && i < |edges|
      modifies edges[i]
      ensures Valid() && Cells() == old(Cells())
      ensures View() == Bumped(old(View()), Weighted(edges[i].link, weight), i)
    {
      edges[i].weight := edges[i].weight + weight;
    }

    method Push(link: Link, weight: real) returns (e: Edge)
      requires Valid() && forall j | 0 <= j < |edges| :: edges[j].link != link
      modifies `edges
      ensures Valid() && fresh(e) && edges == old(edges) + [e] && e.link == link && Cells() == old(Cells()) + {e}
      ensures View() == old(View()) + [Weighted(link, weight)]
    {
      e := new Edge(link, weight);
      edges := edges + [e];
    }

    /** An existing edge of the triple gains the weight in place; else a new one is pushed. */
    method PutEdge(link: Link, weight: real) returns (e: Edge)
      requires Valid()
      modifies `edges, Cells()
      ensures Valid() && e in edges && e.link == link
      ensures fresh(Cells() - old(Cells()))
      ensures View() == Add(old(View()), Weighted(link, weight))
    {
      var at := FindEdge(link);
      if at.Some? {
        e := edges[at.value];
        Bump(at.value, weight);
      } else {
        e := Push(link, weight);
      }
    }

    method PutEdges(refs: seq<string>, id: string, kind: EdgeType)
      requires Valid()
      modifies `edges, Cells()
      ensures Valid()
      ensures fresh(Cells() - old(Cells()))
      ensures View() == AddAll(old(View()), Calls(refs, id, kind))
    {
      ghost var calls := Calls(refs, id, kind);
      for i := 0 to |refs|
        invariant Valid()
        invariant fresh(Cells() - old(Cells()))
        invariant View() == AddAll(old(View()), calls[..i])
      {
        assert calls[..i + 1][..i] == calls[..i];
        var e := PutEdge(Link(refs[i], id, kind), 1.0);
      }
      assert calls[..|refs|] == calls;
    }

    method AddSourceNode(id: string, url: string, title: Option<string>)
      requires Valid()
      modifies `nodes
      ensures Valid() && View() == old(View())
      ensures nodes == old(nodes) + NodesOf(AddSource(id, url, title))
      ensures nodes[|old(nodes)|] == Node(id, Source, if title.Some? then title.value else url, Some(url), None)
    {
      nodes := nodes + [Node(id, Source, if title.Some? then title.value else url, Some(url), None)];
    }

    /** A claim node, and the reference edge from its source. */
    method AddClaimNode(id: string, claim: string, sourceId: string)
      requires Valid()
      modifies this, Cells()
      ensures Valid() && fresh(Cells() - old(Cells()))
      ensures nodes == old(nodes) + NodesOf(AddClaim(id, claim, sourceId))
      ensures nodes[|old(nodes)|] == Node(id, Claim, Clip(claim), None, Some(claim))
      ensures View() == AddAll(old(View()), CallsOf(AddClaim(id, claim, sourceId)))
    {
      ghost var was := View();
      nodes := nodes + [Node(id, Claim, Clip(claim), None, Some(claim))];
      var e := PutEdge(Link(sourceId, id, References), 1.0);
      AddAllOne(was, Weighted(Link(sourceId, id, References), 1.0));
    }

    /** A hypothesis node, and an edge from each piece of evidence for and against it. */
    method AddHypothesisNode(id: string, h: Hypothesis)
      requires Valid()
      modifies this, Cells()
      ensures Valid() && fresh(Cells() - old(Cells()))
      ensures nodes == old(nodes) + NodesOf(AddHypothesis(id, h))
      ensures nodes[|old(nodes)|] == Node(id, HypothesisNode, Clip(h.statement), None, None)
      ensures View() == AddAll(old(View()), CallsOf(AddHypothesis(id, h)))
    {
      ghost var was := View();
      nodes := nodes + [Node(id, HypothesisNode, Clip(h.statement), None, None)];
      PutEdges(h.supporting, id, Supports);
      PutEdges(h.contradicting, id, Contradicts);
      AddAllConcat(was, Calls(h.supporting, id, Supports), Calls(h.contradicting, id, Contradicts));
    }

    /** One contradiction for each contradicting edge, in order. */
    method BuildContradictionsList() returns (r: seq<Contradiction>)
      requires Valid()
      ensures r == Report(nodes, View())
    {
      ghost var es := View();
      ghost var cs: seq<Weighted> := [];
      r := [];
      for i := 0 to |edges|
        invariant cs == OfKind(es[..i], Contradicts) && |r| == |cs|
        invariant forall k | 0 <= k < |r| :: r[k] == Describe(nodes, cs[k].link)
      {
        assert es[..i + 1][..i] == es[..i];
        if edges[i].link.kind == Contradicts {
          r := r + [Describe(nodes, edges[i].link)];
          cs := cs + [es[i]];
        }
      }
      assert es[..|edges|] == es;
    }
  }

  // ---- Nothing is dropped, nothing doubled -----------------------------------

  /** The graph after all updates is the graph of all their calls. */
  lemma UpdatesCompose(ops: seq<Op>)
    requires ops != []
    ensures AddAll([], AllCalls(ops)) == AddAll(AddAll([], AllCalls(ops[..|ops| - 1])), CallsOf(ops[|ops| - 1]))
  {
    AddAllConcat([], AllCalls(ops[..|ops| - 1]), CallsOf(ops[|ops| - 1]));
  }

  /** What one update says of a triple: how much weight it asks for it. */
  function Says(op: Op, link: Link): real {
    match op
    case AddSource(_, _, _) => 0.0
    case AddClaim(id, _, sourceId) =>
      if link.kind == References && link.from == sourceId && link.to == id then 1.0 else 0.0
    case AddHypothesis(id, h) =>
      if link.to != id then 0.0
      else if link.kind == Supports then multiset(h.supporting)[link.from] as real
      else if link.kind == Contradicts then multiset(h.contradicting)[link.from] as real
      else 0.0
    case AddEdge(call) => if call.link == link then call.weight else 0.0
  }

  function Said(ops: seq<Op>, link: Link): real {
    if ops == [] then 0.0 else Said(ops[..|ops| - 1], link) + Says(ops[|ops| - 1], link)
  }

  lemma {:induction false} TotalConcat(a: seq<Weighted>, b: seq<Weighted>, link: Link)
    ensures Total(a + b, link) == Total(a, link) + Total(b, link)
  {
    if b == [] {
      assert a + b == a;
    } else {
      var n := |b| - 1;
      TotalConcat(a, b[..n], link);
      assert (a + b)[..|a + b| - 1] == a + b[..n];
    }
  }

  lemma {:induction false} CallsTotal(refs: seq<string>, id: string, kind: EdgeType, link: Link)
    ensures Total(Calls(refs, id, kind), link)
         == if link.to == id && link.kind == kind then multiset(refs)[link.from] as real else 0.0
    decreases |refs|
  {
    if refs != [] {
      var n := |refs| - 1;
      CallsTotal(refs[..n], id, kind, link);
      assert Calls(refs, id, kind)[..n] == Calls(refs[..n], id, kind);
      assert refs == refs[..n] + [refs[n]];
    }
  }

  lemma CallsOfTotal(op: Op, link: Link)
    ensures Total(CallsOf(op), link) == Says(op, link)
  {
    match op
    case AddSource(_, _, _) =>
    case AddClaim(id, _, sourceId) => assert CallsOf(op)[..0] == [];
    case AddHypothesis(id, h) =>
      CallsTotal(h.supporting, id, Supports, link);
      CallsTotal(h.contradicting, id, Contradicts, link);
      TotalConcat(Calls(h.supporting, id, Supports), Calls(h.contradicting, id, Contradicts), link);
    case AddEdge(call) => assert CallsOf(op)[..0] == [];
  }

  lemma {:induction false} AllCallsTotal(ops: seq<Op>, link: Link)
    ensures Total(AllCalls(ops), link) == Said(ops, link)
  {
    if ops != [] {
      var n := |ops| - 1;
      AllCallsTotal(ops[..n], link);
      CallsOfTotal(ops[n], link);
      TotalConcat(AllCalls(ops[..n]), CallsOf(ops[n]), link);
    }
  }

  /** After any updates an edge weighs what all of them said of its triple together: one for each
      claim drawn from the source, one for each time a hypothesis lists the reference, and what was
      put directly. */
  lemma WeightsAreSaid(ops: seq<Op>, link: Link)
    ensures WeightOf(AddAll([], AllCalls(ops)), link) == Said(ops, link)
  {
    EdgesAreTotals([], AllCalls(ops), link);
    AllCallsTotal(ops, link);
  }

  lemma {:induction false} OfKindKeeps(es: seq<Weighted>, kind: EdgeType)
    requires OnePerLink(es)
    ensures OnePerLink(OfKind(es, kind))
    ensures forall e :: e in OfKind(es, kind) <==> e in es && e.link.kind == kind
  {
    if es != [] {
      var n := |es| - 1;
      OfKindKeeps(es[..n], kind);
      assert es == es[..n] + [es[n]];
    }
  }

  /** Something in these updates says that `ref` contradicts `id`: a hypothesis, or an edge put
      directly. */
  predicate SaysContradicts(ops: seq<Op>, ref: string, id: string) {
    exists op | op in ops ::
      || (op.AddHypothesis? && op.id == id && ref in op.hypothesis.contradicting)
      || (op.AddEdge? && op.call.link == Link(ref, id, Contradicts))
  }

  lemma OpSays(op: Op, ref: string, id: string)
    ensures Has(CallsOf(op), Link(ref, id, Contradicts)) <==> SaysContradicts([op], ref, id)
  {
    var link := Link(ref, id, Contradicts);
    assert op in [op];
    if op.AddHypothesis? {
      var s := Calls(op.hypothesis.supporting, op.id, Supports);
      var c := Calls(op.hypothesis.contradicting, op.id, Contradicts);
      assert forall e | e in s :: e.link.kind == Supports;
      if id == op.id && ref in op.hypothesis.contradicting {
        var i :| 0 <= i < |op.hypothesis.contradicting| && op.hypothesis.contradicting[i] == ref;
        assert c[i].link == link && c[i] in s + c;
      }
      if Has(s + c, link) {
        var e :| e in s + c && e.link == link;
        assert e in c;
      }
    } else if op.AddEdge? {
      assert op.call in CallsOf(op);
    }
  }

  lemma {:induction false} CallsSay(ops: seq<Op>, ref: string, id: string)
    ensures Has(AllCalls(ops), Link(ref, id, Contradicts)) <==> SaysContradicts(ops, ref, id)
  {
    if ops != [] {
      var n := |ops| - 1;
      var link := Link(ref, id, Contradicts);
      CallsSay(ops[..n], ref, id);
      OpSays(ops[n], ref, id);
      assert ops == ops[..n] + [ops[n]];
      HasConcat(AllCalls(ops[..n]), CallsOf(ops[n]), link);
      assert SaysContradicts(ops, ref, id)
        <==> SaysContradicts(ops[..n], ref, id) || SaysContradicts([ops[n]], ref, id);
    }
  }

  lemma HasConcat(a: seq<Weighted>, b: seq<Weighted>, link: Link)
    ensures Has(a + b, link) <==> Has(a, link) || Has(b, link)
  {
    if Has(a, link) {
      var e :| e in a && e.link == link;
      assert e in a + b;
    }
    if Has(b, link) {
      var e :| e in b && e.link == link;
      assert e in a + b;
    }
  }

  /** The k-th contradiction reported is about this reference and this node. */
  predicate ReportedAt(ops: seq<Op>, ref: string, id: string, k: nat) {
    var cs := OfKind(AddAll([], AllCalls(ops)), Contradicts);
    && k < |cs| && cs[k].link == Link(ref, id, Contradicts)
    && |Report(AllNodes(ops), AddAll([], AllCalls(ops)))| == |cs|
  }

  /** After any updates the report holds exactly one contradiction for each distinct reference that
      contradicts a hypothesis (or was put as contradicting a node directly), and no other. */
  lemma ReportIsExact(ops: seq<Op>, ref: string, id: string)
    ensures SaysContradicts(ops, ref, id) <==> exists k: nat :: ReportedAt(ops, ref, id, k)
    ensures forall j: nat, k: nat :: ReportedAt(ops, ref, id, j) && ReportedAt(ops, ref, id, k) ==> j == k
  {
    var link := Link(ref, id, Contradicts);
    var es := AddAll([], AllCalls(ops));
    var cs := OfKind(es, Contradicts);
    EdgesAreTotals([], AllCalls(ops), link);
    OfKindKeeps(es, Contradicts);
    CallsSay(ops, ref, id);
    if Has(es, link) {
      var e :| e in es && e.link == link;
      assert e in cs;
      var k: nat :| k < |cs| && cs[k] == e;
      assert ReportedAt(ops, ref, id, k);
    }
    if exists k: nat :: ReportedAt(ops, ref, id, k) {
      var k: nat :| ReportedAt(ops, ref, id, k);
      assert cs[k] in cs && cs[k] in es;
    }
  }

  /** And every line of the report is such a one. */
  lemma EveryLineSaid(ops: seq<Op>, k: nat)
    ensures k < |Report(AllNodes(ops), AddAll([], AllCalls(ops)))| ==>
              exists ref, id :: SaysContradicts(ops, ref, id) && ReportedAt(ops, ref, id, k)
  {
    var es := AddAll([], AllCalls(ops));
    var cs := OfKind(es, Contradicts);
    if k < |cs| {
      var link := cs[k].link;
      EdgesAreTotals([], AllCalls(ops), link);
      OfKindKeeps(es, Contradicts);
      assert cs[k] in cs;
      assert ReportedAt(ops, link.from, link.to, k);
      ReportIsExact(ops, link.from, link.to);
    }
  }

  // ---- What a line says ------------------------------------------------------

  /** The node an update puts, if it puts one, has this id. */
  predicate Puts(op: Op, id: string) {
    match op
    case AddSource(i, _, _) => i == id
    case AddClaim(i, _, _) => i == id
    case AddHypothesis(i, _) => i == id
    case AddEdge(_) => false
  }

  /** Ids are fresh: no two updates put a node of this one. */
  predicate PutOnce(ops: seq<Op>, id: string) {
    forall i, j | 0 <= i < j < |ops| :: !(Puts(ops[i], id) && Puts(ops[j], id))
  }

  /** How a report names a node: its full claim, its title or else its URL, or the start of its
      statement. */
  function Naming(op: Op): string {
    match op
    case AddSource(_, url, title) => if title.None? then url else title.value
    case AddClaim(_, claim, _) => claim
    case AddHypothesis(_, h) => h.statement[..if |h.statement| < 80 then |h.statement| else 80]
    case AddEdge(_) => ""
  }

  /** And where it says the node is from: its URL, or else its id. */
  function Origin(op: Op, id: string): string {
    match op
    case AddSource(_, url, _) => url
    case _ => id
  }

  lemma {:induction false} NodeByIdConcat(a: seq<Node>, b: seq<Node>, id: string)
    ensures NodeById(a + b, id) == if NodeById(a, id).Some? then NodeById(a, id) else NodeById(b, id)
  {
    if a == [] {
      assert a + b == b;
    } else {
      NodeByIdConcat(a[1..], b, id);
      assert (a + b)[1..] == a[1..] + b;
    }
  }

  lemma NodesOfPut(op: Op, id: string)
    ensures var n := NodeById(NodesOf(op), id);
            && (n.Some? <==> Puts(op, id))
            && (n.Some? ==> ClaimText(n, id) == Naming(op) && SourceText(n, id) == Origin(op, id))
  {
    match op
    case AddSource(_, _, _) => assert NodesOf(op)[1..] == [];
    case AddClaim(_, _, _) => assert NodesOf(op)[1..] == [];
    case AddHypothesis(_, _) => assert NodesOf(op)[1..] == [];
    case AddEdge(_) =>
  }

  lemma {:induction false} NoneFound(ops: seq<Op>, id: string)
    requires forall i | 0 <= i < |ops| :: !Puts(ops[i], id)
    ensures NodeById(AllNodes(ops), id) == None
  {
    if ops != [] {
      var n := |ops| - 1;
      NoneFound(ops[..n], id);
      NodesOfPut(ops[n], id);
      NodeByIdConcat(AllNodes(ops[..n]), NodesOf(ops[n]), id);
    }
  }

  lemma {:induction false} FoundAs(ops: seq<Op>, id: string, i: nat)
    requires PutOnce(ops, id) && i < |ops| && Puts(ops[i], id)
    ensures NodeById(AllNodes(ops), id) == NodeById(NodesOf(ops[i]), id)
    decreases |ops|
  {
    var n := |ops| - 1;
    NodeByIdConcat(AllNodes(ops[..n]), NodesOf(ops[n]), id);
    if i < n {
      FoundAs(ops[..n], id, i);
      NodesOfPut(ops[i], id);
    } else {
      NoneFound(ops[..n], id);
    }
  }

  /** The line for a reference and a node names the updates that put them, the reference first; a
      reference nothing put is named by its id. */
  lemma LineSays(ops: seq<Op>, ref: string, id: string, k: nat, j: nat)
    requires j < |ops| && Puts(ops[j], id) && PutOnce(ops, id)
    ensures ReportedAt(ops, ref, id, k) ==>
              var line := Report(AllNodes(ops), AddAll([], AllCalls(ops)))[k];
              && line.claimB == Naming(ops[j]) && line.sourceB == Origin(ops[j], id)
              && (forall i: nat | i < |ops| && Puts(ops[i], ref) && PutOnce(ops, ref) ::
                    line.claimA == Naming(ops[i]) && line.sourceA == Origin(ops[i], ref))
              && ((forall i | 0 <= i < |ops| :: !Puts(ops[i], ref)) ==> line.claimA == ref && line.sourceA == ref)
  {
    FoundAs(ops, id, j);
    NodesOfPut(ops[j], id);
    forall i: nat | i < |ops| && Puts(ops[i], ref) && PutOnce(ops, ref)
      ensures ClaimText(NodeById(AllNodes(ops), ref), ref) == Naming(ops[i])
      ensures SourceText(NodeById(AllNodes(ops), ref), ref) == Origin(ops[i], ref)
    {
      FoundAs(ops, ref, i);
      NodesOfPut(ops[i], ref);
    }
    if forall i | 0 <= i < |ops| :: !Puts(ops[i], ref) {
      NoneFound(ops, ref);
    }
  }
}
