/** The playbook compiler: typed steps, the validation of their graph by Kahn's
    algorithm, and the compile pipeline from parsed steps on. */
module PlaybookCompiler {
  import opened Results
  import opened Graphs

  const MAX_STEPS := 500
  const MAX_PARALLEL_BRANCHES := 32
  const MAX_BRANCH_DEPTH := 100

  type Id = string

  datatype Kind =
    | Action
    | Decision(condition: string, trueBranch: Id, falseBranch: Id)
    | HitlGate
    | ParallelFork(branches: seq<seq<Id>>)
    | Join
    | End

  datatype Step = Step(id: Id, nextStep: Option<Id>, kind: Kind)

  function Ids(steps: seq<Step>): set<Id> {
    set i | 0 <= i < |steps| :: steps[i].id
  }

  // ----- the validated graph -----

  /** An empty reference is falsy, and a reference to no step of the playbook adds no edge. */
  function KnownRef(ref: Id, ids: set<Id>): seq<Id> {
    if ref != "" && ref in ids then [ref] else []
  }

  function KnownIn(refs: seq<Id>, ids: set<Id>): seq<Id> {
    if refs == [] then []
    else
      var last := refs[|refs| - 1];
      KnownIn(refs[..|refs| - 1], ids) + if last in ids then [last] else []
  }

  function KnownInAll(branches: seq<seq<Id>>, ids: set<Id>): seq<Id> {
    if branches == [] then []
    else KnownInAll(branches[..|branches| - 1], ids) + KnownIn(branches[|branches| - 1], ids)
  }

  function Successors(step: Step, ids: set<Id>): seq<Id> {
    (if step.nextStep.Some? then KnownRef(step.nextStep.value, ids) else []) +
    match step.kind
    case Decision(_, t, f) => KnownRef(t, ids) + KnownRef(f, ids)
    case ParallelFork(branches) => KnownInAll(branches, ids)
    case _ => []
  }

  function EdgesFrom(src: Id, succs: seq<Id>): seq<(Id, Id)> {
    seq(|succs|, j requires 0 <= j < |succs| => (src, succs[j]))
  }

  /** Every edge of the multigraph, in the order in which the validator meets it. */
  function EdgeList(steps: seq<Step>, ids: set<Id>): seq<(Id, Id)> {
    if steps == [] then []
    else
      var last := steps[|steps| - 1];
      EdgeList(steps[..|steps| - 1], ids) + EdgesFrom(last.id, Successors(last, ids))
  }

  function Edges(steps: seq<Step>): seq<(Id, Id)> {
    EdgeList(steps, Ids(steps))
  }

  lemma {:induction false} KnownInIsFilter(refs: seq<Id>, ids: set<Id>, x: Id)
    ensures x in KnownIn(refs, ids) <==> x in refs && x in ids
  {
    if refs != [] {
      KnownInIsFilter(refs[..|refs| - 1], ids, x);
      assert refs == refs[..|refs| - 1] + [refs[|refs| - 1]];
    }
  }

  lemma {:induction false} KnownInAllIsFilter(branches: seq<seq<Id>>, ids: set<Id>, x: Id)
    ensures x in KnownInAll(branches, ids) <==> x in ids && exists b :: b in branches && x in b
  {
    if branches != [] {
      var front, last := branches[..|branches| - 1], branches[|branches| - 1];
      KnownInAllIsFilter(front, ids, x);
      KnownInIsFilter(last, ids, x);
      assert branches == front + [last];
    }
  }

  /** What a step may refer to: exactly the four kinds of references, known ids only. An empty
      id, should a step have one, is reached by a fork's branches and by no other reference. */
  lemma SuccessorsAreKnownReferences(step: Step, ids: set<Id>, x: Id)
    ensures x in Successors(step, ids) <==>
      x in ids &&
      (|| (x != "" && step.nextStep == Some(x))
       || (x != "" && step.kind.Decision? && (x == step.kind.trueBranch || x == step.kind.falseBranch))
       || (step.kind.ParallelFork? && exists b :: b in step.kind.branches && x in b))
  {
    if step.kind.ParallelFork? {
      KnownInAllIsFilter(step.kind.branches, ids, x);
    }
  }

  lemma {:induction false} SuccessorsKnown(step: Step, ids: set<Id>)
    ensures forall x :: x in Successors(step, ids) ==> x in ids
  {
    forall x | x in Successors(step, ids) ensures x in ids {
      if step.kind.ParallelFork? {
        KnownInAllIsFilter(step.kind.branches, ids, x);
      }
    }
  }

  lemma EdgesFromMeaning(src: Id, succs: seq<Id>, a: Id, b: Id)
    ensures (a, b) in EdgesFrom(src, succs) <==> src == a && b in succs
  {
    var tail := EdgesFrom(src, succs);
    if src == a && b in succs {
      var j :| 0 <= j < |succs| && succs[j] == b;
      assert tail[j] == (a, b);
    }
  }

  predicate RefersTo(step: Step, ids: set<Id>, a: Id, b: Id) {
    step.id == a && b in Successors(step, ids)
  }

  lemma SomeRefersOneMore(front: seq<Step>, last: Step, steps: seq<Step>, ids: set<Id>, a: Id, b: Id)
    requires steps == front + [last]
    ensures (exists i :: 0 <= i < |steps| && RefersTo(steps[i], ids, a, b)) <==>
            (exists i :: 0 <= i < |front| && RefersTo(front[i], ids, a, b)) || RefersTo(last, ids, a, b)
  {
    assert steps[|front|] == last;
    if i :| 0 <= i < |front| && RefersTo(front[i], ids, a, b) {
      assert RefersTo(steps[i], ids, a, b);
    }
  }

  lemma {:induction false} EdgeListMeaning(steps: seq<Step>, ids: set<Id>, a: Id, b: Id)
    ensures (a, b) in EdgeList(steps, ids) <==> exists i :: 0 <= i < |steps| && RefersTo(steps[i], ids, a, b)
  {
    if steps != [] {
      var front, last := steps[..|steps| - 1], steps[|steps| - 1];
      EdgeListMeaning(front, ids, a, b);
      EdgesFromMeaning(last.id, Successors(last, ids), a, b);
      SomeRefersOneMore(front, last, steps, ids, a, b);
    }
  }

  lemma EdgesStayInside(steps: seq<Step>)
    ensures forall a, b :: (a, b) in Edges(steps) ==> a in Ids(steps) && b in Ids(steps)
  {
    var ids := Ids(steps);
    forall a, b | (a, b) in Edges(steps) ensures a in ids && b in ids {
      EdgeListMeaning(steps, ids, a, b);
      var i :| 0 <= i < |steps| && steps[i].id == a && b in Successors(steps[i], ids);
      SuccessorsKnown(steps[i], ids);
    }
  }

  // ----- the quantities Kahn's algorithm keeps -----

  function Out(edges: seq<(Id, Id)>, v: Id): seq<Id> {
    if edges == [] then []
    else
      var last := edges[|edges| - 1];
      Out(edges[..|edges| - 1], v) + if last.0 == v then [last.1] else []
  }

  /** The targets, with multiplicity, of the edges whose source is not yet done. */
  function Live(edges: seq<(Id, Id)>, done: set<Id>): multiset<Id> {
    if edges == [] then multiset{}
    else
      var last := edges[|edges| - 1];
      Live(edges[..|edges| - 1], done) + if last.0 in done then multiset{} else multiset{last.1}
  }

  lemma {:induction false} LiveAfterPop(edges: seq<(Id, Id)>, done: set<Id>, v: Id)
    requires v !in done
    ensures Live(edges, done) == Live(edges, done + {v}) + multiset(Out(edges, v))
  {
    if edges != [] {
      LiveAfterPop(edges[..|edges| - 1], done, v);
    }
  }

  lemma {:induction false} LiveMeaning(edges: seq<(Id, Id)>, done: set<Id>, b: Id)
    ensures b in Live(edges, done) <==> exists a :: (a, b) in edges && a !in done
  {
    if edges != [] {
      var front, last := edges[..|edges| - 1], edges[|edges| - 1];
      LiveMeaning(front, done, b);
      assert edges == front + [last];
      if a :| (a, b) in edges && a !in done {
        assert (a, b) in front || last == (a, b);
      }
      if last.1 == b && last.0 !in done {
        assert last == (last.0, b) && last in edges;
      }
    }
  }

  lemma {:induction false} OutInside(edges: seq<(Id, Id)>, v: Id, b: Id)
    ensures b in Out(edges, v) <==> (v, b) in edges
  {
    if edges != [] {
      OutInside(edges[..|edges| - 1], v, b);
      assert edges == edges[..|edges| - 1] + [edges[|edges| - 1]];
    }
  }

  function Adjacent(adj: map<Id, seq<Id>>, v: Id): seq<Id> {
    if v in adj then adj[v] else []
  }

  method CollectBranches(branches: seq<seq<Id>>, ids: set<Id>) returns (known: seq<Id>)
    ensures known == KnownInAll(branches, ids)
  {
    known := [];
    for i := 0 to |branches|
      invariant known == KnownInAll(branches[..i], ids)
    {
      ghost var outer := known;
      for j := 0 to |branches[i]|
        invariant known == outer + KnownIn(branches[i][..j], ids)
      {
        assert branches[i][..j + 1][..j] == branches[i][..j];
        if branches[i][j] in ids { known := known + [branches[i][j]]; }
      }
      assert branches[i][..|branches[i]|] == branches[i];
      assert branches[..i + 1][..i] == branches[..i];
    }
    assert branches[..|branches|] == branches;
  }

  method CollectSuccessors(step: Step, ids: set<Id>) returns (succs: seq<Id>)
    ensures succs == Successors(step, ids)
  {
    succs := [];
    if step.nextStep.Some? && step.nextStep.value != "" && step.nextStep.value in ids {
      succs := succs + [step.nextStep.value];
    }
    match step.kind {
      case Decision(_, t, f) =>
        ghost var start := succs;
        if t != "" && t in ids { succs := succs + [t]; }
        if f != "" && f in ids { succs := succs + [f]; }
        assert succs == start + (KnownRef(t, ids) + KnownRef(f, ids));
      case ParallelFork(branches) =>
        var known := CollectBranches(branches, ids);
        succs := succs + known;
      case _ =>
    }
  }

  /** The adjacency lists and in-degrees describe exactly these edges. */
  ghost predicate Describes(adj: map<Id, seq<Id>>, inDegree: map<Id, nat>, ids: set<Id>, edges: seq<(Id, Id)>) {
    Lists(adj, edges) && Counts(inDegree, ids, Live(edges, {}))
  }

  ghost predicate Lists(adj: map<Id, seq<Id>>, edges: seq<(Id, Id)>) {
    forall v {:trigger Out(edges, v)} :: Adjacent(adj, v) == Out(edges, v)
  }

  ghost predicate Counts(inDegree: map<Id, nat>, ids: set<Id>, targets: multiset<Id>) {
    inDegree.Keys == ids && forall n :: n in ids ==> inDegree[n] == targets[n]
  }

  lemma LiveOneMore(edges: seq<(Id, Id)>, src: Id, dst: Id)
    ensures Live(edges + [(src, dst)], {}) == Live(edges, {}) + multiset{dst}
  {
    var longer := edges + [(src, dst)];
    assert longer[..|longer| - 1] == edges;
  }

  lemma OutOneMore(edges: seq<(Id, Id)>, src: Id, dst: Id, v: Id)
    ensures Out(edges + [(src, dst)], v) == Out(edges, v) + if src == v then [dst] else []
  {
    var longer := edges + [(src, dst)];
    assert longer[..|longer| - 1] == edges;
  }

  lemma ListsOneMore(adj: map<Id, seq<Id>>, edges: seq<(Id, Id)>, src: Id, dst: Id,
                     adj': map<Id, seq<Id>>, longer: seq<(Id, Id)>)
    requires Lists(adj, edges) && adj' == adj[src := Adjacent(adj, src) + [dst]] && longer == edges + [(src, dst)]
    ensures Lists(adj', longer)
  {
    forall v ensures Adjacent(adj', v) == Out(longer, v) {
      assert Adjacent(adj, v) == Out(edges, v);
      OutOneMore(edges, src, dst, v);
    }
  }

  lemma CountsOneMore(inDegree: map<Id, nat>, ids: set<Id>, targets: multiset<Id>, dst: Id)
    requires Counts(inDegree, ids, targets) && dst in ids
    ensures Counts(inDegree[dst := inDegree[dst] + 1], ids, targets + multiset{dst})
  {
  }

  lemma DescribesOneMore(adj: map<Id, seq<Id>>, inDegree: map<Id, nat>, ids: set<Id>, edges: seq<(Id, Id)>,
                         src: Id, dst: Id, adj': map<Id, seq<Id>>, inDegree': map<Id, nat>, longer: seq<(Id, Id)>)
    requires Describes(adj, inDegree, ids, edges) && dst in ids
    requires adj' == adj[src := Adjacent(adj, src) + [dst]] && inDegree' == inDegree[dst := inDegree[dst] + 1]
    requires longer == edges + [(src, dst)]
    ensures Describes(adj', inDegree', ids, longer)
  {
    ListsOneMore(adj, edges, src, dst, adj', longer);
    LiveOneMore(edges, src, dst);
    CountsOneMore(inDegree, ids, Live(edges, {}), dst);
  }

  lemma EdgesFromOneMore(edges: seq<(Id, Id)>, src: Id, succs: seq<Id>, j: nat)
    requires j < |succs|
    ensures edges + EdgesFrom(src, succs[..j + 1]) == edges + EdgesFrom(src, succs[..j]) + [(src, succs[j])]
  {
    assert EdgesFrom(src, succs[..j + 1]) == EdgesFrom(src, succs[..j]) + [(src, succs[j])];
  }

  method AddEdges(adj: map<Id, seq<Id>>, inDegree: map<Id, nat>, src: Id, succs: seq<Id>,
                  ghost ids: set<Id>, ghost edges: seq<(Id, Id)>)
    returns (adj': map<Id, seq<Id>>, inDegree': map<Id, nat>)
    requires Describes(adj, inDegree, ids, edges)
    requires forall x :: x in succs ==> x in ids
    ensures Describes(adj', inDegree', ids, edges + EdgesFrom(src, succs))
  {
    adj', inDegree' := adj, inDegree;
    ghost var sofar := edges;
    for j := 0 to |succs|
      invariant sofar == edges + EdgesFrom(src, succs[..j])
      invariant Describes(adj', inDegree', ids, sofar)
    {
      ghost var adjBefore, inDegreeBefore, before := adj', inDegree', sofar;
      adj' := adj'[src := Adjacent(adj', src) + [succs[j]]];
      inDegree' := inDegree'[succs[j] := inDegree'[succs[j]] + 1];
      sofar := sofar + [(src, succs[j])];
      DescribesOneMore(adjBefore, inDegreeBefore, ids, before, src, succs[j], adj', inDegree', sofar);
      EdgesFromOneMore(edges, src, succs, j);
    }
    assert succs[..|succs|] == succs;
  }

  /** Adjacency lists and in-degrees of the multigraph. */
  method BuildGraph(steps: seq<Step>) returns (adj: map<Id, seq<Id>>, inDegree: map<Id, nat>)
    ensures Describes(adj, inDegree, Ids(steps), Edges(steps))
  {
    var ids := Ids(steps);
    adj := map[];
    inDegree := map n | n in ids :: 0;
    for i := 0 to |steps|
      invariant Describes(adj, inDegree, ids, EdgeList(steps[..i], ids))
    {
      var succs := CollectSuccessors(steps[i], ids);
      SuccessorsKnown(steps[i], ids);
      ghost var edges := EdgeList(steps[..i], ids);
      adj, inDegree := AddEdges(adj, inDegree, steps[i].id, succs, ids, edges);
      assert EdgeList(steps[..i + 1], ids) == edges + EdgesFrom(steps[i].id, succs) by {
        assert steps[..i + 1][..i] == steps[..i];
      }
    }
    assert steps[..|steps|] == steps;
  }

  // ----- Kahn's algorithm -----

  function Elements(s: seq<Id>): set<Id> {
    set x | x in s
  }

  lemma {:induction false} DistinctSize(s: seq<Id>)
    requires Distinct(s)
    ensures |Elements(s)| == |s|
  {
    if s != [] {
      var front, last := s[..|s| - 1], s[|s| - 1];
      DistinctSize(front);
      assert Elements(s) == Elements(front) + {last};
    }
  }

  /** What holds between two pops. The queue and the popped nodes are together the nodes
      of in-degree 0, each once; an in-degree counts the edges from nodes not yet popped. */
  ghost predicate KahnInvariant(ids: set<Id>, edges: seq<(Id, Id)>, inDegree: map<Id, nat>,
                                order: seq<Id>, queue: seq<Id>)
  {
    && inDegree.Keys == ids
    && (forall n :: n in ids ==> inDegree[n] == Live(edges, Elements(order))[n])
    && Queued(ids, inDegree, order + queue)
    && TopologicalOrder(edges, order)
  }

  ghost predicate Queued(ids: set<Id>, inDegree: map<Id, nat>, seen: seq<Id>)
    requires inDegree.Keys == ids
  {
    && Distinct(seen)
    && forall n {:trigger n in seen} {:trigger n in inDegree} :: n in seen <==> n in ids && inDegree[n] == 0
  }

  /** Nodes without a live predecessor may be appended to the order. */
  lemma OrderGrows(ids: set<Id>, edges: seq<(Id, Id)>, inDegree: map<Id, nat>, order: seq<Id>, v: Id)
    requires inDegree.Keys == ids && v in ids && v !in order && inDegree[v] == 0
    requires inDegree[v] == Live(edges, Elements(order))[v]
    requires TopologicalOrder(edges, order)
    ensures TopologicalOrder(edges, order + [v])
  {
    var order' := order + [v];
    forall a, b | (a, b) in edges && b in order' ensures Before(order', a, b) {
      if b in order {
        var i, j :| 0 <= i < j < |order| && order[i] == a && order[j] == b;
        assert order'[i] == a && order'[j] == b;
      } else {
        LiveMeaning(edges, Elements(order), b);
        assert a in order;
        var i :| 0 <= i < |order| && order[i] == a;
        assert order'[i] == a && order'[|order|] == b;
      }
    }
  }

  method InitialQueue(ids: set<Id>, inDegree: map<Id, nat>) returns (queue: seq<Id>)
    requires inDegree.Keys == ids
    ensures Queued(ids, inDegree, queue)
  {
    queue := [];
    var todo := ids;
    while todo != {}
      invariant todo <= ids
      invariant Distinct(queue)
      invariant forall n :: n in queue <==> n in ids - todo && inDegree[n] == 0
    {
      var n :| n in todo;
      if inDegree[n] == 0 { queue := queue + [n]; }
      todo := todo - {n};
    }
  }

  /** Decrements the in-degrees of the popped node's neighbours, one edge at a time. */
  method Relax(ids: set<Id>, inDegree: map<Id, nat>, neighbors: seq<Id>, queue: seq<Id>, ghost popped: seq<Id>,
               ghost live: multiset<Id>)
    returns (inDegree': map<Id, nat>, queue': seq<Id>)
    requires inDegree.Keys == ids && forall n :: n in neighbors ==> n in ids
    requires forall n :: n in ids ==> inDegree[n] == (live + multiset(neighbors))[n]
    requires Queued(ids, inDegree, popped + queue)
    ensures inDegree'.Keys == ids
    ensures forall n :: n in ids ==> inDegree'[n] == live[n]
    ensures Queued(ids, inDegree', popped + queue')
  {
    inDegree', queue' := inDegree, queue;
    assert neighbors[0..] == neighbors;
    for j := 0 to |neighbors|
      invariant inDegree'.Keys == ids
      invariant forall n :: n in ids ==> inDegree'[n] == (live + multiset(neighbors[j..]))[n]
      invariant Queued(ids, inDegree', popped + queue')
    {
      var neighbor := neighbors[j];
      assert neighbors[j..] == [neighbor] + neighbors[j + 1..];
      ghost var before := popped + queue';
      inDegree' := inDegree'[neighbor := inDegree'[neighbor] - 1];
      if inDegree'[neighbor] == 0 {
        queue' := queue' + [neighbor];
        assert popped + queue' == before + [neighbor];
      }
    }
  }

  lemma QueueHeadIsNew(order: seq<Id>, queue: seq<Id>)
    requires Distinct(order + queue) && queue != []
    ensures queue[0] in order + queue && queue[0] !in order
    ensures order + queue == order + [queue[0]] + queue[1..]
  {
    var all := order + queue;
    assert all[|order|] == queue[0];
    forall j | 0 <= j < |order| ensures order[j] != queue[0] {
      assert all[j] == order[j];
    }
  }

  lemma PopKeepsInvariant(ids: set<Id>, edges: seq<(Id, Id)>, inDegree: map<Id, nat>, order: seq<Id>, queue: seq<Id>)
    requires KahnInvariant(ids, edges, inDegree, order, queue) && queue != []
    ensures queue[0] in ids && queue[0] !in order
    ensures TopologicalOrder(edges, order + [queue[0]])
    ensures Queued(ids, inDegree, order + [queue[0]] + queue[1..])
    ensures forall n :: n in ids ==>
              inDegree[n] == (Live(edges, Elements(order + [queue[0]])) + multiset(Out(edges, queue[0])))[n]
  {
    var node := queue[0];
    QueueHeadIsNew(order, queue);
    OrderGrows(ids, edges, inDegree, order, node);
    LiveAfterPop(edges, Elements(order), node);
    assert Elements(order + [node]) == Elements(order) + {node};
  }

  datatype CycleError = CycleDetected(ids: set<Id>)

  ghost function StepsBelowCycle(steps: seq<Step>): set<Id> {
    set n | n in Ids(steps) && BelowCycle(Edges(steps), n)
  }

  lemma KahnStarts(ids: set<Id>, edges: seq<(Id, Id)>, inDegree: map<Id, nat>, queue: seq<Id>)
    requires Counts(inDegree, ids, Live(edges, {})) && Queued(ids, inDegree, queue)
    ensures KahnInvariant(ids, edges, inDegree, [], queue)
  {
    assert [] + queue == queue && Elements([]) == {};
  }

  lemma OneLessToPop(ids: set<Id>, order: seq<Id>, node: Id)
    requires node in ids && node !in order
    ensures ids - Elements(order + [node]) < ids - Elements(order)
  {
    assert Elements(order + [node]) == Elements(order) + {node};
    assert node in ids - Elements(order);
  }

  /** The error list is empty exactly for acyclic graphs; otherwise its one error names
      exactly the steps below a cycle. The popped nodes are a topological order of the rest. */
  method ValidateDag(steps: seq<Step>) returns (errors: seq<CycleError>, ghost order: seq<Id>)
    ensures errors == if Acyclic(Edges(steps)) then [] else [CycleDetected(StepsBelowCycle(steps))]
    ensures TopologicalOrder(Edges(steps), order)
    ensures Elements(order) == Ids(steps) - StepsBelowCycle(steps)
  {
    var ids := Ids(steps);
    ghost var edges := Edges(steps);
    var adj, inDegree := BuildGraph(steps);
    var queue := InitialQueue(ids, inDegree);
    var visited := 0;
    order := [];
    KahnStarts(ids, edges, inDegree, queue);
    while queue != []
      invariant KahnInvariant(ids, edges, inDegree, order, queue)
      invariant visited == |order|
      decreases ids - Elements(order)
    {
      var node := queue[0];
      PopKeepsInvariant(ids, edges, inDegree, order, queue);
      NeighborsInside(steps, node);
      assert Adjacent(adj, node) == Out(edges, node);
      OneLessToPop(ids, order, node);
      order := order + [node];
      visited := visited + 1;
      inDegree, queue := Relax(ids, inDegree, Adjacent(adj, node), queue[1..], order, Live(edges, Elements(order)));
    }
    KahnVerdict(steps, inDegree, order);
    AllOrderedIffAcyclic(steps, order);
    errors := [];
    if visited < |ids| {
      errors := [CycleDetected(Unpopped(inDegree))];
    }
  }

  /** The counter comparison that decides: every step was popped iff there is no cycle. */
  lemma AllOrderedIffAcyclic(steps: seq<Step>, order: seq<Id>)
    requires Distinct(order) && Elements(order) == Ids(steps) - StepsBelowCycle(steps)
    ensures |order| < |Ids(steps)| <==> !Acyclic(Edges(steps))
  {
    var ids := Ids(steps);
    DistinctSize(order);
    AcyclicIffNothingBelow(Edges(steps));
    EdgesStayInside(steps);
    if n :| BelowCycle(Edges(steps), n) {
      if n !in ids {
        OutsideIsNotBelowCycle(Edges(steps), ids, n);
      }
      StrictSubsetIsSmaller(Elements(order), ids);
    } else {
      assert Elements(order) == ids;
    }
  }

  lemma StrictSubsetIsSmaller(a: set<Id>, b: set<Id>)
    requires a < b
    ensures |a| < |b|
  {
    assert |b - a| > 0 && b == a + (b - a);
  }

  lemma NeighborsInside(steps: seq<Step>, v: Id)
    ensures forall n :: n in Out(Edges(steps), v) ==> n in Ids(steps)
  {
    forall n | n in Out(Edges(steps), v) ensures n in Ids(steps) {
      OutInside(Edges(steps), v, n);
      EdgesStayInside(steps);
    }
  }

  lemma UnpoppedHasPredecessor(steps: seq<Step>, inDegree: map<Id, nat>, order: seq<Id>, n: Id) returns (m: Id)
    requires KahnInvariant(Ids(steps), Edges(steps), inDegree, order, [])
    requires n in inDegree && inDegree[n] > 0
    ensures m in inDegree && inDegree[m] > 0 && (m, n) in Edges(steps)
  {
    assert order + [] == order;
    LiveMeaning(Edges(steps), Elements(order), n);
    m :| (m, n) in Edges(steps) && m !in Elements(order);
    EdgesStayInside(steps);
  }

  function Unpopped(inDegree: map<Id, nat>): set<Id> {
    set n | n in inDegree && inDegree[n] > 0
  }

  lemma UnpoppedClosed(steps: seq<Step>, inDegree: map<Id, nat>, order: seq<Id>)
    requires KahnInvariant(Ids(steps), Edges(steps), inDegree, order, [])
    ensures EachHasPredecessor(Edges(steps), Unpopped(inDegree))
    ensures Unpopped(inDegree) == Ids(steps) - Elements(order)
  {
    var rest := Unpopped(inDegree);
    assert order + [] == order;
    forall n | n in rest ensures HasPredecessor(Edges(steps), rest, n) {
      var m := UnpoppedHasPredecessor(steps, inDegree, order, n);
      assert m in rest;
    }
  }

  lemma KahnVerdict(steps: seq<Step>, inDegree: map<Id, nat>, order: seq<Id>)
    requires KahnInvariant(Ids(steps), Edges(steps), inDegree, order, [])
    ensures Unpopped(inDegree) == StepsBelowCycle(steps)
    ensures Elements(order) == Ids(steps) - StepsBelowCycle(steps)
  {
    UnpoppedClosed(steps, inDegree, order);
    assert order + [] == order;
    forall n | n in Ids(steps) ensures n in StepsBelowCycle(steps) <==> n in Unpopped(inDegree) {
      if n in Unpopped(inDegree) {
        RestIsBelowCycle(Edges(steps), Unpopped(inDegree), n);
      } else {
        OrderedIsNotBelowCycle(Edges(steps), order, n);
      }
    }
  }

  lemma PathEndsInside(edges: seq<(Id, Id)>, ids: set<Id>, p: seq<Id>)
    requires forall a, b :: (a, b) in edges ==> a in ids && b in ids
    requires IsPath(edges, p) && |p| > 1
    ensures p[|p| - 1] in ids
  {
    assert (p[|p| - 2], p[|p| - 1]) in edges;
  }

  lemma OutsideIsNotBelowCycle(edges: seq<(Id, Id)>, ids: set<Id>, n: Id)
    requires forall a, b :: (a, b) in edges ==> a in ids && b in ids
    requires n !in ids
    ensures !BelowCycle(edges, n)
  {
    if BelowCycle(edges, n) {
      var c, w :| IsCycle(edges, c) && IsPath(edges, w) && w[0] == c[0] && w[|w| - 1] == n;
      PathEndsInside(edges, ids, if |w| > 1 then w else c);
    }
  }

  // ----- the pipeline -----

  predicate BranchesOk(branches: seq<seq<Id>>) {
    && |branches| <= MAX_PARALLEL_BRANCHES
    && forall b :: b in branches ==> |b| <= MAX_BRANCH_DEPTH && "" !in b
  }

  predicate StepOk(step: Step) {
    step.id != "" && (step.kind.ParallelFork? ==> BranchesOk(step.kind.branches))
  }

  /** What parsing a prefix of the steps establishes: every step is legal and no id repeats. */
  predicate WellFormed(steps: seq<Step>) {
    && (forall i :: 0 <= i < |steps| ==> StepOk(steps[i]))
    && (forall i, j :: 0 <= i < j < |steps| ==> steps[i].id != steps[j].id)
  }

  method ValidateBranches(branches: seq<seq<Id>>) returns (ok: bool)
    ensures ok <==> BranchesOk(branches)
  {
    if |branches| > MAX_PARALLEL_BRANCHES { return false; }
    for i := 0 to |branches|
      invariant forall k :: 0 <= k < i ==> |branches[k]| <= MAX_BRANCH_DEPTH && "" !in branches[k]
    {
      if |branches[i]| > MAX_BRANCH_DEPTH { return false; }
      for j := 0 to |branches[i]|
        invariant forall k :: 0 <= k < j ==> branches[i][k] != ""
      {
        if branches[i][j] == "" { return false; }
      }
    }
    return true;
  }

  datatype CompileError =
    | TooManySteps
    | InvalidStep(index: nat)
    | DuplicateStep(index: nat)
    | Cyclic(named: set<Id>)

  /** The playbooks the compiler accepts. */
  ghost predicate Accepted(steps: seq<Step>) {
    |steps| <= MAX_STEPS && WellFormed(steps) && Acyclic(Edges(steps))
  }

  method Compile(raw: seq<Step>) returns (r: Result<seq<Step>, CompileError>)
    ensures r.Ok? <==> Accepted(raw)
    ensures r.Ok? ==> r.value == raw
    ensures r == Err(TooManySteps) <==> |raw| > MAX_STEPS
    ensures r.Err? && (r.error.InvalidStep? || r.error.DuplicateStep?) ==>
              r.error.index < |raw| && WellFormed(raw[..r.error.index]) && !WellFormed(raw[..r.error.index + 1])
    ensures r.Err? && r.error.InvalidStep? ==> !StepOk(raw[r.error.index])
    ensures r.Err? && r.error.DuplicateStep? ==> StepOk(raw[r.error.index])
    ensures r.Err? && r.error.Cyclic? ==> WellFormed(raw) && r.error.named == StepsBelowCycle(raw)
  {
    if |raw| > MAX_STEPS { return Err(TooManySteps); }
    var steps: seq<Step> := [];
    var seenIds: set<Id> := {};
    for i := 0 to |raw|
      invariant steps == raw[..i] && WellFormed(steps)
      invariant forall id :: id in seenIds <==> exists k :: 0 <= k < i && raw[k].id == id
    {
      var step := raw[i];
      var ok := step.id != "";
      if ok && step.kind.ParallelFork? { ok := ValidateBranches(step.kind.branches); }
      assert raw[..i + 1][i] == step;
      if !ok { return Err(InvalidStep(i)); }
      if step.id in seenIds {
        ghost var k :| 0 <= k < i && raw[k].id == step.id;
        assert raw[..i + 1][k].id == raw[..i + 1][i].id;
        return Err(DuplicateStep(i));
      }
      seenIds := seenIds + {step.id};
      steps := steps + [step];
    }
    assert raw[..|raw|] == raw;
    var cycleErrors, _ := ValidateDag(steps);
    if cycleErrors != [] {
      return Err(Cyclic(cycleErrors[0].ids));
    }
    return Ok(steps);
  }
}
