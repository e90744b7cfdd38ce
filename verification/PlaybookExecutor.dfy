/** The playbook executor: wiring a playbook into a state graph, and the runs of that graph. */
module PlaybookExecutor {
  import opened Results
  import opened Graphs
  import opened PlaybookCompiler

  datatype Target = At(id: Id) | Finish

  /** How a node hands over: along a fixed edge, or through the router of a decision step. */
  datatype Wire = Edge(to: Target) | Router(condition: string, trueBranch: Id, falseBranch: Id)

  datatype StepResult = StepResult(stepId: Id, nextStep: Option<Id>)

  /** The step a mapping built by one pass over the steps keeps for an id: the last one. */
  function Lookup(steps: seq<Step>, id: Id): (s: Step)
    requires id in Ids(steps)
    ensures s in steps && s.id == id
  {
    var last := steps[|steps| - 1];
    if last.id == id then last else Lookup(steps[..|steps| - 1], id)
  }

  function Resolve(ref: Id, ids: set<Id>): Target {
    if ref != "" && ref in ids then At(ref) else Finish
  }

  function WireOf(step: Step, ids: set<Id>): Wire {
    match step.kind
    case End => Edge(Finish)
    case Decision(c, t, f) => Router(c, t, f)
    case _ => Edge(if step.nextStep.Some? then Resolve(step.nextStep.value, ids) else Finish)
  }

  function StepMap(steps: seq<Step>): map<Id, Step> {
    map id | id in Ids(steps) :: Lookup(steps, id)
  }

  function WireAll(stepMap: map<Id, Step>, ids: set<Id>): map<Id, Wire> {
    map id | id in stepMap :: WireOf(stepMap[id], ids)
  }

  function Wiring(steps: seq<Step>): map<Id, Wire> {
    WireAll(StepMap(steps), Ids(steps))
  }

  class StateGraph {
    var nodes: map<Id, Step>
    var entry: Option<Id>
    var wires: map<Id, Wire>

    constructor ()
      ensures nodes == map[] && entry == None && wires == map[]
    {
      nodes, entry, wires := map[], None, map[];
    }

    method AddNode(step: Step)
      modifies this
      ensures nodes == old(nodes)[step.id := step] && entry == old(entry) && wires == old(wires)
    {
      nodes := nodes[step.id := step];
    }

    method SetEntryPoint(id: Id)
      modifies this
      ensures entry == Some(id) && nodes == old(nodes) && wires == old(wires)
    {
      entry := Some(id);
    }

    method AddWire(id: Id, wire: Wire)
      modifies this
      ensures wires == old(wires)[id := wire] && nodes == old(nodes) && entry == old(entry)
    {
      wires := wires[id := wire];
    }
  }

  lemma StepMapSnoc(steps: seq<Step>, i: nat)
    requires i < |steps|
    ensures Ids(steps[..i + 1]) == Ids(steps[..i]) + {steps[i].id}
    ensures StepMap(steps[..i + 1]) == StepMap(steps[..i])[steps[i].id := steps[i]]
  {
    var front, longer := steps[..i], steps[..i + 1];
    assert longer == front + [steps[i]] && longer[..|longer| - 1] == front;
    forall id | id in Ids(longer) ensures id in Ids(front) + {steps[i].id} {
      var k :| 0 <= k < |longer| && longer[k].id == id;
      assert k < i ==> front[k] == longer[k];
    }
    forall id | id in Ids(front) + {steps[i].id} ensures id in Ids(longer) {
      if id != steps[i].id {
        var k :| 0 <= k < |front| && front[k].id == id;
        assert longer[k] == front[k];
      } else {
        assert longer[i].id == id;
      }
    }
  }

  /** The graph has one node and one wire per id, and starts at the first step. */
  method CompileToGraph(steps: seq<Step>) returns (graph: StateGraph)
    ensures fresh(graph)
    ensures graph.nodes == StepMap(steps)
    ensures graph.wires == Wiring(steps)
    ensures graph.entry == if steps == [] then None else Some(steps[0].id)
  {
    graph := new StateGraph();
    var ids := Ids(steps);
    for i := 0 to |steps|
      invariant fresh(graph) && graph.entry == None && graph.wires == map[]
      invariant graph.nodes == StepMap(steps[..i])
    {
      StepMapSnoc(steps, i);
      graph.AddNode(steps[i]);
    }
    assert steps[..|steps|] == steps;
    if steps != [] {
      graph.SetEntryPoint(steps[0].id);
    }
    for i := 0 to |steps|
      invariant fresh(graph) && graph.nodes == StepMap(steps)
      invariant graph.entry == if steps == [] then None else Some(steps[0].id)
      invariant graph.wires == WireAll(StepMap(steps[..i]), ids)
    {
      StepMapSnoc(steps, i);
      graph.AddWire(steps[i].id, WireOf(steps[i], ids));
    }
  }

  // ----- runs of the wired graph -----

  /** What the two evaluations of a decision's condition yield: in the node, and in the
      router when the recorded branch cannot be followed. */
  datatype Outcome = Outcome(holds: bool, holdsAgain: bool)

  datatype ExecState = ExecState(at: Target, results: seq<StepResult>, trail: seq<Id>)

  function NodeResults(step: Step, o: Outcome): seq<StepResult> {
    match step.kind
    case Decision(_, t, f) => [StepResult(step.id, Some(if o.holds then t else f))]
    case Action | HitlGate | ParallelFork(_) => [StepResult(step.id, None)]
    case Join | End => []
  }

  function LastResultOf(results: seq<StepResult>, id: Id): Option<StepResult> {
    if results == [] then None
    else if results[|results| - 1].stepId == id then Some(results[|results| - 1])
    else LastResultOf(results[..|results| - 1], id)
  }

  function Route(id: Id, wire: Wire, results: seq<StepResult>, o: Outcome, ids: set<Id>): Target {
    match wire
    case Edge(to) => to
    case Router(_, t, f) =>
      var recorded := LastResultOf(results, id);
      if recorded.Some? && recorded.value.nextStep.Some? && Resolve(recorded.value.nextStep.value, ids).At?
      then Resolve(recorded.value.nextStep.value, ids)
      else Resolve(if o.holdsAgain then t else f, ids)
  }

  predicate Consistent(steps: seq<Step>, s: ExecState) {
    s.at.At? ==> s.at.id in Ids(steps)
  }

  function Start(steps: seq<Step>): ExecState {
    ExecState(if steps == [] then Finish else At(steps[0].id), [], [])
  }

  function Advance(steps: seq<Step>, s: ExecState, o: Outcome): (s': ExecState)
    requires Consistent(steps, s) && s.at.At?
    ensures Consistent(steps, s')
  {
    var id := s.at.id;
    var results := s.results + NodeResults(Lookup(steps, id), o);
    ExecState(Route(id, Wiring(steps)[id], results, o, Ids(steps)), results, s.trail + [id])
  }

  /** The state after at most n node visits. */
  function Run(steps: seq<Step>, outcomes: nat -> Outcome, n: nat): (s: ExecState)
    ensures Consistent(steps, s)
  {
    if n == 0 then
      assert steps != [] ==> steps[0].id in Ids(steps);
      Start(steps)
    else
      var s := Run(steps, outcomes, n - 1);
      if s.at.At? then Advance(steps, s, outcomes(n - 1)) else s
  }

  lemma ResolvedIsKnown(ref: Id, ids: set<Id>)
    ensures Resolve(ref, ids).At? <==> KnownRef(ref, ids) == [ref]
    ensures Resolve(ref, ids).At? ==> Resolve(ref, ids).id == ref && ref in KnownRef(ref, ids)
  {
  }

  /** A reference the executor follows. */
  predicate IsStep(steps: seq<Step>, ref: Id) {
    ref != "" && exists i :: 0 <= i < |steps| && steps[i].id == ref
  }

  lemma IdsAreStepIds(steps: seq<Step>, ref: Id)
    ensures Resolve(ref, Ids(steps)) == if IsStep(steps, ref) then At(ref) else Finish
  {
  }

  /** An ordinary step hands over to its next step if there is such a step, and otherwise ends
      the run; an END step always does. */
  lemma StepHandsOver(steps: seq<Step>, s: ExecState, o: Outcome)
    requires Consistent(steps, s) && s.at.At? && !Lookup(steps, s.at.id).kind.Decision?
    ensures var step := Lookup(steps, s.at.id);
            Advance(steps, s, o).at ==
              if !step.kind.End? && step.nextStep.Some? && IsStep(steps, step.nextStep.value)
              then At(step.nextStep.value) else Finish
  {
    var step := Lookup(steps, s.at.id);
    if step.nextStep.Some? {
      IdsAreStepIds(steps, step.nextStep.value);
    }
  }

  /** A decision hands over to the branch its node chose; if there is no such step, to the one
      the router chooses by itself; if there is none either, the run ends. */
  lemma DecisionFollowsItsCondition(steps: seq<Step>, s: ExecState, o: Outcome)
    requires Consistent(steps, s) && s.at.At? && Lookup(steps, s.at.id).kind.Decision?
    ensures var kind := Lookup(steps, s.at.id).kind;
            var chosen, again := if o.holds then kind.trueBranch else kind.falseBranch,
                                 if o.holdsAgain then kind.trueBranch else kind.falseBranch;
            Advance(steps, s, o).at ==
              if IsStep(steps, chosen) then At(chosen)
              else if IsStep(steps, again) then At(again) else Finish
  {
    var kind := Lookup(steps, s.at.id).kind;
    var results := s.results + NodeResults(Lookup(steps, s.at.id), o);
    assert results[|results| - 1].stepId == s.at.id;
    IdsAreStepIds(steps, kind.trueBranch);
    IdsAreStepIds(steps, kind.falseBranch);
  }

  /** Where a run may end: at an END step, or where a reference that could be followed is absent
      or names no step. */
  predicate MayEnd(steps: seq<Step>, step: Step) {
    match step.kind
    case End => true
    case Decision(_, t, f) => !IsStep(steps, t) || !IsStep(steps, f)
    case _ => step.nextStep.None? || !IsStep(steps, step.nextStep.value)
  }

  /** The visits began at the first step, and are over only where they may be. */
  ghost predicate Underway(steps: seq<Step>, s: ExecState)
    requires steps != []
  {
    if s.at.At? then (s.trail + [s.at.id])[0] == steps[0].id
    else s.trail != [] && s.trail[0] == steps[0].id && s.trail[|s.trail| - 1] in Ids(steps) &&
         MayEnd(steps, Lookup(steps, s.trail[|s.trail| - 1]))
  }

  lemma AdvanceIsUnderway(steps: seq<Step>, s: ExecState, o: Outcome, s': ExecState)
    requires steps != [] && Consistent(steps, s) && s.at.At? && Underway(steps, s) && s' == Advance(steps, s, o)
    ensures Underway(steps, s')
  {
    if Lookup(steps, s.at.id).kind.Decision? {
      DecisionFollowsItsCondition(steps, s, o);
    } else {
      StepHandsOver(steps, s, o);
    }
    assert (s.trail + [s.at.id])[|s.trail|] == s.at.id;
  }

  lemma StartIsUnderway(steps: seq<Step>)
    requires steps != []
    ensures Underway(steps, Start(steps))
  {
  }

  /** A run begins at the first step and does not end before it must. */
  lemma {:induction false} RunEndsWhereItMay(steps: seq<Step>, outcomes: nat -> Outcome, n: nat)
    requires steps != []
    ensures Underway(steps, Run(steps, outcomes, n))
  {
    if n == 0 {
      StartIsUnderway(steps);
    } else {
      RunEndsWhereItMay(steps, outcomes, n - 1);
      var s := Run(steps, outcomes, n - 1);
      if s.at.At? {
        AdvanceIsUnderway(steps, s, outcomes(n - 1), Run(steps, outcomes, n));
      }
    }
  }

  /** Every transition of the executor is an edge the compiler validated. */
  lemma TransitionIsValidatedEdge(steps: seq<Step>, s: ExecState, o: Outcome)
    requires Consistent(steps, s) && s.at.At? && Advance(steps, s, o).at.At?
    ensures (s.at.id, Advance(steps, s, o).at.id) in Edges(steps)
  {
    var ids := Ids(steps);
    var step, to := Lookup(steps, s.at.id), Advance(steps, s, o).at.id;
    var i :| 0 <= i < |steps| && steps[i] == step;
    var results := s.results + NodeResults(step, o);
    assert to in Successors(step, ids) by {
      match step.kind
      case Decision(_, t, f) =>
        assert results[|results| - 1].stepId == step.id;
        ResolvedIsKnown(t, ids);
        ResolvedIsKnown(f, ids);
      case _ =>
        ResolvedIsKnown(step.nextStep.value, ids);
    }
    EdgeListMeaning(steps, ids, step.id, to);
  }

  function ResultIds(results: seq<StepResult>): seq<Id> {
    seq(|results|, i requires 0 <= i < |results| => results[i].stepId)
  }

  /** The trail, with the current node, is a path of the validated graph. */
  ghost predicate OnPath(steps: seq<Step>, s: ExecState) {
    if s.at.At? then IsPath(Edges(steps), s.trail + [s.at.id])
    else s.trail == [] || IsPath(Edges(steps), s.trail)
  }

  /** The trail holds steps of the playbook, one for each visit so far. */
  ghost predicate TrailFits(steps: seq<Step>, s: ExecState, n: nat) {
    && (if s.at.At? then |s.trail| == n else |s.trail| <= n)
    && forall k :: 0 <= k < |s.trail| ==> s.trail[k] in Ids(steps)
  }

  lemma AdvanceFollowsEdges(steps: seq<Step>, s: ExecState, o: Outcome, n: nat)
    requires Consistent(steps, s) && s.at.At? && OnPath(steps, s) && TrailFits(steps, s, n)
    ensures OnPath(steps, Advance(steps, s, o)) && TrailFits(steps, Advance(steps, s, o), n + 1)
  {
    var s' := Advance(steps, s, o);
    if s'.at.At? {
      TransitionIsValidatedEdge(steps, s, o);
      PathGrows(Edges(steps), s'.trail, s'.at.id);
    }
  }

  lemma {:induction false} RunFollowsEdges(steps: seq<Step>, outcomes: nat -> Outcome, n: nat)
    ensures OnPath(steps, Run(steps, outcomes, n)) && TrailFits(steps, Run(steps, outcomes, n), n)
  {
    if n > 0 {
      RunFollowsEdges(steps, outcomes, n - 1);
      var s := Run(steps, outcomes, n - 1);
      if s.at.At? {
        AdvanceFollowsEdges(steps, s, outcomes(n - 1), n - 1);
      }
    }
  }

  lemma PathGrows(edges: seq<(Id, Id)>, p: seq<Id>, next: Id)
    requires IsPath(edges, p) && (p[|p| - 1], next) in edges
    ensures IsPath(edges, p + [next])
  {
    var q := p + [next];
    forall i | 0 < i < |q| ensures (q[i - 1], q[i]) in edges {
      assert q[i - 1] == p[i - 1] && (i < |p| ==> q[i] == p[i]);
    }
  }

  /** The nodes of these steps add a result, those of the others only a status. */
  predicate LeavesResult(step: Step) {
    !step.kind.Join? && !step.kind.End?
  }

  /** The visits that leave a result, in order. */
  function RecordedVisits(steps: seq<Step>, trail: seq<Id>): seq<Id> {
    if trail == [] then []
    else
      var id := trail[|trail| - 1];
      RecordedVisits(steps, trail[..|trail| - 1]) +
      if id in Ids(steps) && LeavesResult(Lookup(steps, id)) then [id] else []
  }

  lemma ResultIdsOfConcat(a: seq<StepResult>, b: seq<StepResult>)
    ensures ResultIds(a + b) == ResultIds(a) + ResultIds(b)
  {
  }

  lemma RecordedVisitsOfLonger(steps: seq<Step>, trail: seq<Id>, id: Id)
    requires id in Ids(steps)
    ensures RecordedVisits(steps, trail + [id])
         == RecordedVisits(steps, trail) + if LeavesResult(Lookup(steps, id)) then [id] else []
  {
    assert (trail + [id])[..|trail|] == trail;
  }

  lemma RecordedOneMore(steps: seq<Step>, s: ExecState, o: Outcome, s': ExecState)
    requires Consistent(steps, s) && s.at.At? && s' == Advance(steps, s, o)
    requires ResultIds(s.results) == RecordedVisits(steps, s.trail)
    ensures ResultIds(s'.results) == RecordedVisits(steps, s'.trail)
  {
    var added := NodeResults(Lookup(steps, s.at.id), o);
    ResultIdsOfConcat(s.results, added);
    RecordedVisitsOfLonger(steps, s.trail, s.at.id);
    assert ResultIds(added) == if LeavesResult(Lookup(steps, s.at.id)) then [s.at.id] else [];
  }

  /** The results of any run are those of its visits, one for each visit that leaves one, in
      the order of the visits. */
  lemma {:induction false} ResultsFollowTrail(steps: seq<Step>, outcomes: nat -> Outcome, n: nat)
    ensures ResultIds(Run(steps, outcomes, n).results) == RecordedVisits(steps, Run(steps, outcomes, n).trail)
  {
    if n > 0 {
      ResultsFollowTrail(steps, outcomes, n - 1);
      var s := Run(steps, outcomes, n - 1);
      if s.at.At? {
        RecordedOneMore(steps, s, outcomes(n - 1), Run(steps, outcomes, n));
      }
    }
  }

  lemma DistinctFront(trail: seq<Id>, id: Id)
    requires Distinct(trail + [id])
    ensures Distinct(trail) && id !in trail
  {
    var longer := trail + [id];
    forall i | 0 <= i < |trail| ensures trail[i] != id {
      assert longer[i] == trail[i] && longer[|trail|] == id;
    }
    forall i, j | 0 <= i < j < |trail| ensures trail[i] != trail[j] {
      assert longer[i] == trail[i] && longer[j] == trail[j];
    }
  }

  lemma {:induction false} RecordedVisitsAreDistinct(steps: seq<Step>, trail: seq<Id>)
    requires Distinct(trail)
    ensures Distinct(RecordedVisits(steps, trail))
    ensures forall id :: id in RecordedVisits(steps, trail) ==> id in trail
  {
    if trail != [] {
      var front, id := trail[..|trail| - 1], trail[|trail| - 1];
      assert trail == front + [id];
      DistinctFront(front, id);
      RecordedVisitsAreDistinct(steps, front);
    }
  }

  /** An accepted playbook runs to its end within as many visits as it has steps, whatever
      its decisions yield; no step is visited twice and no step has two results. */
  lemma AcceptedPlaybookTerminates(steps: seq<Step>, outcomes: nat -> Outcome)
    requires Accepted(steps)
    ensures Run(steps, outcomes, |steps|).at == Finish
    ensures |Run(steps, outcomes, |steps|).trail| <= |steps|
    ensures Distinct(Run(steps, outcomes, |steps|).trail)
    ensures Distinct(ResultIds(Run(steps, outcomes, |steps|).results))
  {
    var s := Run(steps, outcomes, |steps|);
    RunFollowsEdges(steps, outcomes, |steps|);
    if s.at.At? {
      var p := s.trail + [s.at.id];
      AcyclicPathIsDistinct(Edges(steps), p);
      IdsFit(steps);
      DistinctFits(p, Ids(steps));
    } else if s.trail != [] {
      AcyclicPathIsDistinct(Edges(steps), s.trail);
    }
    ResultsFollowTrail(steps, outcomes, |steps|);
    RecordedVisitsAreDistinct(steps, s.trail);
  }

  lemma {:induction false} IdsFit(steps: seq<Step>)
    ensures |Ids(steps)| <= |steps|
  {
    if steps != [] {
      var front := steps[..|steps| - 1];
      IdsFit(front);
      StepMapSnoc(steps, |steps| - 1);
      assert steps[..|steps|] == steps;
    }
  }
}
