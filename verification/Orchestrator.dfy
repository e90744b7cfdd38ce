/** The investigation orchestrator: its state, its nodes and its conditional edges. What a
    model, a keyword table, a pattern or a human contributes to a visit is an input of it. */
module Orchestrator {
  import opened Results

  datatype Status =
    | Pending | Triaging | Investigating | Paused | PausedHitl | Contained
    | Remediated | Closed | Failed | Cancelled | Archived

  datatype Severity = Info | Low | Medium | High | Critical | UnknownSeverity(name: string)

  datatype ActionStatus = Proposed | Approved | Executing | Completed | ActionFailed | RolledBack | Rejected

  datatype Action = Action(id: string, kind: string, target: string, status: ActionStatus, approvedBy: Option<string>)

  /** A verdict may come without a confidence. */
  datatype Verdict = Verdict(confidence: Option<real>, malicious: bool)

  /** Verdicts are filed under keys as the sources spell them: in lower case and stripped. */
  datatype Enrichment = Enrichment(verdicts: map<IocKey, Verdict>, normalize: IocKey -> IocKey)

  datatype IocKey = IocKey(kind: string, value: string)

  datatype Ioc = Ioc(key: IocKey, confidence: real, enrichment: Option<Verdict>)

  datatype Message = Human(text: string) | Assistant

  datatype Entry = TriageEntry | QueryEntry | EnrichEntry | ReportEntry | CoordinationEntry | MitigationEntry

  datatype Task =
    | TriageTask | QueryTask | EnrichTask | ContainTask | ReportTask | CoordinationTask | MitigationTask
    | GeneralTask | UnknownTask(name: string)

  datatype Node =
    | RouteTask | Triage | Query | Enrich | Contain | Report | Coordination | Mitigation
    | Synthesize | HitlCheckpoint | Execute

  /** The agent named in the state: none, `general`, some other name, or that of a node. */
  datatype Agent = NoAgent | GeneralAgent | OtherAgent(name: string) | AgentOf(node: Node)

  datatype State = State(
    messages: seq<Message>,
    task: Task,
    agent: Agent,
    severity: Severity,
    status: Status,
    iocs: seq<Ioc>,
    timeline: seq<Entry>,
    actions: seq<Action>,
    knowledge: string)

  /** What comes from outside during one node visit: the classification of the analyst's text,
      the indicators found in it and its scored severity, the enrichment results (none if the
      enricher raised), a reply given before the visit, and which texts read as approval. */
  datatype Input = Input(
    classified: Task,
    matches: seq<IocKey>,
    scored: Severity,
    enrichment: Option<Enrichment>,
    reply: Option<string>,
    approving: string -> bool)

  // ----- helpers of the nodes -----

  function LastHumanText(messages: seq<Message>): string {
    if messages == [] then ""
    else
      match messages[|messages| - 1]
      case Human(text) => text
      case Assistant => LastHumanText(messages[..|messages| - 1])
  }

  function Rank(s: Severity): nat {
    match s
    case Info => 0
    case Low => 1
    case Medium => 2
    case High => 3
    case Critical => 4
    case UnknownSeverity(_) => 2
  }

  function HighestSeverity(current: Severity, candidate: Severity): Severity {
    [Info, Low, Medium, High, Critical][if Rank(current) >= Rank(candidate) then Rank(current) else Rank(candidate)]
  }

  function Keys(iocs: seq<Ioc>): seq<IocKey> {
    seq(|iocs|, i requires 0 <= i < |iocs| => iocs[i].key)
  }

  function NewIoc(key: IocKey): Ioc {
    Ioc(key, 0.5, None)
  }

  /** The indicators among the matches that are not known yet, each once, in order. */
  function FreshIocs(matches: seq<IocKey>, known: set<IocKey>): seq<Ioc> {
    if matches == [] then []
    else
      var front, last := matches[..|matches| - 1], matches[|matches| - 1];
      FreshIocs(front, known) + if last in known || last in front then [] else [NewIoc(last)]
  }

  method ExtractIocs(matches: seq<IocKey>, existing: seq<Ioc>) returns (newIocs: seq<Ioc>)
    ensures newIocs == FreshIocs(matches, KeySet(existing))
  {
    var known := KeySet(existing);
    var existingKeys := known;
    newIocs := [];
    for i := 0 to |matches|
      invariant newIocs == FreshIocs(matches[..i], known)
      invariant existingKeys == known + set k | k in matches[..i]
    {
      assert matches[..i + 1][..i] == matches[..i];
      assert matches[..i + 1] == matches[..i] + [matches[i]];
      if matches[i] !in existingKeys {
        existingKeys := existingKeys + {matches[i]};
        newIocs := newIocs + [NewIoc(matches[i])];
      }
    }
    assert matches[..|matches|] == matches;
  }

  function KeySet(iocs: seq<Ioc>): set<IocKey> {
    set i | 0 <= i < |iocs| :: iocs[i].key
  }

  predicate AlreadyEnriched(iocs: seq<Ioc>) {
    exists i :: 0 <= i < |iocs| && iocs[i].enrichment.Some?
  }

  /** The verdict on an indicator, found under its normalised key. */
  function VerdictOn(key: IocKey, e: Enrichment): Option<Verdict> {
    if e.normalize(key) in e.verdicts then Some(e.verdicts[e.normalize(key)]) else None
  }

  function Enriched(i: Ioc, e: Enrichment): Ioc {
    match VerdictOn(i.key, e)
    case None => i
    case Some(v) =>
      i.(confidence := if v.confidence.Some? then v.confidence.value else i.confidence, enrichment := Some(v))
  }

  function MergedIocs(iocs: seq<Ioc>, e: Enrichment): seq<Ioc> {
    seq(|iocs|, i requires 0 <= i < |iocs| => Enriched(iocs[i], e))
  }

  predicate FlaggedMalicious(i: Ioc, e: Enrichment) {
    VerdictOn(i.key, e).Some? && VerdictOn(i.key, e).value.malicious
  }

  /** The positions, among the first n, of the indicators flagged as malicious. */
  function MaliciousAt(iocs: seq<Ioc>, n: nat, e: Enrichment): set<int>
    requires n <= |iocs|
  {
    set i | 0 <= i < n && FlaggedMalicious(iocs[i], e)
  }

  lemma MaliciousOneMore(iocs: seq<Ioc>, n: nat, e: Enrichment)
    requires n < |iocs|
    ensures |MaliciousAt(iocs, n + 1, e)| == |MaliciousAt(iocs, n, e)| + if FlaggedMalicious(iocs[n], e) then 1 else 0
  {
    var before, after := MaliciousAt(iocs, n, e), MaliciousAt(iocs, n + 1, e);
    if FlaggedMalicious(iocs[n], e) {
      assert after == before + {n};
      OneMoreElement(before, n);
    } else {
      assert after == before;
    }
  }

  lemma OneMoreElement(s: set<int>, x: int)
    requires x !in s
    ensures |s + {x}| == |s| + 1
  {
  }

  method MergeEnrichment(iocs: seq<Ioc>, e: Enrichment) returns (merged: seq<Ioc>, maliciousCount: nat)
    ensures merged == MergedIocs(iocs, e) && maliciousCount == |MaliciousAt(iocs, |iocs|, e)|
  {
    merged, maliciousCount := [], 0;
    for i := 0 to |iocs|
      invariant merged == MergedIocs(iocs[..i], e) && maliciousCount == |MaliciousAt(iocs, i, e)|
    {
      MaliciousOneMore(iocs, i, e);
      var ioc := iocs[i];
      var key := e.normalize(ioc.key);
      if key in e.verdicts {
        var v := e.verdicts[key];
        if v.malicious { maliciousCount := maliciousCount + 1; }
        if v.confidence.Some? { ioc := ioc.(confidence := v.confidence.value); }
        ioc := ioc.(enrichment := Some(v));
      }
      merged := merged + [ioc];
    }
    assert iocs[..|iocs|] == iocs;
  }

  predicate AnyWith(actions: seq<Action>, status: ActionStatus) {
    exists i :: 0 <= i < |actions| && actions[i].status == status
  }

  function DecidedAction(a: Action, approved: bool): Action {
    if a.status != Proposed then a
    else if approved then a.(status := Approved, approvedBy := Some("human_analyst"))
    else a.(status := Rejected)
  }

  function Decided(actions: seq<Action>, approved: bool): seq<Action> {
    seq(|actions|, i requires 0 <= i < |actions| => DecidedAction(actions[i], approved))
  }

  method DecideActions(actions: seq<Action>, approved: bool) returns (updated: seq<Action>)
    ensures updated == Decided(actions, approved)
  {
    updated := [];
    for i := 0 to |actions|
      invariant updated == Decided(actions[..i], approved)
    {
      var a := actions[i];
      if a.status == Proposed {
        if approved {
          a := a.(status := Approved, approvedBy := Some("human_analyst"));
        } else {
          a := a.(status := Rejected);
        }
      }
      updated := updated + [a];
    }
  }

  function Executed(actions: seq<Action>): seq<Action> {
    seq(|actions|, i requires 0 <= i < |actions| =>
      if actions[i].status == Approved then actions[i].(status := Completed) else actions[i])
  }

  method ExecuteActions(actions: seq<Action>) returns (updated: seq<Action>, executed: bool)
    ensures updated == Executed(actions) && (executed <==> AnyWith(actions, Approved))
  {
    updated, executed := [], false;
    for i := 0 to |actions|
      invariant updated == Executed(actions[..i])
      invariant executed <==> exists k :: 0 <= k < i && actions[k].status == Approved
    {
      var a := actions[i];
      if a.status == Approved {
        a := a.(status := Completed);
        executed := true;
      }
      updated := updated + [a];
    }
  }

  /** A human approves with a text that reads as approval; without a text nothing is approved. */
  predicate Approves(messages: seq<Message>, inp: Input) {
    var text := if inp.reply.Some? then inp.reply.value else LastHumanText(messages);
    text != "" && inp.approving(text)
  }

  // ----- nodes: the state after a visit -----

  function WorkerOf(task: Task): Node {
    match task
    case TriageTask => Triage
    case QueryTask => Query
    case EnrichTask => Enrich
    case ContainTask => Contain
    case ReportTask => Report
    case CoordinationTask => Coordination
    case MitigationTask => Mitigation
    case GeneralTask => Synthesize
    case UnknownTask(_) => Synthesize
  }

  function Routed(s: State, task: Task): State {
    s.(task := task, agent := AgentOf(WorkerOf(task)), status := Investigating)
  }

  function RouteNode(s: State, inp: Input): State {
    if s.messages == [] then s.(task := GeneralTask, agent := GeneralAgent, status := Investigating)
    else
      match s.messages[|s.messages| - 1]
      case Assistant => Routed(s, s.task)
      case Human(text) =>
        if text == "" then s
        else if inp.classified.GeneralTask? && s.agent != NoAgent && s.agent != GeneralAgent then Routed(s, s.task)
        else Routed(s, inp.classified)
  }

  function Said(s: State): State {
    s.(messages := s.messages + [Assistant])
  }

  function TriageNode(s: State, inp: Input): State {
    if LastHumanText(s.messages) == "" then Said(s).(agent := AgentOf(Triage))
    else
      Said(s).(
        severity := HighestSeverity(s.severity, inp.scored),
        iocs := s.iocs + FreshIocs(inp.matches, KeySet(s.iocs)),
        timeline := s.timeline + [TriageEntry],
        agent := AgentOf(Triage),
        status := Triaging)
  }

  function QueryNode(s: State): State {
    if LastHumanText(s.messages) == "" then Said(s).(agent := AgentOf(Query))
    else Said(s).(timeline := s.timeline + [QueryEntry], agent := AgentOf(Query), status := Investigating)
  }

  function EnrichNode(s: State, inp: Input): State {
    var r := Said(s).(agent := AgentOf(Enrich), status := Investigating);
    if s.iocs == [] then r
    else r.(
      iocs := if inp.enrichment.Some? then MergedIocs(s.iocs, inp.enrichment.value) else s.iocs,
      timeline := s.timeline + [EnrichEntry])
  }

  function ContainNode(s: State): State {
    Said(s).(agent := AgentOf(Contain), status := Investigating)
  }

  function LoggingNode(s: State, node: Node, entry: Entry): State {
    Said(s).(timeline := s.timeline + [entry], agent := AgentOf(node), status := Investigating)
  }

  /** High or critical severity with indicators that were not enriched yet. */
  predicate NeedsEnrichment(s: State) {
    s.task == TriageTask && (s.severity == High || s.severity == Critical) && s.iocs != [] && !AlreadyEnriched(s.iocs)
  }

  function SynthesizeNode(s: State): State {
    if AnyWith(s.actions, Proposed) then Said(s).(status := PausedHitl, agent := AgentOf(Synthesize))
    else if NeedsEnrichment(s) then Said(s).(status := Investigating, task := EnrichTask, agent := AgentOf(Enrich))
    else Said(s).(agent := AgentOf(Synthesize))
  }

  /** The run stops before this node; a reply, if any, arrives before it resumes. */
  function HitlNode(s: State, inp: Input): State {
    var resumed := if inp.reply.Some? then s.(messages := s.messages + [Human(inp.reply.value)]) else s;
    Said(resumed).(
      actions := Decided(s.actions, Approves(s.messages, inp)),
      status := Investigating,
      agent := AgentOf(HitlCheckpoint))
  }

  function ExecuteNode(s: State): State {
    Said(s).(
      actions := Executed(s.actions),
      agent := AgentOf(Execute),
      status := if AnyWith(s.actions, Approved) then Contained else Investigating)
  }

  function Visit(node: Node, s: State, inp: Input): State {
    match node
    case RouteTask => RouteNode(s, inp)
    case Triage => TriageNode(s, inp)
    case Query => QueryNode(s)
    case Enrich => EnrichNode(s, inp)
    case Contain => ContainNode(s)
    case Report => LoggingNode(s, Report, ReportEntry)
    case Coordination => LoggingNode(s, Coordination, CoordinationEntry)
    case Mitigation => LoggingNode(s, Mitigation, MitigationEntry)
    case Synthesize => SynthesizeNode(s)
    case HitlCheckpoint => HitlNode(s, inp)
    case Execute => ExecuteNode(s)
  }

  // ----- edges -----

  datatype Choice = Continue | Knowledge | Hitl | End

  predicate Terminal(status: Status) {
    status == Closed || status == Remediated || status == Contained || status == Failed || status == Cancelled
  }

  function ShouldContinue(s: State): Choice {
    if s.status == PausedHitl then Hitl
    else if AnyWith(s.actions, Proposed) then Hitl
    else if Terminal(s.status) then End
    else if s.status == Investigating && s.task == EnrichTask && s.agent == AgentOf(Enrich) &&
            s.iocs != [] && !AlreadyEnriched(s.iocs) then Continue
    else if s.status == Investigating && s.task == EnrichTask && s.knowledge != "" then Knowledge
    else End
  }

  datatype Target = At(node: Node) | Finish

  /** Where a run goes after a node has been visited. */
  function Follow(node: Node, s: State): Target {
    match node
    case RouteTask => At(WorkerOf(s.task))
    case Synthesize =>
      (match ShouldContinue(s)
       case Continue => At(RouteTask)
       case Knowledge => At(RouteTask)
       case Hitl => At(HitlCheckpoint)
       case End => Finish)
    case HitlCheckpoint => At(if AnyWith(s.actions, Approved) then Execute else Synthesize)
    case _ => At(Synthesize)
  }
}
