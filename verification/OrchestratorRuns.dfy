/** Runs of the orchestrator graph: when they end, what they approve, what they accumulate. */
module OrchestratorRuns {
  import opened Results
  import opened Orchestrator

  datatype Config = Config(at: Target, s: State)

  function Next(c: Config, inp: Input): Config
    requires c.at.At?
  {
    var s := Visit(c.at.node, c.s, inp);
    Config(Follow(c.at.node, s), s)
  }

  /** The configuration after n node visits, or at the end of the run. */
  function Trace(s: State, inputs: nat -> Input, n: nat): Config {
    if n == 0 then Config(At(RouteTask), s)
    else
      var c := Trace(s, inputs, n - 1);
      if c.at.Finish? then c else Next(c, inputs(n - 1))
  }

  // ----- when a run ends -----

  /** A worker is visited for its own task only. */
  predicate Matched(c: Config) {
    c.at.At? && c.at.node in {Triage, Query, Enrich, Contain, Report, Coordination, Mitigation} ==>
      WorkerOf(c.s.task) == c.at.node
  }

  predicate TakesKnowledgeEdge(c: Config) {
    c.at == At(Synthesize) && ShouldContinue(SynthesizeNode(c.s)) == Knowledge
  }

  /** Visits still to come once no action is pending. */
  function Settled(s: State): nat {
    if NeedsEnrichment(s) then 4 else 1
  }

  /** A bound on the node visits still to come, unless the knowledge edge is taken. */
  function Left(c: Config): nat {
    if c.at.Finish? then 0
    else match c.at.node
      case RouteTask =>
        if c.s.messages != [] && c.s.messages[|c.s.messages| - 1].Assistant? && c.s.task == EnrichTask
        then (if AnyWith(c.s.actions, Proposed) then 6 else 3) else 9
      case Enrich => if AnyWith(c.s.actions, Proposed) then 5 else 2
      case Synthesize =>
        if AnyWith(c.s.actions, Proposed) then 3 + Settled(c.s)
        else if NeedsEnrichment(c.s) || c.s.status != PausedHitl then Settled(c.s)
        else 4
      case HitlCheckpoint => 2 + Settled(c.s)
      case Execute => (if AnyWith(c.s.actions, Proposed) then 4 else 1) + Settled(c.s)
      case _ => 8
  }

  lemma DecidedHasNoProposed(actions: seq<Action>, approved: bool)
    ensures !AnyWith(Decided(actions, approved), Proposed)
    ensures !AnyWith(Executed(actions), Approved)
    ensures AnyWith(Executed(actions), Proposed) ==> AnyWith(actions, Proposed)
  {
    if i :| 0 <= i < |actions| && Executed(actions)[i].status == Proposed {
      assert actions[i].status == Proposed;
    }
  }

  lemma StepComesCloser(c: Config, inp: Input)
    requires c.at.At? && Matched(c) && !TakesKnowledgeEdge(c)
    ensures Left(Next(c, inp)) < Left(c) && Matched(Next(c, inp))
  {
    DecidedHasNoProposed(c.s.actions, Approves(c.s.messages, inp));
  }

  lemma {:induction false} TraceIsMatched(s: State, inputs: nat -> Input, n: nat)
    ensures Matched(Trace(s, inputs, n))
  {
    if n > 0 {
      TraceIsMatched(s, inputs, n - 1);
    }
  }

  /** From a configuration at visit n, with these inputs to come: the run will take the
      knowledge edge. */
  predicate Doomed(c: Config, inputs: nat -> Input, n: nat) {
    c.s.knowledge != "" && c.at.At? &&
    match c.at.node
    case RouteTask =>
      var s := RouteNode(c.s, inputs(n));
      if s.task == EnrichTask then ReturnsToEnrich(s, inputs, n + 3)
      else s.task == TriageTask && NeedsEnrichment(TriageNode(s, inputs(n + 1)))
    case Triage => NeedsEnrichment(TriageNode(c.s, inputs(n)))
    case Enrich => ReturnsToEnrich(c.s, inputs, n + 2)
    case Synthesize =>
      NeedsEnrichment(c.s) || (c.s.task == EnrichTask &&
        if c.s.status == PausedHitl then !DecisionExecutes(c.s, inputs(n + 1))
        else ReturnsToEnrich(c.s, inputs, n + 1) && (AnyWith(c.s.actions, Proposed) || c.s.status == Investigating))
    case HitlCheckpoint => NeedsEnrichment(c.s) || (c.s.task == EnrichTask && !DecisionExecutes(c.s, inputs(n)))
    case Execute => NeedsEnrichment(c.s) || (c.s.task == EnrichTask && !AnyWith(c.s.actions, Approved))
    case _ => false
  }

  /** After the decision on the pending actions at least one is to be executed. */
  predicate DecisionExecutes(s: State, inp: Input) {
    AnyWith(Decided(s.actions, Approves(s.messages, inp)), Approved)
  }

  /** An enrichment whose findings do not end in an executed action; visit k would decide. */
  predicate ReturnsToEnrich(s: State, inputs: nat -> Input, k: nat) {
    AnyWith(s.actions, Proposed) ==> !DecisionExecutes(s, inputs(k))
  }

  /** Nothing executed while an action was still proposed. */
  predicate Orderly(c: Config) {
    c.at == At(Execute) ==> AnyWith(c.s.actions, Approved) && !AnyWith(c.s.actions, Proposed)
  }

  lemma StepIsOrderly(c: Config, inp: Input)
    requires c.at.At?
    ensures Orderly(Next(c, inp))
  {
    DecidedHasNoProposed(c.s.actions, Approves(c.s.messages, inp));
  }

  lemma DecisionUnaffected(s: State, t: State, inp: Input)
    requires t.actions == s.actions && (t.messages == s.messages || t.messages == s.messages + [Assistant])
    ensures DecisionExecutes(t, inp) == DecisionExecutes(s, inp)
  {
    assert (s.messages + [Assistant])[..|s.messages|] == s.messages;
  }

  lemma DoomAtSynthesize(c: Config, inputs: nat -> Input, n: nat)
    requires c.at == At(Synthesize)
    ensures Doomed(c, inputs, n) <==> Doomed(Next(c, inputs(n)), inputs, n + 1)
  {
    var t := SynthesizeNode(c.s);
    DecisionUnaffected(c.s, t, inputs(n + 1));
    if ShouldContinue(t) == Hitl {
      assert NeedsEnrichment(t) <==> NeedsEnrichment(c.s);
    }
  }

  lemma DoomAtCheckpoint(c: Config, inputs: nat -> Input, n: nat)
    requires c.at == At(HitlCheckpoint)
    ensures Doomed(c, inputs, n) <==> Doomed(Next(c, inputs(n)), inputs, n + 1)
  {
    DecidedHasNoProposed(c.s.actions, Approves(c.s.messages, inputs(n)));
    var t := HitlNode(c.s, inputs(n));
    assert NeedsEnrichment(t) <==> NeedsEnrichment(c.s);
  }

  lemma DoomAtExecute(c: Config, inputs: nat -> Input, n: nat)
    requires c.at == At(Execute) && Orderly(c)
    ensures Doomed(c, inputs, n) <==> Doomed(Next(c, inputs(n)), inputs, n + 1)
  {
    DecidedHasNoProposed(c.s.actions, false);
    var t := ExecuteNode(c.s);
    assert NeedsEnrichment(t) <==> NeedsEnrichment(c.s);
  }

  lemma DoomIsKept(c: Config, inputs: nat -> Input, n: nat)
    requires c.at.At? && Matched(c) && Orderly(c)
    ensures Doomed(c, inputs, n) <==> Doomed(Next(c, inputs(n)), inputs, n + 1)
  {
    match c.at.node
    case RouteTask =>
    case Enrich => DecisionUnaffected(c.s, EnrichNode(c.s, inputs(n)), inputs(n + 2));
    case Synthesize => DoomAtSynthesize(c, inputs, n);
    case HitlCheckpoint => DoomAtCheckpoint(c, inputs, n);
    case Execute => DoomAtExecute(c, inputs, n);
    case _ =>
  }

  predicate DoomedRun(s: State, inputs: nat -> Input) {
    Doomed(Config(At(RouteTask), s), inputs, 0)
  }

  lemma DoomAfterVisit(s: State, inputs: nat -> Input, n: nat, c: Config, d: Config)
    requires c == Trace(s, inputs, n) && d == Trace(s, inputs, n + 1) && Matched(c) && Orderly(c)
    ensures Doomed(c, inputs, n) == Doomed(d, inputs, n + 1)
  {
    if c.at.At? {
      assert d == Next(c, inputs(n));
      DoomIsKept(c, inputs, n);
    }
  }

  lemma {:induction false} TraceIsOrderly(s: State, inputs: nat -> Input, n: nat)
    ensures Orderly(Trace(s, inputs, n))
  {
    if n > 0 {
      TraceIsOrderly(s, inputs, n - 1);
      var c := Trace(s, inputs, n - 1);
      if c.at.At? {
        StepIsOrderly(c, inputs(n - 1));
      }
    }
  }

  function DoomAlong(s: State, inputs: nat -> Input): nat -> bool {
    (k: nat) => Doomed(Trace(s, inputs, k), inputs, k)
  }

  lemma DoomIsLevel(s: State, inputs: nat -> Input, n: nat)
    ensures DoomAlong(s, inputs)(n + 1) == DoomAlong(s, inputs)(n)
  {
    TraceIsMatched(s, inputs, n);
    TraceIsOrderly(s, inputs, n);
    DoomAfterVisit(s, inputs, n, Trace(s, inputs, n), Trace(s, inputs, n + 1));
  }

  lemma {:induction false} LevelAllAlong(f: nat -> bool, n: nat)
    requires forall k: nat :: f(k + 1) == f(k)
    ensures f(n) == f(0)
  {
    if n > 0 {
      LevelAllAlong(f, n - 1);
      assert f(n - 1 + 1) == f(n - 1);
    }
  }

  lemma DoomAlongTrace(s: State, inputs: nat -> Input, n: nat)
    ensures Doomed(Trace(s, inputs, n), inputs, n) == DoomedRun(s, inputs)
  {
    forall k: nat ensures DoomAlong(s, inputs)(k + 1) == DoomAlong(s, inputs)(k) {
      DoomIsLevel(s, inputs, k);
    }
    LevelAllAlong(DoomAlong(s, inputs), n);
  }

  lemma DoomedRunNeverEnds(s: State, inputs: nat -> Input, n: nat)
    requires DoomedRun(s, inputs)
    ensures Trace(s, inputs, n).at.At?
  {
    DoomAlongTrace(s, inputs, n);
  }

  lemma KnowledgeEdgeIsDoom(c: Config, inputs: nat -> Input, n: nat)
    requires TakesKnowledgeEdge(c)
    ensures Doomed(c, inputs, n)
  {
  }

  lemma LeftBounds(c: Config)
    ensures Left(c) <= 9 && (Left(c) == 0 <==> c.at.Finish?)
  {
  }

  function LeftAlong(s: State, inputs: nat -> Input): nat -> nat {
    (k: nat) => Left(Trace(s, inputs, k))
  }

  lemma ConfigComesCloser(c: Config, inp: Input, d: Config)
    requires Matched(c) && !TakesKnowledgeEdge(c) && d == if c.at.Finish? then c else Next(c, inp)
    ensures Left(d) < Left(c) || Left(d) == Left(c) == 0
  {
    LeftBounds(c);
    if c.at.At? {
      StepComesCloser(c, inp);
    }
  }

  lemma TraceComesCloser(s: State, inputs: nat -> Input, n: nat)
    requires !TakesKnowledgeEdge(Trace(s, inputs, n))
    ensures Descending(LeftAlong(s, inputs), n)
  {
    TraceIsMatched(s, inputs, n);
    ConfigComesCloser(Trace(s, inputs, n), inputs(n), Trace(s, inputs, n + 1));
  }

  predicate Descending(f: nat -> nat, k: nat) {
    f(k + 1) < f(k) || f(k + 1) == f(k) == 0
  }

  lemma {:induction false} DescendsToZero(f: nat -> nat, from: nat, n: nat)
    requires forall k :: from <= k < from + n ==> Descending(f, k)
    ensures f(from + n) == 0 || f(from + n) + n <= f(from)
  {
    if n > 0 {
      DescendsToZero(f, from, n - 1);
      assert Descending(f, from + n - 1);
    }
  }

  lemma UndoomedTakesNoKnowledgeEdge(s: State, inputs: nat -> Input, n: nat)
    requires !DoomedRun(s, inputs)
    ensures Matched(Trace(s, inputs, n)) && !TakesKnowledgeEdge(Trace(s, inputs, n))
  {
    TraceIsMatched(s, inputs, n);
    DoomAlongTrace(s, inputs, n);
    if TakesKnowledgeEdge(Trace(s, inputs, n)) {
      KnowledgeEdgeIsDoom(Trace(s, inputs, n), inputs, n);
    }
  }

  lemma NotDoomedDescends(s: State, inputs: nat -> Input, n: nat)
    requires !DoomedRun(s, inputs)
    ensures Descending(LeftAlong(s, inputs), n)
  {
    UndoomedTakesNoKnowledgeEdge(s, inputs, n);
    TraceComesCloser(s, inputs, n);
  }

  /** Every invocation, from any state and with any inputs, ends within 9 node visits, unless
      it is doomed: then it never ends. With no knowledge context none is doomed. */
  lemma EndsWithinNineOrNever(s: State, inputs: nat -> Input, n: nat)
    ensures !DoomedRun(s, inputs) && n >= 9 ==> Trace(s, inputs, n).at.Finish?
    ensures DoomedRun(s, inputs) ==> Trace(s, inputs, n).at.At?
    ensures s.knowledge == "" ==> !DoomedRun(s, inputs)
  {
    if DoomedRun(s, inputs) {
      DoomedRunNeverEnds(s, inputs, n);
    } else if n >= 9 {
      forall k: nat ensures Descending(LeftAlong(s, inputs), k) {
        NotDoomedDescends(s, inputs, k);
      }
      DescendsToZero(LeftAlong(s, inputs), 0, n);
      LeftBounds(Trace(s, inputs, 0));
      LeftBounds(Trace(s, inputs, n));
    }
  }

  lemma StaysLevelSomewhere(f: nat -> nat, from: nat, n: nat) returns (k: nat)
    requires f(from) < n && f(from + n) > 0
    ensures from <= k < from + n && !Descending(f, k)
  {
    k := from;
    while k < from + n && Descending(f, k)
      invariant from <= k <= from + n && forall j: nat :: from <= j < k ==> Descending(f, j)
    {
      k := k + 1;
    }
    if k == from + n {
      DescendsToZero(f, from, n);
    }
  }

  lemma LeftOfDoomedRun(s: State, inputs: nat -> Input, n: nat)
    requires DoomedRun(s, inputs)
    ensures 0 < LeftAlong(s, inputs)(n) < 10
  {
    DoomedRunNeverEnds(s, inputs, n);
    LeftBounds(Trace(s, inputs, n));
  }

  predicate TakesKnowledgeAt(s: State, inputs: nat -> Input, k: nat) {
    TakesKnowledgeEdge(Trace(s, inputs, k))
  }

  lemma NotDescendingTakesKnowledge(s: State, inputs: nat -> Input, n: nat)
    requires !Descending(LeftAlong(s, inputs), n)
    ensures TakesKnowledgeAt(s, inputs, n)
  {
    if !TakesKnowledgeEdge(Trace(s, inputs, n)) {
      TraceComesCloser(s, inputs, n);
    }
  }

  /** A doomed run goes back to enrichment for more knowledge again and again. */
  lemma DoomedRunLoops(s: State, inputs: nat -> Input, from: nat) returns (m: nat)
    requires DoomedRun(s, inputs)
    ensures from <= m <= from + 9 && TakesKnowledgeAt(s, inputs, m)
  {
    var left := LeftAlong(s, inputs);
    LeftOfDoomedRun(s, inputs, from);
    LeftOfDoomedRun(s, inputs, from + 10);
    m := StaysLevelSomewhere(left, from, 10);
    NotDescendingTakesKnowledge(s, inputs, m);
  }

  /** Doomed runs exist: with knowledge at hand and no action pending, every message that is
      classified as a request for enrichment starts one. */
  lemma EnrichmentRequestIsDoomed(s: State, inputs: nat -> Input)
    requires s.knowledge != "" && !AnyWith(s.actions, Proposed)
    requires s.messages != [] && s.messages[|s.messages| - 1].Human? && s.messages[|s.messages| - 1].text != ""
    requires inputs(0).classified == EnrichTask
    ensures DoomedRun(s, inputs)
  {
  }

  /** A critical alert with an action to approve and an analyst who approves it. */
  predicate LongestCase(s: State, inputs: nat -> Input) {
    && s.messages == [Human("x")] && s.agent == NoAgent && s.severity == Critical && s.knowledge == ""
    && s.iocs != [] && !AlreadyEnriched(s.iocs) && AnyWith(s.actions, Proposed)
    && inputs(0).classified == TriageTask && inputs(1).matches == []
    && inputs(3).reply == Some("yes") && inputs(3).approving("yes")
  }

  lemma LongestCasePauses(s: State, inputs: nat -> Input)
    requires LongestCase(s, inputs)
    ensures var c := Trace(s, inputs, 3);
            c.at == At(HitlCheckpoint) && c.s.actions == s.actions && NeedsEnrichment(c.s)
  {
    var c0 := Config(At(RouteTask), s);
    var c1 := Next(c0, inputs(0));
    assert c1.at == At(Triage) && c1.s.messages == s.messages && c1.s.actions == s.actions && c1.s.iocs == s.iocs;
    var c2 := Next(c1, inputs(1));
    assert c2.s.iocs == s.iocs && c2.s.severity == Critical && c2.s.task == TriageTask;
    var c3 := Next(c2, inputs(2));
    assert c3.at == At(HitlCheckpoint) && NeedsEnrichment(c3.s);
    assert Trace(s, inputs, 1) == c1;
    assert Trace(s, inputs, 2) == c2;
  }

  lemma LongestCaseExecutes(s: State, inputs: nat -> Input)
    requires LongestCase(s, inputs)
    ensures var c := Trace(s, inputs, 4);
            c.at == At(Execute) && c.s.actions == Decided(s.actions, true) && NeedsEnrichment(c.s)
  {
    LongestCasePauses(s, inputs);
    ProposedBecomesApproved(s.actions);
    var c3 := Trace(s, inputs, 3);
    assert Trace(s, inputs, 4) == Next(c3, inputs(3));
  }

  /** The bound is reached: an approved containment followed by enrichment takes 9 visits. */
  lemma NineVisitsAreReached(s: State, inputs: nat -> Input)
    requires LongestCase(s, inputs)
    ensures Trace(s, inputs, 8).at == At(Synthesize)
  {
    LongestCaseExecutes(s, inputs);
    var c4 := Trace(s, inputs, 4);
    var c5 := Next(c4, inputs(4));
    DecidedHasNoProposed(s.actions, true);
    DecidedHasNoProposed(Decided(s.actions, true), true);
    assert c5.at == At(Synthesize) && NeedsEnrichment(c5.s) && !AnyWith(c5.s.actions, Proposed);
    var c6 := Next(c5, inputs(5));
    assert c6.at == At(RouteTask) && c6.s.task == EnrichTask;
    var c7 := Next(c6, inputs(6));
    assert c7.at == At(Enrich);
    assert Trace(s, inputs, 5) == c5;
    assert Trace(s, inputs, 6) == c6;
    assert Trace(s, inputs, 7) == c7;
  }

  lemma ProposedBecomesApproved(actions: seq<Action>)
    requires AnyWith(actions, Proposed)
    ensures AnyWith(Decided(actions, true), Approved)
  {
    var i :| 0 <= i < |actions| && actions[i].status == Proposed;
    assert Decided(actions, true)[i].status == Approved;
  }

  // ----- enrichment runs at most once -----

  /** How often enrichment can still be visited before the run ends. */
  function EnrichmentsLeft(c: Config): nat {
    if c.at.Finish? then 0
    else match c.at.node
      case RouteTask => 1
      case Enrich => 1
      case Triage => 1
      case Synthesize => if NeedsEnrichment(c.s) then 1 else 0
      case HitlCheckpoint => if NeedsEnrichment(c.s) then 1 else 0
      case Execute => if NeedsEnrichment(c.s) then 1 else 0
      case _ => 0
  }

  lemma StepSpendsEnrichment(c: Config, inp: Input)
    requires c.at.At? && Matched(c) && !TakesKnowledgeEdge(c)
    ensures EnrichmentsLeft(Next(c, inp)) + (if c.at == At(Enrich) then 1 else 0) <= EnrichmentsLeft(c)
  {
  }

  function EnrichVisits(s: State, inputs: nat -> Input, n: nat): nat {
    if n == 0 then 0
    else EnrichVisits(s, inputs, n - 1) + if Trace(s, inputs, n - 1).at == At(Enrich) then 1 else 0
  }

  lemma EnrichmentIsSpentAt(s: State, inputs: nat -> Input, n: nat, c: Config)
    requires !DoomedRun(s, inputs) && c == Trace(s, inputs, n)
    ensures EnrichmentsLeft(Trace(s, inputs, n + 1)) + (if c.at == At(Enrich) then 1 else 0) <= EnrichmentsLeft(c)
  {
    UndoomedTakesNoKnowledgeEdge(s, inputs, n);
    if c.at.At? {
      StepSpendsEnrichment(c, inputs(n));
    }
  }

  lemma EnrichmentsLeftAtStart(s: State)
    ensures EnrichmentsLeft(Config(At(RouteTask), s)) == 1
  {
  }

  lemma {:induction false} EnrichmentIsSpent(s: State, inputs: nat -> Input, n: nat)
    requires !DoomedRun(s, inputs)
    ensures EnrichVisits(s, inputs, n) + EnrichmentsLeft(Trace(s, inputs, n)) <= 1
  {
    if n == 0 {
      EnrichmentsLeftAtStart(s);
    } else {
      EnrichmentIsSpent(s, inputs, n - 1);
      EnrichmentIsSpentAt(s, inputs, n - 1, Trace(s, inputs, n - 1));
    }
  }

  /** A run that ends enriches at most once, whether or not the enrichment succeeds. */
  lemma EnrichesAtMostOnce(s: State, inputs: nat -> Input, n: nat)
    requires !DoomedRun(s, inputs)
    ensures EnrichVisits(s, inputs, n) <= 1
  {
    EnrichmentIsSpent(s, inputs, n);
  }

  // ----- no action is executed without approval -----

  /** What has become of the actions the run started with. */
  ghost predicate Ledger(start: seq<Action>, c: Config) {
    || (c.s.actions == start && c.at != At(Execute))
    || (c.s.actions == Decided(start, false) && c.at != At(Execute))
    || (c.s.actions == Decided(start, true) && c.at == At(Execute))
    || (c.s.actions == Executed(Decided(start, true)) && c.at != At(Execute))
  }

  lemma DecideTwice(start: seq<Action>, approved: bool, again: bool)
    requires !AnyWith(start, Approved)
    ensures Decided(Decided(start, approved), again) == Decided(start, approved)
    ensures Decided(Executed(Decided(start, true)), again) == Executed(Decided(start, true))
    ensures !AnyWith(Decided(start, false), Approved)
    ensures !AnyWith(start, Proposed) ==> Decided(start, approved) == start && Executed(start) == start
  {
    var no := Decided(start, false);
    assert forall i :: 0 <= i < |start| ==> no[i].status != Approved;
  }

  lemma StepKeepsLedger(start: seq<Action>, c: Config, inp: Input)
    requires !AnyWith(start, Approved) && c.at.At? && Ledger(start, c) && Orderly(c)
    ensures Ledger(start, Next(c, inp))
  {
    if c.at.node == HitlCheckpoint {
      var approved := Approves(c.s.messages, inp);
      DecideTwice(start, true, approved);
      DecideTwice(start, false, approved);
      DecidedHasNoProposed(Decided(start, true), approved);
      if c.s.actions == start && approved && !AnyWith(Decided(start, true), Approved) {
        NothingProposed(start);
      }
    }
  }

  lemma NothingProposed(start: seq<Action>)
    requires !AnyWith(Decided(start, true), Approved)
    ensures !AnyWith(start, Proposed)
  {
    forall i | 0 <= i < |start| ensures start[i].status != Proposed {
      assert Decided(start, true)[i].status != Approved;
    }
  }

  lemma {:induction false} LedgerAlongTrace(s: State, inputs: nat -> Input, n: nat)
    requires !AnyWith(s.actions, Approved)
    ensures Ledger(s.actions, Trace(s, inputs, n)) && Orderly(Trace(s, inputs, n))
  {
    if n > 0 {
      LedgerAlongTrace(s, inputs, n - 1);
      var c := Trace(s, inputs, n - 1);
      if c.at.At? {
        StepKeepsLedger(s.actions, c, inputs(n - 1));
        StepIsOrderly(c, inputs(n - 1));
      }
    }
  }

  /** Visit k was a checkpoint at which the human approved. */
  predicate ApprovedAt(s: State, inputs: nat -> Input, k: nat) {
    var c := Trace(s, inputs, k);
    c.at == At(HitlCheckpoint) && Approves(c.s.messages, inputs(k))
  }

  lemma StepIntoExecution(c: Config, inp: Input)
    requires c.at.At? && Next(c, inp).at == At(Execute)
    ensures c.at == At(HitlCheckpoint) && Next(c, inp).s.actions == Decided(c.s.actions, Approves(c.s.messages, inp))
    ensures AnyWith(Next(c, inp).s.actions, Approved)
  {
  }

  lemma ApprovedDecisionIsTheFirst(start: seq<Action>, c: Config, approved: bool)
    requires !AnyWith(start, Approved) && Ledger(start, c) && c.at != At(Execute)
    requires AnyWith(Decided(c.s.actions, approved), Approved)
    ensures approved && c.s.actions == start
  {
    DecideTwice(start, false, approved);
    DecideTwice(start, true, approved);
    DecidedHasNoProposed(Decided(start, true), approved);
    if !AnyWith(start, Proposed) {
      DecideTwice(start, approved, approved);
    }
  }

  // ----- approval without a reply -----

  predicate NoReplyUpTo(inputs: nat -> Input, n: nat) {
    forall k: nat {:trigger inputs(k)} :: k <= n ==> inputs(k).reply == None
  }

  /** A text reads as approval, or does not, whenever it is read. */
  ghost predicate ReadsAlike(inputs: nat -> Input, approving: string -> bool, n: nat) {
    forall k: nat {:trigger inputs(k)} :: k <= n ==> inputs(k).approving == approving
  }

  lemma VisitKeepsLastHuman(node: Node, s: State, inp: Input)
    requires inp.reply == None
    ensures LastHumanText(Visit(node, s, inp).messages) == LastHumanText(s.messages)
  {
    assert (s.messages + [Assistant])[..|s.messages|] == s.messages;
  }

  /** While no reply arrives, the last human message stays the one the run started with. */
  lemma {:induction false} LastHumanStays(s: State, inputs: nat -> Input, n: nat)
    requires n > 0 ==> NoReplyUpTo(inputs, n - 1)
    ensures LastHumanText(Trace(s, inputs, n).s.messages) == LastHumanText(s.messages)
  {
    if n > 0 {
      LastHumanStays(s, inputs, n - 1);
      var c := Trace(s, inputs, n - 1);
      if c.at.At? {
        VisitKeepsLastHuman(c.at.node, c.s, inputs(n - 1));
      }
    }
  }

  /** So a checkpoint without a reply approves exactly if that message, whatever it asked for,
      is not empty and reads as approval. */
  lemma UnansweredCheckpointApprovesIff(s: State, inputs: nat -> Input, n: nat)
    requires NoReplyUpTo(inputs, n) && Trace(s, inputs, n).at == At(HitlCheckpoint)
    ensures ApprovedAt(s, inputs, n) <==>
            LastHumanText(s.messages) != "" && inputs(n).approving(LastHumanText(s.messages))
  {
    LastHumanStays(s, inputs, n);
  }

  lemma PendingActionMeetsCheckpoint(s: State, inputs: nat -> Input) returns (n: nat)
    requires AnyWith(s.actions, Proposed)
    ensures 2 <= n <= 3 && Trace(s, inputs, n).at == At(HitlCheckpoint) && Trace(s, inputs, n).s.actions == s.actions
  {
    var c1 := Next(Config(At(RouteTask), s), inputs(0));
    assert Trace(s, inputs, 1) == c1 && c1.s.actions == s.actions;
    var c2 := Next(c1, inputs(1));
    assert Trace(s, inputs, 2) == c2 && c2.s.actions == s.actions;
    if c1.at == At(Synthesize) {
      n := 2;
    } else {
      assert c2.at == At(Synthesize);
      n := 3;
    }
  }

  /** A run with pending actions and without replies reaches a checkpoint; the message it
      started with then decides whether they are executed. */
  lemma OldMessageDecides(s: State, inputs: nat -> Input, approving: string -> bool) returns (n: nat)
    requires AnyWith(s.actions, Proposed) && !AnyWith(s.actions, Approved)
    requires NoReplyUpTo(inputs, 3) && ReadsAlike(inputs, approving, 3)
    ensures 2 <= n <= 3 && Trace(s, inputs, n).at == At(HitlCheckpoint)
    ensures Trace(s, inputs, n + 1).at == At(Execute) <==>
            LastHumanText(s.messages) != "" && approving(LastHumanText(s.messages))
  {
    n := PendingActionMeetsCheckpoint(s, inputs);
    UnansweredCheckpointApprovesIff(s, inputs, n);
    CheckpointExecutesIff(Trace(s, inputs, n), inputs(n));
  }

  lemma CheckpointExecutesIff(c: Config, inp: Input)
    requires c.at == At(HitlCheckpoint) && AnyWith(c.s.actions, Proposed) && !AnyWith(c.s.actions, Approved)
    ensures Next(c, inp).at == At(Execute) <==> Approves(c.s.messages, inp)
  {
    if Approves(c.s.messages, inp) {
      ProposedBecomesApproved(c.s.actions);
    } else {
      DecideTwice(c.s.actions, false, false);
    }
  }

  /** An instance: a request, which nobody answers, executes what it finds pending. */
  lemma OldMessageApproves(s: State, inputs: nat -> Input, approving: string -> bool) returns (n: nat)
    requires LastHumanText(s.messages) == "please proceed"
    requires AnyWith(s.actions, Proposed) && !AnyWith(s.actions, Approved)
    requires NoReplyUpTo(inputs, 3) && ReadsAlike(inputs, approving, 3) && approving("please proceed")
    ensures n <= 3 && Trace(s, inputs, n + 1).at == At(Execute)
  {
    n := OldMessageDecides(s, inputs, approving);
  }

  /** Execution directly follows the checkpoint whose approval it carries out. */
  lemma ExecutionFollowsApproval(s: State, inputs: nat -> Input, n: nat)
    requires !AnyWith(s.actions, Approved) && Trace(s, inputs, n).at == At(Execute)
    ensures n > 0 && ApprovedAt(s, inputs, n - 1)
    ensures Trace(s, inputs, n - 1).s.actions == s.actions && Trace(s, inputs, n).s.actions == Decided(s.actions, true)
  {
    var c := Trace(s, inputs, n - 1);
    LedgerAlongTrace(s, inputs, n - 1);
    StepIntoExecution(c, inputs(n - 1));
    ApprovedDecisionIsTheFirst(s.actions, c, Approves(c.s.messages, inputs(n - 1)));
  }

  predicate SameIdentities(a: seq<Action>, b: seq<Action>) {
    |a| == |b| && forall i :: 0 <= i < |a| ==>
      a[i].id == b[i].id && a[i].kind == b[i].kind && a[i].target == b[i].target
  }

  /** Along a run that starts with no approved action: the list of actions keeps its length,
      order and identities; an action that was not proposed is never touched; and one that
      became completed was proposed, an earlier checkpoint approved, and then all proposed
      actions share its fate. */
  lemma ActionsFollowTheHuman(s: State, inputs: nat -> Input, n: nat, i: nat)
    requires !AnyWith(s.actions, Approved) && i < |s.actions|
    ensures SameIdentities(s.actions, Trace(s, inputs, n).s.actions)
    ensures var now := Trace(s, inputs, n).s.actions;
            && (s.actions[i].status != Proposed ==> now[i] == s.actions[i])
            && (s.actions[i].status == Proposed ==> now[i].status in {Proposed, Approved, Completed, Rejected})
            && (forall j :: 0 <= j < |now| && s.actions[i].status == Proposed == s.actions[j].status ==>
                  now[i].status == now[j].status)
  {
    LedgerAlongTrace(s, inputs, n);
  }

  predicate Authorised(actions: seq<Action>, i: nat) {
    i < |actions| && (actions[i].status == Approved || actions[i].status == Completed)
  }

  lemma OnlyCheckpointsAuthorise(c: Config, inp: Input, i: nat)
    requires c.at.At? && Authorised(Next(c, inp).s.actions, i) && !Authorised(c.s.actions, i)
    ensures c.at == At(HitlCheckpoint) && Approves(c.s.messages, inp)
  {
  }

  function AuthorisedAlong(s: State, inputs: nat -> Input, i: nat): nat -> bool {
    (k: nat) => Authorised(Trace(s, inputs, k).s.actions, i)
  }

  lemma {:induction false} FirstRise(p: nat -> bool, n: nat) returns (k: nat)
    requires !p(0) && p(n)
    ensures k < n && !p(k) && p(k + 1)
  {
    k := n - 1;
    if p(k) {
      k := FirstRise(p, k);
    }
  }

  lemma RiseIsApproval(s: State, inputs: nat -> Input, i: nat, k: nat)
    requires !Authorised(Trace(s, inputs, k).s.actions, i) && Authorised(Trace(s, inputs, k + 1).s.actions, i)
    ensures ApprovedAt(s, inputs, k)
  {
    OnlyCheckpointsAuthorise(Trace(s, inputs, k), inputs(k), i);
  }

  /** Whatever was not approved or completed at the start and is later, a human approved. */
  lemma CompletionNeedsApproval(s: State, inputs: nat -> Input, n: nat, i: nat) returns (k: nat)
    requires !AuthorisedAlong(s, inputs, i)(0) && AuthorisedAlong(s, inputs, i)(n)
    ensures k < n && ApprovedAt(s, inputs, k)
  {
    k := FirstRise(AuthorisedAlong(s, inputs, i), n);
    RiseIsApproval(s, inputs, i, k);
  }

  /** A finished run has nothing pending. */
  predicate ClearAtEnd(c: Config) {
    c.at.Finish? ==> !AnyWith(c.s.actions, Proposed)
  }

  lemma {:induction false} ClearAlongTrace(s: State, inputs: nat -> Input, n: nat)
    ensures ClearAtEnd(Trace(s, inputs, n))
  {
    if n > 0 {
      ClearAlongTrace(s, inputs, n - 1);
    }
  }

  lemma LedgerWithoutApproved(start: seq<Action>, c: Config)
    requires !AnyWith(start, Approved) && Ledger(start, c) && c.at != At(Execute) && !AnyWith(c.s.actions, Proposed)
    ensures !AnyWith(c.s.actions, Approved)
  {
    DecideTwice(start, false, false);
    DecidedHasNoProposed(Decided(start, true), true);
  }

  /** At the end nothing is left to decide or to execute. */
  lemma NothingPendingAtEnd(s: State, inputs: nat -> Input, n: nat)
    requires !AnyWith(s.actions, Approved) && Trace(s, inputs, n).at.Finish?
    ensures !AnyWith(Trace(s, inputs, n).s.actions, Proposed) && !AnyWith(Trace(s, inputs, n).s.actions, Approved)
  {
    ClearAlongTrace(s, inputs, n);
    LedgerAlongTrace(s, inputs, n);
    LedgerWithoutApproved(s.actions, Trace(s, inputs, n));
  }

  // ----- what a run accumulates -----

  predicate DistinctKeys(iocs: seq<Ioc>) {
    forall i, j :: 0 <= i < j < |iocs| ==> iocs[i].key != iocs[j].key
  }

  /** Indicators keep position and key, the timeline and the transcript grow at the end, and
      the severity does not sink. */
  predicate Grows(s: State, t: State) {
    && |s.iocs| <= |t.iocs| && (forall i :: 0 <= i < |s.iocs| ==> s.iocs[i].key == t.iocs[i].key)
    && s.timeline <= t.timeline && s.messages <= t.messages
    && Rank(s.severity) <= Rank(t.severity)
  }

  lemma KeySetSnoc(iocs: seq<Ioc>, x: Ioc)
    ensures KeySet(iocs + [x]) == KeySet(iocs) + {x.key}
  {
    var longer := iocs + [x];
    assert longer[|iocs|].key == x.key;
    forall k | k in KeySet(iocs) ensures k in KeySet(longer) {
      var i :| 0 <= i < |iocs| && iocs[i].key == k;
      assert longer[i].key == k;
    }
  }

  /** What extraction adds: the matched keys that were not known, each once. */
  lemma {:induction false} FreshIocsAreFresh(matches: seq<IocKey>, known: set<IocKey>)
    ensures DistinctKeys(FreshIocs(matches, known))
    ensures KeySet(FreshIocs(matches, known)) == (set k | k in matches) - known
  {
    if matches != [] {
      var front, last := matches[..|matches| - 1], matches[|matches| - 1];
      FreshIocsAreFresh(front, known);
      assert matches == front + [last];
      assert (set k | k in matches) == (set k | k in front) + {last};
      var before := FreshIocs(front, known);
      if last !in known && last !in front {
        KeySetSnoc(before, NewIoc(last));
        forall i | 0 <= i < |before| ensures before[i].key != last {
          assert before[i].key in KeySet(before);
        }
      } else {
        assert FreshIocs(matches, known) == before;
        assert (set k | k in matches) - known == (set k | k in front) - known;
      }
    }
  }

  lemma VisitGrows(node: Node, s: State, inp: Input)
    ensures Grows(s, Visit(node, s, inp))
    ensures DistinctKeys(s.iocs) ==> DistinctKeys(Visit(node, s, inp).iocs)
  {
    var added := FreshIocs(inp.matches, KeySet(s.iocs));
    FreshIocsAreFresh(inp.matches, KeySet(s.iocs));
    forall i, j | 0 <= i < |s.iocs| && 0 <= j < |added| ensures s.iocs[i].key != added[j].key {
      assert s.iocs[i].key in KeySet(s.iocs) && added[j].key in KeySet(added);
    }
  }

  lemma GrowsIsTransitive(s: State, t: State, u: State)
    requires Grows(s, t) && Grows(t, u)
    ensures Grows(s, u)
  {
  }

  lemma TraceGrows(s: State, inputs: nat -> Input, n: nat)
    ensures Grows(Trace(s, inputs, n).s, Trace(s, inputs, n + 1).s)
    ensures DistinctKeys(Trace(s, inputs, n).s.iocs) ==> DistinctKeys(Trace(s, inputs, n + 1).s.iocs)
  {
    var c := Trace(s, inputs, n);
    if c.at.At? {
      VisitGrows(c.at.node, c.s, inputs(n));
    }
  }

  /** Along every run, from any earlier visit to any later one. */
  lemma {:induction false} RunGrows(s: State, inputs: nat -> Input, m: nat, n: nat)
    requires m <= n
    ensures Grows(Trace(s, inputs, m).s, Trace(s, inputs, n).s)
    ensures DistinctKeys(Trace(s, inputs, m).s.iocs) ==> DistinctKeys(Trace(s, inputs, n).s.iocs)
    decreases n - m
  {
    if m < n {
      RunGrows(s, inputs, m + 1, n);
      TraceGrows(s, inputs, m);
      GrowsIsTransitive(Trace(s, inputs, m).s, Trace(s, inputs, m + 1).s, Trace(s, inputs, n).s);
    }
  }
}
