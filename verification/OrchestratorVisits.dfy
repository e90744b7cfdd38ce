/** What the single visits of a run contribute to its outcome: the task that is routed, the
    severity, the indicators and their verdicts, the log, the decision of the human. */
module OrchestratorVisits {
  import opened Results
  import opened Orchestrator
  import opened OrchestratorRuns

  // ----- runs as sequences of configurations -----

  /** A run stands still once it has ended. */
  function Advance(c: Config, inp: Input): Config {
    if c.at.Finish? then c else Next(c, inp)
  }

  predicate Steps(run: nat -> Config, inputs: nat -> Input, k: nat) {
    run(k + 1) == Advance(run(k), inputs(k))
  }

  ghost predicate IsRun(s: State, inputs: nat -> Input, run: nat -> Config) {
    run(0) == Config(At(RouteTask), s) && forall k: nat :: Steps(run, inputs, k)
  }

  function Configs(s: State, inputs: nat -> Input): nat -> Config {
    (k: nat) => Trace(s, inputs, k)
  }

  lemma TraceAdvances(s: State, inputs: nat -> Input, k: nat, c: Config)
    requires c == Trace(s, inputs, k)
    ensures Trace(s, inputs, k + 1) == Advance(c, inputs(k))
  {
  }

  lemma TraceIsARun(s: State, inputs: nat -> Input)
    ensures IsRun(s, inputs, Configs(s, inputs))
  {
    forall k: nat ensures Steps(Configs(s, inputs), inputs, k) {
      TraceAdvances(s, inputs, k, Trace(s, inputs, k));
    }
  }

  lemma {:induction false} RunIsTheTrace(s: State, inputs: nat -> Input, run: nat -> Config, n: nat)
    requires IsRun(s, inputs, run)
    ensures run(n) == Trace(s, inputs, n)
  {
    if n > 0 {
      RunIsTheTrace(s, inputs, run, n - 1);
      TraceAdvances(s, inputs, n - 1, run(n - 1));
      assert Steps(run, inputs, n - 1);
    }
  }

  // ----- which worker a run visits -----

  function TaskName(task: Task): string {
    match task
    case TriageTask => "triage"
    case QueryTask => "query"
    case EnrichTask => "enrich"
    case ContainTask => "contain"
    case ReportTask => "report"
    case CoordinationTask => "coordination"
    case MitigationTask => "mitigation"
    case GeneralTask => "general"
    case UnknownTask(name) => name
  }

  function NodeName(node: Node): string {
    match node
    case RouteTask => "route_task"
    case Triage => "triage"
    case Query => "query"
    case Enrich => "enrich"
    case Contain => "contain"
    case Report => "report"
    case Coordination => "coordination"
    case Mitigation => "mitigation"
    case Synthesize => "synthesize"
    case HitlCheckpoint => "hitl_checkpoint"
    case Execute => "execute"
  }

  /** The node that does a task carries its name; what no worker does goes to synthesis. */
  predicate Does(node: Node, task: Task) {
    if task.GeneralTask? || task.UnknownTask? then node == Synthesize else NodeName(node) == TaskName(task)
  }

  predicate NewRequest(s: State) {
    s.messages != [] && s.messages[|s.messages| - 1].Human? && s.messages[|s.messages| - 1].text != ""
  }

  /** A vague follow-up stays with the agent that was at work. */
  predicate KeepsAgent(s: State, inp: Input) {
    inp.classified == GeneralTask && s.agent != NoAgent && s.agent != GeneralAgent
  }

  lemma WorkerDoes(task: Task)
    ensures Does(WorkerOf(task), task)
  {
  }

  lemma RoutingChooses(s: State, inp: Input)
    ensures var r := RouteNode(s, inp);
            && r.task == (if s.messages == [] then GeneralTask
                          else if NewRequest(s) && !KeepsAgent(s, inp) then inp.classified
                          else s.task)
            && (r.status == Investigating ||
                (r == s && s.messages != [] && s.messages[|s.messages| - 1] == Human("")))
  {
  }

  /** A run begins with the worker for the task its last message asks for; a vague follow-up,
      an empty text and a transcript that ends with an assistant keep the task at hand. */
  lemma FirstWorkerDoesTheTask(s: State, inputs: nat -> Input, run: nat -> Config)
    requires IsRun(s, inputs, run)
    ensures run(1).at.At? && Does(run(1).at.node, run(1).s.task)
    ensures run(1).s.task == (if s.messages == [] then GeneralTask
                              else if NewRequest(s) && !KeepsAgent(s, inputs(0)) then inputs(0).classified
                              else s.task)
    ensures run(1).s.status == Investigating ||
            (run(1).s == s && s.messages != [] && s.messages[|s.messages| - 1] == Human(""))
  {
    assert Steps(run, inputs, 0);
    RoutingChooses(s, inputs(0));
    WorkerDoes(RouteNode(s, inputs(0)).task);
  }

  lemma BackToRouting(c: Config, inp: Input)
    requires c.at.At? && Next(c, inp).at == At(RouteTask)
    ensures var s := Next(c, inp).s;
            s.task == EnrichTask && s.messages != [] && s.messages[|s.messages| - 1].Assistant?
  {
  }

  /** Nothing is classified a second time: when a run comes back to routing, it goes on to
      enrichment. */
  lemma SecondRoutingEnriches(s: State, inputs: nat -> Input, n: nat)
    requires n > 0 && Trace(s, inputs, n).at == At(RouteTask)
    ensures Trace(s, inputs, n + 1).at == At(Enrich) && Trace(s, inputs, n + 1).s.task == EnrichTask
  {
    BackToRouting(Trace(s, inputs, n - 1), inputs(n - 1));
    assert Trace(s, inputs, n + 1) == Next(Trace(s, inputs, n), inputs(n));
  }

  // ----- what a visit leaves behind -----

  predicate HandsOver(s: State) {
    !Pending(s) && EnrichmentIsDue(s)
  }

  /** Knowledge never changes. The task changes by routing, and by a synthesis that hands over
      to enrichment; the actions by the decision and the execution; the indicators by triage
      and enrichment. */
  lemma VisitKeepsTheRest(c: Config, inp: Input)
    requires c.at.At?
    ensures var s, t := c.s, Next(c, inp).s;
            && t.knowledge == s.knowledge
            && (c.at.node != RouteTask && !(c.at.node == Synthesize && HandsOver(s)) ==> t.task == s.task)
            && (c.at.node != HitlCheckpoint && c.at.node != Execute ==> t.actions == s.actions)
            && (c.at.node != Triage && c.at.node != Enrich ==> t.iocs == s.iocs)
  {
  }

  /** A visit after routing names its own node as the agent; only a synthesis that hands over
      names the enrichment to come. */
  lemma VisitSigns(c: Config, inp: Input)
    requires c.at.At? && c.at.node != RouteTask
    ensures Next(c, inp).s.agent ==
            AgentOf(if c.at.node == Synthesize && HandsOver(c.s) then Enrich else c.at.node)
  {
  }

  /** The status a worker leaves; without a text to work on triage and query leave it alone. */
  lemma WorkerSetsStatus(c: Config, inp: Input)
    requires c.at.At? && c.at.node !in {RouteTask, Synthesize, Execute}
    ensures Next(c, inp).s.status ==
            if c.at.node in {Triage, Query} && LastHumanText(c.s.messages) == "" then c.s.status
            else if c.at.node == Triage then Triaging else Investigating
  {
  }

  predicate SignedAtEnd(c: Config) {
    c.at.Finish? ==> c.s.agent == AgentOf(Synthesize)
  }

  lemma AdvanceIsSigned(c: Config, inp: Input)
    requires SignedAtEnd(c)
    ensures SignedAtEnd(Advance(c, inp))
  {
    if c.at.At? && c.at.node == Synthesize {
      SynthesisTurns(c.s, inp);
      VisitSigns(c, inp);
    }
  }

  lemma {:induction false} EndIsSigned(s: State, inputs: nat -> Input, run: nat -> Config, n: nat)
    requires IsRun(s, inputs, run)
    ensures SignedAtEnd(run(n))
  {
    if n > 0 {
      EndIsSigned(s, inputs, run, n - 1);
      assert Steps(run, inputs, n - 1);
      AdvanceIsSigned(run(n - 1), inputs(n - 1));
    }
  }

  /** Every run ends in synthesis. So after it a vague follow-up, whatever it says, starts the
      worker of the task the run ended with once more. */
  lemma VagueFollowUpRepeatsTheTask(
    s: State, inputs: nat -> Input, run: nat -> Config, n: nat, text: string, t: State, more: nat -> Input,
    next: nat -> Config)
    requires IsRun(s, inputs, run) && run(n).at.Finish?
    requires t == run(n).s.(messages := run(n).s.messages + [Human(text)]) && text != ""
    requires IsRun(t, more, next) && more(0).classified == GeneralTask
    ensures next(1).s.task == run(n).s.task && next(1).at.At? && Does(next(1).at.node, run(n).s.task)
  {
    EndIsSigned(s, inputs, run, n);
    FirstWorkerDoesTheTask(t, more, next);
  }

  // ----- where synthesis turns -----

  predicate Pending(s: State) {
    exists i :: 0 <= i < |s.actions| && s.actions[i].status == Proposed
  }

  /** Triage found indicators of a high or critical alert, and none has been looked up. */
  predicate EnrichmentIsDue(s: State) {
    && s.task == TriageTask && s.severity in {High, Critical}
    && s.iocs != [] && forall i :: 0 <= i < |s.iocs| ==> s.iocs[i].enrichment == None
  }

  /** After synthesis: pending actions go to the human, a due enrichment goes back to routing,
      and so does an enrichment with knowledge at hand; everything else ends the run, unless
      it was paused before. */
  lemma SynthesisTurns(s: State, inp: Input)
    ensures var to := Next(Config(At(Synthesize), s), inp).at;
            && (to == At(HitlCheckpoint) <==> Pending(s) || (!EnrichmentIsDue(s) && s.status == PausedHitl))
            && (to == At(RouteTask) <==>
                  !Pending(s) &&
                  (EnrichmentIsDue(s) || (s.task == EnrichTask && s.status == Investigating && s.knowledge != "")))
            && to in {At(HitlCheckpoint), At(RouteTask), Finish}
  {
  }

  lemma CheckpointIsPaused(s: State, inputs: nat -> Input, n: nat)
    requires Trace(s, inputs, n).at == At(HitlCheckpoint)
    ensures Trace(s, inputs, n).s.status == PausedHitl
  {
    StepsIntoPause(Trace(s, inputs, n - 1), inputs(n - 1));
  }

  lemma StepsIntoPause(c: Config, inp: Input)
    requires c.at.At? && Next(c, inp).at == At(HitlCheckpoint)
    ensures Next(c, inp).s.status == PausedHitl
  {
  }

  // ----- the last human message -----

  predicate OnlyAssistant(messages: seq<Message>) {
    forall i :: 0 <= i < |messages| ==> messages[i].Assistant?
  }

  lemma {:induction false} LastHumanTextIs(before: seq<Message>, text: string, after: seq<Message>)
    requires OnlyAssistant(after)
    ensures LastHumanText(before + [Human(text)] + after) == text
  {
    var all := before + [Human(text)] + after;
    if after != [] {
      LastHumanTextIs(before, text, after[..|after| - 1]);
      assert all[..|all| - 1] == before + [Human(text)] + after[..|after| - 1];
      assert all[|all| - 1] == after[|after| - 1];
    }
  }

  lemma {:induction false} NoHumanNoText(messages: seq<Message>)
    requires OnlyAssistant(messages)
    ensures LastHumanText(messages) == ""
  {
    if messages != [] {
      NoHumanNoText(messages[..|messages| - 1]);
    }
  }

  // ----- severity -----

  /** An unknown name counts as medium. */
  predicate AtLeast(s: Severity, floor: Severity) {
    match floor
    case Info => true
    case Low => s != Info
    case Medium => s != Info && s != Low
    case High => s == High || s == Critical
    case Critical => s == Critical
    case UnknownSeverity(_) => s != Info && s != Low
  }

  /** The visit triages a text. */
  predicate Triages(c: Config) {
    c.at == At(Triage) && LastHumanText(c.s.messages) != ""
  }

  lemma RankOrders(a: Severity, b: Severity)
    ensures Rank(a) >= Rank(b) <==> AtLeast(a, b)
  {
  }

  /** A triage never answers less than the severity at hand or the scored one, and never more
      than both. */
  lemma TriageTakesTheWorse(s: State, inp: Input, floor: Severity)
    requires LastHumanText(s.messages) != ""
    ensures AtLeast(TriageNode(s, inp).severity, floor) <==> AtLeast(s.severity, floor) || AtLeast(inp.scored, floor)
  {
  }

  lemma VisitScores(c: Config, inp: Input, floor: Severity)
    ensures AtLeast(Advance(c, inp).s.severity, floor) ==
            (AtLeast(c.s.severity, floor) || (Triages(c) && AtLeast(inp.scored, floor)))
  {
    if Triages(c) {
      TriageTakesTheWorse(c.s, inp, floor);
    }
  }

  function SeverityAlong(run: nat -> Config, floor: Severity): nat -> bool {
    (k: nat) => AtLeast(run(k).s.severity, floor)
  }

  /** Visit k triages a text and scores it that high. */
  function ScoredAlong(run: nat -> Config, inputs: nat -> Input, floor: Severity): nat -> bool {
    (k: nat) => Triages(run(k)) && AtLeast(inputs(k).scored, floor)
  }

  predicate RisesBy(p: nat -> bool, q: nat -> bool, k: nat) {
    p(k + 1) == (p(k) || q(k))
  }

  ghost predicate Before(q: nat -> bool, n: nat) {
    exists k: nat :: k < n && q(k)
  }

  lemma {:induction false} RisesOnlyBy(p: nat -> bool, q: nat -> bool, n: nat)
    requires forall k: nat :: RisesBy(p, q, k)
    ensures p(n) == (p(0) || Before(q, n))
  {
    if n > 0 {
      RisesOnlyBy(p, q, n - 1);
      assert RisesBy(p, q, n - 1);
    }
  }

  /** Along every run the severity is the worst of the one at the start and those scored by
      the triages so far. */
  lemma SeverityIsTheWorstScored(s: State, inputs: nat -> Input, run: nat -> Config, n: nat, floor: Severity)
    requires IsRun(s, inputs, run)
    ensures AtLeast(run(n).s.severity, floor) ==
            (AtLeast(s.severity, floor) || Before(ScoredAlong(run, inputs, floor), n))
  {
    var p, q := SeverityAlong(run, floor), ScoredAlong(run, inputs, floor);
    forall k: nat ensures RisesBy(p, q, k) {
      assert Steps(run, inputs, k);
      VisitScores(run(k), inputs(k), floor);
    }
    RisesOnlyBy(p, q, n);
  }

  // ----- indicators and their verdicts -----

  /** Extraction goes through the matches in order: what it adds for the later ones depends
      on the earlier ones only by their keys. */
  lemma {:induction false} FreshIocsInOrder(a: seq<IocKey>, b: seq<IocKey>, known: set<IocKey>)
    ensures FreshIocs(a + b, known) == FreshIocs(a, known) + FreshIocs(b, known + set k | k in a)
  {
    if b == [] {
      assert a + b == a;
    } else {
      var front, last := b[..|b| - 1], b[|b| - 1];
      FreshIocsInOrder(a, front, known);
      assert (a + b)[..|a + b| - 1] == a + front && (a + b)[|a + b| - 1] == last;
    }
  }

  lemma FreshIocIsUnverified(key: IocKey, known: set<IocKey>)
    ensures FreshIocs([key], known) == if key in known then [] else [Ioc(key, 0.5, None)]
  {
    assert [key] == [] + [key];
    FreshIocsInOrder([], [key], known);
  }

  /** The verdict a visit files for the indicator at position i. */
  predicate Files(c: Config, inp: Input, i: nat, v: Verdict) {
    && c.at == At(Enrich) && i < |c.s.iocs| && inp.enrichment.Some?
    && var e := inp.enrichment.value;
       e.normalize(c.s.iocs[i].key) in e.verdicts && e.verdicts[e.normalize(c.s.iocs[i].key)] == v
  }

  /** An indicator changes only by the verdict filed under its normalised key; a confidence
      that comes with the verdict replaces its own. */
  lemma VisitFilesVerdicts(c: Config, inp: Input, i: nat)
    requires c.at.At? && i < |c.s.iocs|
    ensures var now := Next(c, inp).s.iocs;
            && i < |now|
            && ((forall v :: !Files(c, inp, i, v)) ==> now[i] == c.s.iocs[i])
            && (forall v :: Files(c, inp, i, v) ==> now[i] == Ioc(
                  c.s.iocs[i].key,
                  if v.confidence.Some? then v.confidence.value else c.s.iocs[i].confidence,
                  Some(v)))
  {
    if c.at.node == Enrich && inp.enrichment.Some? {
      var e := inp.enrichment.value;
      var key := e.normalize(c.s.iocs[i].key);
      if key in e.verdicts {
        assert Files(c, inp, i, e.verdicts[key]);
      }
    }
  }

  lemma MaliciousAreFiled(iocs: seq<Ioc>, e: Enrichment, i: nat)
    requires i < |iocs|
    ensures i in MaliciousAt(iocs, |iocs|, e) <==>
            e.normalize(iocs[i].key) in e.verdicts && e.verdicts[e.normalize(iocs[i].key)].malicious
  {
  }

  function EnrichVisitsAlong(s: State, inputs: nat -> Input): nat -> nat {
    (k: nat) => EnrichVisits(s, inputs, k)
  }

  function EnrichesAlong(run: nat -> Config): nat -> bool {
    (k: nat) => run(k).at == At(Enrich)
  }

  predicate Counts(f: nat -> nat, p: nat -> bool, k: nat) {
    f(k + 1) == f(k) + if p(k) then 1 else 0
  }

  lemma {:induction false} CountsUp(f: nat -> nat, p: nat -> bool, m: nat, n: nat)
    requires m <= n && forall k: nat :: Counts(f, p, k)
    ensures f(m) <= f(n)
  {
    if m < n {
      CountsUp(f, p, m, n - 1);
      assert Counts(f, p, n - 1);
    }
  }

  lemma AtMostOnce(f: nat -> nat, p: nat -> bool, m: nat, n: nat)
    requires m < n && p(m) && f(n + 1) <= 1 && forall k: nat :: Counts(f, p, k)
    ensures !p(n)
  {
    assert Counts(f, p, m) && Counts(f, p, n);
    CountsUp(f, p, m + 1, n);
  }

  lemma VisitsAreCounted(s: State, inputs: nat -> Input, run: nat -> Config, k: nat)
    requires IsRun(s, inputs, run)
    ensures Counts(EnrichVisitsAlong(s, inputs), EnrichesAlong(run), k)
  {
    RunIsTheTrace(s, inputs, run, k);
    CountOneMore(s, inputs, k, run(k));
  }

  lemma CountOneMore(s: State, inputs: nat -> Input, k: nat, c: Config)
    requires c == Trace(s, inputs, k)
    ensures EnrichVisits(s, inputs, k + 1) == EnrichVisits(s, inputs, k) + if c.at == At(Enrich) then 1 else 0
  {
  }

  lemma AllVisitsAreCounted(s: State, inputs: nat -> Input, run: nat -> Config)
    requires IsRun(s, inputs, run)
    ensures forall k: nat :: Counts(EnrichVisitsAlong(s, inputs), EnrichesAlong(run), k)
  {
    forall k: nat ensures Counts(EnrichVisitsAlong(s, inputs), EnrichesAlong(run), k) {
      VisitsAreCounted(s, inputs, run, k);
    }
  }

  lemma AtMostOneVisit(s: State, inputs: nat -> Input, n: nat)
    requires !DoomedRun(s, inputs)
    ensures EnrichVisitsAlong(s, inputs)(n) <= 1
  {
    EnrichesAtMostOnce(s, inputs, n);
  }

  lemma NoSecondEnrichment(s: State, inputs: nat -> Input, run: nat -> Config, m: nat, n: nat)
    requires IsRun(s, inputs, run) && !DoomedRun(s, inputs)
    requires m < n && EnrichesAlong(run)(m)
    ensures !EnrichesAlong(run)(n)
  {
    AllVisitsAreCounted(s, inputs, run);
    AtMostOneVisit(s, inputs, n + 1);
    AtMostOnce(EnrichVisitsAlong(s, inputs), EnrichesAlong(run), m, n);
  }

  /** The indicator at position i, with this key, has this verdict. */
  predicate HasVerdict(s: State, i: nat, key: IocKey, v: Verdict) {
    i < |s.iocs| && s.iocs[i].key == key && s.iocs[i].enrichment == Some(v)
  }

  function HasVerdictAlong(run: nat -> Config, i: nat, key: IocKey, v: Verdict): nat -> bool {
    (k: nat) => HasVerdict(run(k).s, i, key, v)
  }

  lemma OnlyEnrichmentFiles(c: Config, inp: Input, i: nat, key: IocKey, v: Verdict)
    requires c.at != At(Enrich) && HasVerdict(c.s, i, key, v)
    ensures HasVerdict(Advance(c, inp).s, i, key, v)
  {
    if c.at.At? {
      VisitFilesVerdicts(c, inp, i);
    }
  }

  lemma {:induction false} HoldsFrom(p: nat -> bool, m: nat, n: nat)
    requires m <= n && p(m) && forall k: nat :: m <= k && p(k) ==> p(k + 1)
    ensures p(n)
  {
    if m < n {
      HoldsFrom(p, m, n - 1);
      assert p(n - 1 + 1);
    }
  }

  /** The verdict a run that ends files for an indicator is the one it ends with. */
  lemma VerdictLasts(
    s: State, inputs: nat -> Input, run: nat -> Config, m: nat, i: nat, key: IocKey, v: Verdict, n: nat)
    requires IsRun(s, inputs, run) && !DoomedRun(s, inputs) && m < n
    requires Files(run(m), inputs(m), i, v) && key == run(m).s.iocs[i].key
    ensures HasVerdict(run(n).s, i, key, v)
  {
    var p := HasVerdictAlong(run, i, key, v);
    assert p(m + 1) by {
      VisitFilesVerdicts(run(m), inputs(m), i);
      assert Steps(run, inputs, m);
    }
    forall k: nat | m + 1 <= k && p(k) ensures p(k + 1) {
      NoSecondEnrichment(s, inputs, run, m, k);
      OnlyEnrichmentFiles(run(k), inputs(k), i, key, v);
      assert Steps(run, inputs, k);
    }
    HoldsFrom(p, m + 1, n);
  }

  // ----- transcript and timeline -----

  function Logs(c: Config): seq<Entry> {
    if c.at.Finish? then []
    else match c.at.node
      case Triage => if LastHumanText(c.s.messages) == "" then [] else [TriageEntry]
      case Query => if LastHumanText(c.s.messages) == "" then [] else [QueryEntry]
      case Enrich => if c.s.iocs == [] then [] else [EnrichEntry]
      case Report => [ReportEntry]
      case Coordination => [CoordinationEntry]
      case Mitigation => [MitigationEntry]
      case _ => []
  }

  /** Routing says nothing; at a checkpoint the reply, if any, comes first. */
  function Says(c: Config, inp: Input): seq<Message> {
    if c.at.Finish? || c.at.node == RouteTask then []
    else if c.at.node == HitlCheckpoint && inp.reply.Some? then [Human(inp.reply.value), Assistant]
    else [Assistant]
  }

  function LogsAlong(run: nat -> Config): nat -> seq<Entry> {
    (k: nat) => Logs(run(k))
  }

  function SaysAlong(run: nat -> Config, inputs: nat -> Input): nat -> seq<Message> {
    (k: nat) => Says(run(k), inputs(k))
  }

  function TimelineAlong(run: nat -> Config): nat -> seq<Entry> {
    (k: nat) => run(k).s.timeline
  }

  function TranscriptAlong(run: nat -> Config): nat -> seq<Message> {
    (k: nat) => run(k).s.messages
  }

  function Joined<T>(f: nat -> seq<T>, n: nat): seq<T> {
    if n == 0 then [] else Joined(f, n - 1) + f(n - 1)
  }

  predicate Appends<T(==)>(t: nat -> seq<T>, f: nat -> seq<T>, k: nat) {
    t(k + 1) == t(k) + f(k)
  }

  lemma {:induction false} AppendsAll<T>(t: nat -> seq<T>, f: nat -> seq<T>, n: nat)
    requires forall k: nat :: Appends(t, f, k)
    ensures t(n) == t(0) + Joined(f, n)
  {
    if n > 0 {
      AppendsAll(t, f, n - 1);
      assert Appends(t, f, n - 1);
    }
  }

  lemma VisitIsLogged(c: Config, inp: Input)
    ensures Advance(c, inp).s.timeline == c.s.timeline + Logs(c)
    ensures Advance(c, inp).s.messages == c.s.messages + Says(c, inp)
  {
  }

  /** Along every run: the timeline has one entry for each visit that does something, and the
      transcript one message for each visit after routing, besides the replies. */
  lemma RunIsLogged(s: State, inputs: nat -> Input, run: nat -> Config, n: nat)
    requires IsRun(s, inputs, run)
    ensures run(n).s.timeline == s.timeline + Joined(LogsAlong(run), n)
    ensures run(n).s.messages == s.messages + Joined(SaysAlong(run, inputs), n)
  {
    forall k: nat
      ensures Appends(TimelineAlong(run), LogsAlong(run), k)
      ensures Appends(TranscriptAlong(run), SaysAlong(run, inputs), k)
    {
      assert Steps(run, inputs, k);
      VisitIsLogged(run(k), inputs(k));
    }
    AppendsAll(TimelineAlong(run), LogsAlong(run), n);
    AppendsAll(TranscriptAlong(run), SaysAlong(run, inputs), n);
  }

  // ----- the decision and its execution -----

  /** A reply decides: an empty one or one that does not read as approval rejects. */
  lemma ReplyDecides(s: State, inputs: nat -> Input, n: nat, i: nat)
    requires Trace(s, inputs, n).at == At(HitlCheckpoint) && inputs(n).reply.Some?
    requires i < |Trace(s, inputs, n).s.actions| && Trace(s, inputs, n).s.actions[i].status == Proposed
    ensures var a := Trace(s, inputs, n).s.actions[i];
            var reply := inputs(n).reply.value;
            Trace(s, inputs, n + 1).s.actions[i] ==
            if reply != "" && inputs(n).approving(reply)
            then Action(a.id, a.kind, a.target, Approved, Some("human_analyst"))
            else Action(a.id, a.kind, a.target, Rejected, a.approvedBy)
  {
    assert Trace(s, inputs, n + 1) == Next(Trace(s, inputs, n), inputs(n));
  }

  /** What execution leaves of an action of the start: a proposed one is completed in the
      name of the analyst, any other is as it was. */
  function CarriedOut(a: Action): Action {
    if a.status == Proposed then Action(a.id, a.kind, a.target, Completed, Some("human_analyst")) else a
  }

  lemma ExecutionCompletesAll(s: State, inputs: nat -> Input, n: nat, i: nat)
    requires !AnyWith(s.actions, Approved) && Trace(s, inputs, n).at == At(Execute) && i < |s.actions|
    ensures var now := Trace(s, inputs, n + 1).s;
            now.status == Contained && |now.actions| == |s.actions| && now.actions[i] == CarriedOut(s.actions[i])
  {
    ExecutionFollowsApproval(s, inputs, n);
    TraceIsOrderly(s, inputs, n);
    var c := Trace(s, inputs, n);
    assert Trace(s, inputs, n + 1) == Next(c, inputs(n));
    assert s.actions[i].status != Approved;
  }

  /** A run that executed ends contained right after, unless an enrichment is still due. */
  lemma ExecutionEndsContained(s: State, inputs: nat -> Input, n: nat)
    requires !AnyWith(s.actions, Approved) && Trace(s, inputs, n).at == At(Execute)
    requires !EnrichmentIsDue(Trace(s, inputs, n).s)
    ensures Trace(s, inputs, n + 2).at == Finish && Trace(s, inputs, n + 2).s.status == Contained
  {
    TraceIsOrderly(s, inputs, n);
    var c := Trace(s, inputs, n);
    var d := Next(c, inputs(n));
    DecidedHasNoProposed(c.s.actions, false);
    assert Trace(s, inputs, n + 1) == d && !Pending(d.s);
    SynthesisTurns(d.s, inputs(n + 1));
    assert Trace(s, inputs, n + 2) == Next(d, inputs(n + 1));
  }

  lemma ContainedByExecution(c: Config, inp: Input)
    requires Advance(c, inp).s.status == Contained && c.s.status != Contained
    ensures c.at == At(Execute) && AnyWith(c.s.actions, Approved)
  {
  }

  function ContainedAlong(run: nat -> Config): nat -> bool {
    (k: nat) => run(k).s.status == Contained
  }

  /** Whatever was not contained at the start and is later: a visit in between executed. */
  lemma ContainedMeansExecuted(s: State, inputs: nat -> Input, run: nat -> Config, n: nat) returns (k: nat)
    requires IsRun(s, inputs, run) && s.status != Contained && run(n).s.status == Contained
    ensures k < n && run(k).at == At(Execute) && AnyWith(run(k).s.actions, Approved)
  {
    k := FirstRise(ContainedAlong(run), n);
    assert Steps(run, inputs, k);
    ContainedByExecution(run(k), inputs(k));
  }
}
