/**
 * What the guard's telemetry and advice mean, in terms of the events of a trace: sums and counts, the
 * limits they are compared with, and the violations a report lists.
 */
module AgentLaws {
  import opened Sequences
  import opened Ast
  import opened LoopDetection
  import opened Agent

  // ---- Telemetry ----

  function Plus(t: Telemetry, u: Telemetry): Telemetry {
    Telemetry(t.events + u.events, t.toolCalls + u.toolCalls, t.retries + u.retries, t.errors + u.errors,
              t.tokensInMeasured + u.tokensInMeasured, t.tokensInEstimated + u.tokensInEstimated,
              t.tokensOutMeasured + u.tokensOutMeasured, t.tokensOutEstimated + u.tokensOutEstimated,
              t.costMeasured + u.costMeasured, t.costEstimated + u.costEstimated,
              t.durationMeasured + u.durationMeasured, t.durationEstimated + u.durationEstimated,
              t.unknownMetrics + u.unknownMetrics)
  }

  function One(condition: bool): nat { if condition then 1 else 0 }

  function Tokens(r: Option<Reading<nat>>): (nat, nat, nat) {
    match r
    case Some(Reading(n, Measured)) => (n, 0, 0)
    case Some(Reading(n, Estimated)) => (0, n, 0)
    case Some(Reading(_, Unknown)) => (0, 0, 1)
    case None => (0, 0, 0)
  }

  function Dollars(r: Option<Reading<real>>): (real, real, nat) {
    match r
    case Some(Reading(x, Measured)) => (x, 0.0, 0)
    case Some(Reading(x, Estimated)) => (0.0, x, 0)
    case Some(Reading(_, Unknown)) => (0.0, 0.0, 1)
    case None => (0.0, 0.0, 0)
  }

  /** What one event adds: amounts by how they were obtained, and how many are of unknown provenance. */
  function Contribution(e: AgentEvent): Telemetry {
    var tokensIn, tokensOut, cost, duration := Tokens(e.tokensIn), Tokens(e.tokensOut), Dollars(e.cost), Tokens(e.duration);
    Telemetry(1, One(e.kind.ToolCall?), One(e.kind.Retry? || e.retryOf.Some?), One(e.kind.ErrorEvent?),
              tokensIn.0, tokensIn.1, tokensOut.0, tokensOut.1, cost.0, cost.1, duration.0, duration.1,
              tokensIn.2 + tokensOut.2 + cost.2 + duration.2)
  }

  lemma CountOfMore(events: seq<AgentEvent>, e: AgentEvent, test: AgentEvent -> bool)
    ensures CountWhere(events + [e], test) == CountWhere(events, test) + One(test(e))
  {
    assert (events + [e])[..|events|] == events;
  }

  lemma SumsOfMore(events: seq<AgentEvent>, e: AgentEvent, metric: Metric)
    ensures Sum(events + [e], metric, Measured) == Sum(events, metric, Measured) + Tokens(ReadingOf(e, metric)).0
    ensures Sum(events + [e], metric, Estimated) == Sum(events, metric, Estimated) + Tokens(ReadingOf(e, metric)).1
  {
    assert (events + [e])[..|events|] == events;
  }

  lemma CostsOfMore(events: seq<AgentEvent>, e: AgentEvent)
    ensures SumCost(events + [e], Measured) == SumCost(events, Measured) + Dollars(e.cost).0
    ensures SumCost(events + [e], Estimated) == SumCost(events, Estimated) + Dollars(e.cost).1
  {
    assert (events + [e])[..|events|] == events;
  }

  lemma UnknownOfMore(events: seq<AgentEvent>, e: AgentEvent)
    ensures UnknownMetrics(events + [e]) == UnknownMetrics(events) + Contribution(e).unknownMetrics
  {
    assert (events + [e])[..|events|] == events;
  }

  /** Telemetry starts at zero, and each event adds its contribution. */
  lemma TelemetryOfMore(events: seq<AgentEvent>, e: AgentEvent)
    ensures TelemetryOf([]) == Telemetry(0, 0, 0, 0, 0, 0, 0, 0, 0.0, 0.0, 0, 0, 0)
    ensures TelemetryOf(events + [e]) == Plus(TelemetryOf(events), Contribution(e))
  {
    CountOfMore(events, e, IsToolCall());
    CountOfMore(events, e, IsRetry());
    CountOfMore(events, e, IsError());
    SumsOfMore(events, e, TokensIn);
    SumsOfMore(events, e, TokensOut);
    SumsOfMore(events, e, Duration);
    CostsOfMore(events, e);
    UnknownOfMore(events, e);
  }

  /** The tool calls of a trace, by position. */
  ghost function ToolCalls(events: seq<AgentEvent>): set<nat> { Positions(events, (e: AgentEvent) => e.kind.ToolCall?) }

  lemma {:induction false} CountIsPositions(events: seq<AgentEvent>, test: AgentEvent -> bool)
    ensures CountWhere(events, test) == |Positions(events, test)|
  {
    if events == [] {
      assert Positions(events, test) == {};
    } else {
      var init, last := events[..|events| - 1], events[|events| - 1];
      CountIsPositions(init, test);
      assert events == init + [last];
      PositionsOfMore(init, last, test);
    }
  }

  lemma CallsAreCounted(events: seq<AgentEvent>)
    ensures TelemetryOf(events).toolCalls == |ToolCalls(events)|
  {
    CountIsPositions(events, IsToolCall());
    assert ToolCalls(events) == Positions(events, IsToolCall());
  }

  // ---- Loops ----

  /** The signed calls of a trace: each event with a signature, in order, under its sequence number. */
  lemma SignedCallsOfOne(e: AgentEvent)
    ensures Signed(CallsOf([e])) == match e.signature case Some(signature) => [Call(signature, e.seqNo)] case None => []
  {
    assert CallsOf([e]) == [CallOf(e)] && [CallOf(e)][..0] == [];
  }

  /** Some run of at most `loopWindow` signed calls repeats a signature at least `loopThreshold` times. */
  ghost predicate Loops(p: AgentPolicy, events: seq<AgentEvent>) {
    && p.loopWindow > 0 && p.loopThreshold > 0
    && exists signature :: Repeats(Signed(CallsOf(events)), p.loopWindow, p.loopThreshold, signature)
  }

  lemma LoopsAreFound(p: AgentPolicy, events: seq<AgentEvent>)
    ensures RunLoops(p, events) != [] <==> Loops(p, events)
  {
    if p.loopWindow > 0 && p.loopThreshold > 0 {
      var calls := Signed(CallsOf(events));
      var loops := LoopsOf(calls, p.loopWindow, p.loopThreshold);
      if loops != [] {
        ReportedExactlyWhenRepeated(calls, p.loopWindow, p.loopThreshold, loops[0].signature);
        assert Find(loops, loops[0].signature).Some?;
      }
      if signature :| Repeats(calls, p.loopWindow, p.loopThreshold, signature) {
        ReportedExactlyWhenRepeated(calls, p.loopWindow, p.loopThreshold, signature);
      }
    }
  }

  // ---- What a report lists ----

  /** The violations of a report, budget by budget: a measured total beyond its limit, or one beyond it with its estimates. */
  ghost predicate Listed(p: AgentPolicy, events: seq<AgentEvent>, v: PolicyViolation) {
    var t, severity := TelemetryOf(events), if p.enforce then Blocking else Error;
    var tokens, allTokens := t.tokensInMeasured + t.tokensOutMeasured,
                             t.tokensInMeasured + t.tokensOutMeasured + t.tokensInEstimated + t.tokensOutEstimated;
    match v.policy
    case ToolCallBudget =>
      p.maxToolCalls.Some? && |ToolCalls(events)| > p.maxToolCalls.value && v == PolicyViolation(ToolCallBudget, severity, true, false)
    case TokenBudget =>
      p.maxTotalTokens.Some? && allTokens > p.maxTotalTokens.value
      && v == if tokens > p.maxTotalTokens.value then PolicyViolation(TokenBudget, severity, true, false)
              else PolicyViolation(TokenBudget, Warning, false, false)
    case CostBudget =>
      p.maxCost.Some? && (t.costMeasured > p.maxCost.value || t.costMeasured + t.costEstimated > p.maxCost.value)
      && v == if t.costMeasured > p.maxCost.value then PolicyViolation(CostBudget, severity, true, false)
              else PolicyViolation(CostBudget, Warning, false, false)
    case DurationBudget =>
      p.maxDuration.Some? && t.durationMeasured > p.maxDuration.value && v == PolicyViolation(DurationBudget, severity, true, false)
    case LoopHeuristic => Loops(p, events) && v == PolicyViolation(LoopHeuristic, Warning, false, true)
  }

  lemma ReportLists(p: AgentPolicy, events: seq<AgentEvent>, v: PolicyViolation)
    ensures v in ReportOf(p, events).violations <==> Listed(p, events, v)
  {
    CallsAreCounted(events);
    LoopsAreFound(p, events);
    BudgetsAndWarnings(BudgetViolations(p, TelemetryOf(events)), |RunLoops(p, events)|, v);
    BudgetsList(p, TelemetryOf(events), v);
  }

  lemma BudgetsAndWarnings(budgets: seq<PolicyViolation>, loops: nat, v: PolicyViolation)
    ensures v in budgets + seq(loops, _ => LoopWarning()) <==> v in budgets || (loops > 0 && v == LoopWarning())
  {
    var warnings := seq(loops, _ => LoopWarning());
    assert loops > 0 ==> warnings[0] == LoopWarning();
    assert forall k :: 0 <= k < loops ==> warnings[k] == LoopWarning();
  }

  lemma BudgetsList(p: AgentPolicy, t: Telemetry, v: PolicyViolation)
    ensures v in BudgetViolations(p, t) <==>
      match v.policy
      case ToolCallBudget => Over(p.maxToolCalls, t.toolCalls) && v == Breach(p, ToolCallBudget)
      case TokenBudget => v in Verdict(p, TokenBudget, Over(p.maxTotalTokens, MeasuredTokens(t)),
                                       Over(p.maxTotalTokens, MeasuredTokens(t) + EstimatedTokens(t)))
      case CostBudget => v in Verdict(p, CostBudget, CostOver(p.maxCost, t.costMeasured),
                                      CostOver(p.maxCost, t.costMeasured + t.costEstimated))
      case DurationBudget => Over(p.maxDuration, t.durationMeasured) && v == Breach(p, DurationBudget)
      case LoopHeuristic => false
  {
  }

  /** Budgets come in the order of the source, each at most once, and then one warning for each loop. */
  lemma ReportOrder(p: AgentPolicy, events: seq<AgentEvent>)
    ensures var r := ReportOf(p, events);
            var n := |r.violations| - |r.loops|;
            && n >= 0
            && (forall i, j :: 0 <= i < j < n ==> Place(r.violations[i].policy) < Place(r.violations[j].policy))
            && (forall k :: 0 <= k < |r.violations| ==> (r.violations[k].policy == LoopHeuristic <==> k >= n))
  {
    BudgetOrder(p, TelemetryOf(events));
  }

  lemma BudgetOrder(p: AgentPolicy, t: Telemetry)
    ensures var vs := BudgetViolations(p, t);
            && (forall i, j :: 0 <= i < j < |vs| ==> Place(vs[i].policy) < Place(vs[j].policy))
            && (forall k :: 0 <= k < |vs| ==> vs[k].policy != LoopHeuristic)
  {
  }

  function Place(budget: BudgetKind): nat {
    match budget
    case ToolCallBudget => 0
    case TokenBudget => 1
    case CostBudget => 2
    case DurationBudget => 3
    case LoopHeuristic => 4
  }

  // ---- What the advice means ----

  /** A count of calls or a measured total is beyond its limit; at the limit it is not. */
  ghost predicate Exceeds(p: AgentPolicy, events: seq<AgentEvent>) {
    var t := TelemetryOf(events);
    || (p.maxToolCalls.Some? && |ToolCalls(events)| > p.maxToolCalls.value)
    || (p.maxTotalTokens.Some? && t.tokensInMeasured + t.tokensOutMeasured > p.maxTotalTokens.value)
    || (p.maxCost.Some? && t.costMeasured > p.maxCost.value)
    || (p.maxDuration.Some? && t.durationMeasured > p.maxDuration.value)
  }

  lemma StopMeans(p: AgentPolicy, events: seq<AgentEvent>)
    ensures Advice(ReportOf(p, events)) == Stop <==> p.enforce && Exceeds(p, events)
  {
    StopExactly(p, events);
    CallsAreCounted(events);
  }

  /** Every total, its estimates included, is at its limit or below. */
  ghost predicate WithinLimits(p: AgentPolicy, events: seq<AgentEvent>) {
    var t := TelemetryOf(events);
    && (p.maxToolCalls.Some? ==> |ToolCalls(events)| <= p.maxToolCalls.value)
    && (p.maxTotalTokens.Some? ==>
          t.tokensInMeasured + t.tokensOutMeasured + t.tokensInEstimated + t.tokensOutEstimated <= p.maxTotalTokens.value)
    && (p.maxCost.Some? ==> t.costMeasured <= p.maxCost.value && t.costMeasured + t.costEstimated <= p.maxCost.value)
    && (p.maxDuration.Some? ==> t.durationMeasured <= p.maxDuration.value)
  }

  lemma ContinueMeans(p: AgentPolicy, events: seq<AgentEvent>)
    ensures Advice(ReportOf(p, events)) == Continue <==> WithinLimits(p, events) && !Loops(p, events)
  {
    ContinueExactly(p, events);
    CallsAreCounted(events);
    LoopsAreFound(p, events);
  }
}
