/** The agent guard: telemetry, budgets and the advice they lead to (crates/statguardian-stream/src/agent.rs). */
module Agent {
  import opened Sequences
  import opened Ast
  import opened LoopDetection

  datatype Provenance = Measured | Estimated | Unknown

  /** A number with the way it was obtained; costs are amounts of dollars, everything else is counted. */
  datatype Reading<T> = Reading(value: T, provenance: Provenance)

  datatype EventKind = ToolCall | ToolResult | LlmCall | Retry | ErrorEvent | PolicyEvent | OtherEvent

  datatype AgentEvent = AgentEvent(
    seqNo: nat,
    kind: EventKind,
    signature: Option<string>,
    tokensIn: Option<Reading<nat>>,
    tokensOut: Option<Reading<nat>>,
    cost: Option<Reading<real>>,
    duration: Option<Reading<nat>>,
    retryOf: Option<nat>)

  datatype AgentPolicy = AgentPolicy(
    maxToolCalls: Option<nat>,
    maxTotalTokens: Option<nat>,
    maxCost: Option<real>,
    maxDuration: Option<nat>,
    loopWindow: nat,
    loopThreshold: nat,
    enforce: bool)

  datatype Telemetry = Telemetry(
    events: nat,
    toolCalls: nat,
    retries: nat,
    errors: nat,
    tokensInMeasured: nat,
    tokensInEstimated: nat,
    tokensOutMeasured: nat,
    tokensOutEstimated: nat,
    costMeasured: real,
    costEstimated: real,
    durationMeasured: nat,
    durationEstimated: nat,
    unknownMetrics: nat)

  datatype BudgetKind = ToolCallBudget | TokenBudget | CostBudget | DurationBudget | LoopHeuristic

  datatype PolicyViolation = PolicyViolation(policy: BudgetKind, severity: Severity, measured: bool, heuristic: bool)

  datatype Report = Report(telemetry: Telemetry, violations: seq<PolicyViolation>, loops: seq<LoopFinding>)

  datatype Enforcement = Continue | Warn | Stop

  // ---- Telemetry as sums over the run ----

  datatype Metric = TokensIn | TokensOut | Duration

  function ReadingOf(e: AgentEvent, metric: Metric): Option<Reading<nat>> {
    match metric
    case TokensIn => e.tokensIn
    case TokensOut => e.tokensOut
    case Duration => e.duration
  }

  function Amount(r: Option<Reading<nat>>, provenance: Provenance): nat {
    if r.Some? && r.value.provenance == provenance then r.value.value else 0
  }

  function CostAmount(r: Option<Reading<real>>, provenance: Provenance): real {
    if r.Some? && r.value.provenance == provenance then r.value.value else 0.0
  }

  /** The sum of the readings of one provenance. */
  function Sum(events: seq<AgentEvent>, metric: Metric, provenance: Provenance): nat {
    if events == [] then 0
    else Sum(events[..|events| - 1], metric, provenance) + Amount(ReadingOf(events[|events| - 1], metric), provenance)
  }

  function SumCost(events: seq<AgentEvent>, provenance: Provenance): real {
    if events == [] then 0.0
    else SumCost(events[..|events| - 1], provenance) + CostAmount(events[|events| - 1].cost, provenance)
  }

  function CountWhere(events: seq<AgentEvent>, test: AgentEvent -> bool): nat {
    if events == [] then 0
    else CountWhere(events[..|events| - 1], test) + (if test(events[|events| - 1]) then 1 else 0)
  }

  function IsToolCall(): AgentEvent -> bool { (e: AgentEvent) => e.kind == ToolCall }

  function IsRetry(): AgentEvent -> bool { (e: AgentEvent) => e.kind == Retry || e.retryOf.Some? }

  function IsError(): AgentEvent -> bool { (e: AgentEvent) => e.kind == ErrorEvent }

  predicate NotKnown<T>(r: Option<Reading<T>>) { r.Some? && r.value.provenance == Unknown }

  function UnknownIn(e: AgentEvent): nat {
    (if NotKnown(e.tokensIn) then 1 else 0) + (if NotKnown(e.tokensOut) then 1 else 0)
    + (if NotKnown(e.cost) then 1 else 0) + (if NotKnown(e.duration) then 1 else 0)
  }

  function UnknownMetrics(events: seq<AgentEvent>): nat {
    if events == [] then 0 else UnknownMetrics(events[..|events| - 1]) + UnknownIn(events[|events| - 1])
  }

  function TelemetryOf(events: seq<AgentEvent>): Telemetry {
    Telemetry(
      |events|, CountWhere(events, IsToolCall()), CountWhere(events, IsRetry()), CountWhere(events, IsError()),
      Sum(events, TokensIn, Measured), Sum(events, TokensIn, Estimated),
      Sum(events, TokensOut, Measured), Sum(events, TokensOut, Estimated),
      SumCost(events, Measured), SumCost(events, Estimated),
      Sum(events, Duration, Measured), Sum(events, Duration, Estimated),
      UnknownMetrics(events))
  }

  method Accumulate(measured: nat, estimated: nat, unknown: nat, r: Option<Reading<nat>>)
    returns (m: nat, e: nat, u: nat)
    ensures m == measured + Amount(r, Measured) && e == estimated + Amount(r, Estimated)
    ensures u == unknown + (if NotKnown(r) then 1 else 0)
  {
    m, e, u := measured, estimated, unknown;
    if r.Some? {
      match r.value.provenance
      case Measured => m := m + r.value.value;
      case Estimated => e := e + r.value.value;
      case Unknown => u := u + 1;
    }
  }

  method AccumulateCost(measured: real, estimated: real, unknown: nat, r: Option<Reading<real>>)
    returns (m: real, e: real, u: nat)
    ensures m == measured + CostAmount(r, Measured) && e == estimated + CostAmount(r, Estimated)
    ensures u == unknown + (if NotKnown(r) then 1 else 0)
  {
    m, e, u := measured, estimated, unknown;
    if r.Some? {
      match r.value.provenance
      case Measured => m := m + r.value.value;
      case Estimated => e := e + r.value.value;
      case Unknown => u := u + 1;
    }
  }

  method AccumulateEvent(t: Telemetry, e: AgentEvent, ghost seen: seq<AgentEvent>) returns (r: Telemetry)
    requires t == TelemetryOf(seen)
    ensures r == TelemetryOf(seen + [e])
  {
    var calls := if e.kind == ToolCall then t.toolCalls + 1 else t.toolCalls;
    var retries := if e.kind == Retry || e.retryOf.Some? then t.retries + 1 else t.retries;
    var errors := if e.kind == ErrorEvent then t.errors + 1 else t.errors;
    var unknown := t.unknownMetrics;
    var inM, inE, outM, outE, costM, costE, durM, durE;
    inM, inE, unknown := Accumulate(t.tokensInMeasured, t.tokensInEstimated, unknown, e.tokensIn);
    outM, outE, unknown := Accumulate(t.tokensOutMeasured, t.tokensOutEstimated, unknown, e.tokensOut);
    costM, costE, unknown := AccumulateCost(t.costMeasured, t.costEstimated, unknown, e.cost);
    durM, durE, unknown := Accumulate(t.durationMeasured, t.durationEstimated, unknown, e.duration);
    r := Telemetry(t.events + 1, calls, retries, errors, inM, inE, outM, outE, costM, costE, durM, durE, unknown);
    assert (seen + [e])[..|seen|] == seen;
  }

  method Aggregate(events: seq<AgentEvent>) returns (t: Telemetry)
    ensures t == TelemetryOf(events)
  {
    t := Telemetry(0, 0, 0, 0, 0, 0, 0, 0, 0.0, 0.0, 0, 0, 0);
    for i := 0 to |events|
      invariant t == TelemetryOf(events[..i])
    {
      assert events[..i + 1] == events[..i] + [events[i]];
      t := AccumulateEvent(t, events[i], events[..i]);
    }
    assert events[..|events|] == events;
  }

  // ---- Budgets ----

  function BreachSeverity(p: AgentPolicy): Severity { if p.enforce then Blocking else Error }

  function MeasuredTokens(t: Telemetry): nat { t.tokensInMeasured + t.tokensOutMeasured }

  function EstimatedTokens(t: Telemetry): nat { t.tokensInEstimated + t.tokensOutEstimated }

  predicate Over(max: Option<nat>, total: nat) { max.Some? && total > max.value }

  predicate CostOver(max: Option<real>, total: real) { max.Some? && total > max.value }

  /** Measured data alone, or a count of calls, is over some budget. */
  predicate OverBudget(p: AgentPolicy, t: Telemetry) {
    || Over(p.maxToolCalls, t.toolCalls)
    || Over(p.maxTotalTokens, MeasuredTokens(t))
    || CostOver(p.maxCost, t.costMeasured)
    || Over(p.maxDuration, t.durationMeasured)
  }

  /** Tokens or costs are over budget once the estimates are added. */
  predicate MaybeOverBudget(p: AgentPolicy, t: Telemetry) {
    || Over(p.maxTotalTokens, MeasuredTokens(t) + EstimatedTokens(t))
    || CostOver(p.maxCost, t.costMeasured + t.costEstimated)
  }

  function RunLoops(p: AgentPolicy, events: seq<AgentEvent>): seq<LoopFinding> {
    if p.loopWindow == 0 || p.loopThreshold == 0 then [] else LoopsOf(Signed(CallsOf(events)), p.loopWindow, p.loopThreshold)
  }

  function CallOf(e: AgentEvent): Option<Call> { if e.signature.Some? then Some(Call(e.signature.value, e.seqNo)) else None }

  function CallsOf(events: seq<AgentEvent>): seq<Option<Call>> {
    seq(|events|, i requires 0 <= i < |events| => CallOf(events[i]))
  }

  function Breach(p: AgentPolicy, budget: BudgetKind): PolicyViolation {
    PolicyViolation(budget, BreachSeverity(p), true, false)
  }

  function Suspicion(budget: BudgetKind): PolicyViolation { PolicyViolation(budget, Warning, false, false) }

  function LoopWarning(): PolicyViolation { PolicyViolation(LoopHeuristic, Warning, false, true) }

  function When(condition: bool, v: PolicyViolation): seq<PolicyViolation> { if condition then [v] else [] }

  /** A breach shown by measurements takes the place of a suspicion. */
  function Verdict(p: AgentPolicy, budget: BudgetKind, surely: bool, maybe: bool): seq<PolicyViolation> {
    if surely then [Breach(p, budget)] else When(maybe, Suspicion(budget))
  }

  function BudgetViolations(p: AgentPolicy, t: Telemetry): seq<PolicyViolation> {
    When(Over(p.maxToolCalls, t.toolCalls), Breach(p, ToolCallBudget))
    + Verdict(p, TokenBudget, Over(p.maxTotalTokens, MeasuredTokens(t)), Over(p.maxTotalTokens, MeasuredTokens(t) + EstimatedTokens(t)))
    + Verdict(p, CostBudget, CostOver(p.maxCost, t.costMeasured), CostOver(p.maxCost, t.costMeasured + t.costEstimated))
    + When(Over(p.maxDuration, t.durationMeasured), Breach(p, DurationBudget))
  }

  function ReportOf(p: AgentPolicy, events: seq<AgentEvent>): Report {
    var t, loops := TelemetryOf(events), RunLoops(p, events);
    Report(t, BudgetViolations(p, t) + seq(|loops|, _ => LoopWarning()), loops)
  }

  method CheckBudgets(p: AgentPolicy, t: Telemetry) returns (violations: seq<PolicyViolation>)
    ensures violations == BudgetViolations(p, t)
  {
    violations := [];
    if p.maxToolCalls.Some? {
      if t.toolCalls > p.maxToolCalls.value {
        violations := violations + [Breach(p, ToolCallBudget)];
      }
    }
    ghost var calls := When(Over(p.maxToolCalls, t.toolCalls), Breach(p, ToolCallBudget));
    assert violations == calls;
    if p.maxTotalTokens.Some? {
      var measured, estimated := MeasuredTokens(t), EstimatedTokens(t);
      if measured > p.maxTotalTokens.value {
        violations := violations + [Breach(p, TokenBudget)];
      } else if measured + estimated > p.maxTotalTokens.value {
        violations := violations + [Suspicion(TokenBudget)];
      }
    }
    ghost var tokens := Verdict(p, TokenBudget, Over(p.maxTotalTokens, MeasuredTokens(t)),
                                Over(p.maxTotalTokens, MeasuredTokens(t) + EstimatedTokens(t)));
    assert violations == calls + tokens;
    if p.maxCost.Some? {
      if t.costMeasured > p.maxCost.value {
        violations := violations + [Breach(p, CostBudget)];
      } else if t.costMeasured + t.costEstimated > p.maxCost.value {
        violations := violations + [Suspicion(CostBudget)];
      }
    }
    assert violations == calls + tokens
      + Verdict(p, CostBudget, CostOver(p.maxCost, t.costMeasured), CostOver(p.maxCost, t.costMeasured + t.costEstimated));
    if p.maxDuration.Some? {
      if t.durationMeasured > p.maxDuration.value {
        violations := violations + [Breach(p, DurationBudget)];
      }
    }
  }

  method Evaluate(p: AgentPolicy, events: seq<AgentEvent>) returns (report: Report)
    ensures report == ReportOf(p, events)
  {
    var telemetry := Aggregate(events);
    var violations := CheckBudgets(p, telemetry);
    ghost var budgets := violations;
    var loops := DetectLoops(CallsOf(events), p.loopWindow, p.loopThreshold);
    for i := 0 to |loops|
      invariant violations == budgets + seq(i, _ => LoopWarning())
    {
      violations := violations + [LoopWarning()];
    }
    report := Report(telemetry, violations, loops);
  }

  function Advice(r: Report): Enforcement {
    if r.violations == [] then Continue
    else if exists v :: v in r.violations && v.severity == Blocking then Stop
    else Warn
  }

  // ---- What the advice rests on ----

  lemma BudgetsTell(p: AgentPolicy, t: Telemetry)
    ensures (exists v :: v in BudgetViolations(p, t) && v.severity == Blocking) <==> p.enforce && OverBudget(p, t)
    ensures BudgetViolations(p, t) != [] <==> OverBudget(p, t) || MaybeOverBudget(p, t)
  {
    if p.enforce && OverBudget(p, t) {
      var budget := if Over(p.maxToolCalls, t.toolCalls) then ToolCallBudget
                    else if Over(p.maxTotalTokens, MeasuredTokens(t)) then TokenBudget
                    else if CostOver(p.maxCost, t.costMeasured) then CostBudget
                    else DurationBudget;
      assert Breach(p, budget) in BudgetViolations(p, t);
    }
  }

  /** Stop is advised exactly when enforcement is on and calls or measured totals are over budget. */
  lemma StopExactly(p: AgentPolicy, events: seq<AgentEvent>)
    ensures Advice(ReportOf(p, events)) == Stop <==> p.enforce && OverBudget(p, TelemetryOf(events))
  {
    var r := ReportOf(p, events);
    var budgets := BudgetViolations(p, TelemetryOf(events));
    BudgetsTell(p, TelemetryOf(events));
    assert forall v :: v in budgets ==> v in r.violations;
    assert forall v :: v in r.violations ==> v in budgets || v == LoopWarning();
  }

  /** The run goes on without a warning exactly when no budget is or may be exceeded and nothing loops. */
  lemma ContinueExactly(p: AgentPolicy, events: seq<AgentEvent>)
    ensures Advice(ReportOf(p, events)) == Continue <==>
            !OverBudget(p, TelemetryOf(events)) && !MaybeOverBudget(p, TelemetryOf(events)) && RunLoops(p, events) == []
  {
  }

  // ---- A longer run ----

  predicate NonNegativeCost(e: AgentEvent) { e.cost.Some? ==> e.cost.value.value >= 0.0 }

  function Rank(e: Enforcement): nat {
    match e
    case Continue => 0
    case Warn => 1
    case Stop => 2
  }

  lemma {:induction false} SumGrows(events: seq<AgentEvent>, more: seq<AgentEvent>, metric: Metric, provenance: Provenance)
    ensures Sum(events, metric, provenance) <= Sum(events + more, metric, provenance)
  {
    if more == [] {
      assert events + more == events;
    } else {
      SumGrows(events, more[..|more| - 1], metric, provenance);
      assert (events + more)[..|events + more| - 1] == events + more[..|more| - 1];
    }
  }

  lemma {:induction false} CountGrows(events: seq<AgentEvent>, more: seq<AgentEvent>, test: AgentEvent -> bool)
    ensures CountWhere(events, test) <= CountWhere(events + more, test)
  {
    if more == [] {
      assert events + more == events;
    } else {
      CountGrows(events, more[..|more| - 1], test);
      assert (events + more)[..|events + more| - 1] == events + more[..|more| - 1];
    }
  }

  lemma {:induction false} CostGrows(events: seq<AgentEvent>, more: seq<AgentEvent>, provenance: Provenance)
    requires forall e :: e in more ==> NonNegativeCost(e)
    ensures SumCost(events, provenance) <= SumCost(events + more, provenance)
  {
    if more == [] {
      assert events + more == events;
    } else {
      assert NonNegativeCost(more[|more| - 1]);
      CostGrows(events, more[..|more| - 1], provenance);
      assert (events + more)[..|events + more| - 1] == events + more[..|more| - 1];
    }
  }

  lemma {:induction false} SignedAppend(a: seq<Option<Call>>, b: seq<Option<Call>>)
    ensures Signed(a + b) == Signed(a) + Signed(b)
  {
    if b == [] {
      assert a + b == a;
    } else {
      assert (a + b)[..|a + b| - 1] == a + b[..|b| - 1];
      SignedAppend(a, b[..|b| - 1]);
    }
  }

  lemma CallsAppend(events: seq<AgentEvent>, more: seq<AgentEvent>)
    ensures Signed(CallsOf(events + more)) == Signed(CallsOf(events)) + Signed(CallsOf(more))
  {
    assert CallsOf(events + more) == CallsOf(events) + CallsOf(more);
    SignedAppend(CallsOf(events), CallsOf(more));
  }

  lemma LoopsPersist(p: AgentPolicy, events: seq<AgentEvent>, more: seq<AgentEvent>)
    requires RunLoops(p, events) != []
    ensures RunLoops(p, events + more) != []
  {
    CallsAppend(events, more);
    SomeLoopStays(Signed(CallsOf(events)), Signed(CallsOf(more)), p.loopWindow, p.loopThreshold);
  }

  lemma BudgetsOnlyTighten(p: AgentPolicy, events: seq<AgentEvent>, more: seq<AgentEvent>)
    requires forall e :: e in more ==> NonNegativeCost(e)
    ensures OverBudget(p, TelemetryOf(events)) ==> OverBudget(p, TelemetryOf(events + more))
    ensures MaybeOverBudget(p, TelemetryOf(events)) ==> MaybeOverBudget(p, TelemetryOf(events + more))
  {
    CountGrows(events, more, IsToolCall());
    SumGrows(events, more, TokensIn, Measured);
    SumGrows(events, more, TokensIn, Estimated);
    SumGrows(events, more, TokensOut, Measured);
    SumGrows(events, more, TokensOut, Estimated);
    SumGrows(events, more, Duration, Measured);
    CostGrows(events, more, Measured);
    CostGrows(events, more, Estimated);
  }

  lemma AdviceFollowsBudgets(p: AgentPolicy, events: seq<AgentEvent>, more: seq<AgentEvent>)
    requires OverBudget(p, TelemetryOf(events)) ==> OverBudget(p, TelemetryOf(events + more))
    requires OverBudget(p, TelemetryOf(events)) || MaybeOverBudget(p, TelemetryOf(events)) ==>
               OverBudget(p, TelemetryOf(events + more)) || MaybeOverBudget(p, TelemetryOf(events + more))
    ensures Rank(Advice(ReportOf(p, events))) <= Rank(Advice(ReportOf(p, events + more)))
  {
    StopExactly(p, events);
    StopExactly(p, events + more);
    ContinueExactly(p, events);
    ContinueExactly(p, events + more);
    if RunLoops(p, events) != [] {
      LoopsPersist(p, events, more);
    }
  }

  /** As a run goes on the advice never weakens, provided the further costs are not negative. */
  lemma AdviceNeverWeakens(p: AgentPolicy, events: seq<AgentEvent>, more: seq<AgentEvent>)
    requires forall e :: e in more ==> NonNegativeCost(e)
    ensures Rank(Advice(ReportOf(p, events))) <= Rank(Advice(ReportOf(p, events + more)))
  {
    BudgetsOnlyTighten(p, events, more);
    AdviceFollowsBudgets(p, events, more);
  }

  /** Negative costs are accepted, and one of them can take a Stop back. */
  lemma NegativeCostsCanWeaken()
    ensures var p := AgentPolicy(None, None, Some(1.0), None, 8, 3, true);
            var spend := AgentEvent(0, LlmCall, None, None, None, Some(Reading(2.0, Measured)), None, None);
            var refund := AgentEvent(1, LlmCall, None, None, None, Some(Reading(-2.0, Measured)), None, None);
            && Advice(ReportOf(p, [spend])) == Stop
            && Advice(ReportOf(p, [spend, refund])) == Continue
  {
  }

  /** The larger of the measured cost and the cost with its estimates: over budget means the peak is. */
  function Peak(events: seq<AgentEvent>): real {
    var measured, estimated := SumCost(events, Measured), SumCost(events, Estimated);
    if estimated > 0.0 then measured + estimated else measured
  }

  ghost predicate NeverWeakens(events: seq<AgentEvent>, more: seq<AgentEvent>) {
    forall p :: Rank(Advice(ReportOf(p, events))) <= Rank(Advice(ReportOf(p, events + more)))
  }

  lemma CostDecides(p: AgentPolicy, events: seq<AgentEvent>, more: seq<AgentEvent>)
    requires SumCost(events, Measured) <= SumCost(events + more, Measured) && Peak(events) <= Peak(events + more)
    ensures Rank(Advice(ReportOf(p, events))) <= Rank(Advice(ReportOf(p, events + more)))
  {
    CountGrows(events, more, IsToolCall());
    SumGrows(events, more, TokensIn, Measured);
    SumGrows(events, more, TokensIn, Estimated);
    SumGrows(events, more, TokensOut, Measured);
    SumGrows(events, more, TokensOut, Estimated);
    SumGrows(events, more, Duration, Measured);
    AdviceFollowsBudgets(p, events, more);
  }

  /** A policy that only limits the cost. */
  function CostPolicy(max: real, enforce: bool): AgentPolicy { AgentPolicy(None, None, Some(max), None, 0, 0, enforce) }

  lemma CostAdvice(max: real, enforce: bool, events: seq<AgentEvent>)
    ensures Advice(ReportOf(CostPolicy(max, enforce), events)) == Stop <==> enforce && SumCost(events, Measured) > max
    ensures Advice(ReportOf(CostPolicy(max, enforce), events)) == Continue <==> Peak(events) <= max
  {
    var p := CostPolicy(max, enforce);
    StopExactly(p, events);
    ContinueExactly(p, events);
    assert RunLoops(p, events) == [];
  }

  /**
   * Exactly when the advice does not weaken under any policy: when neither the measured cost nor the
   * peak falls.  Nothing else can weaken it.
   */
  lemma NeverWeakensExactly(events: seq<AgentEvent>, more: seq<AgentEvent>)
    ensures NeverWeakens(events, more) <==>
            SumCost(events, Measured) <= SumCost(events + more, Measured) && Peak(events) <= Peak(events + more)
  {
    var all := events + more;
    if NeverWeakens(events, more) {
      var strict, lax := CostPolicy(SumCost(all, Measured), true), CostPolicy(Peak(all), false);
      assert Rank(Advice(ReportOf(strict, events))) <= Rank(Advice(ReportOf(strict, all)));
      assert Rank(Advice(ReportOf(lax, events))) <= Rank(Advice(ReportOf(lax, all)));
      CostAdvice(SumCost(all, Measured), true, events);
      CostAdvice(SumCost(all, Measured), true, all);
      CostAdvice(Peak(all), false, events);
      CostAdvice(Peak(all), false, all);
    }
    if SumCost(events, Measured) <= SumCost(all, Measured) && Peak(events) <= Peak(all) {
      forall p ensures Rank(Advice(ReportOf(p, events))) <= Rank(Advice(ReportOf(p, all))) {
        CostDecides(p, events, more);
      }
    }
  }

  /** Estimates and loops alone never stop a run: without their readings and signatures the advice is the same Stop. */
  lemma EstimatesAndLoopsNeverStop(p: AgentPolicy, events: seq<AgentEvent>)
    ensures Advice(ReportOf(p, events)) == Stop <==> Advice(ReportOf(p, MeasuredOnly(events))) == Stop
  {
    StopExactly(p, events);
    StopExactly(p, MeasuredOnly(events));
    MeasuredTotals(events);
  }

  function MeasuredReading<T>(r: Option<Reading<T>>): Option<Reading<T>> {
    if r.Some? && r.value.provenance == Measured then r else None
  }

  function MeasuredPart(e: AgentEvent): AgentEvent {
    e.(signature := None, tokensIn := MeasuredReading(e.tokensIn), tokensOut := MeasuredReading(e.tokensOut),
       cost := MeasuredReading(e.cost), duration := MeasuredReading(e.duration))
  }

  function MeasuredOnly(events: seq<AgentEvent>): seq<AgentEvent> {
    if events == [] then [] else MeasuredOnly(events[..|events| - 1]) + [MeasuredPart(events[|events| - 1])]
  }

  lemma {:induction false} MeasuredTotals(events: seq<AgentEvent>)
    ensures var kept := MeasuredOnly(events);
            && CountWhere(kept, IsToolCall()) == CountWhere(events, IsToolCall())
            && (forall metric :: Sum(kept, metric, Measured) == Sum(events, metric, Measured))
            && SumCost(kept, Measured) == SumCost(events, Measured)
  {
    if events == [] {
    } else {
      MeasuredTotals(events[..|events| - 1]);
      var kept := MeasuredOnly(events);
      assert kept[..|kept| - 1] == MeasuredOnly(events[..|events| - 1]);
    }
  }
}
