// The alert rule engine of src/alert_engine.rs: matching, duration and cooldown gates, and the
// bounded history of fired alerts.
//
// The engine keeps a few fields per rule. The ledger it is measured against keeps every
// evaluation and every firing since the rule was added, and never trims anything.
module AlertEngine {
  import opened Wrappers
  import opened SecurityTypes

  datatype Severity = Info | Warning | Critical

  datatype LogicalOp = And | Or

  datatype ComparisonOp = Gt | Gte | Lt | Lte | Eq | Neq

  datatype Aggregation = Latest | Min | Max | Avg | Sum | Count | StdDev | Rate

  datatype Condition = Condition(
    metricName: string, labelFilter: map<string, string>, operator: ComparisonOp, threshold: real,
    aggregation: Aggregation, severity: Severity)

  datatype AlertAction =
    | LogAlert(level: string)
    | PublishAlert(topic: string, payloadTemplate: Option<string>)
    | RunScript(scriptId: string, timeoutSeconds: U64)
    | CallWebhook(url: string, headers: map<string, string>)

  // Rust's `as i64`.
  function AsI64(n: U64): int {
    if n <= I64_MAX then n else n - U64_MAX - 1
  }

  // Whole seconds of an instant, rounded down.
  function Seconds(t: Instant): int {
    t / 1_000_000_000
  }

  datatype Rule = Rule(
    id: string, name: string, description: Option<string>, enabled: bool, conditions: seq<Condition>,
    conditionOp: LogicalOp, forSeconds: Option<U64>, cooldownSeconds: U64, actions: seq<AlertAction>,
    tags: map<string, string>)

  datatype AlertState = AlertState(
    isFiring: bool, firingSince: Option<Instant>, lastFiredAt: Option<Instant>, fireCount: nat,
    lastEvaluatedAt: Option<Instant>)

  const NEW_STATE := AlertState(false, None, None, 0, None)

  // A measured point, or the value aggregated from such points.
  datatype Metric = Metric(name: string, value: real, labels: map<string, string>, timestamp: Instant)

  // `wildcard` says which names a pattern with a star matches.
  datatype Telemetry = Telemetry(points: seq<Metric>, wildcard: (string, string) -> bool)

  datatype Alert = Alert(
    ruleId: string, ruleName: string, severity: Severity, message: string, description: Option<string>,
    metricName: string, metricValue: real, threshold: real, operator: ComparisonOp, labels: map<string, string>,
    firedAt: Instant, tags: map<string, string>)

  // `executed` are the actions carried out so far, each with its alert.
  datatype Engine = Engine(
    rules: map<string, Rule>, states: map<string, AlertState>, recent: seq<Alert>,
    executed: seq<(AlertAction, Alert)>, maxHistory: nat)

  datatype EvaluationResult = EvaluationResult(
    ruleId: string, isMatched: bool, matched: seq<nat>, metrics: seq<Metric>, evaluatedAt: Instant)

  // -------------------------------------------------------------- one condition

  const EPSILON := 1.0 / 4503599627370496.0

  function Abs(x: real): real {
    if x < 0.0 then -x else x
  }

  predicate Compare(op: ComparisonOp, left: real, right: real) {
    match op
    case Gt => left > right
    case Gte => left >= right
    case Lt => left < right
    case Lte => left <= right
    case Eq => Abs(left - right) < EPSILON
    case Neq => Abs(left - right) >= EPSILON
  }

  predicate AppliesTo(c: Condition, data: Telemetry, point: Metric) {
    && (if '*' in c.metricName then (data.wildcard)(c.metricName, point.name) else c.metricName == point.name)
    && forall key | key in c.labelFilter :: key in point.labels && point.labels[key] == c.labelFilter[key]
  }

  // The name is the condition's, or is matched by its pattern, and all labels asked for are there.
  ghost predicate Applies(c: Condition, data: Telemetry, p: Metric) {
    && (if '*' in c.metricName then (data.wildcard)(c.metricName, p.name) else p.name == c.metricName)
    && c.labelFilter.Items <= p.labels.Items
  }

  lemma AppliesToIsApplies(c: Condition, data: Telemetry, p: Metric)
    ensures AppliesTo(c, data, p) <==> Applies(c, data, p)
  {
    if c.labelFilter.Items <= p.labels.Items {
      forall key | key in c.labelFilter ensures key in p.labels && p.labels[key] == c.labelFilter[key] {
        assert (key, c.labelFilter[key]) in c.labelFilter.Items;
      }
    }
  }

  function MatchingPoints(c: Condition, data: Telemetry, points: seq<Metric>): (matching: seq<Metric>)
    ensures forall p :: p in matching <==> p in points && AppliesTo(c, data, p)
  {
    if points == [] then []
    else (if AppliesTo(c, data, points[0]) then [points[0]] else []) + MatchingPoints(c, data, points[1..])
  }

  // Points apply by name and labels; they keep their order, and each is taken as often as it occurs.
  lemma MatchingPointsAreThoseApplying(c: Condition, data: Telemetry, p: Metric)
    ensures MatchingPoints(c, data, [p]) == if Applies(c, data, p) then [p] else []
  {
    AppliesToIsApplies(c, data, p);
    assert MatchingPoints(c, data, [p][1..]) == [];
  }

  lemma Regroup<T>(x: seq<T>, y: seq<T>, z: seq<T>)
    ensures (x + y) + z == x + (y + z)
  {
  }

  lemma {:induction false} MatchingPointsKeepOrder(c: Condition, data: Telemetry, a: seq<Metric>, b: seq<Metric>)
    ensures MatchingPoints(c, data, a + b) == MatchingPoints(c, data, a) + MatchingPoints(c, data, b)
  {
    hide AppliesTo;
    if a == [] {
      assert a + b == b && MatchingPoints(c, data, []) + MatchingPoints(c, data, b) == MatchingPoints(c, data, b);
    } else {
      MatchingPointsKeepOrder(c, data, a[1..], b);
      assert (a + b)[0] == a[0] && (a + b)[1..] == a[1..] + b;
      var first := if AppliesTo(c, data, a[0]) then [a[0]] else [];
      Regroup(first, MatchingPoints(c, data, a[1..]), MatchingPoints(c, data, b));
    }
  }

  // The last of the latest points.
  function LatestOf(points: seq<Metric>): Metric
    requires points != []
  {
    var last := points[|points| - 1];
    if |points| == 1 then last
    else
      var before := LatestOf(points[..|points| - 1]);
      if last.timestamp >= before.timestamp then last else before
  }

  // The first of the smallest.
  function MinOf(points: seq<Metric>): Metric
    requires points != []
  {
    var last := points[|points| - 1];
    if |points| == 1 then last
    else
      var before := MinOf(points[..|points| - 1]);
      if last.value < before.value then last else before
  }

  // The last of the greatest.
  function MaxOf(points: seq<Metric>): Metric
    requires points != []
  {
    var last := points[|points| - 1];
    if |points| == 1 then last
    else
      var before := MaxOf(points[..|points| - 1]);
      if last.value >= before.value then last else before
  }

  // Which point is taken, among equal ones: the last of the latest and of the greatest, the first of
  // the smallest.
  lemma {:induction false} LatestIsTheLast(points: seq<Metric>) returns (k: nat)
    requires points != []
    ensures k < |points| && points[k] == LatestOf(points)
    ensures forall j | 0 <= j < k :: points[j].timestamp <= points[k].timestamp
    ensures forall j | k < j < |points| :: points[j].timestamp < points[k].timestamp
  {
    var n := |points| - 1;
    if n == 0 {
      k := 0;
    } else {
      k := LatestIsTheLast(points[..n]);
      assert forall j | 0 <= j < n :: points[..n][j] == points[j];
      if points[n].timestamp >= points[k].timestamp {
        k := n;
      }
    }
  }

  lemma {:induction false} GreatestIsTheLast(points: seq<Metric>) returns (k: nat)
    requires points != []
    ensures k < |points| && points[k] == MaxOf(points)
    ensures forall j | 0 <= j < k :: points[j].value <= points[k].value
    ensures forall j | k < j < |points| :: points[j].value < points[k].value
  {
    var n := |points| - 1;
    if n == 0 {
      k := 0;
    } else {
      k := GreatestIsTheLast(points[..n]);
      assert forall j | 0 <= j < n :: points[..n][j] == points[j];
      if points[n].value >= points[k].value {
        k := n;
      }
    }
  }

  lemma {:induction false} SmallestIsTheFirst(points: seq<Metric>) returns (k: nat)
    requires points != []
    ensures k < |points| && points[k] == MinOf(points)
    ensures forall j | 0 <= j < k :: points[k].value < points[j].value
    ensures forall j | k < j < |points| :: points[k].value <= points[j].value
  {
    var n := |points| - 1;
    if n == 0 {
      k := 0;
    } else {
      k := SmallestIsTheFirst(points[..n]);
      assert forall j | 0 <= j < n :: points[..n][j] == points[j];
      if points[n].value < points[k].value {
        k := n;
      }
    }
  }

  lemma ExtremesAreAmongThem(points: seq<Metric>)
    requires points != []
    ensures LatestOf(points) in points && forall p | p in points :: p.timestamp <= LatestOf(points).timestamp
    ensures MinOf(points) in points && forall p | p in points :: MinOf(points).value <= p.value
    ensures MaxOf(points) in points && forall p | p in points :: p.value <= MaxOf(points).value
  {
    hide LatestOf, MinOf, MaxOf;
    var latest := LatestIsTheLast(points);
    var smallest := SmallestIsTheFirst(points);
    var greatest := GreatestIsTheLast(points);
  }

  function SumOf(points: seq<Metric>): real {
    if points == [] then 0.0 else points[0].value + SumOf(points[1..])
  }

  // Of the eight aggregations only four are carried out; the others yield nothing.
  function Aggregated(aggregation: Aggregation, points: seq<Metric>): Option<Metric>
    requires points != []
  {
    match aggregation
    case Latest => Some(LatestOf(points))
    case Min => Some(MinOf(points))
    case Max => Some(MaxOf(points))
    case Avg => Some(LatestOf(points).(value := SumOf(points) / |points| as real))
    case _ => None
  }

  // The aggregated metric, if it meets the condition.
  function Met(c: Condition, data: Telemetry): Option<Metric> {
    var points := MatchingPoints(c, data, data.points);
    if points == [] then None
    else
      var metric := Aggregated(c.aggregation, points);
      if metric.Some? && Compare(c.operator, metric.value.value, c.threshold) then metric else None
  }

  lemma {:induction false} SumBounds(points: seq<Metric>, low: real, high: real)
    requires forall p | p in points :: low <= p.value <= high
    ensures low * |points| as real <= SumOf(points) <= high * |points| as real
  {
    if points == [] {
    } else {
      SumBounds(points[1..], low, high);
      assert points == [points[0]] + points[1..];
      assert low * |points| as real == low + low * (|points| - 1) as real;
      assert high * |points| as real == high + high * (|points| - 1) as real;
    }
  }

  lemma {:induction false} SumIsAdditive(a: seq<Metric>, b: seq<Metric>)
    ensures SumOf([]) == 0.0 && forall p :: SumOf([p]) == p.value
    ensures SumOf(a + b) == SumOf(a) + SumOf(b)
  {
    if a == [] {
      assert a + b == b;
    } else {
      SumIsAdditive(a[1..], b);
      assert (a + b)[1..] == a[1..] + b;
    }
  }

  // A point of the data that applies to the condition.
  ghost predicate IsApplying(c: Condition, data: Telemetry, p: Metric) {
    p in data.points && Applies(c, data, p)
  }

  // The value lies as the operator asks from the threshold; equal means closer than 2^-52.
  predicate Satisfies(value: real, op: ComparisonOp, threshold: real) {
    match op
    case Gt => threshold < value
    case Gte => threshold <= value
    case Lt => value < threshold
    case Lte => value <= threshold
    case Eq => threshold - 1.0 / 4503599627370496.0 < value < threshold + 1.0 / 4503599627370496.0
    case Neq => value <= threshold - 1.0 / 4503599627370496.0 || threshold + 1.0 / 4503599627370496.0 <= value
  }

  lemma CompareIsSatisfies(op: ComparisonOp, left: real, right: real)
    ensures Compare(op, left, right) <==> Satisfies(left, op, right)
  {
  }

  // Exactly when a condition is met, and by what: some point applies, the aggregation is one of the
  // four, and its value compares with the threshold. What triggers it is that value: the latest,
  // smallest or greatest of the applying points, or their average, which lies between them.
  lemma MetMeans(c: Condition, data: Telemetry)
    ensures var points := MatchingPoints(c, data, data.points);
            && (forall p :: p in points <==> IsApplying(c, data, p))
            && (Met(c, data).Some?
                <==> && points != [] && c.aggregation in {Latest, Min, Max, Avg}
                     && Satisfies(Aggregated(c.aggregation, points).value.value, c.operator, c.threshold))
            && (Met(c, data).Some? ==> Met(c, data) == Aggregated(c.aggregation, points))
            && (points != [] ==>
                  && Aggregated(Latest, points) == Some(LatestOf(points)) && LatestOf(points) in points
                  && (forall p | p in points :: p.timestamp <= LatestOf(points).timestamp)
                  && Aggregated(Min, points) == Some(MinOf(points)) && MinOf(points) in points
                  && (forall p | p in points :: MinOf(points).value <= p.value)
                  && Aggregated(Max, points) == Some(MaxOf(points)) && MaxOf(points) in points
                  && (forall p | p in points :: p.value <= MaxOf(points).value)
                  && Aggregated(Avg, points).Some?
                  && Aggregated(Avg, points).value == LatestOf(points).(value := Aggregated(Avg, points).value.value)
                  && Aggregated(Avg, points).value.value * |points| as real == SumOf(points)
                  && MinOf(points).value <= Aggregated(Avg, points).value.value <= MaxOf(points).value)
  {
    hide AppliesTo, Applies, Compare, Satisfies, MatchingPoints, LatestOf, MinOf, MaxOf, SumOf;
    forall p ensures AppliesTo(c, data, p) <==> Applies(c, data, p) {
      AppliesToIsApplies(c, data, p);
    }
    forall left ensures Compare(c.operator, left, c.threshold) <==> Satisfies(left, c.operator, c.threshold) {
      CompareIsSatisfies(c.operator, left, c.threshold);
    }
    var points := MatchingPoints(c, data, data.points);
    if points != [] {
      ExtremesAreAmongThem(points);
      AverageLiesBetween(points);
    }
  }

  // Upward comparisons of the greatest, and downward ones of the smallest, ask whether some applying
  // point compares.
  lemma ExtremeMeansSomePoint(c: Condition, data: Telemetry)
    requires || (c.aggregation == Max && c.operator in {Gt, Gte})
             || (c.aggregation == Min && c.operator in {Lt, Lte})
    ensures Met(c, data).Some?
       <==> exists p :: IsApplying(c, data, p) && Satisfies(p.value, c.operator, c.threshold)
  {
    hide AppliesTo, MatchingPoints, LatestOf, MinOf, MaxOf, SumOf, Met, IsApplying, Aggregated;
    MetMeans(c, data);
    var points := MatchingPoints(c, data, data.points);
    if points != [] {
      assert IsApplying(c, data, MaxOf(points)) && IsApplying(c, data, MinOf(points));
    }
  }

  // The other way round, they ask whether some point applies and all that do compare.
  lemma ExtremeMeansAllPoints(c: Condition, data: Telemetry)
    requires || (c.aggregation == Max && c.operator in {Lt, Lte})
             || (c.aggregation == Min && c.operator in {Gt, Gte})
    ensures Met(c, data).Some?
       <==> && (exists p :: IsApplying(c, data, p))
            && (forall p | IsApplying(c, data, p) :: Satisfies(p.value, c.operator, c.threshold))
  {
    hide AppliesTo, MatchingPoints, LatestOf, MinOf, MaxOf, SumOf, Met, IsApplying, Aggregated;
    MetMeans(c, data);
    var points := MatchingPoints(c, data, data.points);
    if points != [] {
      assert IsApplying(c, data, MaxOf(points)) && IsApplying(c, data, MinOf(points));
    }
  }

  lemma AverageLiesBetween(points: seq<Metric>)
    requires points != []
    ensures var average := SumOf(points) / |points| as real;
            && average * |points| as real == SumOf(points)
            && MinOf(points).value <= average <= MaxOf(points).value
  {
    hide MinOf, MaxOf, SumOf;
    ExtremesAreAmongThem(points);
    SumBounds(points, MinOf(points).value, MaxOf(points).value);
    QuotientLiesBetween(SumOf(points), |points| as real, MinOf(points).value, MaxOf(points).value);
  }

  lemma QuotientLiesBetween(sum: real, n: real, low: real, high: real)
    requires n > 0.0 && low * n <= sum <= high * n
    ensures sum / n * n == sum && low <= sum / n <= high
  {
    var q := sum / n;
    Scaled(q, low, n);
    Scaled(high, q, n);
  }

  lemma Scaled(a: real, b: real, n: real)
    requires n > 0.0
    ensures a < b <==> a * n < b * n
  {
  }

  // ------------------------------------------------------------------ one rule

  function MatchedUpTo(conditions: seq<Condition>, data: Telemetry, n: nat): (matched: seq<nat>)
    requires n <= |conditions|
    ensures forall k | 0 <= k < |matched| :: matched[k] < n
  {
    if n == 0 then []
    else MatchedUpTo(conditions, data, n - 1) + if Met(conditions[n - 1], data).Some? then [n - 1] else []
  }

  lemma {:induction false} MatchedAreThoseMet(conditions: seq<Condition>, data: Telemetry, n: nat, i: nat)
    requires n <= |conditions|
    ensures i in MatchedUpTo(conditions, data, n) <==> i < n && Met(conditions[i], data).Some?
  {
    hide Met;
    if n == 0 {
    } else {
      MatchedAreThoseMet(conditions, data, n - 1, i);
    }
  }

  // The metrics that met them, in the same order.
  function TriggersUpTo(conditions: seq<Condition>, data: Telemetry, n: nat): (metrics: seq<Metric>)
    requires n <= |conditions|
    ensures |metrics| == |MatchedUpTo(conditions, data, n)|
  {
    if n == 0 then []
    else
      var met := Met(conditions[n - 1], data);
      TriggersUpTo(conditions, data, n - 1) + if met.Some? then [met.value] else []
  }

  lemma {:induction false} TriggersBelongToTheirConditions(
    conditions: seq<Condition>, data: Telemetry, n: nat, k: nat)
    requires n <= |conditions| && k < |MatchedUpTo(conditions, data, n)|
    ensures var i := MatchedUpTo(conditions, data, n)[k];
            i < n && Met(conditions[i], data) == Some(TriggersUpTo(conditions, data, n)[k])
  {
    hide Met;
    if k < |MatchedUpTo(conditions, data, n - 1)| {
      TriggersBelongToTheirConditions(conditions, data, n - 1, k);
    }
  }

  predicate CheckLogicalOp(matched: seq<nat>, conditions: seq<Condition>, op: LogicalOp) {
    conditions != [] &&
    match op
    case And => forall i | 0 <= i < |conditions| :: i in matched
    case Or => matched != []
  }

  // evaluate_rule_internal.
  function ResultOf(e: Engine, id: string, data: Telemetry, now: Instant): EvaluationResult {
    if id !in e.rules then EvaluationResult(id, false, [], [], now)
    else
      var conditions := e.rules[id].conditions;
      var matched := MatchedUpTo(conditions, data, |conditions|);
      EvaluationResult(id, CheckLogicalOp(matched, conditions, e.rules[id].conditionOp), matched,
                       TriggersUpTo(conditions, data, |conditions|), now)
  }

  // What matching means: all, or any, of a non-empty list of conditions are met.
  predicate RuleMatches(rule: Rule, data: Telemetry) {
    rule.conditions != [] &&
    match rule.conditionOp
    case And => forall c | c in rule.conditions :: Met(c, data).Some?
    case Or => exists c | c in rule.conditions :: Met(c, data).Some?
  }

  lemma LogicalOpIsRuleMatches(rule: Rule, data: Telemetry)
    ensures var matched := MatchedUpTo(rule.conditions, data, |rule.conditions|);
            && (CheckLogicalOp(matched, rule.conditions, rule.conditionOp) <==> RuleMatches(rule, data))
            && (RuleMatches(rule, data) ==> matched != [])
  {
    hide Met;
    var matched := MatchedUpTo(rule.conditions, data, |rule.conditions|);
    forall i | 0 <= i < |rule.conditions| ensures i in matched <==> Met(rule.conditions[i], data).Some? {
      MatchedAreThoseMet(rule.conditions, data, |rule.conditions|, i);
    }
    hide MatchedUpTo;
    if matched != [] {
      assert matched[0] in matched && rule.conditions[matched[0]] in rule.conditions;
    }
    if c :| c in rule.conditions && Met(c, data).Some? {
      var i :| 0 <= i < |rule.conditions| && rule.conditions[i] == c;
      assert i in matched;
    }
    if rule.conditions != [] {
      assert rule.conditions[0] in rule.conditions;
    }
  }

  // --------------------------------------------------------------- the engine

  function AddedRule(e: Engine, rule: Rule): Engine {
    e.(rules := e.rules[rule.id := rule],
       states := if rule.id in e.states then e.states else e.states[rule.id := NEW_STATE])
  }

  function RemovedRule(e: Engine, id: string): Engine {
    e.(rules := e.rules - {id}, states := e.states - {id})
  }

  function Remembered(recent: seq<Alert>, alert: Alert, maxHistory: nat): seq<Alert> {
    var grown := recent + [alert];
    if |grown| > maxHistory then grown[1..] else grown
  }

  function SeverityText(severity: Severity): string {
    match severity
    case Info => "info"
    case Warning => "warning"
    case Critical => "critical"
  }

  function AlertFor(id: string, rule: Rule, c: Condition, metric: Option<Metric>, now: Instant): Alert {
    Alert(id, rule.name, c.severity, "[" + SeverityText(c.severity) + "] " + rule.name + " triggered",
          rule.description, if metric.Some? then metric.value.name else "",
          if metric.Some? then metric.value.value else 0.0, c.threshold, c.operator,
          if metric.Some? then metric.value.labels else map[], now, rule.tags)
  }

  // An alert of a result without metrics names none.
  lemma AlertWithoutMetric(id: string, rule: Rule, c: Condition, now: Instant)
    ensures var alert := AlertFor(id, rule, c, None, now);
            alert.metricName == "" && alert.metricValue == 0.0 && alert.labels == map[]
  {
  }

  function Carried(actions: seq<AlertAction>, alert: Alert): seq<(AlertAction, Alert)> {
    seq(|actions|, i requires 0 <= i < |actions| => (actions[i], alert))
  }

  function FirstOf(metrics: seq<Metric>): Option<Metric> {
    if metrics == [] then None else Some(metrics[0])
  }

  // The first matched condition that the rule still has.
  function FirstCondition(rule: Rule, matched: seq<nat>): (first: Option<Condition>)
    ensures first.None? <==> forall k | 0 <= k < |matched| :: matched[k] >= |rule.conditions|
    ensures matched != [] && matched[0] < |rule.conditions| ==> first == Some(rule.conditions[matched[0]])
  {
    if matched == [] then None
    else if matched[0] < |rule.conditions| then Some(rule.conditions[matched[0]])
    else FirstCondition(rule, matched[1..])
  }

  // fire_alert: nothing happens without the rule or without a matched condition.
  function Fired(e: Engine, id: string, result: EvaluationResult, now: Instant): Engine {
    if id !in e.rules || FirstCondition(e.rules[id], result.matched).None? then e
    else
      var rule := e.rules[id];
      var alert := AlertFor(id, rule, FirstCondition(rule, result.matched).value, FirstOf(result.metrics), now);
      e.(executed := e.executed + Carried(rule.actions, alert),
         states := if id in e.states then
                     e.states[id := e.states[id].(lastFiredAt := Some(now), fireCount := e.states[id].fireCount + 1)]
                   else e.states,
         recent := Remembered(e.recent, alert, e.maxHistory))
  }

  predicate InCooldown(e: Engine, id: string, state: AlertState, now: Instant) {
    var cooldown := if id in e.rules then AsI64(e.rules[id].cooldownSeconds) else 300;
    state.lastFiredAt.Some? && Seconds(now) - Seconds(state.lastFiredAt.value) < cooldown
  }

  predicate DurationUnmet(e: Engine, id: string, state: AlertState, now: Instant) {
    && id in e.rules && e.rules[id].forSeconds.Some? && state.firingSince.Some?
    && Seconds(now) - Seconds(state.firingSince.value) < AsI64(e.rules[id].forSeconds.value)
  }

  function Updated(e: Engine, id: string, result: EvaluationResult, now: Instant): Engine {
    if id !in e.states then e
    else
      var seen := e.states[id].(lastEvaluatedAt := Some(now));
      var state :=
        if result.isMatched && !seen.isFiring then seen.(isFiring := true, firingSince := Some(now))
        else if !result.isMatched && seen.isFiring then seen.(isFiring := false, firingSince := None)
        else seen;
      var e' := e.(states := e.states[id := state]);
      if result.isMatched && !InCooldown(e, id, state, now) && !DurationUnmet(e, id, state, now) then
        Fired(e', id, result, now)
      else e'
  }

  function Evaluated(e: Engine, id: string, data: Telemetry, now: Instant): Engine {
    Updated(e, id, ResultOf(e, id, data, now), now)
  }

  function EvaluatedAll(e: Engine, order: seq<string>, data: Telemetry, now: Instant): Engine
    decreases |order|
  {
    if order == [] then e else EvaluatedAll(Evaluated(e, order[0], data, now), order[1..], data, now)
  }

  // The enabled rules, each once, in whatever order the rule map yields them.
  ghost predicate VisitsEnabledRules(rules: map<string, Rule>, order: seq<string>) {
    && (forall id :: id in order <==> id in rules && rules[id].enabled)
    && forall i, j | 0 <= i < j < |order| :: order[i] != order[j]
  }

  class AlertEngine {
    var rules: map<string, Rule>
    var states: map<string, AlertState>
    var recentAlerts: seq<Alert>
    var executed: seq<(AlertAction, Alert)>
    const maxHistory: nat

    function State(): Engine
      reads this
    {
      Engine(rules, states, recentAlerts, executed, maxHistory)
    }

    constructor (maxHistory: nat)
      ensures State() == Engine(map[], map[], [], [], maxHistory)
    {
      rules, states, recentAlerts, executed := map[], map[], [], [];
      this.maxHistory := maxHistory;
    }

    method AddRule(rule: Rule)
      modifies this
      ensures State() == AddedRule(old(State()), rule)
    {
      rules := rules[rule.id := rule];
      if rule.id !in states {
        states := states[rule.id := NEW_STATE];
      }
    }

    method RemoveRule(id: string)
      modifies this
      ensures State() == RemovedRule(old(State()), id)
    {
      rules := rules - {id};
      states := states - {id};
    }

    method Evaluate(data: Telemetry, now: Instant) returns (results: seq<EvaluationResult>)
      modifies this
      ensures VisitsEnabledRules(old(rules), RuleIds(results))
      ensures forall i | 0 <= i < |results| :: results[i] == ResultOf(old(State()), results[i].ruleId, data, now)
      ensures State() == EvaluatedAll(old(State()), RuleIds(results), data, now)
    {
      hide ResultOf;
      var waiting := set id | id in rules && rules[id].enabled;
      ghost var enabled, start := waiting, State();
      results := [];
      while waiting != {}
        invariant waiting <= enabled && rules == old(rules)
        invariant forall id :: id in RuleIds(results) <==> id in enabled - waiting
        invariant forall i, j | 0 <= i < j < |results| :: RuleIds(results)[i] != RuleIds(results)[j]
        invariant forall i | 0 <= i < |results| :: results[i] == ResultOf(start, results[i].ruleId, data, now)
        invariant State() == EvaluatedAll(start, RuleIds(results), data, now)
        decreases waiting
      {
        var id :| id in waiting;
        EvaluatedAllSnoc(start, RuleIds(results), id, data, now);
        assert id !in RuleIds(results);
        var result := EvaluateRule(id, data, now);
        OnlyRulesMatter(State(), start, id, data, now);
        UpdateState(id, result, now);
        assert RuleIds(results + [result]) == RuleIds(results) + [id];
        results := results + [result];
        waiting := waiting - {id};
      }
    }

    method EvaluateRule(id: string, data: Telemetry, now: Instant) returns (result: EvaluationResult)
      ensures result == ResultOf(State(), id, data, now) && result.ruleId == id && result.evaluatedAt == now
      ensures id !in rules ==> !result.isMatched && result.matched == [] && result.metrics == []
    {
      hide Met, CheckLogicalOp;
      if id !in rules {
        return EvaluationResult(id, false, [], [], now);
      }
      var rule := rules[id];
      var matched, metrics := [], [];
      for i := 0 to |rule.conditions|
        invariant matched == MatchedUpTo(rule.conditions, data, i)
        invariant metrics == TriggersUpTo(rule.conditions, data, i)
      {
        var met := Met(rule.conditions[i], data);
        if met.Some? {
          matched := matched + [i];
          metrics := metrics + [met.value];
        }
      }
      var isMatched := CheckLogicalOp(matched, rule.conditions, rule.conditionOp);
      return EvaluationResult(id, isMatched, matched, metrics, now);
    }

    method UpdateState(id: string, result: EvaluationResult, now: Instant)
      modifies this
      ensures State() == Updated(old(State()), id, result, now)
      ensures rules == old(rules)
    {
      if id !in states {
        return;
      }
      var state := states[id].(lastEvaluatedAt := Some(now));
      if result.isMatched {
        if !state.isFiring {
          state := state.(firingSince := Some(now), isFiring := true);
        }
        states := states[id := state];
        if state.lastFiredAt.Some? {
          var cooldown := if id in rules then AsI64(rules[id].cooldownSeconds) else 300;
          if Seconds(now) - Seconds(state.lastFiredAt.value) < cooldown {
            return;
          }
        }
        if id in rules && state.firingSince.Some? && rules[id].forSeconds.Some? {
          var firingDuration := Seconds(now) - Seconds(state.firingSince.value);
          if firingDuration < AsI64(rules[id].forSeconds.value) {
            return;
          }
        }
        FireAlert(id, result, now);
      } else {
        if state.isFiring {
          state := state.(firingSince := None, isFiring := false);
        }
        states := states[id := state];
      }
    }

    method FireAlert(id: string, result: EvaluationResult, now: Instant)
      modifies this
      ensures State() == Fired(old(State()), id, result, now)
      ensures rules == old(rules)
    {
      if id !in rules {
        return;
      }
      var rule := rules[id];
      var condition := FirstCondition(rule, result.matched);
      if condition.None? {
        return;
      }
      var metric := if result.metrics == [] then None else Some(result.metrics[0]);
      var alert := AlertFor(id, rule, condition.value, metric, now);
      for i := 0 to |rule.actions|
        invariant rules == old(rules) && states == old(states) && recentAlerts == old(recentAlerts)
        invariant executed == old(executed) + Carried(rule.actions[..i], alert)
      {
        executed := executed + [(rule.actions[i], alert)];
      }
      assert rule.actions[..|rule.actions|] == rule.actions;
      if id in states {
        states := states[id := states[id].(lastFiredAt := Some(now), fireCount := states[id].fireCount + 1)];
      }
      recentAlerts := recentAlerts + [alert];
      if |recentAlerts| > maxHistory {
        recentAlerts := recentAlerts[1..];
      }
    }
  }

  function RuleIds(results: seq<EvaluationResult>): (ids: seq<string>)
    ensures |ids| == |results| && forall i | 0 <= i < |ids| :: ids[i] == results[i].ruleId
  {
    seq(|results|, i requires 0 <= i < |results| => results[i].ruleId)
  }

  lemma OnlyRulesMatter(a: Engine, b: Engine, id: string, data: Telemetry, now: Instant)
    requires a.rules == b.rules
    ensures ResultOf(a, id, data, now) == ResultOf(b, id, data, now)
  {
  }

  lemma {:induction false} EvaluatedAllSnoc(e: Engine, order: seq<string>, id: string, data: Telemetry, now: Instant)
    ensures EvaluatedAll(e, order + [id], data, now) == Evaluated(EvaluatedAll(e, order, data, now), id, data, now)
    decreases |order|
  {
    hide Evaluated;
    if order == [] {
      assert (order + [id])[1..] == [];
    } else {
      assert (order + [id])[1..] == order[1..] + [id];
      EvaluatedAllSnoc(Evaluated(e, order[0], data, now), order[1..], id, data, now);
    }
  }

  // --------------------------------------------------------------- the ledger

  datatype Evaluation = Evaluation(at: Instant, matched: bool)

  // Everything that happened to a rule since it was added.
  datatype History = History(evaluations: seq<Evaluation>, firings: seq<Instant>)

  // An alert and the actions its rule had when it fired.
  datatype Firing = Firing(alert: Alert, actions: seq<AlertAction>)

  datatype Ledger = Ledger(rules: map<string, Rule>, histories: map<string, History>, firings: seq<Firing>)

  // Where the current unbroken run of matching evaluations begins.
  function StreakStart(evaluations: seq<Evaluation>): (k: nat)
    ensures k <= |evaluations|
    ensures forall i | k <= i < |evaluations| :: evaluations[i].matched
    ensures k > 0 ==> !evaluations[k - 1].matched
  {
    if evaluations == [] || !evaluations[|evaluations| - 1].matched then |evaluations|
    else StreakStart(evaluations[..|evaluations| - 1])
  }

  // This many whole seconds lie between the two moments, each counted in whole seconds of its own. A
  // number of seconds beyond the signed 64-bit range counts as n - 2^64.
  predicate HasPassed(since: Instant, now: Instant, seconds: U64) {
    now / 1_000_000_000 - since / 1_000_000_000
    >= if seconds < 0x8000_0000_0000_0000 then seconds else seconds - 0x1_0000_0000_0000_0000
  }

  // The documented gates: the rule matches now, its current cooldown has passed since its
  // previous firing, and it has matched at every evaluation for the required duration.
  predicate MustFire(rule: Rule, h: History, matches: bool, now: Instant) {
    && matches
    && (h.firings != [] ==> HasPassed(h.firings[|h.firings| - 1], now, rule.cooldownSeconds))
    && (rule.forSeconds.Some? ==>
          var evaluations := h.evaluations + [Evaluation(now, true)];
          assert StreakStart(evaluations) < |evaluations| by {
            assert evaluations[..|evaluations| - 1] == h.evaluations;
          }
          HasPassed(evaluations[StreakStart(evaluations)].at, now, rule.forSeconds.value))
  }

  // The alert of a matching rule: that of its first condition that is met, with the metric that
  // met it.
  function AlertOf(id: string, rule: Rule, data: Telemetry, now: Instant): Alert
    requires RuleMatches(rule, data)
  {
    LogicalOpIsRuleMatches(rule, data);
    var first := MatchedUpTo(rule.conditions, data, |rule.conditions|)[0];
    MatchedAreThoseMet(rule.conditions, data, |rule.conditions|, first);
    var c, metric := rule.conditions[first], Met(rule.conditions[first], data).value;
    var level := if c.severity.Info? then "info" else if c.severity.Warning? then "warning" else "critical";
    Alert(
      ruleId := id, ruleName := rule.name, severity := c.severity,
      message := "[" + level + "] " + rule.name + " triggered", description := rule.description,
      metricName := metric.name, metricValue := metric.value, threshold := c.threshold, operator := c.operator,
      labels := metric.labels, firedAt := now, tags := rule.tags)
  }

  function Recorded(l: Ledger, id: string, data: Telemetry, now: Instant): Ledger
    requires id in l.rules && id in l.histories
  {
    var rule, h := l.rules[id], l.histories[id];
    var matches := RuleMatches(rule, data);
    var fires := MustFire(rule, h, matches, now);
    Ledger(l.rules,
           l.histories[id := History(h.evaluations + [Evaluation(now, matches)],
                                     if fires then h.firings + [now] else h.firings)],
           if fires then l.firings + [Firing(AlertOf(id, rule, data, now), rule.actions)] else l.firings)
  }

  function RecordedAll(l: Ledger, order: seq<string>, data: Telemetry, now: Instant): Ledger
    requires l.histories.Keys == l.rules.Keys && forall id | id in order :: id in l.rules
    decreases |order|
  {
    if order == [] then l
    else RecordedAll(Recorded(l, order[0], data, now), order[1..], data, now)
  }

  // The state of a rule is a digest of its history.
  function Digest(h: History): AlertState {
    var n, m := |h.evaluations|, |h.firings|;
    var firing := n > 0 && h.evaluations[n - 1].matched;
    AlertState(
      firing,
      if firing then
        assert StreakStart(h.evaluations) < n by {
          assert StreakStart(h.evaluations[..n - 1]) <= n - 1;
        }
        Some(h.evaluations[StreakStart(h.evaluations)].at)
      else None,
      if m > 0 then Some(h.firings[m - 1]) else None,
      m,
      if n > 0 then Some(h.evaluations[n - 1].at) else None)
  }

  function LastAlerts(firings: seq<Firing>, n: nat): seq<Alert> {
    var last := if |firings| <= n then firings else firings[|firings| - n..];
    seq(|last|, i requires 0 <= i < |last| => last[i].alert)
  }

  // Every action of every firing, once and in order.
  function AllActions(firings: seq<Firing>): seq<(AlertAction, Alert)> {
    if firings == [] then []
    else
      var last := firings[|firings| - 1];
      AllActions(firings[..|firings| - 1])
      + seq(|last.actions|, i requires 0 <= i < |last.actions| => (last.actions[i], last.alert))
  }

  function Digested(l: Ledger, maxHistory: nat): Engine {
    Engine(l.rules, map id | id in l.histories :: Digest(l.histories[id]), LastAlerts(l.firings, maxHistory),
           AllActions(l.firings), maxHistory)
  }

  lemma RememberedIsLast(firings: seq<Firing>, firing: Firing, n: nat)
    ensures Remembered(LastAlerts(firings, n), firing.alert, n) == LastAlerts(firings + [firing], n)
    ensures AllActions(firings + [firing]) == AllActions(firings) + Carried(firing.actions, firing.alert)
  {
    assert (firings + [firing])[..|firings|] == firings;
  }

  lemma DigestOfUnmatched(h: History, now: Instant)
    ensures Digest(History(h.evaluations + [Evaluation(now, false)], h.firings))
         == Digest(h).(lastEvaluatedAt := Some(now), isFiring := false, firingSince := None)
  {
  }

  lemma DigestOfMatched(h: History, now: Instant)
    ensures var before, after := Digest(h), Digest(History(h.evaluations + [Evaluation(now, true)], h.firings));
            after == before.(lastEvaluatedAt := Some(now), isFiring := true,
                             firingSince := if before.isFiring then before.firingSince else Some(now))
  {
    assert (h.evaluations + [Evaluation(now, true)])[..|h.evaluations|] == h.evaluations;
  }

  // The engine's gates, read from the digest, are the documented ones, read from the history.
  lemma GatesAgree(e: Engine, id: string, h: History, now: Instant)
    requires id in e.rules
    ensures var state := Digest(History(h.evaluations + [Evaluation(now, true)], h.firings));
            !InCooldown(e, id, state, now) && !DurationUnmet(e, id, state, now)
            <==> MustFire(e.rules[id], h, true, now)
  {
    var evaluations := h.evaluations + [Evaluation(now, true)];
    assert evaluations[..|evaluations| - 1] == h.evaluations;
  }

  // What one update does to a rule whose state is the digest of `h`.
  lemma UpdateOfDigest(e: Engine, id: string, h: History, result: EvaluationResult, now: Instant)
    requires id in e.rules && id in e.states && e.states[id] == Digest(h)
    requires result.isMatched ==> result.matched != [] && result.matched[0] < |e.rules[id].conditions|
    ensures var rule, matches := e.rules[id], result.isMatched;
            var fires := MustFire(rule, h, matches, now);
            var firings := if fires then h.firings + [now] else h.firings;
            var h' := History(h.evaluations + [Evaluation(now, matches)], firings);
            var updated := Updated(e, id, result, now);
            if fires then
              var alert := AlertFor(id, rule, rule.conditions[result.matched[0]], FirstOf(result.metrics), now);
              updated == e.(states := e.states[id := Digest(h')],
                            recent := Remembered(e.recent, alert, e.maxHistory),
                            executed := e.executed + Carried(rule.actions, alert))
            else updated == e.(states := e.states[id := Digest(h')])
  {
    hide StreakStart, Seconds, AsI64, AlertFor, Carried, Remembered;
    DigestOfUnmatched(h, now);
    DigestOfMatched(h, now);
    if result.isMatched {
      var evaluations := h.evaluations + [Evaluation(now, true)];
      var seen := Digest(History(evaluations, h.firings));
      hide InCooldown, DurationUnmet, MustFire;
      GatesAgree(e, id, h, now);
      assert Digest(History(evaluations, h.firings + [now]))
          == seen.(lastFiredAt := Some(now), fireCount := seen.fireCount + 1);
    }
  }

  // The result of evaluating a matching rule names its alert.
  lemma ResultNamesTheAlert(e: Engine, id: string, data: Telemetry, now: Instant)
    requires id in e.rules
    ensures var rule, result := e.rules[id], ResultOf(e, id, data, now);
            && result.ruleId == id && result.evaluatedAt == now
            && (result.isMatched <==> RuleMatches(rule, data))
            && (result.isMatched ==>
                  && result.matched != [] && result.matched[0] < |rule.conditions|
                  && AlertFor(id, rule, rule.conditions[result.matched[0]], FirstOf(result.metrics), now)
                     == AlertOf(id, rule, data, now))
  {
    hide RuleMatches, Met;
    var rule, result := e.rules[id], ResultOf(e, id, data, now);
    LogicalOpIsRuleMatches(rule, data);
    if result.isMatched {
      assert result.matched[0] in result.matched;
      TriggersBelongToTheirConditions(rule.conditions, data, |rule.conditions|, 0);
    }
  }

  // One evaluation in the engine's own terms: the rule fires exactly when it matches, its cooldown has
  // passed since it last fired, and its duration since the present streak of matches began.
  lemma FiresIff(e: Engine, id: string, data: Telemetry, now: Instant)
    requires id in e.rules && id in e.states
    ensures var rule, state, after := e.rules[id], e.states[id], Evaluated(e, id, data, now);
            var since := if state.isFiring then state.firingSince else Some(now);
            var fires := && RuleMatches(rule, data)
                         && (state.lastFiredAt.Some? ==>
                               HasPassed(state.lastFiredAt.value, now, rule.cooldownSeconds))
                         && (rule.forSeconds.Some? && since.Some? ==>
                               HasPassed(since.value, now, rule.forSeconds.value));
            && after.rules == e.rules && after.states.Keys == e.states.Keys
            && after.states[id] == AlertState(
                 RuleMatches(rule, data), if RuleMatches(rule, data) then since else
                   if state.isFiring then None else state.firingSince,
                 if fires then Some(now) else state.lastFiredAt,
                 if fires then state.fireCount + 1 else state.fireCount, Some(now))
            && (forall other | other in e.states && other != id :: after.states[other] == e.states[other])
            && (if fires then |after.executed| == |e.executed| + |rule.actions|
                else after == e.(states := after.states))
  {
    hide RuleMatches, AlertFor, Met, MatchedUpTo, TriggersUpTo, CheckLogicalOp;
    LogicalOpIsRuleMatches(e.rules[id], data);
  }

  // One evaluation of one rule: the engine fires exactly when the ledger says it must.
  lemma EvaluationAgrees(l: Ledger, maxHistory: nat, id: string, data: Telemetry, now: Instant)
    requires id in l.rules && id in l.histories
    ensures Evaluated(Digested(l, maxHistory), id, data, now) == Digested(Recorded(l, id, data, now), maxHistory)
  {
    hide Digest, StreakStart, Seconds, AsI64, Updated, Remembered, LastAlerts, CheckLogicalOp, RuleMatches;
    hide ResultOf, AlertFor, AlertOf, Carried, AllActions;
    var e := Digested(l, maxHistory);
    var rule, h := l.rules[id], l.histories[id];
    var result := ResultOf(e, id, data, now);
    ResultNamesTheAlert(e, id, data, now);
    UpdateOfDigest(e, id, h, result, now);
    if MustFire(rule, h, result.isMatched, now) {
      RememberedIsLast(l.firings, Firing(AlertOf(id, rule, data, now), rule.actions), maxHistory);
    }
    assert Evaluated(e, id, data, now).states == Digested(Recorded(l, id, data, now), maxHistory).states;
  }

  lemma {:induction false} EvaluationsAgree(
    l: Ledger, maxHistory: nat, order: seq<string>, data: Telemetry, now: Instant)
    requires l.histories.Keys == l.rules.Keys && forall id | id in order :: id in l.rules
    ensures EvaluatedAll(Digested(l, maxHistory), order, data, now)
         == Digested(RecordedAll(l, order, data, now), maxHistory)
    ensures RecordedAll(l, order, data, now).rules == l.rules
    ensures RecordedAll(l, order, data, now).histories.Keys == l.rules.Keys
    decreases |order|
  {
    if order == [] {
    } else {
      EvaluationAgrees(l, maxHistory, order[0], data, now);
      EvaluationsAgree(Recorded(l, order[0], data, now), maxHistory, order[1..], data, now);
    }
  }

  // ------------------------------------------------------------------- runs

  datatype Op =
    | Add(rule: Rule)
    | Remove(id: string)
    | Evaluate(data: Telemetry, now: Instant, order: seq<string>)

  ghost predicate Valid(rules: map<string, Rule>, op: Op) {
    op.Evaluate? ==> VisitsEnabledRules(rules, op.order)
  }

  function AfterOp(e: Engine, op: Op): Engine {
    match op
    case Add(rule) => AddedRule(e, rule)
    case Remove(id) => RemovedRule(e, id)
    case Evaluate(data, now, order) => EvaluatedAll(e, order, data, now)
  }

  // Adding a rule anew keeps the history of its id; removing it forgets the history, though not
  // the alerts it fired.
  ghost function LedgerAfterOp(l: Ledger, op: Op): Ledger
    requires l.histories.Keys == l.rules.Keys && Valid(l.rules, op)
  {
    match op
    case Add(rule) =>
      Ledger(l.rules[rule.id := rule],
             if rule.id in l.histories then l.histories else l.histories[rule.id := History([], [])],
             l.firings)
    case Remove(id) => Ledger(l.rules - {id}, l.histories - {id}, l.firings)
    case Evaluate(data, now, order) => RecordedAll(l, order, data, now)
  }

  ghost predicate ValidRun(rules: map<string, Rule>, ops: seq<Op>)
    decreases |ops|
  {
    ops == [] || (Valid(rules, ops[0]) && ValidRun(RulesAfter(rules, ops[0]), ops[1..]))
  }

  function RulesAfter(rules: map<string, Rule>, op: Op): map<string, Rule> {
    match op
    case Add(rule) => rules[rule.id := rule]
    case Remove(id) => rules - {id}
    case Evaluate(_, _, _) => rules
  }

  function EngineRun(e: Engine, ops: seq<Op>): Engine
    decreases |ops|
  {
    if ops == [] then e else EngineRun(AfterOp(e, ops[0]), ops[1..])
  }

  lemma OpAgrees(l: Ledger, maxHistory: nat, op: Op)
    requires l.histories.Keys == l.rules.Keys && Valid(l.rules, op)
    ensures var l' := LedgerAfterOp(l, op);
            && AfterOp(Digested(l, maxHistory), op) == Digested(l', maxHistory)
            && l'.histories.Keys == l'.rules.Keys && l'.rules == RulesAfter(l.rules, op)
  {
    match op
    case Add(rule) =>
      assert Digest(History([], [])) == NEW_STATE;
      assert AfterOp(Digested(l, maxHistory), op).states == Digested(LedgerAfterOp(l, op), maxHistory).states;
    case Remove(id) =>
      assert AfterOp(Digested(l, maxHistory), op).states == Digested(LedgerAfterOp(l, op), maxHistory).states;
    case Evaluate(data, now, order) =>
      EvaluationsAgree(l, maxHistory, order, data, now);
  }

  ghost function LedgerRun(l: Ledger, ops: seq<Op>): Ledger
    requires l.histories.Keys == l.rules.Keys && ValidRun(l.rules, ops)
    decreases |ops|
  {
    if ops == [] then l
    else
      OpAgrees(l, 0, ops[0]);
      LedgerRun(LedgerAfterOp(l, ops[0]), ops[1..])
  }

  lemma {:induction false} RunsAgree(l: Ledger, maxHistory: nat, ops: seq<Op>)
    requires l.histories.Keys == l.rules.Keys && ValidRun(l.rules, ops)
    ensures EngineRun(Digested(l, maxHistory), ops) == Digested(LedgerRun(l, ops), maxHistory)
    decreases |ops|
  {
    if ops == [] {
    } else {
      OpAgrees(l, maxHistory, ops[0]);
      OpAgrees(l, 0, ops[0]);
      RunsAgree(LedgerAfterOp(l, ops[0]), maxHistory, ops[1..]);
    }
  }

  // No operation of the run adds this rule anew or removes it.
  ghost predicate Unchanged(ops: seq<Op>, id: string) {
    forall i | 0 <= i < |ops| ::
      && (ops[i].Add? ==> ops[i].rule.id != id)
      && (ops[i].Remove? ==> ops[i].id != id)
  }

  // From the n-th firing on, each is at least so many whole seconds after the one before it.
  ghost predicate Apart(firings: seq<Instant>, n: nat, seconds: nat) {
    forall k | n <= k < |firings| && k > 0 ::
      firings[k] / 1_000_000_000 - firings[k - 1] / 1_000_000_000 >= seconds
  }

  // When alerts of this rule were fired.
  function FiredTimes(firings: seq<Firing>, id: string): seq<Instant> {
    if firings == [] then []
    else
      var last := firings[|firings| - 1].alert;
      FiredTimes(firings[..|firings| - 1], id) + if last.ruleId == id then [last.firedAt] else []
  }

  // The ledger of a later moment: the rule is the same, firings were added at the end only, each
  // has its alert, and they keep the cooldown.
  ghost predicate KeepsCooldown(l: Ledger, l': Ledger, id: string) {
    && id in l.rules && id in l.histories && id in l'.rules && id in l'.histories
    && l'.rules[id] == l.rules[id]
    && var before, after := l.histories[id].firings, l'.histories[id].firings;
       && before <= after && Apart(after, |before|, l.rules[id].cooldownSeconds)
       && FiredTimes(l'.firings, id) == FiredTimes(l.firings, id) + after[|before|..]
  }

  lemma RecordedKeepsCooldown(l: Ledger, id: string, evaluated: string, data: Telemetry, now: Instant)
    requires l.histories.Keys == l.rules.Keys && id in l.rules && evaluated in l.rules
    requires l.rules[id].cooldownSeconds <= I64_MAX
    ensures KeepsCooldown(l, Recorded(l, evaluated, data, now), id)
  {
    hide RuleMatches, AlertOf;
    var l' := Recorded(l, evaluated, data, now);
    if |l'.firings| > |l.firings| {
      assert l'.firings[..|l.firings|] == l.firings;
      AlertIsOfItsRule(evaluated, l.rules[evaluated], data, now);
    }
  }

  lemma AlertIsOfItsRule(id: string, rule: Rule, data: Telemetry, now: Instant)
    requires RuleMatches(rule, data)
    ensures AlertOf(id, rule, data, now).ruleId == id && AlertOf(id, rule, data, now).firedAt == now
  {
  }

  lemma CooldownComposes(a: Ledger, b: Ledger, c: Ledger, id: string)
    requires KeepsCooldown(a, b, id) && KeepsCooldown(b, c, id)
    ensures KeepsCooldown(a, c, id)
  {
    var x, y, z := a.histories[id].firings, b.histories[id].firings, c.histories[id].firings;
    assert z[|x|..] == y[|x|..] + z[|y|..];
    assert forall k | 0 <= k < |y| :: z[k] == y[k];
  }

  lemma {:induction false} RecordedAllKeepsCooldown(
    l: Ledger, id: string, order: seq<string>, data: Telemetry, now: Instant)
    requires l.histories.Keys == l.rules.Keys && id in l.rules && forall other | other in order :: other in l.rules
    requires l.rules[id].cooldownSeconds <= I64_MAX
    ensures KeepsCooldown(l, RecordedAll(l, order, data, now), id)
    decreases |order|
  {
    hide KeepsCooldown, Recorded;
    if order == [] {
      NothingFired(l, id);
    } else {
      var l' := Recorded(l, order[0], data, now);
      RecordedKeepsCooldown(l, id, order[0], data, now);
      RecordedKeepsRules(l, order[0], data, now);
      RecordedAllKeepsCooldown(l', id, order[1..], data, now);
      CooldownComposes(l, l', RecordedAll(l', order[1..], data, now), id);
    }
  }

  lemma NothingFired(l: Ledger, id: string)
    requires id in l.rules && id in l.histories
    ensures KeepsCooldown(l, l, id)
  {
  }

  lemma RecordedKeepsRules(l: Ledger, id: string, data: Telemetry, now: Instant)
    requires l.histories.Keys == l.rules.Keys && id in l.rules
    ensures Recorded(l, id, data, now).rules == l.rules && Recorded(l, id, data, now).histories.Keys == l.rules.Keys
  {
  }

  // Over any run under any clock in which a rule stays unchanged, two consecutive firings of the rule
  // are at least its cooldown of whole seconds apart, and each firing has its alert.
  lemma {:induction false} FiringsKeepTheCooldown(l: Ledger, ops: seq<Op>, id: string)
    requires l.histories.Keys == l.rules.Keys && ValidRun(l.rules, ops) && id in l.rules && Unchanged(ops, id)
    requires l.rules[id].cooldownSeconds <= I64_MAX
    ensures KeepsCooldown(l, LedgerRun(l, ops), id)
    decreases |ops|
  {
    hide KeepsCooldown, RecordedAll, Digested, AfterOp, LedgerAfterOp;
    if ops == [] {
      NothingFired(l, id);
    } else {
      var l' := LedgerAfterOp(l, ops[0]);
      OpAgrees(l, 0, ops[0]);
      OpKeepsCooldown(l, ops[0], id);
      FiringsKeepTheCooldown(l', ops[1..], id);
      CooldownComposes(l, l', LedgerRun(l', ops[1..]), id);
    }
  }

  lemma OpKeepsCooldown(l: Ledger, op: Op, id: string)
    requires l.histories.Keys == l.rules.Keys && Valid(l.rules, op) && id in l.rules && Unchanged([op], id)
    requires l.rules[id].cooldownSeconds <= I64_MAX
    ensures KeepsCooldown(l, LedgerAfterOp(l, op), id) && id in LedgerAfterOp(l, op).rules
    ensures LedgerAfterOp(l, op).rules[id] == l.rules[id]
  {
    assert [op][0] == op;
    match op
    case Evaluate(data, now, order) => RecordedAllKeepsCooldown(l, id, order, data, now);
    case _ =>
  }

  // Over any run of adding, removing and evaluating rules, in any evaluation order and under any
  // clock, the engine is the digest of the full ledger: it fires exactly what MustFire demands,
  // counts every firing since a rule was added, keeps the last alerts of all fired, and has carried
  // out every action of every firing once and in order.
  lemma EngineIsDigestOfLedger(maxHistory: nat, ops: seq<Op>)
    requires ValidRun(map[], ops)
    ensures var e := EngineRun(Engine(map[], map[], [], [], maxHistory), ops);
            var l := LedgerRun(Ledger(map[], map[], []), ops);
            && e == Digested(l, maxHistory)
            && (forall id | id in e.states :: id in l.histories && e.states[id].fireCount == |l.histories[id].firings|)
            && e.recent == LastAlerts(l.firings, maxHistory)
            && e.executed == AllActions(l.firings)
  {
    assert Digested(Ledger(map[], map[], []), maxHistory) == Engine(map[], map[], [], [], maxHistory);
    RunsAgree(Ledger(map[], map[], []), maxHistory, ops);
  }
}
