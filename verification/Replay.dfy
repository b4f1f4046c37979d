// The RBAC gate and the replay guard of crates/agent-core/src/security.rs.
//
// The guard keeps one pruned map from nonce keys to timestamps. The reference it is measured
// against never forgets: it keeps every accepted request and refuses a key exactly while some
// accepted timestamp for that key is still within the skew.
module Replay {
  import opened Wrappers
  import opened SecurityTypes

  datatype ReplayKey = ReplayKey(tenantId: string, deviceId: string, subject: string, action: Action, nonce: string)

  datatype SecurityRequest = SecurityRequest(
    principal: Principal, resource: Resource, action: Action, timestamp: Instant, nonce: string)
  {
    function Key(): ReplayKey {
      ReplayKey(principal.tenantId, principal.deviceId, principal.subject, action, nonce)
    }
  }

  type Outcome = Result<Decision, SecurityError>
  type Seen = map<ReplayKey, Instant>
  type Grants = map<Role, set<(Resource, Action)>>

  // ---------------------------------------------------------------- the guard

  function Delta(timestamp: Instant, now: Instant): nat {
    if timestamp >= now then timestamp - now else now - timestamp
  }

  // A future timestamp has no age, so it is kept.
  predicate Retained(skew: nat, timestamp: Instant, now: Instant) {
    timestamp > now || now - timestamp <= skew
  }

  function Pruned(skew: nat, seen: Seen, now: Instant): Seen {
    map key | key in seen && Retained(skew, seen[key], now) :: seen[key]
  }

  // Result of one replay check and the map it leaves.
  function Checked(skew: nat, seen: Seen, key: ReplayKey, timestamp: Instant, now: Instant)
    : (Result<(), SecurityError>, Seen)
  {
    if Delta(timestamp, now) > skew then
      (Err(TimestampOutOfWindow), seen)
    else
      var pruned := Pruned(skew, seen, now);
      if key in pruned then (Err(ReplayDetected), pruned) else (Ok(()), pruned[key := timestamp])
  }

  function RbacDecision(grants: Grants, role: Role, resource: Resource, action: Action): Decision {
    if role in grants && (resource, action) in grants[role] then Allow else Deny
  }

  // RBAC first: a denied request touches neither the window test nor the map.
  function Authorized(grants: Grants, skew: nat, seen: Seen, request: SecurityRequest, now: Instant)
    : (Outcome, Seen)
  {
    if RbacDecision(grants, request.principal.role, request.resource, request.action) == Deny then
      (Ok(Deny), seen)
    else
      var (checked, seen') := Checked(skew, seen, request.Key(), request.timestamp, now);
      (if checked.Err? then Err(checked.error) else Ok(Allow), seen')
  }

  class ReplayGuard {
    const allowedSkew: nat
    var seen: Seen

    constructor (allowedSkew: nat)
      ensures this.allowedSkew == allowedSkew && seen == map[]
    {
      this.allowedSkew := allowedSkew;
      seen := map[];
    }

    method Check(principal: Principal, action: Action, timestamp: Instant, nonce: string, now: Instant)
      returns (r: Result<(), SecurityError>)
      modifies this
      ensures (r, seen) == Checked(
        allowedSkew, old(seen),
        ReplayKey(principal.tenantId, principal.deviceId, principal.subject, action, nonce), timestamp, now)
    {
      var delta := if timestamp >= now then timestamp - now else now - timestamp;
      if delta > allowedSkew {
        return Err(TimestampOutOfWindow);
      }
      Prune(now);
      var key := ReplayKey(principal.tenantId, principal.deviceId, principal.subject, action, nonce);
      if key in seen {
        return Err(ReplayDetected);
      }
      seen := seen[key := timestamp];
      return Ok(());
    }

    method Prune(now: Instant)
      modifies this
      ensures seen == Pruned(allowedSkew, old(seen), now)
    {
      seen := map key | key in seen && Retained(allowedSkew, seen[key], now) :: seen[key];
    }
  }

  class BasicSecurityCenter {
    const policy: Grants
    const replayGuard: ReplayGuard

    constructor (policy: Grants, replayGuard: ReplayGuard)
      ensures this.policy == policy && this.replayGuard == replayGuard
    {
      this.policy := policy;
      this.replayGuard := replayGuard;
    }

    method AuthorizeRequest(request: SecurityRequest, now: Instant) returns (r: Outcome)
      modifies replayGuard
      ensures (r, replayGuard.seen)
           == Authorized(policy, replayGuard.allowedSkew, old(replayGuard.seen), request, now)
      ensures r == Ok(Deny) <==> !Permits(policy, request)
      ensures r == Err(TimestampOutOfWindow)
         <==> Permits(policy, request) && !InWindow(replayGuard.allowedSkew, request.timestamp, now)
    {
      var role := request.principal.role;
      if !(role in policy && (request.resource, request.action) in policy[role]) {
        return Ok(Deny);
      }
      var checked := replayGuard.Check(request.principal, request.action, request.timestamp, request.nonce, now);
      r := if checked.Err? then Err(checked.error) else Ok(Allow);
    }
  }

  // ------------------------------------------------------- the reference guard

  datatype Accepted = Accepted(key: ReplayKey, timestamp: Instant)

  // The policy grants this role this action on this resource.
  ghost predicate Permits(grants: Grants, request: SecurityRequest) {
    var role := request.principal.role;
    role in grants && (request.resource, request.action) in grants[role]
  }

  // Neither more than the skew old nor more than the skew ahead.
  ghost predicate InWindow(skew: nat, timestamp: Instant, now: Instant) {
    now - skew <= timestamp <= now + skew
  }

  // Some accepted timestamp of this key is still within the skew.
  ghost predicate StillFresh(skew: nat, history: seq<Accepted>, key: ReplayKey, now: Instant) {
    exists i | 0 <= i < |history| :: history[i].key == key && now - history[i].timestamp <= skew
  }

  ghost function ReferenceVerdict(
    grants: Grants, skew: nat, history: seq<Accepted>, request: SecurityRequest, now: Instant): Outcome
  {
    if !Permits(grants, request) then Ok(Deny)
    else if !InWindow(skew, request.timestamp, now) then Err(TimestampOutOfWindow)
    else if StillFresh(skew, history, request.Key(), now) then Err(ReplayDetected)
    else Ok(Allow)
  }

  ghost function Remember(history: seq<Accepted>, request: SecurityRequest, outcome: Outcome): seq<Accepted> {
    if outcome == Ok(Allow) then history + [Accepted(request.Key(), request.timestamp)] else history
  }

  // ------------------------------------------------------------- whole runs

  datatype Call = Call(request: SecurityRequest, now: Instant)

  ghost predicate ClockNeverStepsBack(calls: seq<Call>) {
    forall i, j | 0 <= i < j < |calls| :: calls[i].now <= calls[j].now
  }

  function GuardRun(grants: Grants, skew: nat, seen: Seen, calls: seq<Call>): (outcomes: seq<Outcome>)
    ensures |outcomes| == |calls|
    decreases |calls|
  {
    if calls == [] then []
    else
      var (outcome, seen') := Authorized(grants, skew, seen, calls[0].request, calls[0].now);
      [outcome] + GuardRun(grants, skew, seen', calls[1..])
  }

  ghost function ReferenceRun(grants: Grants, skew: nat, history: seq<Accepted>, calls: seq<Call>)
    : (outcomes: seq<Outcome>)
    ensures |outcomes| == |calls|
    decreases |calls|
  {
    if calls == [] then []
    else
      var outcome := ReferenceVerdict(grants, skew, history, calls[0].request, calls[0].now);
      [outcome] + ReferenceRun(grants, skew, Remember(history, calls[0].request, outcome), calls[1..])
  }

  // In every run, from any map and under any clock: a request is denied exactly when the policy does
  // not grant its role the action on the resource, and found out of window exactly when it is granted
  // and its timestamp is further than the skew from the clock, before or after it.
  lemma {:induction false} RefusedAtTheGateIff(grants: Grants, skew: nat, seen: Seen, calls: seq<Call>, k: nat)
    requires k < |calls|
    ensures var request, now, outcome := calls[k].request, calls[k].now, GuardRun(grants, skew, seen, calls)[k];
            var role := request.principal.role;
            var granted := role in grants && (request.resource, request.action) in grants[role];
            && (outcome == Ok(Deny) <==> !granted)
            && (outcome == Err(TimestampOutOfWindow)
                <==> granted && !(now - skew <= request.timestamp <= now + skew))
    decreases k
  {
    hide Pruned;
    var (_, seen') := Authorized(grants, skew, seen, calls[0].request, calls[0].now);
    if k == 0 {
    } else {
      RefusedAtTheGateIff(grants, skew, seen', calls[1..], k - 1);
    }
  }

  // Two requests share a key exactly when the same subject uses one nonce for one action.
  lemma KeysAreEqualIff(a: SecurityRequest, b: SecurityRequest)
    ensures a.Key() == b.Key()
       <==> && a.principal.tenantId == b.principal.tenantId && a.principal.deviceId == b.principal.deviceId
            && a.principal.subject == b.principal.subject && a.action == b.action && a.nonce == b.nonce
  {
  }

  // What the pruned map must still know at `now`: nothing but accepted timestamps, and every
  // accepted timestamp that is still within the skew.
  ghost predicate Represents(skew: nat, seen: Seen, history: seq<Accepted>, now: Instant) {
    && (forall key | key in seen :: Accepted(key, seen[key]) in history)
    && (forall i | 0 <= i < |history| && now - history[i].timestamp <= skew ::
          history[i].key in seen && seen[history[i].key] == history[i].timestamp)
  }

  lemma OneStepAgrees(
    grants: Grants, skew: nat, seen: Seen, history: seq<Accepted>, call: Call, before: Instant)
    requires before <= call.now && Represents(skew, seen, history, before)
    ensures var (outcome, seen') := Authorized(grants, skew, seen, call.request, call.now);
            && outcome == ReferenceVerdict(grants, skew, history, call.request, call.now)
            && Represents(skew, seen', Remember(history, call.request, outcome), call.now)
  {
    var key := call.request.Key();
    var pruned := Pruned(skew, seen, call.now);
    if key in pruned {
      var entry := Accepted(key, seen[key]);
      assert entry in history;
      assert StillFresh(skew, history, key, call.now);
    }
    forall i | 0 <= i < |history| && call.now - history[i].timestamp <= skew
      ensures history[i].key in pruned && pruned[history[i].key] == history[i].timestamp
    {
      assert before - history[i].timestamp <= skew;
    }
  }

  lemma {:induction false} RunsAgree(
    grants: Grants, skew: nat, seen: Seen, history: seq<Accepted>, calls: seq<Call>, before: Instant)
    requires Represents(skew, seen, history, before)
    requires ClockNeverStepsBack(calls) && (calls != [] ==> before <= calls[0].now)
    ensures GuardRun(grants, skew, seen, calls) == ReferenceRun(grants, skew, history, calls)
    decreases |calls|
  {
    if calls == [] {
    } else {
      var call := calls[0];
      OneStepAgrees(grants, skew, seen, history, call, before);
      var (outcome, seen') := Authorized(grants, skew, seen, call.request, call.now);
      RunsAgree(grants, skew, seen', Remember(history, call.request, outcome), calls[1..], call.now);
    }
  }

  // Forgetting is invisible: with a clock that never steps back, the pruned guard answers every
  // call of every run as the guard that remembers all accepted requests.
  lemma PrunedGuardRefinesReference(grants: Grants, skew: nat, calls: seq<Call>)
    requires ClockNeverStepsBack(calls)
    ensures GuardRun(grants, skew, map[], calls) == ReferenceRun(grants, skew, [], calls)
  {
    RunsAgree(grants, skew, map[], [], calls, if calls == [] then 0 else calls[0].now);
  }

  lemma {:induction false} ReferenceTimestampsIncrease(
    grants: Grants, skew: nat, history: seq<Accepted>, calls: seq<Call>)
    ensures var outcomes := ReferenceRun(grants, skew, history, calls);
            && (forall i, j | 0 <= i < |history| && 0 <= j < |calls| ::
                  outcomes[j] == Ok(Allow) && history[i].key == calls[j].request.Key()
                  ==> history[i].timestamp < calls[j].request.timestamp)
            && (forall i, j | 0 <= i < j < |calls| ::
                  outcomes[i] == Ok(Allow) && outcomes[j] == Ok(Allow)
                  && calls[i].request.Key() == calls[j].request.Key()
                  ==> calls[i].request.timestamp < calls[j].request.timestamp)
    decreases |calls|
  {
    if calls == [] {
    } else {
      var outcomes := ReferenceRun(grants, skew, history, calls);
      var rest := calls[1..];
      var history' := Remember(history, calls[0].request, outcomes[0]);
      ReferenceTimestampsIncrease(grants, skew, history', rest);
      assert outcomes[1..] == ReferenceRun(grants, skew, history', rest);
      forall i, j | 0 <= i < |history| && 0 <= j < |calls|
                    && outcomes[j] == Ok(Allow) && history[i].key == calls[j].request.Key()
        ensures history[i].timestamp < calls[j].request.timestamp
      {
        if j > 0 {
          assert history'[i] == history[i] && rest[j - 1] == calls[j] && outcomes[1..][j - 1] == outcomes[j];
        }
      }
      forall i, j | 0 <= i < j < |calls| && outcomes[i] == Ok(Allow) && outcomes[j] == Ok(Allow)
                    && calls[i].request.Key() == calls[j].request.Key()
        ensures calls[i].request.timestamp < calls[j].request.timestamp
      {
        assert rest[j - 1] == calls[j] && outcomes[1..][j - 1] == outcomes[j];
        if i == 0 {
          assert history'[|history|] == Accepted(calls[0].request.Key(), calls[0].request.timestamp);
        } else {
          assert rest[i - 1] == calls[i] && outcomes[1..][i - 1] == outcomes[i];
        }
      }
    }
  }

  // Accepted timestamps of one key strictly increase, so no (key, timestamp) passes twice.
  lemma NoReplayIsEverAccepted(grants: Grants, skew: nat, calls: seq<Call>, i: nat, j: nat)
    requires ClockNeverStepsBack(calls) && i < j < |calls|
    requires GuardRun(grants, skew, map[], calls)[i] == Ok(Allow)
    requires GuardRun(grants, skew, map[], calls)[j] == Ok(Allow)
    requires calls[i].request.Key() == calls[j].request.Key()
    ensures calls[i].request.timestamp < calls[j].request.timestamp
  {
    PrunedGuardRefinesReference(grants, skew, calls);
    ReferenceTimestampsIncrease(grants, skew, [], calls);
  }

  // ------------------------------------------------------- under any clock

  // One request that passed RBAC and the window test, so that it reached the map.
  datatype CheckEntry = CheckEntry(key: ReplayKey, timestamp: Instant, now: Instant, accepted: bool)

  // Entry i was accepted and stayed within the skew at every check since.
  ghost predicate KeptThrough(skew: nat, log: seq<CheckEntry>, i: nat)
    requires i < |log|
  {
    log[i].accepted && forall j | i < j < |log| :: log[j].now - log[i].timestamp <= skew
  }

  ghost predicate KnownAt(skew: nat, log: seq<CheckEntry>, key: ReplayKey, now: Instant) {
    exists i | 0 <= i < |log| ::
      log[i].key == key && KeptThrough(skew, log, i) && now - log[i].timestamp <= skew
  }

  ghost function LogVerdict(
    grants: Grants, skew: nat, log: seq<CheckEntry>, request: SecurityRequest, now: Instant): Outcome
  {
    if !Permits(grants, request) then Ok(Deny)
    else if !InWindow(skew, request.timestamp, now) then Err(TimestampOutOfWindow)
    else if KnownAt(skew, log, request.Key(), now) then Err(ReplayDetected)
    else Ok(Allow)
  }

  ghost function Logged(log: seq<CheckEntry>, call: Call, outcome: Outcome): seq<CheckEntry> {
    if outcome == Ok(Deny) || outcome == Err(TimestampOutOfWindow) then log
    else log + [CheckEntry(call.request.Key(), call.request.timestamp, call.now, outcome == Ok(Allow))]
  }

  ghost function LogRun(grants: Grants, skew: nat, log: seq<CheckEntry>, calls: seq<Call>): (outcomes: seq<Outcome>)
    decreases |calls|
  {
    if calls == [] then []
    else
      var outcome := LogVerdict(grants, skew, log, calls[0].request, calls[0].now);
      [outcome] + LogRun(grants, skew, Logged(log, calls[0], outcome), calls[1..])
  }

  // The map holds exactly the entries kept through all checks.
  ghost predicate HoldsKept(skew: nat, seen: Seen, log: seq<CheckEntry>) {
    && (forall key | key in seen ::
          exists i | 0 <= i < |log| :: log[i].key == key && log[i].timestamp == seen[key] && KeptThrough(skew, log, i))
    && (forall i | 0 <= i < |log| && KeptThrough(skew, log, i) ::
          log[i].key in seen && seen[log[i].key] == log[i].timestamp)
  }

  lemma KeptThroughSnoc(skew: nat, log: seq<CheckEntry>, last: CheckEntry)
    ensures var log' := log + [last];
            && (forall i | 0 <= i < |log| ::
                  KeptThrough(skew, log', i) <==> KeptThrough(skew, log, i) && last.now - log[i].timestamp <= skew)
            && (KeptThrough(skew, log', |log|) <==> last.accepted)
  {
    var log' := log + [last];
    assert forall i | 0 <= i < |log| :: log'[i] == log[i];
    assert log'[|log|] == last;
  }

  lemma PrunedKeysAreKnown(skew: nat, seen: Seen, log: seq<CheckEntry>, key: ReplayKey, now: Instant)
    requires HoldsKept(skew, seen, log)
    ensures key in Pruned(skew, seen, now) <==> KnownAt(skew, log, key, now)
  {
    hide KeptThrough;
  }

  lemma OneMoreCheck(skew: nat, seen: Seen, log: seq<CheckEntry>, last: CheckEntry)
    requires HoldsKept(skew, seen, log)
    requires last.accepted ==> last.key !in Pruned(skew, seen, last.now)
    ensures var pruned := Pruned(skew, seen, last.now);
            HoldsKept(skew, if last.accepted then pruned[last.key := last.timestamp] else pruned, log + [last])
  {
    var pruned := Pruned(skew, seen, last.now);
    var seen' := if last.accepted then pruned[last.key := last.timestamp] else pruned;
    var log' := log + [last];
    KeptThroughSnoc(skew, log, last);
    hide KeptThrough;
    forall key | key in seen'
      ensures exists i | 0 <= i < |log'| ::
        log'[i].key == key && log'[i].timestamp == seen'[key] && KeptThrough(skew, log', i)
    {
      if last.accepted && key == last.key {
        assert log'[|log|].key == key && KeptThrough(skew, log', |log|);
      } else {
        var i :| 0 <= i < |log| && log[i].key == key && log[i].timestamp == seen[key] && KeptThrough(skew, log, i);
        assert log'[i].key == key && KeptThrough(skew, log', i);
      }
    }
    forall i | 0 <= i < |log'| && KeptThrough(skew, log', i)
      ensures log'[i].key in seen' && seen'[log'[i].key] == log'[i].timestamp
    {
      if i < |log| {
        assert KeptThrough(skew, log, i) && log'[i] == log[i] && log[i].key in pruned;
      }
    }
  }

  lemma OneCheckAgrees(grants: Grants, skew: nat, seen: Seen, log: seq<CheckEntry>, call: Call)
    requires HoldsKept(skew, seen, log)
    ensures var (outcome, seen') := Authorized(grants, skew, seen, call.request, call.now);
            outcome == LogVerdict(grants, skew, log, call.request, call.now)
            && HoldsKept(skew, seen', Logged(log, call, outcome))
  {
    hide HoldsKept, KnownAt, Pruned, KeptThrough;
    var (outcome, seen') := Authorized(grants, skew, seen, call.request, call.now);
    PrunedKeysAreKnown(skew, seen, log, call.request.Key(), call.now);
    if outcome != Ok(Deny) && outcome != Err(TimestampOutOfWindow) {
      var last := CheckEntry(call.request.Key(), call.request.timestamp, call.now, outcome == Ok(Allow));
      OneMoreCheck(skew, seen, log, last);
    }
  }

  lemma {:induction false} RunsFollowTheLog(
    grants: Grants, skew: nat, seen: Seen, log: seq<CheckEntry>, calls: seq<Call>)
    requires HoldsKept(skew, seen, log)
    ensures GuardRun(grants, skew, seen, calls) == LogRun(grants, skew, log, calls)
    decreases |calls|
  {
    if calls == [] {
    } else {
      hide Authorized, HoldsKept, LogVerdict, Logged;
      OneCheckAgrees(grants, skew, seen, log, calls[0]);
      var (outcome, seen') := Authorized(grants, skew, seen, calls[0].request, calls[0].now);
      RunsFollowTheLog(grants, skew, seen', Logged(log, calls[0], outcome), calls[1..]);
    }
  }

  // Whatever the clock does: a key is refused exactly while it has an accepted timestamp that is
  // within the skew now and was so at every check since it was accepted.
  lemma GuardUnderAnyClock(grants: Grants, skew: nat, calls: seq<Call>)
    ensures GuardRun(grants, skew, map[], calls) == LogRun(grants, skew, [], calls)
  {
    RunsFollowTheLog(grants, skew, map[], [], calls);
  }

  ghost function AcceptedOf(log: seq<CheckEntry>): (history: seq<Accepted>)
    ensures forall entry | entry in history ::
              exists i | 0 <= i < |log| :: log[i].accepted && entry == Accepted(log[i].key, log[i].timestamp)
    ensures forall i | 0 <= i < |log| && log[i].accepted :: Accepted(log[i].key, log[i].timestamp) in history
  {
    if log == [] then []
    else
      var last := log[|log| - 1];
      AcceptedOf(log[..|log| - 1]) + if last.accepted then [Accepted(last.key, last.timestamp)] else []
  }

  // On this log, forgetting shows in the answer to this call.
  ghost predicate ForgettingShows(grants: Grants, skew: nat, log: seq<CheckEntry>, call: Call) {
    var request, now := call.request, call.now;
    && Permits(grants, request) && InWindow(skew, request.timestamp, now)
    && (exists i | 0 <= i < |log| ::
          log[i].accepted && log[i].key == request.Key() && now - log[i].timestamp <= skew)
    && (forall i | 0 <= i < |log| && log[i].accepted && log[i].key == request.Key()
                  && now - log[i].timestamp <= skew ::
          exists j | i < j < |log| :: log[j].now - log[i].timestamp > skew)
  }

  // Exactly when forgetting shows: the next verdict differs from that of the guard that forgets
  // nothing if and only if some accepted timestamp of the key is within the skew again, and each
  // such timestamp was once overtaken by a check more than the skew after it.
  lemma ForgettingShowsIff(grants: Grants, skew: nat, log: seq<CheckEntry>, call: Call)
    ensures LogVerdict(grants, skew, log, call.request, call.now)
            != ReferenceVerdict(grants, skew, AcceptedOf(log), call.request, call.now)
       <==> ForgettingShows(grants, skew, log, call)
  {
    var key, history, now := call.request.Key(), AcceptedOf(log), call.now;
    assert StillFresh(skew, history, key, now)
      <==> exists i | 0 <= i < |log| :: log[i].accepted && log[i].key == key && now - log[i].timestamp <= skew by {
      if StillFresh(skew, history, key, now) {
        var h :| 0 <= h < |history| && history[h].key == key && now - history[h].timestamp <= skew;
        assert history[h] in history;
      }
    }
  }

  // The log that a run leaves.
  ghost function LogAfter(grants: Grants, skew: nat, log: seq<CheckEntry>, calls: seq<Call>): seq<CheckEntry>
    decreases |calls|
  {
    if calls == [] then log
    else
      var outcome := LogVerdict(grants, skew, log, calls[0].request, calls[0].now);
      LogAfter(grants, skew, Logged(log, calls[0], outcome), calls[1..])
  }

  lemma LoggedIsRemembered(log: seq<CheckEntry>, call: Call, outcome: Outcome)
    ensures AcceptedOf(Logged(log, call, outcome)) == Remember(AcceptedOf(log), call.request, outcome)
  {
    var log' := Logged(log, call, outcome);
    if outcome == Ok(Deny) || outcome == Err(TimestampOutOfWindow) {
    } else {
      assert log'[..|log'| - 1] == log;
      assert AcceptedOf(log) + [] == AcceptedOf(log);
    }
  }

  // Forgetting shows at no call of the run from this log on.
  ghost predicate NeverShows(grants: Grants, skew: nat, log: seq<CheckEntry>, calls: seq<Call>) {
    forall k | 0 <= k < |calls| ::
      !ForgettingShows(grants, skew, LogAfter(grants, skew, log, calls[..k]), calls[k])
  }

  lemma NeverShowsUnfolds(grants: Grants, skew: nat, log: seq<CheckEntry>, calls: seq<Call>)
    requires calls != []
    ensures var outcome := LogVerdict(grants, skew, log, calls[0].request, calls[0].now);
            NeverShows(grants, skew, log, calls)
            <==> && !ForgettingShows(grants, skew, log, calls[0])
                 && NeverShows(grants, skew, Logged(log, calls[0], outcome), calls[1..])
  {
    hide LogVerdict, ForgettingShows, Logged;
    var log', rest := Logged(log, calls[0], LogVerdict(grants, skew, log, calls[0].request, calls[0].now)), calls[1..];
    assert calls[..0] == [];
    forall k | 0 < k < |calls|
      ensures LogAfter(grants, skew, log, calls[..k]) == LogAfter(grants, skew, log', rest[..k - 1])
    {
      assert calls[..k][1..] == rest[..k - 1];
    }
    hide LogAfter;
    if NeverShows(grants, skew, log, calls) {
      forall k | 0 <= k < |rest|
        ensures !ForgettingShows(grants, skew, LogAfter(grants, skew, log', rest[..k]), rest[k])
      {
        assert !ForgettingShows(grants, skew, LogAfter(grants, skew, log, calls[..k + 1]), calls[k + 1]);
      }
      assert !ForgettingShows(grants, skew, LogAfter(grants, skew, log, calls[..0]), calls[0]);
      NothingLogged(grants, skew, log);
    } else if NeverShows(grants, skew, log', rest) {
      var k :| 0 <= k < |calls| && ForgettingShows(grants, skew, LogAfter(grants, skew, log, calls[..k]), calls[k]);
      if k == 0 {
        NothingLogged(grants, skew, log);
      }
    }
  }

  lemma NothingLogged(grants: Grants, skew: nat, log: seq<CheckEntry>)
    ensures LogAfter(grants, skew, log, []) == log
  {
  }

  lemma {:induction false} LogRunIsReferenceRunIff(grants: Grants, skew: nat, log: seq<CheckEntry>, calls: seq<Call>)
    ensures LogRun(grants, skew, log, calls) == ReferenceRun(grants, skew, AcceptedOf(log), calls)
       <==> NeverShows(grants, skew, log, calls)
    decreases |calls|
  {
    if calls == [] {
    } else {
      hide LogVerdict, ReferenceVerdict, ForgettingShows, Logged, Remember, NeverShows;
      var outcome := LogVerdict(grants, skew, log, calls[0].request, calls[0].now);
      var log', history := Logged(log, calls[0], outcome), AcceptedOf(log);
      var verdict := ReferenceVerdict(grants, skew, history, calls[0].request, calls[0].now);
      ForgettingShowsIff(grants, skew, log, calls[0]);
      NeverShowsUnfolds(grants, skew, log, calls);
      LoggedIsRemembered(log, calls[0], outcome);
      LogRunIsReferenceRunIff(grants, skew, log', calls[1..]);
      hide AcceptedOf;
      var logged := LogRun(grants, skew, log', calls[1..]);
      var remembered := ReferenceRun(grants, skew, Remember(history, calls[0].request, verdict), calls[1..]);
      assert LogRun(grants, skew, log, calls) == [outcome] + logged;
      assert ReferenceRun(grants, skew, history, calls) == [verdict] + remembered;
      hide LogRun, ReferenceRun;
      HeadsAndTails(outcome, logged, verdict, remembered);
    }
  }

  lemma HeadsAndTails<T>(x: T, a: seq<T>, y: T, b: seq<T>)
    ensures [x] + a == [y] + b <==> x == y && a == b
  {
    if [x] + a == [y] + b {
      assert ([x] + a)[0] == x && ([y] + b)[0] == y;
      assert ([x] + a)[1..] == a && ([y] + b)[1..] == b;
    }
  }

  // Over whole runs: the pruned guard answers like the one that forgets nothing if and only if at no
  // call of the run forgetting shows on the log reached before it.
  lemma GuardRefinesReferenceIff(grants: Grants, skew: nat, calls: seq<Call>)
    ensures GuardRun(grants, skew, map[], calls) == ReferenceRun(grants, skew, [], calls)
       <==> NeverShows(grants, skew, [], calls)
  {
    GuardUnderAnyClock(grants, skew, calls);
    LogRunIsReferenceRunIff(grants, skew, [], calls);
  }

  // The clock assumption is needed: for every skew, one later call makes the guard forget a
  // request, and a clock that then steps back lets the same request through a second time.
  lemma ClockStepBackReadmitsARequest(grants: Grants, skew: nat, request: SecurityRequest, other: SecurityRequest)
    requires Permits(grants, request) && Permits(grants, other)
    requires other.timestamp == request.timestamp + skew + 1 && other.Key() != request.Key()
    ensures var t := request.timestamp;
            var calls := [Call(request, t), Call(other, other.timestamp), Call(request, t)];
            GuardRun(grants, skew, map[], calls) == [Ok(Allow), Ok(Allow), Ok(Allow)]
  {
    var t := request.timestamp;
    var first, second := Call(request, t), Call(other, other.timestamp);
    var calls := [first, second, first];
    var seen1: Seen := map[request.Key() := t];
    assert Authorized(grants, skew, map[], request, t) == (Ok(Allow), seen1);
    var seen2: Seen := map[other.Key() := other.timestamp];
    assert Pruned(skew, seen1, other.timestamp) == map[];
    assert Authorized(grants, skew, seen1, other, other.timestamp) == (Ok(Allow), seen2);
    assert calls[1..] == [second, first] && calls[1..][1..] == [first] && calls[1..][1..][1..] == [];
    assert Authorized(grants, skew, seen2, request, t).0 == Ok(Allow);
    assert GuardRun(grants, skew, seen2, [first]) == [Ok(Allow)];
    assert GuardRun(grants, skew, seen1, [second, first]) == [Ok(Allow), Ok(Allow)];
  }

  // --------------------------------------- refused requests leave no trace

  // The entries of `items` whose mark in `keep` is set.
  function Kept<T>(items: seq<T>, keep: seq<bool>): (kept: seq<T>)
    requires |items| == |keep|
  {
    if items == [] then []
    else (if keep[0] then [items[0]] else []) + Kept(items[1..], keep[1..])
  }

  lemma {:induction false} KeptClockNeverStepsBack(calls: seq<Call>, keep: seq<bool>)
    requires |calls| == |keep| && ClockNeverStepsBack(calls)
    ensures ClockNeverStepsBack(Kept(calls, keep))
    ensures forall call | call in Kept(calls, keep) :: call in calls
  {
    if calls == [] {
    } else {
      KeptClockNeverStepsBack(calls[1..], keep[1..]);
      forall call | call in Kept(calls[1..], keep[1..]) ensures calls[0].now <= call.now {
        var j :| 0 <= j < |calls[1..]| && calls[1..][j] == call;
        assert calls[j + 1] == call;
      }
    }
  }

  lemma {:induction false} ReferenceIgnoresRefused(
    grants: Grants, skew: nat, history: seq<Accepted>, calls: seq<Call>, keep: seq<bool>)
    requires |calls| == |keep|
    requires forall i | 0 <= i < |calls| ::
               !keep[i] ==> ReferenceRun(grants, skew, history, calls)[i] != Ok(Allow)
    ensures ReferenceRun(grants, skew, history, Kept(calls, keep))
         == Kept(ReferenceRun(grants, skew, history, calls), keep)
    decreases |calls|
  {
    if calls == [] {
    } else {
      var outcomes := ReferenceRun(grants, skew, history, calls);
      var history' := Remember(history, calls[0].request, outcomes[0]);
      assert outcomes[1..] == ReferenceRun(grants, skew, history', calls[1..]);
      forall i | 0 <= i < |calls[1..]| && !keep[1..][i] ensures outcomes[1..][i] != Ok(Allow) {
        assert outcomes[1..][i] == outcomes[i + 1] && !keep[i + 1];
      }
      ReferenceIgnoresRefused(grants, skew, history', calls[1..], keep[1..]);
      if keep[0] {
        assert Kept(calls, keep)[1..] == Kept(calls[1..], keep[1..]);
      } else {
        assert Kept(calls, keep) == Kept(calls[1..], keep[1..]);
      }
    }
  }

  // Deleting any requests that were not allowed leaves every other verdict as it was, although
  // the replayed ones among them pruned the guard's map.
  lemma RefusedRequestsLeaveNoTrace(grants: Grants, skew: nat, calls: seq<Call>, keep: seq<bool>)
    requires |calls| == |keep| && ClockNeverStepsBack(calls)
    requires forall i | 0 <= i < |calls| ::
               !keep[i] ==> GuardRun(grants, skew, map[], calls)[i] != Ok(Allow)
    ensures GuardRun(grants, skew, map[], Kept(calls, keep))
         == Kept(GuardRun(grants, skew, map[], calls), keep)
  {
    PrunedGuardRefinesReference(grants, skew, calls);
    KeptClockNeverStepsBack(calls, keep);
    PrunedGuardRefinesReference(grants, skew, Kept(calls, keep));
    ReferenceIgnoresRefused(grants, skew, [], calls, keep);
  }
}
