// What the audit trail of src/app_platform.rs says: each event is traced back to the step of the
// protocol that it reports, and each step that ran to the event that reports it.
module AuditRecord {
  import opened Wrappers
  import opened SecurityTypes
  import opened AuditChain
  import opened AuditStore
  import opened AuditProtocol

  // --------------------------------------------------- what the events say

  // A step that begins with this trace id.
  predicate Begins(step: Step, t: string) {
    !step.Return? && !step.Drain? && step.traceId == t
  }

  // Step k is the first with this trace id, so the one that takes effect.
  ghost predicate FirstUse(steps: seq<Step>, k: nat, t: string) {
    k < |steps| && Begins(steps[k], t) && forall j | 0 <= j < k :: !Begins(steps[j], t)
  }

  // Step j admitted the call, which has not returned before step k.
  ghost predicate UnderWay(steps: seq<Step>, j: nat, k: nat, t: string) {
    && FirstUse(steps, j, t) && steps[j].Admit? && j < k <= |steps|
    && forall i | j < i < k :: !(steps[i].Return? && steps[i].traceId == t)
  }

  // The event says what step k did: which way out the call took, when, and with what result.
  ghost predicate Reports(steps: seq<Step>, k: nat, e: AuditEvent) {
    k < |steps| &&
    match steps[k]
    case RejectSession(t, meta, now, result) =>
      FirstUse(steps, k, t) && Carries(e, t + ":exit", now, meta, result, t)
    case FailAuthorization(_) => false
    case RecordDenial(t, meta, now, _) =>
      FirstUse(steps, k, t) && Carries(e, t + ":deny", now, meta, "denied", t)
    case Admit(t, meta, now, _) =>
      FirstUse(steps, k, t) && Carries(e, t + ":entry", now, meta, "in_progress", t)
    case Return(t, now, result) =>
      exists j: nat :: UnderWay(steps, j, k, t) && Carries(e, t + ":exit", now, steps[j].meta, result, t)
    case DropStream(t, meta, now) =>
      FirstUse(steps, k, t) && Carries(e, t + ":exit", now, meta, "stream_closed", t)
    case Drain(_) => false
  }

  ghost predicate Reported(steps: seq<Step>, e: AuditEvent) {
    exists k: nat :: Reports(steps, k, e)
  }

  // The state remembers which trace ids the steps have used and which calls are under way, and all
  // events report one of the steps.
  ghost predicate FollowsSteps(s: State, steps: seq<Step>) {
    && (forall t :: Unused(s, t) <==> forall k | 0 <= k < |steps| :: !Begins(steps[k], t))
    && (forall t | t in s.calls && s.calls[t].Handling? ::
          exists j: nat :: UnderWay(steps, j, |steps|, t) && steps[j].meta == s.calls[t].meta)
    && (forall e | e in RowsToEvents(s.rows) :: Reported(steps, e))
    && (forall e | e in s.queue :: Reported(steps, e))
  }

  lemma StillReported(steps: seq<Step>, step: Step, e: AuditEvent)
    requires Reported(steps, e)
    ensures Reported(steps + [step], e)
  {
    var steps' := steps + [step];
    var k: nat :| Reports(steps, k, e);
    assert forall i | 0 <= i < |steps| :: steps'[i] == steps[i];
    if steps[k].Return? {
      var step := steps[k];
      var t := step.traceId;
      var j: nat :| UnderWay(steps, j, k, t) && Carries(e, t + ":exit", step.now, steps[j].meta, step.result, t);
      assert UnderWay(steps', j, k, t);
    }
    assert Reports(steps', k, e);
  }

  // Appending an event adds it, but for its hashes, to the loaded events, or changes nothing.
  lemma StoredAddsOnly(digest: Digest, s: State, event: AuditEvent, fault: bool, e: AuditEvent)
    requires WellFormed(digest, s.rows) && e in RowsToEvents(Stored(digest, s, event, fault).0.rows)
    ensures e in RowsToEvents(s.rows) || e == event.(prevHash := e.prevHash, hash := e.hash)
  {
    hide CalculateHash;
    AppendExtendsTheChain(digest, s.rows, event);
    hide WellFormed, AppendResult;
  }

  lemma StepKeepsUse(digest: Digest, s: State, steps: seq<Step>, step: Step)
    requires FollowsSteps(s, steps)
    ensures var s', steps' := Next(digest, s, step), steps + [step];
            && (forall t :: Unused(s', t) <==> forall k | 0 <= k < |steps'| :: !Begins(steps'[k], t))
            && (forall t | t in s'.calls && s'.calls[t].Handling? ::
                  exists j: nat :: UnderWay(steps', j, |steps'|, t) && steps'[j].meta == s'.calls[t].meta)
  {
    hide AppendResult, Reported, RowsToEvents, NewEvent;
    var s', steps' := Next(digest, s, step), steps + [step];
    assert steps'[|steps|] == step && forall i | 0 <= i < |steps| :: steps'[i] == steps[i];
    forall t ensures Unused(s', t) <==> forall k | 0 <= k < |steps'| :: !Begins(steps'[k], t) {
      assert Unused(s', t) <==> Unused(s, t) && !Begins(step, t);
    }
    forall t | t in s'.calls && s'.calls[t].Handling?
      ensures exists j: nat :: UnderWay(steps', j, |steps'|, t) && steps'[j].meta == s'.calls[t].meta
    {
      if Unused(s, t) {
        assert UnderWay(steps', |steps|, |steps'|, t);
      } else {
        var j: nat :| UnderWay(steps, j, |steps|, t) && steps[j].meta == s.calls[t].meta;
        assert UnderWay(steps', j, |steps'|, t);
      }
    }
  }

  // The step takes effect in this state, and leaves an event.
  predicate Runs(s: State, step: Step) {
    && !step.Drain? && !step.FailAuthorization?
    && if step.Return? then step.traceId in s.calls && s.calls[step.traceId].Handling? else Unused(s, step.traceId)
  }

  // The event says what such a step does.
  predicate Tells(s: State, step: Step, e: AuditEvent)
    requires Runs(s, step)
  {
    match step
    case RejectSession(t, meta, now, result) => Carries(e, t + ":exit", now, meta, result, t)
    case RecordDenial(t, meta, now, _) => Carries(e, t + ":deny", now, meta, "denied", t)
    case Admit(t, meta, now, _) => Carries(e, t + ":entry", now, meta, "in_progress", t)
    case Return(t, now, result) => Carries(e, t + ":exit", now, s.calls[t].meta, result, t)
    case DropStream(t, meta, now) => Carries(e, t + ":exit", now, meta, "stream_closed", t)
  }

  // The event of a step that takes effect.
  lemma NewEventIsReported(digest: Digest, s: State, steps: seq<Step>, step: Step, e: AuditEvent)
    requires FollowsSteps(s, steps)
    requires Runs(s, step) && Tells(s, step, e)
    ensures Reported(steps + [step], e)
  {
    hide Carries, RowsToEvents;
    var steps', n := steps + [step], |steps|;
    assert steps'[n] == step && forall i | 0 <= i < n :: steps'[i] == steps[i];
    if step.Return? {
      var t := step.traceId;
      var j: nat :| UnderWay(steps, j, n, t) && steps[j].meta == s.calls[t].meta;
      assert UnderWay(steps', j, n, t);
    } else {
      assert FirstUse(steps', n, step.traceId);
    }
    assert Reports(steps', n, e);
  }

  lemma StepKeepsReports(digest: Digest, s: State, steps: seq<Step>, step: Step, e: AuditEvent)
    requires WellFormed(digest, s.rows) && FollowsSteps(s, steps)
    requires var s' := Next(digest, s, step); e in RowsToEvents(s'.rows) || e in s'.queue
    ensures Reported(steps + [step], e)
  {
    hide Reported, WellFormed, RowsToEvents, Carries, NewEvent;
    var s' := Next(digest, s, step);
    if e in RowsToEvents(s.rows) || e in s.queue {
      StillReported(steps, step, e);
    } else {
      match step
      case RejectSession(t, meta, now, result) =>
        NewEventCarries(t + ":exit", now, meta, result, t);
        NewEventIsReported(digest, s, steps, step, e);
      case RecordDenial(t, meta, now, fault) =>
        StoredAddsOnly(digest, s, NewEvent(DenyId(t), now, meta, "denied", t), fault, e);
        StoredCarries(e, t + ":deny", now, meta, "denied", t);
        NewEventIsReported(digest, s, steps, step, e);
      case Admit(t, meta, now, fault) =>
        StoredAddsOnly(digest, s, NewEvent(EntryId(t), now, meta, "in_progress", t), fault, e);
        StoredCarries(e, t + ":entry", now, meta, "in_progress", t);
        NewEventIsReported(digest, s, steps, step, e);
      case Return(t, now, result) =>
        NewEventCarries(t + ":exit", now, s.calls[t].meta, result, t);
        NewEventIsReported(digest, s, steps, step, e);
      case DropStream(t, meta, now) =>
        NewEventCarries(t + ":exit", now, meta, "stream_closed", t);
        NewEventIsReported(digest, s, steps, step, e);
      case Drain(fault) =>
        StoredAddsOnly(digest, s.(queue := s.queue[1..]), s.queue[0], fault, e);
        assert s.queue[0] in s.queue && Reported(steps, s.queue[0]);
        HashesAreNotReported(steps, s.queue[0], e);
        StillReported(steps, step, e);
    }
  }

  lemma StoredCarries(e: AuditEvent, id: string, at: Instant, meta: CallMeta, result: string, traceId: string)
    requires e == NewEvent(id, at, meta, result, traceId).(prevHash := e.prevHash, hash := e.hash)
    ensures Carries(e, id, at, meta, result, traceId)
  {
  }

  lemma HashesAreNotReported(steps: seq<Step>, event: AuditEvent, e: AuditEvent)
    requires Reported(steps, event) && e == event.(prevHash := e.prevHash, hash := e.hash)
    ensures Reported(steps, e)
  {
    hide UnderWay, FirstUse;
    var k: nat :| Reports(steps, k, event);
    assert Reports(steps, k, e);
  }

  lemma RunSnoc(digest: Digest, s: State, steps: seq<Step>, step: Step)
    ensures Run(digest, s, steps + [step]) == Next(digest, Run(digest, s, steps), step)
    decreases |steps|
  {
    hide Next;
    var steps' := steps + [step];
    if steps == [] {
      assert steps'[1..] == [];
    } else {
      assert steps'[1..] == steps[1..] + [step];
      RunSnoc(digest, Next(digest, s, steps[0]), steps[1..], step);
    }
  }

  lemma {:induction false} RunFollowsSteps(digest: Digest, steps: seq<Step>)
    ensures FollowsSteps(Run(digest, INITIAL, steps), steps)
    decreases |steps|
  {
    if steps == [] {
    } else {
      var init, step := steps[..|steps| - 1], steps[|steps| - 1];
      assert steps == init + [step];
      RunFollowsSteps(digest, init);
      InitialInvariant(digest);
      RunKeepsInvariant(digest, INITIAL, init);
      RunSnoc(digest, INITIAL, init, step);
      var s := Run(digest, INITIAL, init);
      hide Run, Next, Reported, RowsToEvents, Unused, TraceIds;
      StepKeepsUse(digest, s, init, step);
      forall e | e in RowsToEvents(Next(digest, s, step).rows) || e in Next(digest, s, step).queue
        ensures Reported(steps, e)
      {
        StepKeepsReports(digest, s, init, step, e);
      }
    }
  }

  // Under every interleaving and every database fault, each stored row and each queued event says, in
  // all its fields, what one step did: an entry is in progress, a denial denied, an exit has the result
  // its call or its rejection ended with, or that the stream was closed; with its own time, and with the
  // principal, action, resource, target and digest of its own call. The row's columns repeat it.
  lemma EventsSayWhatHappened(digest: Digest, steps: seq<Step>)
    ensures var s := Run(digest, INITIAL, steps);
            && (forall i | 0 <= i < |s.rows| :: ColumnsRepeatEvent(s.rows[i]) && Reported(steps, RowToEvent(s.rows[i])))
            && (forall i | 0 <= i < |s.queue| :: Reported(steps, s.queue[i]))
  {
    InitialInvariant(digest);
    RunKeepsInvariant(digest, INITIAL, steps);
    RunFollowsSteps(digest, steps);
    var s := Run(digest, INITIAL, steps);
    hide Run, Reported, TraceIds;
    forall i | 0 <= i < |s.rows| ensures Reported(steps, RowToEvent(s.rows[i])) {
      assert RowToEvent(s.rows[i]) == RowsToEvents(s.rows)[i];
    }
  }

  // -------------------------------------------------- every outcome is recorded

  // Step k runs and leaves an event.
  ghost predicate LeavesEvent(steps: seq<Step>, k: nat) {
    k < |steps| &&
    if steps[k].Return? then exists j: nat :: UnderWay(steps, j, k, steps[k].traceId)
    else !steps[k].Drain? && !steps[k].FailAuthorization? && FirstUse(steps, k, steps[k].traceId)
  }

  ghost predicate Holds(s: State, e: AuditEvent) {
    e in RowsToEvents(s.rows) || e in s.queue
  }

  ghost predicate RecordedIn(s: State, steps: seq<Step>, k: nat) {
    exists e :: Holds(s, e) && Reports(steps, k, e)
  }

  ghost predicate EveryCallUnderWayIsHandled(s: State, steps: seq<Step>) {
    forall j: nat, t | UnderWay(steps, j, |steps|, t) :: t in s.calls && s.calls[t] == Handling(steps[j].meta)
  }

  // Without faults a held event stays held, but for its hashes.
  lemma HeldStaysHeld(digest: Digest, s: State, step: Step, e: AuditEvent) returns (e': AuditEvent)
    requires Invariant(digest, s) && NothingLost(s) && FaultFree(step) && Holds(s, e)
    ensures Holds(Next(digest, s, step), e') && e' == e.(prevHash := e'.prevHash, hash := e'.hash)
  {
    hide WellFormed, AllLabelled, TraceIds, CalculateHash, NewEvent;
    e' := e;
    if step.Drain? && s.queue != [] {
      var popped := s.(queue := s.queue[1..]);
      QueueHead(s);
      StoreStep(digest, popped, s.queue[0], false);
      e' := StoredHolds(digest, popped, s.queue[0], e);
    } else if step.RecordDenial? && Unused(s, step.traceId) {
      StoredKeeps(digest, s, NewEvent(DenyId(step.traceId), step.now, step.meta, "denied", step.traceId), e);
    } else if step.Admit? && Unused(s, step.traceId) {
      StoredKeeps(digest, s, NewEvent(EntryId(step.traceId), step.now, step.meta, "in_progress", step.traceId), e);
    }
  }

  lemma StoredKeeps(digest: Digest, s: State, event: AuditEvent, e: AuditEvent)
    requires WellFormed(digest, s.rows)
    ensures e in RowsToEvents(s.rows) ==> e in RowsToEvents(Stored(digest, s, event, false).0.rows)
  {
    AppendExtendsTheChain(digest, s.rows, event);
    hide WellFormed, AppendResult, CalculateHash;
  }

  // An accepted event is held, sealed, beside those held before.
  lemma StoredHolds(digest: Digest, s: State, event: AuditEvent, e: AuditEvent) returns (e': AuditEvent)
    requires WellFormed(digest, s.rows) && Stored(digest, s, event, false).1
    ensures Holds(s, e) || e == event ==> Holds(Stored(digest, s, event, false).0, e')
    ensures e' == e.(prevHash := e'.prevHash, hash := e'.hash)
  {
    hide CalculateHash;
    AppendExtendsTheChain(digest, s.rows, event);
    hide WellFormed, AppendResult;
    var sealed := Sealed(digest, event, LastHash(RowsToEvents(s.rows)));
    assert Appended(digest, RowsToEvents(s.rows), event)[|s.rows|] == sealed;
    e' := if Holds(s, e) then e else if e == event then sealed else e;
  }

  // The event of a step that stores one.
  lemma AcceptedIsHeld(digest: Digest, s: State, event: AuditEvent) returns (e: AuditEvent)
    requires Invariant(digest, s) && Unused(s, event.traceId) && event.timestamp >= 0
    requires event.eventId == EntryId(event.traceId) || event.eventId == DenyId(event.traceId)
    ensures Stored(digest, s, event, false).1
    ensures Holds(Stored(digest, s, event, false).0, e) && e == event.(prevHash := e.prevHash, hash := e.hash)
  {
    hide WellFormed, AllLabelled, TraceIds, Stored;
    assert TraceIsConsistent(s, event.traceId);
    StoreStep(digest, s, event, false);
    e := StoredHolds(digest, s, event, event);
  }

  lemma NewEventIsHeld(digest: Digest, s: State, step: Step) returns (e: AuditEvent)
    requires Invariant(digest, s) && FaultFree(step) && Runs(s, step)
    ensures Holds(Next(digest, s, step), e) && Tells(s, step, e)
    ensures step.Admit? ==> Next(digest, s, step).calls == s.calls[step.traceId := Handling(step.meta)]
  {
    hide Invariant, AppendResult, RowsToEvents;
    var t := step.traceId;
    match step
    case RejectSession(_, meta, now, result) =>
      e := NewEvent(ExitId(t), now, meta, result, t);
    case RecordDenial(_, meta, now, _) =>
      e := AcceptedIsHeld(digest, s, NewEvent(DenyId(t), now, meta, "denied", t));
    case Admit(_, meta, now, _) =>
      e := AcceptedIsHeld(digest, s, NewEvent(EntryId(t), now, meta, "in_progress", t));
    case Return(_, now, result) =>
      e := NewEvent(ExitId(t), now, s.calls[t].meta, result, t);
    case DropStream(_, meta, now) =>
      e := NewEvent(ExitId(t), now, meta, "stream_closed", t);
  }

  lemma NewStepIsRecorded(digest: Digest, s: State, steps: seq<Step>, step: Step)
    requires Invariant(digest, s) && FaultFree(step) && FollowsSteps(s, steps) && EveryCallUnderWayIsHandled(s, steps)
    requires LeavesEvent(steps + [step], |steps|)
    ensures RecordedIn(Next(digest, s, step), steps + [step], |steps|)
  {
    hide Invariant, Next, FaultFree, Carries, Reported, RowsToEvents, Holds;
    var steps', n := steps + [step], |steps|;
    assert steps'[n] == step && forall i | 0 <= i < n :: steps'[i] == steps[i];
    var t := step.traceId;
    if step.Return? {
      var j: nat :| UnderWay(steps', j, n, t);
      assert UnderWay(steps, j, n, t);
      var e := NewEventIsHeld(digest, s, step);
      assert Reports(steps', n, e);
    } else {
      assert Unused(s, t);
      var e := NewEventIsHeld(digest, s, step);
      assert Reports(steps', n, e);
    }
  }

  lemma OldStepStaysRecorded(digest: Digest, s: State, steps: seq<Step>, step: Step, k: nat)
    requires Invariant(digest, s) && NothingLost(s) && FaultFree(step) && k < |steps| && RecordedIn(s, steps, k)
    ensures RecordedIn(Next(digest, s, step), steps + [step], k)
  {
    hide Invariant, Next, NothingLost, FaultFree, Holds, Carries;
    var e :| Holds(s, e) && Reports(steps, k, e);
    var e' := HeldStaysHeld(digest, s, step, e);
    assert forall i | 0 <= i < |steps| :: (steps + [step])[i] == steps[i];
    ReportsExtend(steps, step, k, e, e');
  }

  lemma ReportsExtend(steps: seq<Step>, step: Step, k: nat, e: AuditEvent, e': AuditEvent)
    requires Reports(steps, k, e) && e' == e.(prevHash := e'.prevHash, hash := e'.hash)
    ensures Reports(steps + [step], k, e')
  {
    var steps' := steps + [step];
    assert forall i | 0 <= i < |steps| :: steps'[i] == steps[i];
    if steps[k].Return? {
      var step := steps[k];
      var t := step.traceId;
      var j: nat :| UnderWay(steps, j, k, t) && Carries(e, t + ":exit", step.now, steps[j].meta, step.result, t);
      assert UnderWay(steps', j, k, t);
    }
  }

  lemma StepKeepsHandled(digest: Digest, s: State, steps: seq<Step>, step: Step)
    requires Invariant(digest, s) && FaultFree(step) && FollowsSteps(s, steps) && EveryCallUnderWayIsHandled(s, steps)
    ensures EveryCallUnderWayIsHandled(Next(digest, s, step), steps + [step])
  {
    hide Invariant, AppendResult, RowsToEvents, NewEvent, Reported;
    var s', steps', n := Next(digest, s, step), steps + [step], |steps|;
    assert steps'[n] == step && forall i | 0 <= i < n :: steps'[i] == steps[i];
    forall j: nat, t | UnderWay(steps', j, n + 1, t)
      ensures t in s'.calls && s'.calls[t] == Handling(steps'[j].meta)
    {
      if j < n {
        assert UnderWay(steps, j, n, t);
        assert !Unused(s, t);
      } else {
        assert Unused(s, t);
        var e := NewEventIsHeld(digest, s, step);
      }
    }
  }

  ghost predicate AllRecorded(s: State, steps: seq<Step>) {
    forall k: nat | LeavesEvent(steps, k) :: RecordedIn(s, steps, k)
  }

  lemma {:induction false} FaultFreeRunRecords(digest: Digest, steps: seq<Step>)
    requires forall i | 0 <= i < |steps| :: FaultFree(steps[i])
    ensures var s := Run(digest, INITIAL, steps);
            AllRecorded(s, steps) && EveryCallUnderWayIsHandled(s, steps)
    decreases |steps|
  {
    if steps == [] {
    } else {
      var init, step, n := steps[..|steps| - 1], steps[|steps| - 1], |steps| - 1;
      assert steps == init + [step];
      FaultFreeRunRecords(digest, init);
      RunFollowsSteps(digest, init);
      InitialInvariant(digest);
      RunKeepsInvariant(digest, INITIAL, init);
      FaultFreeRunLosesNothing(digest, INITIAL, init);
      RunSnoc(digest, INITIAL, init, step);
      var s := Run(digest, INITIAL, init);
      hide Run, Next, Invariant, NothingLost, FaultFree, FollowsSteps, RecordedIn;
      StepKeepsHandled(digest, s, init, step);
      forall k: nat | LeavesEvent(steps, k) ensures RecordedIn(Next(digest, s, step), steps, k) {
        if k < n {
          LeftBefore(init, step, k);
          OldStepStaysRecorded(digest, s, init, step, k);
        } else {
          NewStepIsRecorded(digest, s, init, step);
        }
      }
    }
  }

  lemma LeftBefore(steps: seq<Step>, step: Step, k: nat)
    requires k < |steps| && LeavesEvent(steps + [step], k)
    ensures LeavesEvent(steps, k)
  {
    var steps' := steps + [step];
    assert forall i | 0 <= i < |steps| :: steps'[i] == steps[i];
    if steps[k].Return? {
      var j: nat :| UnderWay(steps', j, k, steps[k].traceId);
      assert UnderWay(steps, j, k, steps[k].traceId);
    }
  }

  // Without database faults, at rest the chain holds an event for every step that ran: each entry,
  // denial, exit and closed stream is on record with what happened in it.
  lemma FaultFreeRunsRecordEveryStep(digest: Digest, steps: seq<Step>)
    requires forall i | 0 <= i < |steps| :: FaultFree(steps[i])
    ensures var s := Run(digest, INITIAL, steps);
            s.queue == [] ==>
              forall k: nat | LeavesEvent(steps, k) :: exists e :: e in LoadedChain(s.rows) && Reports(steps, k, e)
  {
    FaultFreeRunRecords(digest, steps);
    InitialInvariant(digest);
    RunKeepsInvariant(digest, INITIAL, steps);
    var s := Run(digest, INITIAL, steps);
    AscendingIsAlreadyOrdered(s.rows);
    hide Run, LeavesEvent, Reports, WellFormed;
    forall k: nat | s.queue == [] && LeavesEvent(steps, k)
      ensures exists e :: e in LoadedChain(s.rows) && Reports(steps, k, e)
    {
      assert RecordedIn(s, steps, k);
    }
  }
}
