// The audit protocol around secured calls: crates/agent-core/src/chain.rs (AuditWriter) and
// src/app_platform.rs (secured_rpc, StreamAuditGuard).
//
// Entry and deny events are written synchronously; exit events wait in a queue that a background
// task drains into the same sink. Every access to the sink is one atomic step, and the steps of
// all calls, stream guards and the drain may interleave in any way.
module AuditProtocol {
  import opened Wrappers
  import opened SecurityTypes
  import opened AuditChain
  import opened AuditStore

  // ----------------------------------------------------------------- events

  datatype CallMeta = CallMeta(
    principal: Principal, action: Action, resource: Resource, target: string, paramsDigest: string)

  function EntryId(traceId: string): string { traceId + ":entry" }
  function ExitId(traceId: string): string { traceId + ":exit" }
  function DenyId(traceId: string): string { traceId + ":deny" }

  function NewEvent(eventId: string, now: Instant, meta: CallMeta, result: string, traceId: string): AuditEvent {
    AuditEvent(eventId, now, meta.principal.tenantId, meta.principal.deviceId, meta.principal.subject, meta.action,
               meta.resource, meta.target, meta.paramsDigest, result, traceId, "", "")
  }

  // The event says this of a call: its own id and time, the call it belongs to, a result.
  predicate Carries(e: AuditEvent, id: string, at: Instant, meta: CallMeta, result: string, traceId: string) {
    && e.eventId == id && e.timestamp == at && e.result == result && e.traceId == traceId
    && e.tenantId == meta.principal.tenantId && e.deviceId == meta.principal.deviceId
    && e.principal == meta.principal.subject && e.action == meta.action && e.resource == meta.resource
    && e.target == meta.target && e.paramsDigest == meta.paramsDigest
  }

  // ------------------------------------------------------------- the writer

  class AuditWriter {
    const sink: StateStore
    var exitQueue: seq<AuditEvent>

    constructor (sink: StateStore)
      ensures this.sink == sink && exitQueue == []
    {
      this.sink := sink;
      exitQueue := [];
    }

    // The hash returned to the caller is the one computed over an empty previous hash; the sink
    // seals the stored event again over the last stored hash (see ReturnedHashIsStoredIff).
    method WriteEntry(event: AuditEvent) returns (r: Result<AuditEvent, StoreError>)
      modifies sink
      ensures sink.auditEvents == AfterAppend(sink.digest, old(sink.auditEvents), event)
      ensures r == match AppendResult(sink.digest, old(sink.auditEvents), event)
                   case Ok(_) => Ok(Sealed(sink.digest, event, ""))
                   case Err(error) => Err(error)
    {
      var sealed := event.(prevHash := "");
      sealed := sealed.(hash := CalculateHash(sink.digest, sealed, sealed.prevHash));
      StaleHashesDoNotMatter(sink.digest, sink.auditEvents, event, sealed);
      var stored := sink.AppendAuditEvent(sealed);
      r := if stored.Ok? then Ok(sealed) else Err(stored.error);
    }

    method WriteExit(event: AuditEvent)
      modifies this
      ensures exitQueue == old(exitQueue) + [event]
    {
      exitQueue := exitQueue + [event];
    }

    // The background task, left alone until nothing is queued.
    method DrainAll()
      modifies this, sink
      ensures exitQueue == []
      ensures sink.auditEvents == StoreRun(sink.digest, old(sink.auditEvents), old(exitQueue))
    {
      while exitQueue != []
        invariant StoreRun(sink.digest, sink.auditEvents, exitQueue)
               == StoreRun(sink.digest, old(sink.auditEvents), old(exitQueue))
        decreases |exitQueue|
      {
        var event := exitQueue[0];
        exitQueue := exitQueue[1..];
        var _ := sink.AppendAuditEvent(event);
      }
    }
  }

  lemma StaleHashesDoNotMatter(digest: Digest, rows: seq<Row>, event: AuditEvent, sealed: AuditEvent)
    requires sealed.(prevHash := event.prevHash, hash := event.hash) == event
    ensures AppendResult(digest, rows, sealed) == AppendResult(digest, rows, event)
  {
    assert forall prevHash :: HashedFields(prevHash, sealed) == HashedFields(prevHash, event);
    assert RowFor(digest, rows, sealed) == RowFor(digest, rows, event);
  }

  // The hash returned for an accepted event is the stored one exactly for the first event of a
  // table, or if the digest takes two different texts to one value.
  lemma ReturnedHashIsStoredIff(digest: Digest, rows: seq<Row>, event: AuditEvent)
    requires Produces32Bytes(digest) && WellFormed(digest, rows) && AppendResult(digest, rows, event).Ok?
    ensures var stored, last := AfterAppend(digest, rows, event), LastHash(RowsToEvents(rows));
            && |stored| == |rows| + 1
            && (stored[|rows|].hash == Sealed(digest, event, "").hash
                <==> || rows == []
                     || (&& Preimage(last, event) != Preimage("", event)
                         && digest(Preimage(last, event)) == digest(Preimage("", event))))
  {
    hide WellFormed, Verifies;
    var events := RowsToEvents(rows);
    AppendExtendsTheChain(digest, rows, event);
    TableVerifies(digest, rows);
    StoredHashesAreHex(digest, events);
    NewRowContinuesTheTable(digest, rows, event);
    var last := LastHash(events);
    if rows != [] {
      assert |Preimage(last, event)| > |Preimage("", event)|;
    }
    if Hex(digest(Preimage(last, event))) == Hex(digest(Preimage("", event))) {
      HexIsInjective(digest(Preimage(last, event)), digest(Preimage("", event)));
    }
  }

  lemma TableVerifies(digest: Digest, rows: seq<Row>)
    requires WellFormed(digest, rows)
    ensures Verifies(digest, RowsToEvents(rows))
  {
  }

  lemma NewRowContinuesTheTable(digest: Digest, rows: seq<Row>, event: AuditEvent)
    requires WellFormed(digest, rows) && AppendResult(digest, rows, event).Ok?
    ensures AfterAppend(digest, rows, event) == rows + [RowFor(digest, rows, event)]
    ensures RowFor(digest, rows, event).hash == CalculateHash(digest, event, LastHash(RowsToEvents(rows)))
  {
    HighestRowIsLast(rows);
    hide CalculateHash;
    var last := LastHash(RowsToEvents(rows));
    assert last == match HighestRow(rows) case None => "" case Some(row) => row.hash;
  }

  // -------------------------------------------------------------- the steps

  // Rejected by the session check; Unauthorized by an error of the security center; Denied by RBAC,
  // with or without its deny event recorded; NotAdmitted, because the entry could not be stored;
  // Handling, with the entry stored; Finished, with the exit event queued.
  datatype CallPhase =
    | Rejected
    | Unauthorized
    | Denied(recorded: bool)
    | NotAdmitted
    | Handling(meta: CallMeta)
    | Finished

  // `lost` holds the exit events the background task failed to insert and dropped.
  datatype State = State(
    rows: seq<Row>, queue: seq<AuditEvent>, calls: map<string, CallPhase>, streams: set<string>, lost: set<string>)

  const INITIAL := State([], [], map[], {}, {})

  // One atomic step of one call, one stream guard or the drain. `fault` says that the database
  // refuses this insert for a reason of its own.
  datatype Step =
    | RejectSession(traceId: string, meta: CallMeta, now: Instant, result: string)
    | FailAuthorization(traceId: string)
    | RecordDenial(traceId: string, meta: CallMeta, now: Instant, fault: bool)
    | Admit(traceId: string, meta: CallMeta, now: Instant, fault: bool)
    | Return(traceId: string, now: Instant, result: string)
    | DropStream(traceId: string, meta: CallMeta, now: Instant)
    | Drain(fault: bool)

  predicate Unused(s: State, traceId: string) {
    traceId !in s.calls && traceId !in s.streams
  }

  function Stored(digest: Digest, s: State, event: AuditEvent, fault: bool): (State, bool) {
    var r := AppendResult(digest, s.rows, event);
    if !fault && r.Ok? then (s.(rows := r.value), true) else (s, false)
  }

  function Queued(s: State, event: AuditEvent): State {
    s.(queue := s.queue + [event])
  }

  // A step that cannot run, or would reuse a trace id, does nothing.
  function Next(digest: Digest, s: State, step: Step): State {
    match step
    case RejectSession(t, meta, now, result) =>
      if Unused(s, t) then Queued(s, NewEvent(ExitId(t), now, meta, result, t)).(calls := s.calls[t := Rejected]) else s
    case FailAuthorization(t) =>
      if Unused(s, t) then s.(calls := s.calls[t := Unauthorized]) else s
    case RecordDenial(t, meta, now, fault) =>
      if Unused(s, t) then
        var (s', ok) := Stored(digest, s, NewEvent(DenyId(t), now, meta, "denied", t), fault);
        s'.(calls := s.calls[t := Denied(ok)])
      else s
    case Admit(t, meta, now, fault) =>
      if Unused(s, t) then
        var (s', ok) := Stored(digest, s, NewEvent(EntryId(t), now, meta, "in_progress", t), fault);
        s'.(calls := s.calls[t := if ok then Handling(meta) else NotAdmitted])
      else s
    case Return(t, now, result) =>
      if t in s.calls && s.calls[t].Handling? then
        Queued(s, NewEvent(ExitId(t), now, s.calls[t].meta, result, t)).(calls := s.calls[t := Finished])
      else s
    case DropStream(t, meta, now) =>
      if Unused(s, t) then
        Queued(s, NewEvent(ExitId(t), now, meta, "stream_closed", t)).(streams := s.streams + {t})
      else s
    case Drain(fault) =>
      if s.queue == [] then s
      else
        var (s', ok) := Stored(digest, s.(queue := s.queue[1..]), s.queue[0], fault);
        if ok then s' else s'.(lost := s.lost + {s.queue[0].eventId})
  }

  function Run(digest: Digest, s: State, steps: seq<Step>): State
    decreases |steps|
  {
    if steps == [] then s else Run(digest, Next(digest, s, steps[0]), steps[1..])
  }

  // ------------------------------------------------ one call, run by itself

  // What the session check and the security center answer, and how the handler ends.
  datatype Gate = SessionInvalid(result: string) | AuthorizationError | RbacDeny | Pass(handlerResult: string)

  function RpcSteps(traceId: string, meta: CallMeta, now: Instant, later: Instant, gate: Gate): seq<Step> {
    match gate
    case SessionInvalid(result) => [RejectSession(traceId, meta, later, result)]
    case AuthorizationError => [FailAuthorization(traceId)]
    case RbacDeny => [RecordDenial(traceId, meta, now, false)]
    case Pass(handlerResult) => [Admit(traceId, meta, now, false), Return(traceId, later, handlerResult)]
  }

  // One more row, which says this; its columns repeat its event.
  ghost predicate OneMoreRow(
    before: seq<Row>, after: seq<Row>, id: string, at: Instant, meta: CallMeta, result: string, traceId: string)
  {
    && |after| == |before| + 1 && before <= after && ColumnsRepeatEvent(after[|before|])
    && Carries(RowToEvent(after[|before|]), id, at, meta, result, traceId)
  }

  // One more event in the queue, which says this; it is not sealed yet.
  ghost predicate OneMoreQueued(
    before: seq<AuditEvent>, after: seq<AuditEvent>, id: string, at: Instant, meta: CallMeta, result: string,
    traceId: string)
  {
    && |after| == |before| + 1 && before <= after && Carries(after[|before|], id, at, meta, result, traceId)
    && after[|before|].prevHash == "" == after[|before|].hash
  }

  // What a call leaves in the table and the queue, by its way out.
  ghost predicate RpcLeaves(
    before: State, after: State, t: string, meta: CallMeta, now: Instant, later: Instant, gate: Gate)
  {
    match gate
    case SessionInvalid(result) =>
      after.rows == before.rows && OneMoreQueued(before.queue, after.queue, t + ":exit", later, meta, result, t)
    case AuthorizationError => after.rows == before.rows && after.queue == before.queue
    case RbacDeny =>
      && after.queue == before.queue
      && (after.rows == before.rows || OneMoreRow(before.rows, after.rows, t + ":deny", now, meta, "denied", t))
    case Pass(handlerResult) =>
      || (after.rows == before.rows && after.queue == before.queue)
      || (&& OneMoreRow(before.rows, after.rows, t + ":entry", now, meta, "in_progress", t)
          && OneMoreQueued(before.queue, after.queue, t + ":exit", later, meta, handlerResult, t))
  }

  // On a table that is in order, a denial or an entry is refused exactly for a used id or a time before
  // the epoch.
  ghost predicate RpcStoresIff(before: State, after: State, t: string, now: Instant, gate: Gate) {
    && (gate.RbacDeny? ==>
          (after.rows != before.rows <==> now >= 0 && forall i | 0 <= i < |before.rows| ::
                                            before.rows[i].id != t + ":deny"))
    && (gate.Pass? ==>
          (after.rows != before.rows <==> now >= 0 && forall i | 0 <= i < |before.rows| ::
                                            before.rows[i].id != t + ":entry"))
  }

  class AppPlatform {
    const writer: AuditWriter
    ghost var calls: map<string, CallPhase>
    ghost var streams: set<string>
    ghost var lost: set<string>

    constructor (writer: AuditWriter)
      ensures this.writer == writer && calls == map[] && streams == {} && lost == {}
    {
      this.writer := writer;
      calls, streams, lost := map[], {}, {};
    }

    ghost function Protocol(): State
      reads this, writer, writer.sink
    {
      State(writer.sink.auditEvents, writer.exitQueue, calls, streams, lost)
    }

    // secured_rpc without anything in between: its effects are the protocol's steps.
    method SecuredRpc(traceId: string, meta: CallMeta, now: Instant, later: Instant, gate: Gate)
      returns (handled: bool)
      requires Unused(Protocol(), traceId)
      modifies this, writer, writer.sink
      ensures Protocol() == Run(writer.sink.digest, old(Protocol()), RpcSteps(traceId, meta, now, later, gate))
      ensures handled == (traceId in calls && calls[traceId].Finished?)
      ensures RpcLeaves(old(Protocol()), Protocol(), traceId, meta, now, later, gate)
      ensures handled <==> gate.Pass? && writer.sink.auditEvents != old(writer.sink.auditEvents)
      ensures WellFormed(writer.sink.digest, old(writer.sink.auditEvents)) ==>
                RpcStoresIff(old(Protocol()), Protocol(), traceId, now, gate)
    {
      hide WellFormed, RpcLeaves, RpcStoresIff;
      StepsLeave(writer.sink.digest, Protocol(), traceId, meta, now, later, gate);
      if WellFormed(writer.sink.digest, writer.sink.auditEvents) {
        StepsStoreIff(writer.sink.digest, Protocol(), traceId, meta, now, later, gate);
      }
      RunRpcSteps(writer.sink.digest, Protocol(), traceId, meta, now, later, gate);
      match gate
      case SessionInvalid(result) =>
        writer.WriteExit(NewEvent(ExitId(traceId), later, meta, result, traceId));
        calls := calls[traceId := Rejected];
        return false;
      case AuthorizationError =>
        calls := calls[traceId := Unauthorized];
        return false;
      case RbacDeny =>
        var denial := writer.WriteEntry(NewEvent(DenyId(traceId), now, meta, "denied", traceId));
        calls := calls[traceId := Denied(denial.Ok?)];
        return false;
      case Pass(handlerResult) =>
        var entry := writer.WriteEntry(NewEvent(EntryId(traceId), now, meta, "in_progress", traceId));
        if entry.Err? {
          calls := calls[traceId := NotAdmitted];
          return false;
        }
        calls := calls[traceId := Handling(meta)];
        writer.WriteExit(NewEvent(ExitId(traceId), later, meta, handlerResult, traceId));
        calls := calls[traceId := Finished];
        return true;
    }
  }

  lemma RunRpcSteps(
    digest: Digest, s: State, traceId: string, meta: CallMeta, now: Instant, later: Instant, gate: Gate)
    ensures var steps := RpcSteps(traceId, meta, now, later, gate);
            Run(digest, s, steps) == if |steps| == 1 then Next(digest, s, steps[0])
                                     else Next(digest, Next(digest, s, steps[0]), steps[1])
  {
    hide Next;
    var steps := RpcSteps(traceId, meta, now, later, gate);
    if |steps| == 1 {
      assert steps[1..] == [];
    } else {
      assert steps[1..] == [steps[1]] && steps[1..][1..] == [];
      assert Run(digest, s, steps) == Run(digest, Next(digest, s, steps[0]), [steps[1]]);
    }
  }

  lemma NewEventCarries(id: string, at: Instant, meta: CallMeta, result: string, traceId: string)
    ensures var event := NewEvent(id, at, meta, result, traceId);
            Carries(event, id, at, meta, result, traceId) && event.prevHash == "" == event.hash
  {
  }

  lemma AppendLeaves(
    digest: Digest, rows: seq<Row>, id: string, at: Instant, meta: CallMeta, result: string, traceId: string)
    ensures var event := NewEvent(id, at, meta, result, traceId);
            var rows' := AfterAppend(digest, rows, event);
            if AppendResult(digest, rows, event).Ok? then OneMoreRow(rows, rows', id, at, meta, result, traceId)
            else rows' == rows
  {
    hide CalculateHash, ActionText, ResourceText, UnixMs, HighestRow;
  }

  lemma StepsLeave(
    digest: Digest, s: State, traceId: string, meta: CallMeta, now: Instant, later: Instant, gate: Gate)
    requires Unused(s, traceId)
    ensures var s' := Run(digest, s, RpcSteps(traceId, meta, now, later, gate));
            && RpcLeaves(s, s', traceId, meta, now, later, gate)
            && (traceId in s'.calls && s'.calls[traceId].Finished? <==> gate.Pass? && s'.rows != s.rows)
  {
    hide AppendResult, ColumnsRepeatEvent, Carries, NewEvent, Run;
    RunRpcSteps(digest, s, traceId, meta, now, later, gate);
    AppendLeaves(digest, s.rows, DenyId(traceId), now, meta, "denied", traceId);
    AppendLeaves(digest, s.rows, EntryId(traceId), now, meta, "in_progress", traceId);
    if gate.SessionInvalid? {
      NewEventCarries(ExitId(traceId), later, meta, gate.result, traceId);
    } else if gate.Pass? {
      NewEventCarries(ExitId(traceId), later, meta, gate.handlerResult, traceId);
    }
  }

  lemma NewEventStoredIff(
    digest: Digest, rows: seq<Row>, id: string, at: Instant, meta: CallMeta, result: string, traceId: string)
    requires WellFormed(digest, rows)
    ensures var event := NewEvent(id, at, meta, result, traceId);
            && (AfterAppend(digest, rows, event) != rows <==> AppendResult(digest, rows, event).Ok?)
            && (AppendResult(digest, rows, event).Ok?
                <==> at >= 0 && forall i | 0 <= i < |rows| :: rows[i].id != id)
  {
    var event := NewEvent(id, at, meta, result, traceId);
    AppendExtendsTheChain(digest, rows, event);
    AppendLeaves(digest, rows, id, at, meta, result, traceId);
    hide AppendResult, WellFormed, Appended, RowsToEvents, AfterAppend;
  }

  lemma StepsStoreIff(
    digest: Digest, s: State, traceId: string, meta: CallMeta, now: Instant, later: Instant, gate: Gate)
    requires Unused(s, traceId) && WellFormed(digest, s.rows)
    ensures RpcStoresIff(s, Run(digest, s, RpcSteps(traceId, meta, now, later, gate)), traceId, now, gate)
  {
    hide AppendResult, Run, WellFormed, NewEvent;
    RunRpcSteps(digest, s, traceId, meta, now, later, gate);
    NewEventStoredIff(digest, s.rows, DenyId(traceId), now, meta, "denied", traceId);
    NewEventStoredIff(digest, s.rows, EntryId(traceId), now, meta, "in_progress", traceId);
  }

  // ------------------------------------------------------- what a trace has left

  predicate Labelled(e: AuditEvent) {
    e.eventId == EntryId(e.traceId) || e.eventId == ExitId(e.traceId) || e.eventId == DenyId(e.traceId)
  }

  lemma IdsTellTraces(t: string, u: string)
    ensures EntryId(t) == EntryId(u) ==> t == u
    ensures ExitId(t) == ExitId(u) ==> t == u
    ensures DenyId(t) == DenyId(u) ==> t == u
    ensures EntryId(t) != ExitId(u) && EntryId(t) != DenyId(u) && ExitId(t) != DenyId(u)
  {
    assert EntryId(t)[..|EntryId(t)| - 6] == t && EntryId(u)[..|EntryId(u)| - 6] == u;
    assert ExitId(t)[..|ExitId(t)| - 5] == t && ExitId(u)[..|ExitId(u)| - 5] == u;
    assert DenyId(t)[..|DenyId(t)| - 5] == t && DenyId(u)[..|DenyId(u)| - 5] == u;
    assert EntryId(t)[|EntryId(t)| - 2] == 'r';
    assert ExitId(u)[|ExitId(u)| - 2] == 'i' && DenyId(u)[|DenyId(u)| - 2] == 'n';
    assert ExitId(t)[|ExitId(t)| - 2] == 'i';
  }

  // The ids recorded for one trace, in order.
  function TraceIds(events: seq<AuditEvent>, traceId: string): seq<string> {
    if events == [] then []
    else
      var last := events[|events| - 1];
      TraceIds(events[..|events| - 1], traceId) + if last.traceId == traceId then [last.eventId] else []
  }

  lemma TraceIdsSnoc(events: seq<AuditEvent>, last: AuditEvent, traceId: string)
    ensures TraceIds(events + [last], traceId)
         == TraceIds(events, traceId) + if last.traceId == traceId then [last.eventId] else []
  {
    assert (events + [last])[..|events|] == events;
  }

  lemma {:induction false} TraceIdsCons(events: seq<AuditEvent>, traceId: string)
    requires events != []
    ensures TraceIds(events, traceId)
         == (if events[0].traceId == traceId then [events[0].eventId] else []) + TraceIds(events[1..], traceId)
  {
    var n := |events| - 1;
    if n == 0 {
      assert events[..0] == [] && events[1..] == [];
    } else {
      TraceIdsCons(events[..n], traceId);
      assert events[..n][1..] == events[1..][..n - 1];
    }
  }

  lemma {:induction false} TraceIdsContain(events: seq<AuditEvent>, e: AuditEvent)
    requires e in events
    ensures e.eventId in TraceIds(events, e.traceId)
  {
    var n := |events| - 1;
    if events[n] == e {
    } else {
      assert e in events[..n];
      TraceIdsContain(events[..n], e);
    }
  }

  function StoredIds(s: State, t: string): seq<string> { TraceIds(RowsToEvents(s.rows), t) }
  function QueuedIds(s: State, t: string): seq<string> { TraceIds(s.queue, t) }

  // An exit event and nothing else: stored, waiting, or dropped by the drain.
  predicate ExitOnly(t: string, stored: seq<string>, queued: seq<string>, lost: bool) {
    || (stored == [ExitId(t)] && queued == [] && !lost)
    || (stored == [] && queued == [ExitId(t)] && !lost)
    || (stored == [] && queued == [] && lost)
  }

  // Everything a trace id has left in the store and the queue, by the phase of its owner.
  predicate TraceIsConsistent(s: State, t: string) {
    var stored, queued, lost := StoredIds(s, t), QueuedIds(s, t), ExitId(t) in s.lost;
    if t in s.calls then
      match s.calls[t]
      case Rejected => ExitOnly(t, stored, queued, lost)
      case Unauthorized => stored == [] && queued == [] && !lost
      case Denied(recorded) => stored == (if recorded then [DenyId(t)] else []) && queued == [] && !lost
      case NotAdmitted => stored == [] && queued == [] && !lost
      case Handling(_) => stored == [EntryId(t)] && queued == [] && !lost
      case Finished =>
        || (stored == [EntryId(t), ExitId(t)] && queued == [] && !lost)
        || (stored == [EntryId(t)] && queued == [ExitId(t)] && !lost)
        || (stored == [EntryId(t)] && queued == [] && lost)
    else if t in s.streams then
      ExitOnly(t, stored, queued, lost)
    else
      stored == [] && queued == [] && !lost
  }

  ghost predicate Invariant(digest: Digest, s: State) {
    && WellFormed(digest, s.rows)
    && AllLabelled(s.rows)
    && (forall e | e in s.queue :: Labelled(e) && e.eventId == ExitId(e.traceId))
    && s.calls.Keys !! s.streams
    && forall t :: TraceIsConsistent(s, t)
  }

  ghost predicate AllLabelled(rows: seq<Row>) {
    forall i | 0 <= i < |rows| :: Labelled(RowToEvent(rows[i]))
  }

  lemma UnstoredIdIsFree(rows: seq<Row>, event: AuditEvent)
    requires forall i | 0 <= i < |rows| :: ColumnsRepeatEvent(rows[i])
    requires AllLabelled(rows) && Labelled(event)
    requires event.eventId !in TraceIds(RowsToEvents(rows), event.traceId)
    ensures forall i | 0 <= i < |rows| :: rows[i].id != event.eventId
  {
    forall i | 0 <= i < |rows| ensures rows[i].id != event.eventId {
      var e := RowToEvent(rows[i]);
      assert e == RowsToEvents(rows)[i];
      TraceIdsContain(RowsToEvents(rows), e);
      IdsTellTraces(e.traceId, event.traceId);
      IdsTellTraces(event.traceId, e.traceId);
    }
  }

  lemma AppendedStayLabelled(digest: Digest, rows: seq<Row>, rows': seq<Row>, event: AuditEvent)
    requires AllLabelled(rows) && Labelled(event)
    requires RowsToEvents(rows') == Appended(digest, RowsToEvents(rows), event)
    ensures AllLabelled(rows')
  {
    hide CalculateHash;
    forall i | 0 <= i < |rows'| ensures Labelled(RowToEvent(rows'[i])) {
      assert RowToEvent(rows'[i]) == RowsToEvents(rows')[i];
      if i < |rows| {
        assert RowsToEvents(rows')[i] == RowToEvent(rows[i]);
      }
    }
  }

  // A labelled event whose id its trace has not stored yet is accepted unless the database
  // fails or the timestamp lies before the epoch; key conflicts cannot happen.
  lemma StoreStep(digest: Digest, s: State, event: AuditEvent, fault: bool)
    requires WellFormed(digest, s.rows) && AllLabelled(s.rows) && Labelled(event)
    requires event.eventId !in StoredIds(s, event.traceId)
    ensures var (s', ok) := Stored(digest, s, event, fault);
            && WellFormed(digest, s'.rows) && AllLabelled(s'.rows)
            && s' == s.(rows := s'.rows)
            && (ok <==> !fault && event.timestamp >= 0)
            && (forall t :: StoredIds(s', t)
                            == StoredIds(s, t) + if ok && t == event.traceId then [event.eventId] else [])
  {
    AppendExtendsTheChain(digest, s.rows, event);
    UnstoredIdIsFree(s.rows, event);
    hide AppendResult, WellFormed, CalculateHash;
    var (s', ok) := Stored(digest, s, event, fault);
    if ok {
      AppendedStayLabelled(digest, s.rows, s'.rows, event);
      var sealed := Sealed(digest, event, LastHash(RowsToEvents(s.rows)));
      forall t ensures StoredIds(s', t) == StoredIds(s, t) + if t == event.traceId then [event.eventId] else [] {
        TraceIdsSnoc(RowsToEvents(s.rows), sealed, t);
      }
    }
  }

  lemma QueueStep(s: State, event: AuditEvent)
    ensures forall t :: QueuedIds(Queued(s, event), t)
                        == QueuedIds(s, t) + if t == event.traceId then [event.eventId] else []
    ensures forall e :: e in Queued(s, event).queue <==> e in s.queue || e == event
  {
    forall t ensures QueuedIds(Queued(s, event), t)
                  == QueuedIds(s, t) + if t == event.traceId then [event.eventId] else []
    {
      TraceIdsSnoc(s.queue, event, t);
    }
  }

  // ------------------------------------------------------- every step keeps it

  // A new trace id stores one event, or fails to.
  lemma FirstStoreKeeps(digest: Digest, s: State, t: string, event: AuditEvent, fault: bool, phase: CallPhase)
    requires Invariant(digest, s) && Unused(s, t) && event.traceId == t
    requires var ok := Stored(digest, s, event, fault).1;
             || (event.eventId == DenyId(t) && phase == Denied(ok))
             || (event.eventId == EntryId(t) && if ok then phase.Handling? else phase.NotAdmitted?)
    ensures Invariant(digest, Stored(digest, s, event, fault).0.(calls := s.calls[t := phase]))
  {
    hide Stored, WellFormed, AllLabelled, TraceIds;
    assert TraceIsConsistent(s, t);
    StoreStep(digest, s, event, fault);
    var (s1, ok) := Stored(digest, s, event, fault);
    var s' := s1.(calls := s.calls[t := phase]);
    forall u ensures TraceIsConsistent(s', u) {
      assert TraceIsConsistent(s, u);
      assert StoredIds(s', u) == StoredIds(s1, u) && QueuedIds(s', u) == QueuedIds(s, u);
    }
  }

  // An exit event is queued for a trace that has none anywhere yet.
  lemma QueueKeeps(digest: Digest, s: State, t: string, event: AuditEvent, s': State)
    requires Invariant(digest, s) && event.traceId == t && event.eventId == ExitId(t)
    requires s' == Queued(s, event).(calls := s'.calls, streams := s'.streams)
    requires || (Unused(s, t) && s'.calls == s.calls[t := Rejected] && s'.streams == s.streams)
             || (Unused(s, t) && s'.calls == s.calls && s'.streams == s.streams + {t})
             || (t in s.calls && s.calls[t].Handling? && s'.calls == s.calls[t := Finished] && s'.streams == s.streams)
    ensures Invariant(digest, s')
  {
    hide WellFormed, AllLabelled, TraceIds;
    QueueStep(s, event);
    forall u ensures TraceIsConsistent(s', u) {
      assert TraceIsConsistent(s, u);
      assert StoredIds(s', u) == StoredIds(s, u) && QueuedIds(s', u) == QueuedIds(Queued(s, event), u);
    }
  }

  // The event about to be drained is an exit its trace has neither stored nor lost.
  lemma QueueHead(s: State)
    requires s.queue != [] && (forall e | e in s.queue :: Labelled(e) && e.eventId == ExitId(e.traceId))
    requires forall t :: TraceIsConsistent(s, t)
    ensures var head := s.queue[0];
            && Labelled(head) && head.eventId == ExitId(head.traceId)
            && head.eventId !in StoredIds(s, head.traceId) && head.eventId !in s.lost
            && QueuedIds(s, head.traceId) == [ExitId(head.traceId)]
  {
    hide TraceIds;
    var head := s.queue[0];
    assert head in s.queue && TraceIsConsistent(s, head.traceId);
    TraceIdsCons(s.queue, head.traceId);
    IdsTellTraces(head.traceId, head.traceId);
    assert QueuedIds(s, head.traceId)[0] == head.eventId;
  }

  lemma DrainKeeps(digest: Digest, s: State, fault: bool)
    requires Invariant(digest, s) && s.queue != []
    ensures Invariant(digest, Next(digest, s, Drain(fault)))
  {
    hide Stored, WellFormed, AllLabelled, TraceIds;
    var head, popped := s.queue[0], s.(queue := s.queue[1..]);
    var t := head.traceId;
    QueueHead(s);
    StoreStep(digest, popped, head, fault);
    var s1 := Stored(digest, popped, head, fault).0;
    var s' := Next(digest, s, Drain(fault));
    forall u ensures TraceIsConsistent(s', u) {
      assert TraceIsConsistent(s, u);
      TraceIdsCons(s.queue, u);
      IdsTellTraces(t, u);
      assert StoredIds(s', u) == StoredIds(s1, u) && StoredIds(popped, u) == StoredIds(s, u);
    }
  }

  lemma NextKeepsInvariant(digest: Digest, s: State, step: Step)
    requires Invariant(digest, s)
    ensures Invariant(digest, Next(digest, s, step))
  {
    hide WellFormed, AllLabelled, TraceIds, AppendResult;
    var s' := Next(digest, s, step);
    match step
    case RejectSession(t, meta, now, result) =>
      if Unused(s, t) {
        QueueKeeps(digest, s, t, NewEvent(ExitId(t), now, meta, result, t), s');
      }
    case FailAuthorization(t) =>
      if Unused(s, t) {
        forall u ensures TraceIsConsistent(s', u) {
          assert TraceIsConsistent(s, u);
          assert StoredIds(s', u) == StoredIds(s, u) && QueuedIds(s', u) == QueuedIds(s, u);
        }
      }
    case RecordDenial(t, meta, now, fault) =>
      if Unused(s, t) {
        var event := NewEvent(DenyId(t), now, meta, "denied", t);
        FirstStoreKeeps(digest, s, t, event, fault, Denied(Stored(digest, s, event, fault).1));
      }
    case Admit(t, meta, now, fault) =>
      if Unused(s, t) {
        var event := NewEvent(EntryId(t), now, meta, "in_progress", t);
        FirstStoreKeeps(digest, s, t, event, fault,
                        if Stored(digest, s, event, fault).1 then Handling(meta) else NotAdmitted);
      }
    case Return(t, now, result) =>
      if t in s.calls && s.calls[t].Handling? {
        QueueKeeps(digest, s, t, NewEvent(ExitId(t), now, s.calls[t].meta, result, t), s');
      }
    case DropStream(t, meta, now) =>
      if Unused(s, t) {
        QueueKeeps(digest, s, t, NewEvent(ExitId(t), now, meta, "stream_closed", t), s');
      }
    case Drain(fault) =>
      if s.queue != [] {
        DrainKeeps(digest, s, fault);
      }
  }

  lemma {:induction false} RunKeepsInvariant(digest: Digest, s: State, steps: seq<Step>)
    requires Invariant(digest, s)
    ensures Invariant(digest, Run(digest, s, steps))
    decreases |steps|
  {
    hide Invariant, Next;
    if steps == [] {
    } else {
      NextKeepsInvariant(digest, s, steps[0]);
      RunKeepsInvariant(digest, Next(digest, s, steps[0]), steps[1..]);
    }
  }

  lemma InitialInvariant(digest: Digest)
    ensures Invariant(digest, INITIAL)
  {
    assert RowsToEvents([]) == [];
    forall t ensures TraceIsConsistent(INITIAL, t) {}
  }

  // ------------------------------------------------------------- the theorems

  // Under every interleaving and every database fault the stored chain verifies, and a handler
  // runs, or has run, only if exactly its entry event opened its trace in the store.
  lemma ChainVerifiesAndEntriesComeFirst(digest: Digest, steps: seq<Step>)
    ensures var s := Run(digest, INITIAL, steps);
            && Verifies(digest, LoadedChain(s.rows))
            && (forall t | t in s.calls && s.calls[t].Handling? :: StoredIds(s, t) == [EntryId(t)])
            && (forall t | t in s.calls && s.calls[t].Finished? :: [EntryId(t)] <= StoredIds(s, t))
  {
    hide WellFormed, LoadedChain, TraceIds, Run, AllLabelled, Verifies;
    InitialInvariant(digest);
    RunKeepsInvariant(digest, INITIAL, steps);
    var s := Run(digest, INITIAL, steps);
    WellFormedTableVerifies(digest, s.rows);
    forall t | t in s.calls
      ensures s.calls[t].Handling? ==> StoredIds(s, t) == [EntryId(t)]
      ensures s.calls[t].Finished? ==> [EntryId(t)] <= StoredIds(s, t)
    {
      assert TraceIsConsistent(s, t);
    }
  }

  lemma WellFormedTableVerifies(digest: Digest, rows: seq<Row>)
    requires WellFormed(digest, rows)
    ensures Verifies(digest, LoadedChain(rows))
  {
    AscendingIsAlreadyOrdered(rows);
  }

  // Once the queue is empty, every finished handler has left exactly its entry followed by
  // exactly its exit, unless the background task dropped that exit.
  lemma FinishedCallsArePaired(digest: Digest, steps: seq<Step>)
    ensures var s := Run(digest, INITIAL, steps);
            s.queue == [] ==>
              forall t | t in s.calls && s.calls[t].Finished? ::
                StoredIds(s, t) == if ExitId(t) in s.lost then [EntryId(t)] else [EntryId(t), ExitId(t)]
  {
    InitialInvariant(digest);
    RunKeepsInvariant(digest, INITIAL, steps);
    var s := Run(digest, INITIAL, steps);
    forall t | s.queue == [] && t in s.calls && s.calls[t].Finished?
      ensures StoredIds(s, t) == if ExitId(t) in s.lost then [EntryId(t)] else [EntryId(t), ExitId(t)]
    {
      assert TraceIsConsistent(s, t);
    }
  }

  // What a trace id leaves in the store once the queue is empty.
  function TrailAtRest(s: State, t: string): seq<string> {
    var exit := if ExitId(t) in s.lost then [] else [ExitId(t)];
    if t in s.calls then
      match s.calls[t]
      case Rejected => exit
      case Unauthorized => []
      case Denied(recorded) => if recorded then [DenyId(t)] else []
      case NotAdmitted => []
      case Handling(_) => [EntryId(t)]
      case Finished => [EntryId(t)] + exit
    else if t in s.streams then exit
    else []
  }

  // Once the queue is empty, every trace id has left exactly the trail of its way out: a rejected
  // session and a dropped stream their exit, a denial its deny event, an authorization error
  // nothing, a finished handler its entry and its exit; an exit only if the drain did not drop it.
  lemma EveryTrailAtRest(digest: Digest, steps: seq<Step>)
    ensures var s := Run(digest, INITIAL, steps);
            s.queue == [] ==> forall t :: StoredIds(s, t) == TrailAtRest(s, t)
  {
    InitialInvariant(digest);
    RunKeepsInvariant(digest, INITIAL, steps);
    var s := Run(digest, INITIAL, steps);
    hide Run, WellFormed, AllLabelled;
    forall t | s.queue == [] ensures StoredIds(s, t) == TrailAtRest(s, t) {
      assert TraceIsConsistent(s, t);
    }
  }

  predicate FaultFree(step: Step) {
    match step
    case RecordDenial(_, _, now, fault) => !fault && now >= 0
    case Admit(_, _, now, fault) => !fault && now >= 0
    case RejectSession(_, _, now, _) => now >= 0
    case Return(_, now, _) => now >= 0
    case DropStream(_, _, now) => now >= 0
    case Drain(fault) => !fault
    case FailAuthorization(_) => true
  }

  ghost predicate NothingLost(s: State) {
    && s.lost == {} && (forall e | e in s.queue :: e.timestamp >= 0)
    && (forall t | t in s.calls :: s.calls[t] != Denied(false) && s.calls[t] != NotAdmitted)
  }

  lemma FaultFreeStepLosesNothing(digest: Digest, s: State, step: Step)
    requires Invariant(digest, s) && NothingLost(s) && FaultFree(step)
    ensures NothingLost(Next(digest, s, step))
  {
    hide Stored, WellFormed, AllLabelled, TraceIds;
    match step
    case RecordDenial(t, meta, now, _) =>
      if Unused(s, t) {
        assert TraceIsConsistent(s, t);
        StoreStep(digest, s, NewEvent(DenyId(t), now, meta, "denied", t), false);
      }
    case Admit(t, meta, now, _) =>
      if Unused(s, t) {
        assert TraceIsConsistent(s, t);
        StoreStep(digest, s, NewEvent(EntryId(t), now, meta, "in_progress", t), false);
      }
    case Drain(_) =>
      if s.queue != [] {
        QueueHead(s);
        StoreStep(digest, s.(queue := s.queue[1..]), s.queue[0], false);
      }
    case _ =>
  }

  lemma {:induction false} FaultFreeRunLosesNothing(digest: Digest, s: State, steps: seq<Step>)
    requires Invariant(digest, s) && NothingLost(s) && forall i | 0 <= i < |steps| :: FaultFree(steps[i])
    ensures NothingLost(Run(digest, s, steps))
    decreases |steps|
  {
    hide Invariant, Next;
    if steps == [] {
    } else {
      NextKeepsInvariant(digest, s, steps[0]);
      FaultFreeStepLosesNothing(digest, s, steps[0]);
      FaultFreeRunLosesNothing(digest, Next(digest, s, steps[0]), steps[1..]);
    }
  }

  // What each way out leaves when nothing fails.
  function CompleteTrail(s: State, t: string): seq<string> {
    if t in s.calls then
      match s.calls[t]
      case Rejected => [ExitId(t)]
      case Unauthorized => []
      case Denied(_) => [DenyId(t)]
      case NotAdmitted => []
      case Handling(_) => [EntryId(t)]
      case Finished => [EntryId(t), ExitId(t)]
    else if t in s.streams then [ExitId(t)]
    else []
  }

  // Without database faults nothing is lost and no entry or deny event fails: distinct trace ids alone
  // rule out every key conflict. So at rest each way out has left exactly its own trail.
  lemma FaultFreeTrailsAreComplete(digest: Digest, steps: seq<Step>)
    requires forall i | 0 <= i < |steps| :: FaultFree(steps[i])
    ensures var s := Run(digest, INITIAL, steps);
            && s.lost == {}
            && (forall t | t in s.calls :: s.calls[t] != NotAdmitted)
            && (s.queue == [] ==> forall t :: StoredIds(s, t) == CompleteTrail(s, t))
  {
    hide Run, WellFormed, AllLabelled, TraceIds, TrailAtRest, CompleteTrail, FaultFree;
    InitialInvariant(digest);
    FaultFreeRunLosesNothing(digest, INITIAL, steps);
    EveryTrailAtRest(digest, steps);
    var s := Run(digest, INITIAL, steps);
    forall t | s.queue == [] ensures StoredIds(s, t) == CompleteTrail(s, t) {
      NoLossNoGap(s, t);
    }
  }

  lemma NoLossNoGap(s: State, t: string)
    requires NothingLost(s)
    ensures TrailAtRest(s, t) == CompleteTrail(s, t)
  {
  }

  // Without database faults no exit event is lost: distinct trace ids alone rule out every key
  // conflict, so at rest the audit trail of each finished call is its entry and its exit.
  lemma FaultFreeRunsPairEveryCall(digest: Digest, steps: seq<Step>)
    requires forall i | 0 <= i < |steps| :: FaultFree(steps[i])
    ensures var s := Run(digest, INITIAL, steps);
            && s.lost == {}
            && (s.queue == [] ==>
                  forall t | t in s.calls && s.calls[t].Finished? :: StoredIds(s, t) == [EntryId(t), ExitId(t)])
  {
    InitialInvariant(digest);
    FaultFreeRunLosesNothing(digest, INITIAL, steps);
    FinishedCallsArePaired(digest, steps);
  }
}
