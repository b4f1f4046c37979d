// The audit_events table of crates/agent-store/src/lib.rs and the three operations on it.
//
// The queries are written as the SQL says them: a maximum over all rows, a selection, an
// ordering. That they come down to "append to a chain" and "filter a chain" is what is proved.
module AuditStore {
  import opened Wrappers
  import opened SecurityTypes
  import opened AuditChain

  // One row; `id` is the primary key and `sequence` is unique.
  datatype Row = Row(
    id: string, sequence: nat, timestampUnixMs: nat, principal: string, action: string, resource: string,
    result: string, prevHash: string, hash: string, eventJson: AuditEvent)

  datatype StoreError = TimestampBeforeEpoch | ConstraintViolated

  function UnixMs(t: Instant): nat {
    if TimestampMs(t) <= I64_MAX then TimestampMs(t) else I64_MAX
  }

  // The millisecond an instant lies in, counted from the epoch and kept within a signed 64-bit column.
  lemma UnixMsMeans(t: Instant)
    ensures t < 0 ==> UnixMs(t) == 0
    ensures 0 <= t < 0x8000_0000_0000_0000 * 1_000_000 ==> UnixMs(t) * 1_000_000 <= t < (UnixMs(t) + 1) * 1_000_000
    ensures t >= 0x8000_0000_0000_0000 * 1_000_000 ==> UnixMs(t) == 0x7FFF_FFFF_FFFF_FFFF
  {
  }

  // The row with the greatest sequence (ORDER BY sequence DESC LIMIT 1).
  function HighestRow(rows: seq<Row>): Option<Row> {
    if rows == [] then None
    else
      var last := rows[|rows| - 1];
      var rest := HighestRow(rows[..|rows| - 1]);
      if rest.None? || last.sequence > rest.value.sequence then Some(last) else rest
  }

  function NextSequence(rows: seq<Row>): nat {
    match HighestRow(rows)
    case None => 1
    case Some(row) => row.sequence + 1
  }

  function RowFor(digest: Digest, rows: seq<Row>, event: AuditEvent): Row {
    var prevHash := match HighestRow(rows) case None => "" case Some(row) => row.hash;
    var linked := Sealed(digest, event, prevHash);
    Row(event.eventId, NextSequence(rows), UnixMs(event.timestamp), event.principal,
        ActionText(event.action), ResourceText(event.resource), event.result,
        linked.prevHash, linked.hash, linked)
  }

  predicate ViolatesConstraint(rows: seq<Row>, row: Row) {
    exists i | 0 <= i < |rows| :: rows[i].id == row.id || rows[i].sequence == row.sequence
  }

  // An instant before the epoch has no JSON form, so such an event is refused first.
  function AppendResult(digest: Digest, rows: seq<Row>, event: AuditEvent): Result<seq<Row>, StoreError> {
    var row := RowFor(digest, rows, event);
    if event.timestamp < 0 then Err(TimestampBeforeEpoch)
    else if ViolatesConstraint(rows, row) then Err(ConstraintViolated)
    else Ok(rows + [row])
  }

  function AfterAppend(digest: Digest, rows: seq<Row>, event: AuditEvent): seq<Row> {
    var r := AppendResult(digest, rows, event);
    if r.Ok? then r.value else rows
  }

  // The stored columns win over the stored JSON.
  function RowToEvent(row: Row): AuditEvent {
    row.eventJson.(result := row.result, prevHash := row.prevHash, hash := row.hash)
  }

  function RowsToEvents(rows: seq<Row>): (events: seq<AuditEvent>)
    ensures |events| == |rows|
    ensures forall i | 0 <= i < |rows| :: events[i] == RowToEvent(rows[i])
  {
    seq(|rows|, i requires 0 <= i < |rows| => RowToEvent(rows[i]))
  }

  function InsertBySequence(row: Row, ordered: seq<Row>): seq<Row> {
    if ordered == [] || row.sequence <= ordered[0].sequence then [row] + ordered
    else [ordered[0]] + InsertBySequence(row, ordered[1..])
  }

  // ORDER BY sequence ASC.
  function OrderBySequence(rows: seq<Row>): seq<Row> {
    if rows == [] then [] else InsertBySequence(rows[0], OrderBySequence(rows[1..]))
  }

  function LoadedChain(rows: seq<Row>): seq<AuditEvent> {
    RowsToEvents(OrderBySequence(rows))
  }

  datatype AuditEventFilter = AuditEventFilter(
    principal: Option<string>, action: Option<Action>, resource: Option<Resource>,
    result: Option<string>, since: Option<Instant>, until: Option<Instant>)

  // The WHERE clause: every comparison is on columns, an absent bound is NULL.
  predicate RowSelected(filter: AuditEventFilter, row: Row) {
    && (filter.principal.Some? ==> row.principal == filter.principal.value)
    && (filter.action.Some? ==> row.action == ActionText(filter.action.value))
    && (filter.resource.Some? ==> row.resource == ResourceText(filter.resource.value))
    && (filter.result.Some? ==> row.result == filter.result.value)
    && (filter.since.Some? ==> row.timestampUnixMs >= UnixMs(filter.since.value))
    && (filter.until.Some? ==> row.timestampUnixMs <= UnixMs(filter.until.value))
  }

  function Where(filter: AuditEventFilter, rows: seq<Row>): seq<Row> {
    if rows == [] then []
    else (if RowSelected(filter, rows[0]) then [rows[0]] else []) + Where(filter, rows[1..])
  }

  function QueriedEvents(filter: AuditEventFilter, rows: seq<Row>): seq<AuditEvent> {
    RowsToEvents(OrderBySequence(Where(filter, rows)))
  }

  class StateStore {
    const digest: Digest
    var auditEvents: seq<Row>

    constructor (digest: Digest)
      ensures this.digest == digest && auditEvents == []
    {
      this.digest := digest;
      auditEvents := [];
    }

    method AppendAuditEvent(event: AuditEvent) returns (r: Result<(), StoreError>)
      modifies this
      ensures auditEvents == AfterAppend(digest, old(auditEvents), event)
      ensures r == match AppendResult(digest, old(auditEvents), event)
                   case Ok(_) => Ok(())
                   case Err(error) => Err(error)
    {
      var highest := HighestRow(auditEvents);
      var prevHash := if highest.Some? then highest.value.hash else "";
      var linked := event.(prevHash := prevHash);
      linked := linked.(hash := CalculateHash(digest, linked, linked.prevHash));
      var timestampMs := UnixMs(linked.timestamp);
      if linked.timestamp < 0 {
        return Err(TimestampBeforeEpoch);
      }
      var sequence := NextSequence(auditEvents);
      var row := Row(linked.eventId, sequence, timestampMs, linked.principal, ActionText(linked.action),
                     ResourceText(linked.resource), linked.result, linked.prevHash, linked.hash, linked);
      assert row == RowFor(digest, auditEvents, event);
      if exists i | 0 <= i < |auditEvents| :: auditEvents[i].id == row.id || auditEvents[i].sequence == row.sequence {
        return Err(ConstraintViolated);
      }
      auditEvents := auditEvents + [row];
      r := Ok(());
    }

    method LoadAuditChain() returns (chain: Chain)
      ensures fresh(chain) && chain.digest == digest && chain.events == LoadedChain(auditEvents)
    {
      var rows := OrderBySequence(auditEvents);
      chain := new Chain(digest);
      for i := 0 to |rows|
        invariant chain.events == RowsToEvents(rows[..i])
      {
        chain.PushStored(RowToEvent(rows[i]));
        assert RowsToEvents(rows[..i + 1]) == RowsToEvents(rows[..i]) + [RowToEvent(rows[i])];
      }
      assert rows[..|rows|] == rows;
    }

    method QueryAuditEvents(filter: AuditEventFilter) returns (events: seq<AuditEvent>)
      ensures events == QueriedEvents(filter, auditEvents)
    {
      var rows := OrderBySequence(Where(filter, auditEvents));
      events := [];
      for i := 0 to |rows|
        invariant events == RowsToEvents(rows[..i])
      {
        events := events + [RowToEvent(rows[i])];
        assert RowsToEvents(rows[..i + 1]) == RowsToEvents(rows[..i]) + [RowToEvent(rows[i])];
      }
      assert rows[..|rows|] == rows;
    }
  }

  // ------------------------------------------------------- what the table keeps

  // Sequences are 1..n in order of insertion, ids are distinct, the columns repeat the JSON,
  // and the events form a verifying chain.
  ghost predicate WellFormed(digest: Digest, rows: seq<Row>) {
    && (forall i | 0 <= i < |rows| :: rows[i].sequence == i + 1)
    && (forall i, j | 0 <= i < j < |rows| :: rows[i].id != rows[j].id)
    && (forall i | 0 <= i < |rows| :: ColumnsRepeatEvent(rows[i]))
    && Verifies(digest, RowsToEvents(rows))
  }

  ghost predicate ColumnsRepeatEvent(row: Row) {
    var e := row.eventJson;
    && row.id == e.eventId && row.timestampUnixMs == UnixMs(e.timestamp) && row.principal == e.principal
    && row.action == ActionText(e.action) && row.resource == ResourceText(e.resource)
    && row.result == e.result && row.prevHash == e.prevHash && row.hash == e.hash
  }

  lemma {:induction false} HighestRowIsLast(rows: seq<Row>)
    requires forall i | 0 <= i < |rows| :: rows[i].sequence == i + 1
    ensures HighestRow(rows) == if rows == [] then None else Some(rows[|rows| - 1])
  {
    if rows == [] {
    } else {
      HighestRowIsLast(rows[..|rows| - 1]);
    }
  }

  // The new row continues the sequence and holds the event sealed over the last stored hash.
  lemma NewRowContinues(digest: Digest, rows: seq<Row>, event: AuditEvent)
    requires forall i | 0 <= i < |rows| :: rows[i].sequence == i + 1
    ensures var row := RowFor(digest, rows, event);
            && row.id == event.eventId && row.sequence == |rows| + 1 && ColumnsRepeatEvent(row)
            && RowToEvent(row) == Sealed(digest, event, LastHash(RowsToEvents(rows)))
  {
    hide CalculateHash, ActionText, ResourceText, UnixMs;
    HighestRowIsLast(rows);
  }

  // Any event with a fresh id and a timestamp since the epoch is stored, sealed onto the last
  // hash; no other event changes anything.
  lemma AppendExtendsTheChain(digest: Digest, rows: seq<Row>, event: AuditEvent)
    requires WellFormed(digest, rows)
    ensures var rows' := AfterAppend(digest, rows, event);
            && WellFormed(digest, rows')
            && (AppendResult(digest, rows, event).Ok?
                <==> event.timestamp >= 0 && forall i | 0 <= i < |rows| :: rows[i].id != event.eventId)
            && RowsToEvents(rows') == if AppendResult(digest, rows, event).Ok?
                                      then Appended(digest, RowsToEvents(rows), event)
                                      else RowsToEvents(rows)
  {
    hide RowFor, Verifies, Sealed, ColumnsRepeatEvent, RowToEvent, LastHash;
    NewRowContinues(digest, rows, event);
    if AppendResult(digest, rows, event).Ok? {
      var row, events := RowFor(digest, rows, event), RowsToEvents(rows);
      assert RowsToEvents(rows + [row]) == events + [RowToEvent(row)];
      AppendKeepsVerifying(digest, events, event);
    }
  }

  ghost predicate WeaklyAscending(rows: seq<Row>) {
    forall i, j | 0 <= i < j < |rows| :: rows[i].sequence <= rows[j].sequence
  }

  lemma {:induction false} InsertKeepsOrder(row: Row, ordered: seq<Row>)
    requires WeaklyAscending(ordered)
    ensures WeaklyAscending(InsertBySequence(row, ordered))
    ensures forall r :: r in InsertBySequence(row, ordered) <==> r == row || r in ordered
  {
    if ordered == [] || row.sequence <= ordered[0].sequence {
    } else {
      var rest := InsertBySequence(row, ordered[1..]);
      InsertKeepsOrder(row, ordered[1..]);
      assert ordered == [ordered[0]] + ordered[1..];
      forall j | 0 <= j < |rest| ensures ordered[0].sequence <= rest[j].sequence {
        assert rest[j] in rest;
      }
    }
  }

  lemma {:induction false} InsertAddsOne(row: Row, ordered: seq<Row>)
    ensures multiset(InsertBySequence(row, ordered)) == multiset(ordered) + multiset{row}
  {
    if ordered == [] || row.sequence <= ordered[0].sequence {
    } else {
      InsertAddsOne(row, ordered[1..]);
      assert ordered == [ordered[0]] + ordered[1..];
    }
  }

  // The ordered rows are the rows, by ascending sequence.
  lemma {:induction false} OrderedIsAPermutation(rows: seq<Row>)
    ensures WeaklyAscending(OrderBySequence(rows)) && multiset(OrderBySequence(rows)) == multiset(rows)
  {
    if rows == [] {
    } else {
      OrderedIsAPermutation(rows[1..]);
      InsertKeepsOrder(rows[0], OrderBySequence(rows[1..]));
      InsertAddsOne(rows[0], OrderBySequence(rows[1..]));
      assert rows == [rows[0]] + rows[1..];
    }
  }

  lemma SameFirst(a: seq<Row>, b: seq<Row>)
    requires a != [] && b != [] && WeaklyAscending(a) && Ascending(b) && a[0] in b && b[0] in a
    ensures a[0] == b[0]
  {
    var i :| 0 <= i < |a| && a[i] == b[0];
    var j :| 0 <= j < |b| && b[j] == a[0];
    assert a[0].sequence <= a[i].sequence;
    assert forall k | 0 < k < |b| :: b[0].sequence < b[k].sequence;
    assert j == 0;
  }

  lemma {:induction false} AscendingIsUnique(a: seq<Row>, b: seq<Row>)
    requires WeaklyAscending(a) && Ascending(b) && multiset(a) == multiset(b)
    ensures a == b
  {
    if a == [] || b == [] {
      assert |multiset(a)| == |multiset(b)|;
    } else {
      assert a[0] in multiset(b) && b[0] in multiset(a);
      SameFirst(a, b);
      assert a == [a[0]] + a[1..] && b == [b[0]] + b[1..];
      SameRest(a[0], a[1..], b[1..]);
      AscendingIsUnique(a[1..], b[1..]);
    }
  }

  lemma SameRest(first: Row, a: seq<Row>, b: seq<Row>)
    requires multiset([first] + a) == multiset([first] + b)
    ensures multiset(a) == multiset(b)
  {
    assert multiset([first] + a) - multiset{first} == multiset(a);
    assert multiset([first] + b) - multiset{first} == multiset(b);
  }

  lemma {:induction false} AscendingIsAlreadyOrdered(rows: seq<Row>)
    requires Ascending(rows)
    ensures OrderBySequence(rows) == rows
  {
    if rows == [] {
    } else {
      AscendingIsAlreadyOrdered(rows[1..]);
      assert rows == [rows[0]] + rows[1..];
    }
  }

  // ----------------------------------------------------------- runs of appends

  function StoreRun(digest: Digest, rows: seq<Row>, events: seq<AuditEvent>): seq<Row>
    decreases |events|
  {
    if events == [] then rows else StoreRun(digest, AfterAppend(digest, rows, events[0]), events[1..])
  }

  // The events a log keeps: representable timestamps, first use of an id.
  function AcceptedEvents(used: set<string>, events: seq<AuditEvent>): seq<AuditEvent>
    decreases |events|
  {
    if events == [] then []
    else if events[0].timestamp >= 0 && events[0].eventId !in used then
      [events[0]] + AcceptedEvents(used + {events[0].eventId}, events[1..])
    else AcceptedEvents(used, events[1..])
  }

  function ChainRun(digest: Digest, chain: seq<AuditEvent>, events: seq<AuditEvent>): seq<AuditEvent>
    decreases |events|
  {
    if events == [] then chain else ChainRun(digest, Appended(digest, chain, events[0]), events[1..])
  }

  function Ids(rows: seq<Row>): set<string> {
    set i | 0 <= i < |rows| :: rows[i].id
  }

  lemma AcceptedIffFreshAndRepresentable(digest: Digest, rows: seq<Row>, event: AuditEvent)
    requires WellFormed(digest, rows)
    ensures AppendResult(digest, rows, event).Ok? <==> event.timestamp >= 0 && event.eventId !in Ids(rows)
    ensures Ids(AfterAppend(digest, rows, event))
         == if AppendResult(digest, rows, event).Ok? then Ids(rows) + {event.eventId} else Ids(rows)
  {
    hide WellFormed, CalculateHash, HighestRow;
    AppendExtendsTheChain(digest, rows, event);
    if AppendResult(digest, rows, event).Ok? {
      var rows' := rows + [RowFor(digest, rows, event)];
      assert rows'[|rows|].id == event.eventId;
      assert forall i | 0 <= i < |rows| :: rows'[i] == rows[i];
    }
  }

  ghost predicate TableHoldsChain(digest: Digest, rows: seq<Row>, chain: seq<AuditEvent>) {
    WellFormed(digest, rows) && RowsToEvents(rows) == chain
  }

  lemma {:induction false} RunsAgree(digest: Digest, rows: seq<Row>, events: seq<AuditEvent>)
    requires WellFormed(digest, rows)
    ensures TableHoldsChain(digest, StoreRun(digest, rows, events),
                            ChainRun(digest, RowsToEvents(rows), AcceptedEvents(Ids(rows), events)))
    decreases |events|
  {
    if events == [] {
    } else {
      var event := events[0];
      var rows' := AfterAppend(digest, rows, event);
      AppendExtendsTheChain(digest, rows, event);
      AcceptedIffFreshAndRepresentable(digest, rows, event);
      RunsAgree(digest, rows', events[1..]);
      var rest := AcceptedEvents(Ids(rows'), events[1..]);
      assert StoreRun(digest, rows, events) == StoreRun(digest, rows', events[1..]);
      if event.timestamp >= 0 && event.eventId !in Ids(rows) {
        assert AcceptedEvents(Ids(rows), events) == [event] + rest;
        assert ([event] + rest)[1..] == rest;
        assert ChainRun(digest, RowsToEvents(rows), [event] + rest) == ChainRun(digest, RowsToEvents(rows'), rest);
      } else {
        assert AcceptedEvents(Ids(rows), events) == rest;
      }
    }
  }

  // After any sequence of appends, whatever duplicates, early timestamps and stale hashes it
  // holds: sequences are 1..n, and the loaded chain is the accepted events folded through
  // AuditChain's append, so it verifies.
  lemma LoadedChainIsTheFold(digest: Digest, events: seq<AuditEvent>)
    ensures var rows := StoreRun(digest, [], events);
            && (forall i | 0 <= i < |rows| :: rows[i].sequence == i + 1)
            && LoadedChain(rows) == ChainRun(digest, [], AcceptedEvents({}, events))
            && Verifies(digest, LoadedChain(rows))
  {
    assert RowsToEvents([]) == [] && Ids([]) == {};
    RunsAgree(digest, [], events);
    AscendingIsAlreadyOrdered(StoreRun(digest, [], events));
  }

  // ------------------------------------------------------------------ queries

  // What a filter means for an event, without columns or names of enum values.
  predicate EventMatches(filter: AuditEventFilter, e: AuditEvent) {
    && (filter.principal.Some? ==> e.principal == filter.principal.value)
    && (filter.action.Some? ==> e.action == filter.action.value)
    && (filter.resource.Some? ==> e.resource == filter.resource.value)
    && (filter.result.Some? ==> e.result == filter.result.value)
    && (filter.since.Some? ==> NoEarlier(e.timestamp, filter.since.value))
    && (filter.until.Some? ==> NoEarlier(filter.until.value, e.timestamp))
  }

  // Compared by whole milliseconds; instants before the epoch count as the epoch, and those beyond the
  // signed 64-bit range are not told apart.
  predicate NoEarlier(a: Instant, b: Instant) {
    a / 1_000_000 >= b / 1_000_000 || b < 1_000_000 || a / 1_000_000 >= 0x7FFF_FFFF_FFFF_FFFF
  }

  function MatchingEvents(filter: AuditEventFilter, events: seq<AuditEvent>): seq<AuditEvent> {
    if events == [] then []
    else (if EventMatches(filter, events[0]) then [events[0]] else []) + MatchingEvents(filter, events[1..])
  }

  lemma RowSelectedMeansEventMatches(filter: AuditEventFilter, row: Row)
    requires ColumnsRepeatEvent(row)
    ensures RowSelected(filter, row) <==> EventMatches(filter, RowToEvent(row))
  {
    if filter.action.Some? {
      ActionTextIsInjective(row.eventJson.action, filter.action.value);
    }
    if filter.resource.Some? {
      ResourceTextIsInjective(row.eventJson.resource, filter.resource.value);
    }
  }

  ghost predicate Ascending(rows: seq<Row>) {
    forall i, j | 0 <= i < j < |rows| :: rows[i].sequence < rows[j].sequence
  }

  lemma {:induction false} WhereKeepsOrder(filter: AuditEventFilter, rows: seq<Row>)
    requires Ascending(rows)
    ensures Ascending(Where(filter, rows))
    ensures forall row | row in Where(filter, rows) :: row in rows
  {
    if rows == [] {
    } else {
      WhereKeepsOrder(filter, rows[1..]);
      assert forall row | row in rows[1..] :: rows[0].sequence < row.sequence;
    }
  }

  lemma {:induction false} WhereIsMatching(filter: AuditEventFilter, rows: seq<Row>)
    requires forall i | 0 <= i < |rows| :: ColumnsRepeatEvent(rows[i])
    ensures RowsToEvents(Where(filter, rows)) == MatchingEvents(filter, RowsToEvents(rows))
  {
    if rows != [] {
      WhereIsMatching(filter, rows[1..]);
      RowSelectedMeansEventMatches(filter, rows[0]);
      assert RowsToEvents(rows)[1..] == RowsToEvents(rows[1..]);
      RowsToEventsOfCons(rows[0], Where(filter, rows[1..]));
    } else {
      assert RowsToEvents(rows) == [];
    }
  }

  lemma RowsToEventsOfCons(row: Row, rows: seq<Row>)
    ensures RowsToEvents([row] + rows) == [RowToEvent(row)] + RowsToEvents(rows)
    ensures RowsToEvents([] + rows) == [] + RowsToEvents(rows)
  {
    assert [] + rows == rows;
  }

  lemma {:induction false} WhereCounts(filter: AuditEventFilter, rows: seq<Row>, row: Row)
    ensures multiset(Where(filter, rows))[row] == if RowSelected(filter, row) then multiset(rows)[row] else 0
  {
    hide RowSelected;
    if rows == [] {
    } else {
      WhereCounts(filter, rows[1..], row);
      assert rows == [rows[0]] + rows[1..];
    }
  }

  // Loads and queries do not depend on the order the database holds the rows in.
  lemma PhysicalOrderDoesNotMatter(rows: seq<Row>, shuffled: seq<Row>, filter: AuditEventFilter)
    requires Ascending(rows) && multiset(shuffled) == multiset(rows)
    ensures LoadedChain(shuffled) == RowsToEvents(rows)
    ensures QueriedEvents(filter, shuffled) == RowsToEvents(Where(filter, rows))
  {
    OrderedIsAPermutation(shuffled);
    AscendingIsUnique(OrderBySequence(shuffled), rows);
    var selected := Where(filter, shuffled);
    forall row ensures multiset(selected)[row] == multiset(Where(filter, rows))[row] {
      WhereCounts(filter, shuffled, row);
      WhereCounts(filter, rows, row);
    }
    WhereKeepsOrder(filter, rows);
    OrderedIsAPermutation(selected);
    AscendingIsUnique(OrderBySequence(selected), Where(filter, rows));
  }

  // A query returns the matching events of the loaded chain, in chain order.
  lemma QueryIsAFilteredChain(digest: Digest, events: seq<AuditEvent>, filter: AuditEventFilter)
    ensures var rows := StoreRun(digest, [], events);
            QueriedEvents(filter, rows) == MatchingEvents(filter, LoadedChain(rows))
  {
    var rows := StoreRun(digest, [], events);
    assert RowsToEvents([]) == [];
    RunsAgree(digest, [], events);
    AscendingIsAlreadyOrdered(rows);
    WhereKeepsOrder(filter, rows);
    WhereIsMatching(filter, rows);
    AscendingIsAlreadyOrdered(Where(filter, rows));
  }

  // ------------------------------------------------------------- overwritten rows

  lemma {:induction false} VerifiedAt(digest: Digest, expected: string, events: seq<AuditEvent>, i: nat)
    requires VerifiesFrom(digest, expected, events) && i < |events|
    ensures events[i].prevHash == if i == 0 then expected else events[i - 1].hash
    ensures events[i].hash == Hex(digest(Preimage(events[i].prevHash, events[i])))
    decreases i
  {
    if i == 0 {
    } else {
      VerifiedAt(digest, events[0].hash, events[1..], i - 1);
    }
  }

  // The columns are what is loaded: whoever overwrites the result or a hash of a row, leaving its JSON
  // as it was, is found out, unless the digest collides or the row is the last and got a new hash.
  lemma OverwrittenColumnsAreFoundOut(
    digest: Digest, rows: seq<Row>, i: nat, result: string, prevHash: string, hash: string)
    requires Produces32Bytes(digest) && WellFormed(digest, rows) && AllOneLine(RowsToEvents(rows)) && i < |rows|
    requires (result, prevHash, hash) != (rows[i].result, rows[i].prevHash, rows[i].hash)
    requires i + 1 < |rows| || hash == rows[i].hash
    ensures var row := rows[i].(result := result, prevHash := prevHash, hash := hash);
            var e, e' := RowToEvent(rows[i]), RowToEvent(row);
            Verifies(digest, LoadedChain(rows[i := row])) ==>
              && Preimage(e.prevHash, e) != Preimage(e'.prevHash, e')
              && digest(Preimage(e.prevHash, e)) == digest(Preimage(e'.prevHash, e'))
  {
    hide Preimage, Hex, OneLine, TextFieldsOneLine, VerifiesFrom, RowsToEvents, OrderBySequence;
    var row := rows[i].(result := result, prevHash := prevHash, hash := hash);
    var before, after := RowsToEvents(rows), RowsToEvents(rows[i := row]);
    AscendingIsAlreadyOrdered(rows[i := row]);
    if Verifies(digest, after) {
      var e, e' := before[i], after[i];
      assert forall k | 0 <= k < |rows| && k != i :: after[k] == before[k];
      assert e'.result == result && e'.prevHash == prevHash && e'.hash == hash;
      LinksAgree(digest, before, after, i);
      HexIsInjective(digest(Preimage(e.prevHash, e)), digest(Preimage(e'.prevHash, e')));
      LinkIsOneLine(digest, before, i);
      assert e in before;
      if Preimage(e.prevHash, e) == Preimage(e'.prevHash, e') {
        PreimageIsInjective(e.prevHash, e, e'.prevHash, e');
      }
    }
  }

  lemma LinksAgree(digest: Digest, before: seq<AuditEvent>, after: seq<AuditEvent>, i: nat)
    requires Verifies(digest, before) && Verifies(digest, after) && i < |before| == |after|
    requires forall k | 0 <= k < |before| && k != i :: after[k] == before[k]
    requires i + 1 < |before| || after[i].hash == before[i].hash
    ensures after[i].prevHash == before[i].prevHash && after[i].hash == before[i].hash
    ensures before[i].hash == Hex(digest(Preimage(before[i].prevHash, before[i])))
    ensures after[i].hash == Hex(digest(Preimage(after[i].prevHash, after[i])))
  {
    hide Preimage, Hex, VerifiesFrom;
    VerifiedAt(digest, "", before, i);
    VerifiedAt(digest, "", after, i);
    if i + 1 < |before| {
      VerifiedAt(digest, "", before, i + 1);
      VerifiedAt(digest, "", after, i + 1);
    }
  }

  lemma LinkIsOneLine(digest: Digest, events: seq<AuditEvent>, i: nat)
    requires Produces32Bytes(digest) && Verifies(digest, events) && i < |events|
    ensures OneLine(events[i].prevHash)
  {
    VerifiedAt(digest, "", events, i);
    if i > 0 {
      VerifiedAt(digest, "", events, i - 1);
      assert '\n' !in HEX;
    }
  }
}
