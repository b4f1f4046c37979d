// The configuration manager of src/config_manager.rs over the config_versions table of
// crates/agent-store/src/lib.rs: an in-memory map beside an append-only log with tombstones.
module ConfigManager {
  import opened Wrappers
  import opened JsonString

  datatype ConfigScope = Device | Agent | App(appId: string)

  function ScopeName(scope: ConfigScope): string {
    match scope
    case Device => "device"
    case Agent => "agent"
    case App(id) => "app:" + id
  }

  lemma ScopeNameIsInjective(a: ConfigScope, b: ConfigScope)
    ensures ScopeName(a) == ScopeName(b) <==> a == b
  {
    var x, y := ScopeName(a), ScopeName(b);
    assert a.App? ==> x[..4] == "app:" && x[4..] == a.appId;
    assert b.App? ==> y[..4] == "app:" && y[4..] == b.appId;
    assert !a.App? ==> x[1] != 'p';
    assert !b.App? ==> y[1] != 'p';
    assert x[0] == y[0] && !a.App? && !b.App? ==> a == b;
  }

  // ------------------------------------------------------- the in-memory form

  type ScopeMap = map<string, (string, nat)>

  datatype Inner = Inner(scopes: map<ConfigScope, ScopeMap>, globalVersion: nat)

  const EMPTY_INNER := Inner(map[], 0)

  function InnerGetAll(inner: Inner, scope: ConfigScope): ScopeMap {
    if scope in inner.scopes then inner.scopes[scope] else map[]
  }

  function InnerGet(inner: Inner, scope: ConfigScope, key: string): Option<(string, nat)> {
    var entries := InnerGetAll(inner, scope);
    if key in entries then Some(entries[key]) else None
  }

  function InnerSet(inner: Inner, scope: ConfigScope, key: string, value: string): Inner {
    var version := inner.globalVersion + 1;
    Inner(inner.scopes[scope := InnerGetAll(inner, scope)[key := (value, version)]], version)
  }

  // The version is consumed even when there is nothing to delete.
  function InnerDelete(inner: Inner, scope: ConfigScope, key: string): (Inner, bool) {
    var bumped := inner.(globalVersion := inner.globalVersion + 1);
    if scope in inner.scopes then
      (bumped.(scopes := inner.scopes[scope := inner.scopes[scope] - {key}]), key in inner.scopes[scope])
    else (bumped, false)
  }

  // ------------------------------------------------------- the version table

  // (scope, key, version) is the primary key.
  datatype Record = Record(scope: string, key: string, version: nat, valueJson: string)

  function StoredVersion(version: nat): nat {
    if version <= I64_MAX then version else I64_MAX
  }

  predicate SameKey(a: Record, b: Record) {
    a.scope == b.scope && a.key == b.key && a.version == b.version
  }

  function Inserted(table: seq<Record>, record: Record): seq<Record> {
    if exists i | 0 <= i < |table| :: SameKey(table[i], record) then table else table + [record]
  }

  // ORDER BY version DESC LIMIT 1 among the records of one scope and key.
  function Latest(table: seq<Record>, scope: string, key: string): Option<Record> {
    if table == [] then None
    else
      var last := table[|table| - 1];
      var rest := Latest(table[..|table| - 1], scope, key);
      if last.scope == scope && last.key == key && (rest.None? || last.version > rest.value.version)
      then Some(last) else rest
  }

  // The records of a scope joined with the greatest version of their key.
  function LatestOfScope(table: seq<Record>, scope: string, from: seq<Record>): seq<Record> {
    if from == [] then []
    else
      var latest := Latest(table, scope, from[0].key);
      (if from[0].scope == scope && latest.Some? && latest.value.version == from[0].version then [from[0]] else [])
      + LatestOfScope(table, scope, from[1..])
  }

  function DecodeConfigValue(valueJson: string): Option<string> {
    if valueJson == "null" then None
    else
      var parsed := ParseString(valueJson);
      if parsed.Some? then parsed else Some(valueJson)
  }

  function Collected(records: seq<Record>): map<string, string> {
    if records == [] then map[]
    else
      var last := records[|records| - 1];
      var rest := Collected(records[..|records| - 1]);
      var value := DecodeConfigValue(last.valueJson);
      if value.Some? then rest[last.key := value.value] else rest
  }

  // ---------------------------------------------------------------- the manager

  datatype ChangeEvent = ChangeEvent(scope: ConfigScope, key: string, value: Option<string>, version: nat)

  datatype Manager = Manager(inner: Inner, store: Option<seq<Record>>, events: seq<ChangeEvent>)

  function Get(m: Manager, scope: ConfigScope, key: string): Option<string> {
    var latest := if m.store.Some? then Latest(m.store.value, ScopeName(scope), key) else None;
    if latest.Some? then DecodeConfigValue(latest.value.valueJson)
    else
      var entry := InnerGet(m.inner, scope, key);
      if entry.Some? then Some(entry.value.0) else None
  }

  function GetVersion(m: Manager, scope: ConfigScope, key: string): Option<nat> {
    var latest := if m.store.Some? then Latest(m.store.value, ScopeName(scope), key) else None;
    if latest.Some? then Some(latest.value.version)
    else
      var entry := InnerGet(m.inner, scope, key);
      if entry.Some? then Some(entry.value.1) else None
  }

  function Snapshot(m: Manager, scope: ConfigScope): map<string, string> {
    if m.store.Some? then Collected(LatestOfScope(m.store.value, ScopeName(scope), m.store.value))
    else
      var entries := InnerGetAll(m.inner, scope);
      map key | key in entries :: entries[key].0
  }

  function SetRecord(scope: ConfigScope, key: string, value: string, version: nat): Record {
    Record(ScopeName(scope), key, StoredVersion(version), Encode(value))
  }

  function Tombstone(scope: ConfigScope, key: string, version: nat): Record {
    Record(ScopeName(scope), key, StoredVersion(version), "null")
  }

  function Persisted(m: Manager, record: Record): Manager {
    if m.store.Some? then m.(store := Some(Inserted(m.store.value, record))) else m
  }

  function Published(m: Manager, event: ChangeEvent): Manager {
    m.(events := m.events + [event])
  }

  function Set(m: Manager, scope: ConfigScope, key: string, value: string): Manager {
    var inner := InnerSet(m.inner, scope, key, value);
    var version := inner.globalVersion;
    Published(Persisted(m.(inner := inner), SetRecord(scope, key, value, version)),
              ChangeEvent(scope, key, Some(value), version))
  }

  function Delete(m: Manager, scope: ConfigScope, key: string): (Manager, bool) {
    var existed := Get(m, scope, key).Some?;
    var (inner, removed) := InnerDelete(m.inner, scope, key);
    if removed || existed then
      var version := inner.globalVersion;
      (Published(Persisted(m.(inner := inner), Tombstone(scope, key, version)),
                 ChangeEvent(scope, key, None, version)), true)
    else (m.(inner := inner), false)
  }

  class ConfigManager {
    var inner: Inner
    var store: Option<seq<Record>>
    var events: seq<ChangeEvent>

    function State(): Manager
      reads this
    {
      Manager(inner, store, events)
    }

    constructor (store: Option<seq<Record>>)
      ensures State() == Manager(EMPTY_INNER, store, [])
    {
      inner := EMPTY_INNER;
      this.store := store;
      events := [];
    }

    method SetValue(scope: ConfigScope, key: string, value: string) returns (version: nat)
      modifies this
      ensures State() == Set(old(State()), scope, key, value)
      ensures version == old(inner.globalVersion) + 1
    {
      inner := InnerSet(inner, scope, key, value);
      version := inner.globalVersion;
      if store.Some? {
        var record := Record(ScopeName(scope), key, StoredVersion(version), Encode(value));
        store := Some(Inserted(store.value, record));
      }
      events := events + [ChangeEvent(scope, key, Some(value), version)];
    }

    method DeleteKey(scope: ConfigScope, key: string) returns (deleted: bool)
      modifies this
      ensures (State(), deleted) == Delete(old(State()), scope, key)
    {
      var existing := GetValue(scope, key);
      var existed := existing.Some?;
      var (inner', removed) := InnerDelete(inner, scope, key);
      inner := inner';
      if !(removed || existed) {
        return false;
      }
      var version := inner.globalVersion;
      if store.Some? {
        store := Some(Inserted(store.value, Record(ScopeName(scope), key, StoredVersion(version), "null")));
      }
      events := events + [ChangeEvent(scope, key, None, version)];
      return true;
    }

    method GetValue(scope: ConfigScope, key: string) returns (value: Option<string>)
      ensures value == Get(State(), scope, key)
    {
      if store.Some? {
        var latest := Latest(store.value, ScopeName(scope), key);
        if latest.Some? {
          return DecodeConfigValue(latest.value.valueJson);
        }
      }
      var entry := InnerGet(inner, scope, key);
      value := if entry.Some? then Some(entry.value.0) else None;
    }

    method TakeSnapshot(scope: ConfigScope) returns (entries: map<string, string>)
      ensures entries == Snapshot(State(), scope)
    {
      if store.Some? {
        var records := LatestOfScope(store.value, ScopeName(scope), store.value);
        return Collected(records);
      }
      var held := InnerGetAll(inner, scope);
      entries := map key | key in held :: held[key].0;
    }
  }

  // ----------------------------------------- what a set of records says of a key

  predicate Names(record: Record, scope: ConfigScope, key: string) {
    record.scope == ScopeName(scope) && record.key == key
  }

  ghost predicate IsTop(records: set<Record>, scope: ConfigScope, key: string, top: Record) {
    && top in records && Names(top, scope, key)
    && forall r | r in records && Names(r, scope, key) :: r.version <= top.version
  }

  // The record of greatest version for this key decodes to the in-memory entry; a tombstone, or
  // no record at all, stands for its absence.
  ghost predicate Tells(records: set<Record>, scope: ConfigScope, key: string, entry: Option<(string, nat)>) {
    || (entry.None? && forall r | r in records :: !Names(r, scope, key))
    || (exists top :: IsTop(records, scope, key, top) && TopTells(top, entry))
  }

  ghost predicate TopTells(top: Record, entry: Option<(string, nat)>) {
    match entry
    case None => DecodeConfigValue(top.valueJson) == None
    case Some((value, version)) => DecodeConfigValue(top.valueJson) == Some(value) && top.version == version
  }

  ghost predicate VersionsIdentify(records: set<Record>) {
    forall a, b | a in records && b in records && a.version == b.version :: a == b
  }

  // Records and memory agree on every key; no version is beyond the counter or used twice.
  ghost predicate Agreement(inner: Inner, records: set<Record>) {
    && (forall r | r in records :: r.version <= inner.globalVersion)
    && VersionsIdentify(records)
    && (forall scope, key :: Tells(records, scope, key, InnerGet(inner, scope, key)))
  }

  lemma SetKeepsAgreement(inner: Inner, records: set<Record>, scope: ConfigScope, key: string, value: string)
    requires Agreement(inner, records) && inner.globalVersion < I64_MAX
    ensures var inner' := InnerSet(inner, scope, key, value);
            Agreement(inner', records + {SetRecord(scope, key, value, inner'.globalVersion)})
  {
    var inner' := InnerSet(inner, scope, key, value);
    var record := SetRecord(scope, key, value, inner'.globalVersion);
    var records' := records + {record};
    EncodeRoundTrips(value);
    forall scope2, key2 ensures Tells(records', scope2, key2, InnerGet(inner', scope2, key2)) {
      ScopeNameIsInjective(scope, scope2);
      if scope2 == scope && key2 == key {
        assert IsTop(records', scope2, key2, record);
      } else {
        OtherKeysAreUntouched(records, record, scope2, key2, InnerGet(inner, scope2, key2));
      }
    }
  }

  lemma OtherKeysAreUntouched(
    records: set<Record>, added: Record, scope: ConfigScope, key: string, entry: Option<(string, nat)>)
    requires Tells(records, scope, key, entry) && !Names(added, scope, key)
    ensures Tells(records + {added}, scope, key, entry)
  {
    if top :| IsTop(records, scope, key, top) && TopTells(top, entry) {
      assert IsTop(records + {added}, scope, key, top);
    }
  }

  // `existed` is whatever an earlier, unlocked read reported.
  lemma DeleteKeepsAgreement(inner: Inner, records: set<Record>, scope: ConfigScope, key: string, existed: bool)
    requires Agreement(inner, records) && inner.globalVersion < I64_MAX
    ensures var (inner', removed) := InnerDelete(inner, scope, key);
            Agreement(inner', if removed || existed then records + {Tombstone(scope, key, inner'.globalVersion)}
                              else records)
  {
    var (inner', removed) := InnerDelete(inner, scope, key);
    var record := Tombstone(scope, key, inner'.globalVersion);
    var records' := if removed || existed then records + {record} else records;
    forall scope2, key2 ensures Tells(records', scope2, key2, InnerGet(inner', scope2, key2)) {
      ScopeNameIsInjective(scope, scope2);
      assert Tells(records, scope2, key2, InnerGet(inner, scope2, key2));
      if scope2 == scope && key2 == key {
        assert records' != records ==> IsTop(records', scope2, key2, record);
      } else {
        assert InnerGet(inner', scope2, key2) == InnerGet(inner, scope2, key2);
        if records' != records {
          OtherKeysAreUntouched(records, record, scope2, key2, InnerGet(inner, scope2, key2));
        }
      }
    }
  }

  // ------------------------------------------------ reading the table agrees

  function Contents(table: seq<Record>): set<Record> {
    set r | r in table
  }

  ghost predicate VersionsDistinct(table: seq<Record>) {
    forall i, j | 0 <= i < j < |table| :: table[i].version != table[j].version
  }

  // What the primary key demands.
  ghost predicate KeysDistinct(table: seq<Record>) {
    forall i, j | 0 <= i < j < |table| :: !SameKey(table[i], table[j])
  }

  lemma {:induction false} LatestIsTop(table: seq<Record>, scope: ConfigScope, key: string)
    ensures match Latest(table, ScopeName(scope), key)
            case None => forall r | r in table :: !Names(r, scope, key)
            case Some(top) => IsTop(Contents(table), scope, key, top)
  {
    if table == [] {
    } else {
      var n := |table| - 1;
      LatestIsTop(table[..n], scope, key);
      assert table == table[..n] + [table[n]];
    }
  }

  lemma LatestTells(inner: Inner, table: seq<Record>, scope: ConfigScope, key: string)
    requires Agreement(inner, Contents(table))
    ensures var latest, entry := Latest(table, ScopeName(scope), key), InnerGet(inner, scope, key);
            (latest.None? && entry.None?) || (latest.Some? && TopTells(latest.value, entry))
  {
    LatestIsTop(table, scope, key);
    assert Tells(Contents(table), scope, key, InnerGet(inner, scope, key));
  }

  // Whatever the store answers, memory alone would have answered the same.
  lemma StoredGetIsMemoryGet(
    inner: Inner, table: seq<Record>, events: seq<ChangeEvent>, scope: ConfigScope, key: string)
    requires Agreement(inner, Contents(table))
    ensures Get(Manager(inner, Some(table), events), scope, key) == Get(Manager(inner, None, events), scope, key)
  {
    LatestTells(inner, table, scope, key);
  }

  lemma {:induction false} LatestOfScopeSelects(table: seq<Record>, scope: string, from: seq<Record>)
    requires KeysDistinct(from)
    ensures var found := LatestOfScope(table, scope, from);
            && KeysDistinct(found)
            && forall r :: r in found <==>
                 && r in from && r.scope == scope
                 && Latest(table, scope, r.key).Some? && Latest(table, scope, r.key).value.version == r.version
  {
    hide Latest;
    if from == [] {
    } else {
      LatestOfScopeSelects(table, scope, from[1..]);
      assert from == [from[0]] + from[1..];
    }
  }

  // Among records of distinct keys, a key is collected with the value of its record, unless that
  // is a tombstone or there is none.
  lemma {:induction false} CollectedReads(records: seq<Record>, key: string)
    requires forall i, j | 0 <= i < j < |records| :: records[i].key != records[j].key
    ensures (forall i | 0 <= i < |records| :: records[i].key != key) ==> key !in Collected(records)
    ensures forall i | 0 <= i < |records| && records[i].key == key ::
              var value := DecodeConfigValue(records[i].valueJson);
              (key in Collected(records) <==> value.Some?)
              && (key in Collected(records) ==> Collected(records)[key] == value.value)
  {
    if records == [] {
    } else {
      hide DecodeConfigValue;
      CollectedReads(records[..|records| - 1], key);
    }
  }

  lemma FoundAreTheLatest(table: seq<Record>, scope: ConfigScope)
    requires KeysDistinct(table)
    ensures var name := ScopeName(scope);
            var found := LatestOfScope(table, name, table);
            && (forall r :: r in found <==> r in table && r.scope == name && Latest(table, name, r.key) == Some(r))
            && (forall i, j | 0 <= i < j < |found| :: found[i].key != found[j].key)
  {
    hide Latest;
    var name := ScopeName(scope);
    var found := LatestOfScope(table, name, table);
    LatestOfScopeSelects(table, name, table);
    forall r | r in table && r.scope == name
      ensures r in found <==> Latest(table, name, r.key) == Some(r)
    {
      LatestIsTop(table, scope, r.key);
    }
    forall i, j | 0 <= i < j < |found| ensures found[i].key != found[j].key {
      assert found[i] in found && found[j] in found;
    }
  }

  // A key is collected exactly with the decoded value of its latest record.
  lemma CollectedIsLatestDecoded(table: seq<Record>, scope: ConfigScope, key: string)
    requires KeysDistinct(table)
    ensures var name := ScopeName(scope);
            var collected := Collected(LatestOfScope(table, name, table));
            var latest := Latest(table, name, key);
            var value := if latest.None? then None else DecodeConfigValue(latest.value.valueJson);
            (key in collected <==> value.Some?) && (key in collected ==> collected[key] == value.value)
  {
    FoundAreTheLatest(table, scope);
    var found := LatestOfScope(table, ScopeName(scope), table);
    CollectedReads(found, key);
    LatestIsTop(table, scope, key);
    hide Collected, LatestOfScope, DecodeConfigValue;
    var latest := Latest(table, ScopeName(scope), key);
    if latest.Some? {
      var i :| 0 <= i < |found| && found[i] == latest.value;
    } else {
      forall i | 0 <= i < |found| ensures found[i].key != key {
        assert found[i] in found;
      }
    }
  }

  lemma StoredSnapshotIsMemorySnapshot(inner: Inner, table: seq<Record>, events: seq<ChangeEvent>, scope: ConfigScope)
    requires Agreement(inner, Contents(table)) && VersionsDistinct(table)
    ensures Snapshot(Manager(inner, Some(table), events), scope) == Snapshot(Manager(inner, None, events), scope)
  {
    var stored := Snapshot(Manager(inner, Some(table), events), scope);
    var held := Snapshot(Manager(inner, None, events), scope);
    forall key ensures key in stored <==> key in held
               ensures key in stored ==> stored[key] == held[key]
    {
      LatestTells(inner, table, scope, key);
      CollectedIsLatestDecoded(table, scope, key);
    }
  }

  // -------------------------------------------------------- what each call does

  // A read answers with the stored record of greatest version when the key has one, decoded, and with
  // memory when it has none; so does a version read.
  lemma ReadIs(m: Manager, scope: ConfigScope, key: string)
    ensures if m.store.Some? && exists r :: r in m.store.value && Names(r, scope, key) then
              exists top :: && IsTop(Contents(m.store.value), scope, key, top)
                            && Get(m, scope, key) == DecodeConfigValue(top.valueJson)
                            && GetVersion(m, scope, key) == Some(top.version)
            else if scope in m.inner.scopes && key in m.inner.scopes[scope] then
              && Get(m, scope, key) == Some(m.inner.scopes[scope][key].0)
              && GetVersion(m, scope, key) == Some(m.inner.scopes[scope][key].1)
            else
              Get(m, scope, key) == None && GetVersion(m, scope, key) == None
  {
    hide DecodeConfigValue;
    if m.store.Some? {
      LatestIsTop(m.store.value, scope, key);
    }
  }

  // A snapshot holds what the reads of its scope answer; with a store, only where a record is stored.
  lemma SnapshotIsTheReads(m: Manager, scope: ConfigScope, key: string)
    requires m.store.Some? ==> KeysDistinct(m.store.value)
    ensures var entries, value := Snapshot(m, scope), Get(m, scope, key);
            && (key in entries
                <==> value.Some? && (m.store.Some? ==> exists r :: r in m.store.value && Names(r, scope, key)))
            && (key in entries ==> value == Some(entries[key]))
  {
    if m.store.Some? {
      CollectedIsLatestDecoded(m.store.value, scope, key);
      LatestIsTop(m.store.value, scope, key);
    }
  }

  // What is written under this name, version and text: one more row, unless its key is taken.
  ghost predicate Writes(
    before: Option<seq<Record>>, after: Option<seq<Record>>, scope: ConfigScope, key: string, version: nat,
    valueJson: string)
  {
    var name := if scope.Device? then "device" else if scope.Agent? then "agent" else "app:" + scope.appId;
    var stored := if version < 0x8000_0000_0000_0000 then version else 0x7FFF_FFFF_FFFF_FFFF;
    if before.None? then after.None?
    else if exists r :: r in before.value && r.scope == name && r.key == key && r.version == stored then after == before
    else after == Some(before.value + [Record(name, key, stored, valueJson)])
  }

  // The next version is used, and the key alone changes in memory.
  ghost predicate Remembers(
    before: Inner, after: Inner, scope: ConfigScope, key: string, entry: Option<(string, nat)>)
  {
    && after.globalVersion == before.globalVersion + 1
    && InnerGet(after, scope, key) == entry
    && forall s, k | (s, k) != (scope, key) :: InnerGet(after, s, k) == InnerGet(before, s, k)
  }

  lemma SetDoes(m: Manager, scope: ConfigScope, key: string, value: string)
    ensures var after, version := Set(m, scope, key, value), m.inner.globalVersion + 1;
            && Remembers(m.inner, after.inner, scope, key, Some((value, version)))
            && Writes(m.store, after.store, scope, key, version, Encode(value))
            && after.events == m.events + [ChangeEvent(scope, key, Some(value), version)]
  {
    hide Encode;
    if m.store.Some? {
      InsertedUnlessTaken(m.store.value, SetRecord(scope, key, value, m.inner.globalVersion + 1));
    }
  }

  lemma InsertedUnlessTaken(table: seq<Record>, record: Record)
    ensures (exists i | 0 <= i < |table| :: SameKey(table[i], record)) <==> exists r :: r in table && SameKey(r, record)
  {
    if r :| r in table && SameKey(r, record) {
      var i :| 0 <= i < |table| && table[i] == r;
      assert SameKey(table[i], record);
    }
  }

  // A delete reports true exactly when the key was read before or memory held it; it then writes a
  // tombstone and announces it. The version is used up in any case.
  lemma DeleteDoes(m: Manager, scope: ConfigScope, key: string)
    ensures var (after, deleted) := Delete(m, scope, key);
            var version := m.inner.globalVersion + 1;
            && (deleted <==> Get(m, scope, key).Some? || InnerGet(m.inner, scope, key).Some?)
            && Remembers(m.inner, after.inner, scope, key, None)
            && (if deleted then
                  && Writes(m.store, after.store, scope, key, version, "null")
                  && after.events == m.events + [ChangeEvent(scope, key, None, version)]
                else after.store == m.store && after.events == m.events)
  {
    hide DecodeConfigValue, Latest, Get;
    if m.store.Some? {
      InsertedUnlessTaken(m.store.value, Tombstone(scope, key, m.inner.globalVersion + 1));
    }
  }

  // Without a store, or where memory and store agree, it reports true exactly when the key was read.
  lemma DeletedIffReadBefore(m: Manager, scope: ConfigScope, key: string)
    requires m.store.None? || Agreement(m.inner, Contents(m.store.value))
    ensures Delete(m, scope, key).1 <==> Get(m, scope, key).Some?
  {
    if m.store.Some? {
      LatestTells(m.inner, m.store.value, scope, key);
    }
  }

  // A stored text that is no JSON string, such as a number, is served as it stands.
  lemma ForeignTextIsServedAsItIs(text: string)
    requires text != "null" && SkipSpace(text) != "" && SkipSpace(text)[0] != '\"'
    ensures DecodeConfigValue(text) == Some(text)
  {
  }

  // ------------------------------------------------------------- sequential use

  datatype Operation =
    | OpSet(scope: ConfigScope, key: string, value: string)
    | OpDelete(scope: ConfigScope, key: string)
    | OpGet(scope: ConfigScope, key: string)
    | OpSnapshot(scope: ConfigScope)
    | OpGlobalVersion

  datatype Reply =
    | VersionReply(version: nat)
    | DeletedReply(deleted: bool)
    | ValueReply(value: Option<string>)
    | SnapshotReply(entries: map<string, string>)

  function Perform(m: Manager, op: Operation): (Manager, Reply) {
    match op
    case OpSet(scope, key, value) => var m' := Set(m, scope, key, value); (m', VersionReply(m'.inner.globalVersion))
    case OpDelete(scope, key) => var (m', deleted) := Delete(m, scope, key); (m', DeletedReply(deleted))
    case OpGet(scope, key) => (m, ValueReply(Get(m, scope, key)))
    case OpSnapshot(scope) => (m, SnapshotReply(Snapshot(m, scope)))
    case OpGlobalVersion => (m, VersionReply(m.inner.globalVersion))
  }

  function Replies(m: Manager, ops: seq<Operation>): seq<Reply>
    decreases |ops|
  {
    if ops == [] then []
    else
      var (m', reply) := Perform(m, ops[0]);
      [reply] + Replies(m', ops[1..])
  }

  // A store-backed manager and the store-less manager with the same memory.
  ghost predicate Paired(backed: Manager, plain: Manager) {
    && backed.store.Some? && plain.store.None? && backed.inner == plain.inner && backed.events == plain.events
    && Agreement(backed.inner, Contents(backed.store.value)) && VersionsDistinct(backed.store.value)
  }

  lemma NewVersionIsInserted(table: seq<Record>, record: Record)
    requires VersionsDistinct(table) && forall r | r in table :: r.version < record.version
    ensures Inserted(table, record) == table + [record]
    ensures Contents(table + [record]) == Contents(table) + {record} && VersionsDistinct(table + [record])
  {
  }

  lemma OnlyOlderVersions(inner: Inner, table: seq<Record>)
    requires Agreement(inner, Contents(table))
    ensures forall r | r in table :: r.version <= inner.globalVersion
  {
    assert forall r | r in table :: r in Contents(table);
  }

  lemma PerformKeepsPairing(backed: Manager, plain: Manager, op: Operation)
    requires Paired(backed, plain) && backed.inner.globalVersion < I64_MAX
    ensures Perform(backed, op).1 == Perform(plain, op).1
    ensures Paired(Perform(backed, op).0, Perform(plain, op).0)
    ensures Perform(backed, op).0.inner.globalVersion <= backed.inner.globalVersion + 1
  {
    hide Latest, DecodeConfigValue, Encode, Collected, LatestOfScope, Agreement, VersionsDistinct, Inserted;
    var table := backed.store.value;
    OnlyOlderVersions(backed.inner, table);
    match op
    case OpSet(scope, key, value) =>
      SetKeepsAgreement(backed.inner, Contents(table), scope, key, value);
      NewVersionIsInserted(table, SetRecord(scope, key, value, backed.inner.globalVersion + 1));
    case OpDelete(scope, key) =>
      StoredGetIsMemoryGet(backed.inner, table, backed.events, scope, key);
      DeleteKeepsAgreement(backed.inner, Contents(table), scope, key, Get(backed, scope, key).Some?);
      NewVersionIsInserted(table, Tombstone(scope, key, backed.inner.globalVersion + 1));
    case OpGet(scope, key) =>
      StoredGetIsMemoryGet(backed.inner, table, backed.events, scope, key);
    case OpSnapshot(scope) =>
      StoredSnapshotIsMemorySnapshot(backed.inner, table, backed.events, scope);
    case OpGlobalVersion =>
  }

  lemma {:induction false} PairedReplies(backed: Manager, plain: Manager, ops: seq<Operation>)
    requires Paired(backed, plain) && backed.inner.globalVersion + |ops| <= I64_MAX
    ensures Replies(backed, ops) == Replies(plain, ops)
    decreases |ops|
  {
    if ops == [] {
    } else {
      PerformKeepsPairing(backed, plain, ops[0]);
      PairedReplies(Perform(backed, ops[0]).0, Perform(plain, ops[0]).0, ops[1..]);
    }
  }

  // From an empty store, a store-backed manager answers every sequence of operations exactly as
  // a store-less one, as long as the versions fit the table's signed 64-bit column.
  lemma StoreBackedRepliesLikeStoreless(ops: seq<Operation>)
    requires |ops| <= I64_MAX
    ensures Replies(Manager(EMPTY_INNER, Some([]), []), ops) == Replies(Manager(EMPTY_INNER, None, []), ops)
  {
    PairedReplies(Manager(EMPTY_INNER, Some([]), []), Manager(EMPTY_INNER, None, []), ops);
  }

  // The one read that tells them apart: after a delete the table still reports a version. The
  // two agree exactly for keys that are present or were never written.
  lemma GetVersionsAgreeIff(backed: Manager, plain: Manager, scope: ConfigScope, key: string)
    requires Paired(backed, plain)
    ensures GetVersion(backed, scope, key) == GetVersion(plain, scope, key)
       <==> || InnerGet(plain.inner, scope, key).Some?
            || forall r | r in backed.store.value :: !Names(r, scope, key)
  {
    LatestTells(backed.inner, backed.store.value, scope, key);
    LatestIsTop(backed.store.value, scope, key);
  }

  // ---------------------------------------------------------- a reopened store

  // A manager opened on a store that already has records starts counting at 0 again. A set is
  // then served exactly when every stored version of its key is below the new one; otherwise
  // the read answers as if the set had not happened.
  lemma SetIsServedIffItsVersionIsNewest(m: Manager, scope: ConfigScope, key: string, value: string)
    requires m.store.Some?
    ensures var version := StoredVersion(m.inner.globalVersion + 1);
            var newest := forall r | r in m.store.value && Names(r, scope, key) :: r.version < version;
            Get(Set(m, scope, key, value), scope, key) == if newest then Some(value) else Get(m, scope, key)
  {
    hide Latest, DecodeConfigValue, Encode;
    var table := m.store.value;
    var record := SetRecord(scope, key, value, m.inner.globalVersion + 1);
    SetRecordDecodes(scope, key, value, m.inner.globalVersion + 1);
    LatestIsTop(table, scope, key);
    LatestAfterInsert(table, record, scope, key);
  }

  // A delete that reports true leaves the key unread exactly when every stored version of the key is
  // below the tombstone's, or it was unread before; else the read answers as before it. A delete that
  // reports false writes nothing, and there was nothing to read.
  lemma DeleteIsServedIffItsVersionIsNewest(m: Manager, scope: ConfigScope, key: string)
    requires m.store.Some?
    ensures var (after, deleted) := Delete(m, scope, key);
            var next := m.inner.globalVersion + 1;
            var version := if next < 0x8000_0000_0000_0000 then next else 0x7FFF_FFFF_FFFF_FFFF;
            var newest := forall r | r in m.store.value && Names(r, scope, key) :: r.version < version;
            && (!deleted ==> after.store == m.store && Get(m, scope, key) == None && Get(after, scope, key) == None)
            && (deleted && newest ==> Get(after, scope, key) == None)
            && (deleted && !newest ==> Get(after, scope, key) == Get(m, scope, key))
  {
    hide Latest, DecodeConfigValue;
    var table := m.store.value;
    var record := Tombstone(scope, key, m.inner.globalVersion + 1);
    assert DecodeConfigValue(record.valueJson) == None by { NullIsATombstone(); }
    LatestIsTop(table, scope, key);
    LatestAfterInsert(table, record, scope, key);
  }

  lemma NullIsATombstone()
    ensures DecodeConfigValue("null") == None
  {
  }

  lemma SetRecordDecodes(scope: ConfigScope, key: string, value: string, version: nat)
    ensures DecodeConfigValue(SetRecord(scope, key, value, version).valueJson) == Some(value)
  {
    EncodeRoundTrips(value);
  }

  // A new record is the latest of its key exactly when every stored version is below its own.
  lemma LatestAfterInsert(table: seq<Record>, record: Record, scope: ConfigScope, key: string)
    requires Names(record, scope, key)
    ensures var newest := forall r | r in table && Names(r, scope, key) :: r.version < record.version;
            Latest(Inserted(table, record), record.scope, record.key)
            == if newest then Some(record) else Latest(table, record.scope, record.key)
  {
    LatestIsTop(table, scope, key);
    if exists i | 0 <= i < |table| :: SameKey(table[i], record) {
      var i :| 0 <= i < |table| && SameKey(table[i], record);
      assert table[i] in table && Names(table[i], scope, key);
    } else {
      assert (table + [record])[..|table|] == table;
    }
  }

  // ------------------------------------------------------------ concurrent use

  // A call between its phases: its record not yet in the table, or its event not yet sent.
  datatype Task = Persisting(record: Record, event: ChangeEvent) | Broadcasting(event: ChangeEvent)

  datatype Shared = Shared(inner: Inner, table: seq<Record>, tasks: map<nat, Task>, events: seq<ChangeEvent>)

  const INITIAL_SHARED := Shared(EMPTY_INNER, [], map[], [])

  datatype Step =
    | BumpSet(task: nat, scope: ConfigScope, key: string, value: string)
    | BumpDelete(task: nat, scope: ConfigScope, key: string, existed: bool)
    | Persist(task: nat)
    | Broadcast(task: nat)

  // One critical section of one call. `existed` in BumpDelete is what that call's unlocked read
  // reported at some earlier moment, so it may be anything. A step that cannot run does nothing.
  function Next(s: Shared, step: Step): Shared {
    match step
    case BumpSet(task, scope, key, value) =>
      if task in s.tasks then s
      else
        var inner := InnerSet(s.inner, scope, key, value);
        var version := inner.globalVersion;
        s.(inner := inner,
           tasks := s.tasks[task := Persisting(SetRecord(scope, key, value, version),
                                               ChangeEvent(scope, key, Some(value), version))])
    case BumpDelete(task, scope, key, existed) =>
      if task in s.tasks then s
      else
        var (inner, removed) := InnerDelete(s.inner, scope, key);
        var version := inner.globalVersion;
        if removed || existed then
          s.(inner := inner,
             tasks := s.tasks[task := Persisting(Tombstone(scope, key, version),
                                                 ChangeEvent(scope, key, None, version))])
        else s.(inner := inner)
    case Persist(task) =>
      if task in s.tasks && s.tasks[task].Persisting? then
        s.(table := Inserted(s.table, s.tasks[task].record),
           tasks := s.tasks[task := Broadcasting(s.tasks[task].event)])
      else s
    case Broadcast(task) =>
      if task in s.tasks && s.tasks[task].Broadcasting? then
        s.(events := s.events + [s.tasks[task].event], tasks := s.tasks - {task})
      else s
  }

  function Run(s: Shared, steps: seq<Step>): Shared
    decreases |steps|
  {
    if steps == [] then s else Run(Next(s, steps[0]), steps[1..])
  }

  // A set or a delete that nothing interrupts is its bump, persist and broadcast in turn.
  lemma SetIsItsThreeSteps(s: Shared, task: nat, scope: ConfigScope, key: string, value: string)
    requires task !in s.tasks
    ensures var m := Set(Manager(s.inner, Some(s.table), s.events), scope, key, value);
            Run(s, [BumpSet(task, scope, key, value), Persist(task), Broadcast(task)])
            == Shared(m.inner, m.store.value, s.tasks, m.events)
  {
    hide InnerSet, SetRecord, Inserted;
    ThreeSteps(s, BumpSet(task, scope, key, value), task);
    assert s.tasks - {task} == s.tasks;
  }

  lemma DeleteIsItsThreeSteps(s: Shared, task: nat, scope: ConfigScope, key: string)
    requires task !in s.tasks
    ensures var before := Manager(s.inner, Some(s.table), s.events);
            var m := Delete(before, scope, key).0;
            Run(s, [BumpDelete(task, scope, key, Get(before, scope, key).Some?), Persist(task), Broadcast(task)])
            == Shared(m.inner, m.store.value, s.tasks, m.events)
  {
    hide InnerDelete, Tombstone, Inserted, Get;
    var existed := Get(Manager(s.inner, Some(s.table), s.events), scope, key).Some?;
    ThreeSteps(s, BumpDelete(task, scope, key, existed), task);
    assert s.tasks - {task} == s.tasks;
  }

  lemma ThreeSteps(s: Shared, bump: Step, task: nat)
    ensures Run(s, [bump, Persist(task), Broadcast(task)]) == Next(Next(Next(s, bump), Persist(task)), Broadcast(task))
  {
    hide Next;
    assert [bump, Persist(task), Broadcast(task)][1..] == [Persist(task), Broadcast(task)];
    assert [Persist(task), Broadcast(task)][1..] == [Broadcast(task)] && [Broadcast(task)][1..] == [];
    var s1 := Next(s, bump);
    var s2 := Next(s1, Persist(task));
    assert Run(s2, [Broadcast(task)]) == Next(s2, Broadcast(task));
    assert Run(s1, [Persist(task), Broadcast(task)]) == Next(s2, Broadcast(task));
  }

  ghost function PendingRecords(s: Shared): set<Record> {
    set task | task in s.tasks && s.tasks[task].Persisting? :: s.tasks[task].record
  }

  ghost function AllRecords(s: Shared): set<Record> {
    Contents(s.table) + PendingRecords(s)
  }

  // No two calls wait with the same version, and none waits with a stored one.
  ghost predicate PendingVersionsAreNew(s: Shared) {
    && (forall t, u | t in s.tasks && u in s.tasks && t != u && s.tasks[t].Persisting? && s.tasks[u].Persisting? ::
          s.tasks[t].record.version != s.tasks[u].record.version)
    && (forall t, r | t in s.tasks && s.tasks[t].Persisting? && r in s.table :: s.tasks[t].record.version != r.version)
  }

  // In every reachable state the highest-version record per key, stored or pending, decodes to
  // the in-memory entry.
  ghost predicate SharedAgreement(s: Shared) {
    Agreement(s.inner, AllRecords(s)) && VersionsDistinct(s.table) && PendingVersionsAreNew(s)
  }

  lemma BumpAddsRecord(s: Shared, task: nat, record: Record, event: ChangeEvent, inner: Inner)
    requires SharedAgreement(s) && task !in s.tasks
    requires record.version > s.inner.globalVersion
    requires Agreement(inner, AllRecords(s) + {record})
    ensures SharedAgreement(s.(inner := inner, tasks := s.tasks[task := Persisting(record, event)]))
  {
    var s' := s.(inner := inner, tasks := s.tasks[task := Persisting(record, event)]);
    assert PendingRecords(s') == PendingRecords(s) + {record} by {
      assert s'.tasks[task].record == record;
      assert forall t | t in s.tasks :: s'.tasks[t] == s.tasks[t];
    }
    assert AllRecords(s') == AllRecords(s) + {record};
    assert forall t | t in s.tasks && s.tasks[t].Persisting? :: s.tasks[t].record in AllRecords(s);
    assert forall r | r in s.table :: r in AllRecords(s);
  }

  lemma PersistMovesRecord(s: Shared, task: nat)
    requires SharedAgreement(s) && task in s.tasks && s.tasks[task].Persisting?
    ensures SharedAgreement(Next(s, Persist(task)))
  {
    var record := s.tasks[task].record;
    var s' := Next(s, Persist(task));
    assert s'.table == s.table + [record];
    assert PendingRecords(s') == PendingRecords(s) - {record} by {
      forall t | t in s.tasks && t != task && s.tasks[t].Persisting?
        ensures s'.tasks[t] == s.tasks[t] && s.tasks[t].record != record {}
    }
    assert record in PendingRecords(s);
    assert AllRecords(s') == AllRecords(s);
  }

  lemma NextKeepsAgreement(s: Shared, step: Step)
    requires SharedAgreement(s) && s.inner.globalVersion < I64_MAX
    ensures SharedAgreement(Next(s, step))
    ensures Next(s, step).inner.globalVersion <= s.inner.globalVersion + 1
  {
    match step
    case BumpSet(task, scope, key, value) =>
      if task !in s.tasks {
        SetKeepsAgreement(s.inner, AllRecords(s), scope, key, value);
        var inner := InnerSet(s.inner, scope, key, value);
        BumpAddsRecord(s, task, SetRecord(scope, key, value, inner.globalVersion),
                       ChangeEvent(scope, key, Some(value), inner.globalVersion), inner);
      }
    case BumpDelete(task, scope, key, existed) =>
      if task !in s.tasks {
        DeleteKeepsAgreement(s.inner, AllRecords(s), scope, key, existed);
        var (inner, removed) := InnerDelete(s.inner, scope, key);
        if removed || existed {
          BumpAddsRecord(s, task, Tombstone(scope, key, inner.globalVersion),
                         ChangeEvent(scope, key, None, inner.globalVersion), inner);
        } else {
          assert AllRecords(s.(inner := inner)) == AllRecords(s);
        }
      }
    case Persist(task) =>
      if task in s.tasks && s.tasks[task].Persisting? {
        PersistMovesRecord(s, task);
      }
    case Broadcast(task) =>
      var s' := Next(s, step);
      assert forall t | t in s.tasks && s.tasks[t].Persisting? :: t in s'.tasks && s'.tasks[t] == s.tasks[t];
      assert PendingRecords(s') == PendingRecords(s);
      assert AllRecords(s') == AllRecords(s);
  }

  lemma {:induction false} RunKeepsAgreement(s: Shared, steps: seq<Step>)
    requires SharedAgreement(s) && s.inner.globalVersion + |steps| <= I64_MAX
    ensures SharedAgreement(Run(s, steps))
    decreases |steps|
  {
    if steps == [] {
    } else {
      NextKeepsAgreement(s, steps[0]);
      RunKeepsAgreement(Next(s, steps[0]), steps[1..]);
    }
  }

  // Under every interleaving of sets and deletes: the top record per key, stored or pending,
  // tells the in-memory entry; and whenever nothing is waiting to be persisted, reads through
  // the store and reads from memory agree on every key and every scope.
  lemma StoreAndMemoryAgreeWhenNothingIsPending(steps: seq<Step>)
    requires |steps| <= I64_MAX
    ensures var s := Run(INITIAL_SHARED, steps);
            && (forall scope, key :: Tells(AllRecords(s), scope, key, InnerGet(s.inner, scope, key)))
            && (PendingRecords(s) == {} ==>
                  var backed, plain := Manager(s.inner, Some(s.table), s.events), Manager(s.inner, None, s.events);
                  && (forall scope, key :: Get(backed, scope, key) == Get(plain, scope, key))
                  && (forall scope :: Snapshot(backed, scope) == Snapshot(plain, scope)))
  {
    hide Get, Snapshot, Run, Latest, DecodeConfigValue;
    assert AllRecords(INITIAL_SHARED) == {};
    RunKeepsAgreement(INITIAL_SHARED, steps);
    var s := Run(INITIAL_SHARED, steps);
    if PendingRecords(s) == {} {
      assert AllRecords(s) == Contents(s.table);
      forall scope, key
        ensures Get(Manager(s.inner, Some(s.table), s.events), scope, key)
             == Get(Manager(s.inner, None, s.events), scope, key)
      {
        StoredGetIsMemoryGet(s.inner, s.table, s.events, scope, key);
      }
      forall scope
        ensures Snapshot(Manager(s.inner, Some(s.table), s.events), scope)
             == Snapshot(Manager(s.inner, None, s.events), scope)
      {
        StoredSnapshotIsMemorySnapshot(s.inner, s.table, s.events, scope);
      }
    }
  }

  // ------------------------------------------------------------- announcements

  predicate Announces(event: ChangeEvent, record: Record) {
    && ScopeName(event.scope) == record.scope && event.key == record.key
    && StoredVersion(event.version) == record.version && event.value == DecodeConfigValue(record.valueJson)
  }

  ghost function Sending(s: Shared): set<nat> {
    set task | task in s.tasks && s.tasks[task].Broadcasting?
  }

  ghost predicate Backed(s: Shared, event: ChangeEvent) {
    exists r :: r in s.table && Announces(event, r)
  }

  ghost predicate Announced(s: Shared, record: Record) {
    || (exists event :: event in s.events && Announces(event, record))
    || (exists task :: task in Sending(s) && Announces(s.tasks[task].event, record))
  }

  // One event, sent or about to be, for each stored record.
  ghost predicate EventsFollowTable(s: Shared) {
    && |s.events| + |Sending(s)| == |s.table|
    && (forall t | t in s.tasks && s.tasks[t].Persisting? :: Announces(s.tasks[t].event, s.tasks[t].record))
    && (forall r | r in s.table :: Announced(s, r))
    && (forall event | event in s.events :: Backed(s, event))
    && (forall t | t in Sending(s) :: Backed(s, s.tasks[t].event))
  }

  lemma PersistKeepsEvents(s: Shared, task: nat)
    requires EventsFollowTable(s) && task in s.tasks && s.tasks[task].Persisting?
    requires forall r | r in s.table :: r.version != s.tasks[task].record.version
    ensures EventsFollowTable(Next(s, Persist(task)))
  {
    hide Announces, Backed, Announced;
    var s', record := Next(s, Persist(task)), s.tasks[task].record;
    assert s'.table == s.table + [record];
    assert s'.tasks == s.tasks[task := Broadcasting(s.tasks[task].event)];
    assert task !in Sending(s) && Sending(s') == Sending(s) + {task};
    hide Next;
    forall r | r in s'.table ensures Announced(s', r) {
      if r == record {
        SentIsAnnounced(s', task, record);
      } else {
        AnnouncementCarriesOver(s, s', r);
      }
    }
    BackedByIts(s', record, s.tasks[task].event);
    forall event | Backed(s, event) ensures Backed(s', event) {
      BackingCarriesOver(s, s', event);
    }
  }

  lemma SentIsAnnounced(s: Shared, task: nat, r: Record)
    requires task in Sending(s) && Announces(s.tasks[task].event, r)
    ensures Announced(s, r)
  {
  }

  lemma BackedByIts(s: Shared, r: Record, event: ChangeEvent)
    requires r in s.table && Announces(event, r)
    ensures Backed(s, event)
  {
  }

  lemma BackingCarriesOver(s: Shared, s': Shared, event: ChangeEvent)
    requires Backed(s, event) && s.table <= s'.table
    ensures Backed(s', event)
  {
    var r :| r in s.table && Announces(event, r);
    assert r in s'.table;
  }

  lemma AnnouncementCarriesOver(s: Shared, s': Shared, r: Record)
    requires Announced(s, r) && s'.events == s.events
    requires forall t | t in Sending(s) :: t in Sending(s') && s'.tasks[t] == s.tasks[t]
    ensures Announced(s', r)
  {
  }

  lemma BroadcastKeepsEvents(s: Shared, task: nat)
    requires EventsFollowTable(s) && task in Sending(s)
    ensures EventsFollowTable(Next(s, Broadcast(task)))
  {
    hide Announces, Backed, Announced;
    var s', event := Next(s, Broadcast(task)), s.tasks[task].event;
    assert s'.events == s.events + [event] && s'.tasks == s.tasks - {task} && s'.table == s.table;
    assert Sending(s') == Sending(s) - {task};
    hide Next;
    forall r | r in s'.table ensures Announced(s', r) {
      SendingKeepsAnnounced(s, s', task, r);
    }
    forall e | Backed(s, e) ensures Backed(s', e) {
      BackingCarriesOver(s, s', e);
    }
  }

  lemma SendingKeepsAnnounced(s: Shared, s': Shared, task: nat, r: Record)
    requires Announced(s, r) && task in Sending(s) && s'.tasks == s.tasks - {task}
    requires s'.events == s.events + [s.tasks[task].event]
    ensures Announced(s', r)
  {
    assert s'.events[|s.events|] == s.tasks[task].event;
    if e :| e in s.events && Announces(e, r) {
      assert e in s'.events;
    } else {
      var t :| t in Sending(s) && Announces(s.tasks[t].event, r);
      assert t != task ==> t in Sending(s') && s'.tasks[t] == s.tasks[t];
    }
  }

  lemma NextKeepsEvents(s: Shared, step: Step)
    requires SharedAgreement(s) && EventsFollowTable(s) && s.inner.globalVersion < I64_MAX
    ensures EventsFollowTable(Next(s, step))
  {
    var s' := Next(s, step);
    match step
    case Persist(task) =>
      if task in s.tasks && s.tasks[task].Persisting? {
        PersistKeepsEvents(s, task);
      }
    case Broadcast(task) =>
      if task in Sending(s) {
        BroadcastKeepsEvents(s, task);
      }
    case BumpSet(task, scope, key, value) =>
      EncodeRoundTrips(value);
      BumpKeepsEvents(s, s', task);
    case BumpDelete(task, scope, key, existed) =>
      BumpKeepsEvents(s, s', task);
  }

  lemma BumpKeepsEvents(s: Shared, s': Shared, task: nat)
    requires EventsFollowTable(s) && s'.table == s.table && s'.events == s.events
    requires s'.tasks == s.tasks
          || (task !in s.tasks && task in s'.tasks && s'.tasks == s.tasks[task := s'.tasks[task]]
              && s'.tasks[task].Persisting? && Announces(s'.tasks[task].event, s'.tasks[task].record))
    ensures EventsFollowTable(s')
  {
    assert Sending(s') == Sending(s);
    assert forall t | t in Sending(s) :: s'.tasks[t] == s.tasks[t];
    forall r | r in s'.table ensures Announced(s', r) {
      assert Announced(s, r);
    }
    assert forall e | Backed(s, e) :: Backed(s', e);
  }

  lemma {:induction false} RunKeepsEvents(s: Shared, steps: seq<Step>)
    requires SharedAgreement(s) && EventsFollowTable(s) && s.inner.globalVersion + |steps| <= I64_MAX
    ensures EventsFollowTable(Run(s, steps))
    decreases |steps|
  {
    if steps == [] {
    } else {
      NextKeepsAgreement(s, steps[0]);
      NextKeepsEvents(s, steps[0]);
      RunKeepsEvents(Next(s, steps[0]), steps[1..]);
    }
  }

  lemma InitiallyAnnounced()
    ensures SharedAgreement(INITIAL_SHARED) && EventsFollowTable(INITIAL_SHARED)
  {
    assert AllRecords(INITIAL_SHARED) == {} && Sending(INITIAL_SHARED) == {};
  }

  // Once every call has finished, subscribers have been sent one event per stored record, each
  // with its scope, key, version and decoded value.
  lemma EveryChangeIsAnnouncedOnce(steps: seq<Step>)
    requires |steps| <= I64_MAX
    ensures var s := Run(INITIAL_SHARED, steps);
            s.tasks == map[] ==>
              && |s.events| == |s.table|
              && (forall r | r in s.table :: exists event :: event in s.events && Announces(event, r))
              && (forall event | event in s.events :: exists r :: r in s.table && Announces(event, r))
              && VersionsDistinct(s.table)
  {
    InitiallyAnnounced();
    hide Announces, Run, Agreement, PendingVersionsAreNew, InnerGet;
    RunKeepsAgreement(INITIAL_SHARED, steps);
    RunKeepsEvents(INITIAL_SHARED, steps);
    var s := Run(INITIAL_SHARED, steps);
    if s.tasks == map[] {
      assert Sending(s) == {};
      assert forall r | r in s.table :: Announced(s, r);
      assert forall event | event in s.events :: Backed(s, event);
    }
  }
}
