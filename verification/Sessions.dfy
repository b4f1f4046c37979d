// Application sessions: the app_sessions table of crates/agent-store/src/lib.rs and its use by
// validate_session, register_app, heartbeat and unregister_app in src/app_platform.rs.
module Sessions {
  import opened Wrappers
  import opened SecurityTypes
  import opened AuditChain

  // Milliseconds since the epoch.
  type Ms = int

  // What an application says of itself when it registers.
  datatype AppInfo = AppInfo(name: string, version: string, capabilities: seq<string>, metadata: map<string, string>)

  datatype SessionRecord = SessionRecord(
    info: AppInfo, deviceId: string, registeredAt: Ms, tokenHash: string, expiresAt: Ms, lastHeartbeat: Ms,
    revoked: bool)

  // The device and its settings.
  datatype Platform = Platform(digest: Digest, deviceId: string, duration: nat)

  type Table = map<string, SessionRecord>

  datatype SessionError = UnknownApp | SessionRevoked | InvalidToken | SessionExpired

  function HashToken(p: Platform, token: string): string {
    Hex((p.digest)(token))
  }

  function Validated(p: Platform, table: Table, appId: string, token: string, now: Ms): Result<(), SessionError> {
    if appId !in table then Err(UnknownApp)
    else
      var rec := table[appId];
      if rec.revoked then Err(SessionRevoked)
      else if rec.tokenHash != HashToken(p, token) then Err(InvalidToken)
      else if now > rec.expiresAt then Err(SessionExpired)
      else Ok(())
  }

  // ON CONFLICT(app_id) DO UPDATE: a reused id keeps its name, device and first registration, and
  // gets everything else anew, its revocation cleared.
  function Upserted(p: Platform, table: Table, appId: string, info: AppInfo, token: string, now: Ms): Table {
    var row := SessionRecord(info, p.deviceId, now, HashToken(p, token), now + p.duration, now, false);
    table[appId :=
      if appId in table then
        row.(info := info.(name := table[appId].info.name), deviceId := table[appId].deviceId,
             registeredAt := table[appId].registeredAt)
      else row]
  }

  function Touched(p: Platform, table: Table, appId: string, now: Ms): Table {
    if appId in table && !table[appId].revoked then
      table[appId := table[appId].(expiresAt := now + p.duration, lastHeartbeat := now)]
    else table
  }

  function Revoked(table: Table, appId: string): Table {
    if appId in table && !table[appId].revoked then table[appId := table[appId].(revoked := true)] else table
  }

  // The role an application acts in, read from its metadata.
  function RoleOf(metadata: map<string, string>): Role {
    if "role" !in metadata then Operator
    else if metadata["role"] == "admin" then Admin
    else if metadata["role"] == "readonly" then Readonly
    else Operator
  }

  class AppSessions {
    const platform: Platform
    var table: Table

    constructor (platform: Platform)
      ensures this.platform == platform && table == map[]
    {
      this.platform := platform;
      table := map[];
    }

    method ValidateSession(appId: string, token: string, now: Ms) returns (r: Result<(), SessionError>)
      ensures r == Validated(platform, table, appId, token, now)
    {
      if appId !in table {
        return Err(UnknownApp);
      }
      var rec := table[appId];
      if rec.revoked {
        return Err(SessionRevoked);
      }
      if rec.tokenHash != HashToken(platform, token) {
        return Err(InvalidToken);
      }
      if now > rec.expiresAt {
        return Err(SessionExpired);
      }
      return Ok(());
    }

    method AppRole(appId: string) returns (r: Result<Role, SessionError>)
      ensures r == if appId in table then Ok(RoleOf(table[appId].info.metadata)) else Err(UnknownApp)
      ensures r == Ok(Admin) <==> appId in table && ("role", "admin") in table[appId].info.metadata.Items
      ensures r == Ok(Readonly) <==> appId in table && ("role", "readonly") in table[appId].info.metadata.Items
    {
      if appId !in table {
        return Err(UnknownApp);
      }
      return Ok(RoleOf(table[appId].info.metadata));
    }

    method UpsertAppSession(appId: string, info: AppInfo, token: string, now: Ms)
      modifies this
      ensures table == Upserted(platform, old(table), appId, info, token, now)
    {
      var row := SessionRecord(
        info, platform.deviceId, now, HashToken(platform, token), now + platform.duration, now, false);
      if appId in table {
        var kept := table[appId];
        row := row.(info := row.info.(name := kept.info.name), deviceId := kept.deviceId,
                    registeredAt := kept.registeredAt);
      }
      table := table[appId := row];
    }

    method TouchAppSession(appId: string, now: Ms) returns (changed: bool)
      modifies this
      ensures table == Touched(platform, old(table), appId, now)
      ensures changed == (appId in old(table) && !old(table)[appId].revoked)
    {
      changed := appId in table && !table[appId].revoked;
      if changed {
        table := table[appId := table[appId].(expiresAt := now + platform.duration, lastHeartbeat := now)];
      }
    }

    method RevokeAppSession(appId: string) returns (changed: bool)
      modifies this
      ensures table == Revoked(old(table), appId)
      ensures changed == (appId in old(table) && !old(table)[appId].revoked)
    {
      changed := appId in table && !table[appId].revoked;
      if changed {
        table := table[appId := table[appId].(revoked := true)];
      }
    }

    // Register, heartbeat and unregister as whole calls.
    method Serve(request: Request) returns (r: Result<(), SessionError>)
      modifies this
      ensures (table, r) == Served(platform, old(table), request)
    {
      match request
      case Register(appId, info, token, now) =>
        UpsertAppSession(appId, info, token, now);
        r := Ok(());
      case Heartbeat(appId, token, now) =>
        r := ValidateSession(appId, token, now);
        if r.Ok? {
          var _ := TouchAppSession(appId, now);
        }
      case Unregister(appId, token, now) =>
        r := ValidateSession(appId, token, now);
        if r.Ok? {
          var _ := RevokeAppSession(appId);
        }
      case Use(appId, token, now) =>
        r := ValidateSession(appId, token, now);
    }
  }

  // ------------------------------------------------------ every interleaving

  // The table accesses of all calls, in any order: a touch or a revocation belongs to a call
  // validated at some earlier moment, or to none at all.
  datatype Access =
    | DoRegister(appId: string, info: AppInfo, token: string, now: Ms)
    | DoValidate(appId: string, token: string, now: Ms)
    | DoTouch(appId: string, now: Ms)
    | DoRevoke(appId: string)

  function AfterAccess(p: Platform, table: Table, access: Access): Table {
    match access
    case DoRegister(appId, info, token, now) => Upserted(p, table, appId, info, token, now)
    case DoValidate(_, _, _) => table
    case DoTouch(appId, now) => Touched(p, table, appId, now)
    case DoRevoke(appId) => Revoked(table, appId)
  }

  function AfterAccesses(p: Platform, table: Table, accesses: seq<Access>): Table
    decreases |accesses|
  {
    if accesses == [] then table
    else AfterAccesses(p, AfterAccess(p, table, accesses[0]), accesses[1..])
  }

  lemma {:induction false} RevocationStays(
    p: Platform, table: Table, accesses: seq<Access>, appId: string)
    requires appId in table && table[appId].revoked
    requires forall access | access in accesses :: access.DoRegister? ==> access.appId != appId
    ensures var table' := AfterAccesses(p, table, accesses);
            appId in table' && table'[appId].revoked
    decreases |accesses|
  {
    if accesses == [] {
    } else {
      assert accesses[0] in accesses;
      RevocationStays(p, AfterAccess(p, table, accesses[0]), accesses[1..], appId);
    }
  }

  // From whatever table a session is revoked in, it validates again only after its app id has
  // been registered anew. With ids that are never reused, no later validation succeeds, whatever
  // calls were under way.
  lemma RevokedSessionsStayInvalid(
    p: Platform, table: Table, appId: string, after: seq<Access>, token: string, now: Ms)
    requires appId in table
    requires Validated(p, AfterAccesses(p, table, [DoRevoke(appId)] + after), appId, token, now).Ok?
    ensures exists access :: access in after && access.DoRegister? && access.appId == appId
  {
    assert ([DoRevoke(appId)] + after)[1..] == after;
    if forall access | access in after :: access.DoRegister? ==> access.appId != appId {
      RevocationStays(p, Revoked(table, appId), after, appId);
    }
  }

  lemma {:induction false} AccessesCompose(
    p: Platform, table: Table, a: seq<Access>, b: seq<Access>)
    ensures AfterAccesses(p, table, a + b)
         == AfterAccesses(p, AfterAccesses(p, table, a), b)
    decreases |a|
  {
    if a == [] {
      assert a + b == b;
    } else {
      assert (a + b)[1..] == a[1..] + b;
      AccessesCompose(p, AfterAccess(p, table, a[0]), a[1..], b);
    }
  }

  // ---------------------------------------- what any accesses make of a session

  // The last registration or revocation of an id.
  function LastDecision(accesses: seq<Access>, appId: string): (decision: Option<Access>)
    ensures decision.Some? ==> decision.value.DoRegister? || decision.value.DoRevoke?
  {
    if accesses == [] then None
    else
      var last := accesses[|accesses| - 1];
      if last.appId == appId && (last.DoRegister? || last.DoRevoke?) then Some(last)
      else LastDecision(accesses[..|accesses| - 1], appId)
  }

  function LastRegistration(accesses: seq<Access>, appId: string): (registration: Option<Access>)
    ensures registration.Some? ==> registration.value.DoRegister?
  {
    if accesses == [] then None
    else
      var last := accesses[|accesses| - 1];
      if last.appId == appId && last.DoRegister? then Some(last)
      else LastRegistration(accesses[..|accesses| - 1], appId)
  }

  function FirstRegistration(accesses: seq<Access>, appId: string): (registration: Option<Access>)
    ensures registration.Some? ==> registration.value.DoRegister?
  {
    if accesses == [] then None
    else
      var init, last := accesses[..|accesses| - 1], accesses[|accesses| - 1];
      var first := FirstRegistration(init, appId);
      if first.None? && last.appId == appId && last.DoRegister? then Some(last) else first
  }

  // When it was last registered or touched.
  function LastRenewalTime(accesses: seq<Access>, appId: string): Option<Ms> {
    if accesses == [] then None
    else
      var last := accesses[|accesses| - 1];
      if last.appId == appId && (last.DoRegister? || last.DoTouch?) then Some(last.now)
      else LastRenewalTime(accesses[..|accesses| - 1], appId)
  }

  predicate Live(table: Table, appId: string) {
    appId in table && !table[appId].revoked
  }

  // Live after the accesses, judged from the accesses.
  predicate StaysLive(table: Table, accesses: seq<Access>, appId: string) {
    var decision := LastDecision(accesses, appId);
    if decision.Some? then decision.value.DoRegister? else Live(table, appId)
  }

  lemma AccessesSnoc(p: Platform, table: Table, accesses: seq<Access>)
    requires accesses != []
    ensures var n := |accesses| - 1;
            AfterAccesses(p, table, accesses) == AfterAccess(p, AfterAccesses(p, table, accesses[..n]), accesses[n])
  {
    hide AfterAccess;
    var n := |accesses| - 1;
    assert accesses == accesses[..n] + [accesses[n]];
    AccessesCompose(p, table, accesses[..n], [accesses[n]]);
    assert [accesses[n]][1..] == [];
  }

  // From any table, under any accesses: an id is present and not revoked exactly when its last
  // registration or revocation was a registration, or there was none and it was so before. Its token
  // is the one last registered.
  lemma {:induction false} LiveAfterAccessesIff(p: Platform, table: Table, accesses: seq<Access>, appId: string)
    ensures var after, registered := AfterAccesses(p, table, accesses), LastRegistration(accesses, appId);
            && (Live(after, appId) <==> StaysLive(table, accesses, appId))
            && (appId in after <==> appId in table || registered.Some?)
            && (registered.None? && appId in table ==> after[appId].tokenHash == table[appId].tokenHash)
            && (registered.Some? ==> after[appId].tokenHash == Hex((p.digest)(registered.value.token)))
  {
    if accesses == [] {
    } else {
      hide AfterAccesses, Hex;
      LiveAfterAccessesIff(p, table, accesses[..|accesses| - 1], appId);
      AccessesSnoc(p, table, accesses);
    }
  }

  // A live session expires the duration after its last registration or touch, its last heartbeat;
  // without one, when it was to expire before.
  lemma {:induction false} ExpiryAfterAccesses(p: Platform, table: Table, accesses: seq<Access>, appId: string)
    requires StaysLive(table, accesses, appId)
    ensures var after, renewed := AfterAccesses(p, table, accesses), LastRenewalTime(accesses, appId);
            && appId in after
            && (renewed.None? ==>
                  && appId in table && after[appId].expiresAt == table[appId].expiresAt
                  && after[appId].lastHeartbeat == table[appId].lastHeartbeat)
            && (renewed.Some? ==>
                  && after[appId].expiresAt == renewed.value + p.duration
                  && after[appId].lastHeartbeat == renewed.value)
  {
    LiveAfterAccessesIff(p, table, accesses, appId);
    if accesses == [] {
    } else {
      hide AfterAccesses, HashToken, LastRegistration;
      var init, last := accesses[..|accesses| - 1], accesses[|accesses| - 1];
      AccessesSnoc(p, table, accesses);
      if last.appId == appId && last.DoRegister? {
      } else {
        LiveAfterAccessesIff(p, table, init, appId);
        ExpiryAfterAccesses(p, table, init, appId);
      }
    }
  }

  // The token hashes to the one last registered, or to the one in the table before.
  ghost predicate RightToken(p: Platform, table: Table, accesses: seq<Access>, appId: string, token: string) {
    var registered := LastRegistration(accesses, appId);
    if registered.Some? then (p.digest)(token) == (p.digest)(registered.value.token)
    else appId in table && table[appId].tokenHash == Hex((p.digest)(token))
  }

  // No more than the duration has passed since the last renewal, or the time in the table before.
  ghost predicate InTime(p: Platform, table: Table, accesses: seq<Access>, appId: string, now: Ms) {
    var renewed := LastRenewalTime(accesses, appId);
    if renewed.Some? then now <= renewed.value + p.duration else appId in table && now <= table[appId].expiresAt
  }

  // Exactly when a session is valid after any accesses of any calls, from any table, and what it is
  // refused for otherwise: expired and revoked sessions revive by a late touch or a new registration,
  // and by nothing else.
  lemma ValidAfterAccessesIff(
    p: Platform, table: Table, accesses: seq<Access>, appId: string, token: string, now: Ms)
    ensures var verdict := Validated(p, AfterAccesses(p, table, accesses), appId, token, now);
            var known := appId in table || LastRegistration(accesses, appId).Some?;
            var live := StaysLive(table, accesses, appId);
            var right := RightToken(p, table, accesses, appId, token);
            && (verdict.Ok? <==> live && right && InTime(p, table, accesses, appId, now))
            && (verdict == Err(UnknownApp) <==> !known)
            && (verdict == Err(SessionRevoked) <==> known && !live)
            && (verdict == Err(InvalidToken) <==> live && !right)
            && (verdict == Err(SessionExpired) <==> live && right && !InTime(p, table, accesses, appId, now))
  {
    hide AfterAccesses, Hex;
    LiveAfterAccessesIff(p, table, accesses, appId);
    var registered := LastRegistration(accesses, appId);
    if registered.Some? {
      EqualHashesIff(p, token, registered.value.token);
    }
    if StaysLive(table, accesses, appId) {
      ExpiryAfterAccesses(p, table, accesses, appId);
    }
  }

  lemma EqualHashesIff(p: Platform, a: string, b: string)
    ensures HashToken(p, a) == HashToken(p, b) <==> (p.digest)(a) == (p.digest)(b)
  {
    if HashToken(p, a) == HashToken(p, b) {
      HexIsInjective((p.digest)(a), (p.digest)(b));
    }
  }

  // Where a row comes from: its name and first registration from the first registration of the id,
  // and its device with them, or from the table before; its version, capabilities and metadata, and so
  // the role of the application, from the last one.
  lemma {:induction false} ColumnsAfterAccesses(p: Platform, table: Table, accesses: seq<Access>, appId: string)
    requires appId in table || LastRegistration(accesses, appId).Some?
    ensures var after := AfterAccesses(p, table, accesses);
            var first, registered := FirstRegistration(accesses, appId), LastRegistration(accesses, appId);
            && appId in after && (first.Some? <==> registered.Some?)
            && var row := after[appId];
            && (if appId in table then
                  && row.info.name == table[appId].info.name && row.deviceId == table[appId].deviceId
                  && row.registeredAt == table[appId].registeredAt
                else
                  && row.info.name == first.value.info.name && row.deviceId == p.deviceId
                  && row.registeredAt == first.value.now)
            && row.info == (if registered.Some? then registered.value.info else table[appId].info)
                           .(name := row.info.name)
  {
    if accesses == [] {
    } else {
      hide AfterAccesses, HashToken;
      var init, last := accesses[..|accesses| - 1], accesses[|accesses| - 1];
      AccessesSnoc(p, table, accesses);
      if appId in table || LastRegistration(init, appId).Some? {
        ColumnsAfterAccesses(p, table, init, appId);
      } else {
        LiveAfterAccessesIff(p, table, init, appId);
        NeverRegistered(init, appId);
      }
    }
  }

  lemma {:induction false} NeverRegistered(accesses: seq<Access>, appId: string)
    requires LastRegistration(accesses, appId).None?
    ensures FirstRegistration(accesses, appId).None?
  {
    if accesses == [] {
    } else {
      NeverRegistered(accesses[..|accesses| - 1], appId);
    }
  }

  // The role is what the metadata of the last registration says: admin or readonly, else operator.
  lemma RoleAfterAccesses(p: Platform, table: Table, accesses: seq<Access>, appId: string)
    requires LastRegistration(accesses, appId).Some?
    ensures var after := AfterAccesses(p, table, accesses);
            var metadata := LastRegistration(accesses, appId).value.info.metadata;
            && appId in after
            && RoleOf(after[appId].info.metadata)
               == if ("role", "admin") in metadata.Items then Admin
                  else if ("role", "readonly") in metadata.Items then Readonly
                  else Operator
  {
    hide AfterAccesses;
    ColumnsAfterAccesses(p, table, accesses, appId);
  }

  // Ids are an application name and a millisecond: a second registration in the same
  // millisecond revives a session revoked in between, under the new token.
  lemma ReusedIdRevivesSession(
    p: Platform, appId: string, info: AppInfo, token: string, token': string, now: Ms)
    ensures Validated(p, AfterAccesses(p, map[],
                        [DoRegister(appId, info, token, now), DoRevoke(appId), DoRegister(appId, info, token', now)]),
                      appId, token', now) == Ok(())
  {
    var last := [DoRegister(appId, info, token', now)];
    AccessesCompose(p, map[], [DoRegister(appId, info, token, now), DoRevoke(appId)], last);
    assert last[1..] == [];
  }

  // Across calls expiry is not final: a heartbeat validated in time but touching late makes an
  // expired session valid again.
  lemma LateHeartbeatRevivesExpiredSession(p: Platform, appId: string, info: AppInfo, token: string, now: Ms)
    ensures var registered := AfterAccesses(p, map[], [DoRegister(appId, info, token, now)]);
            var late := now + p.duration + 1;
            && Validated(p, registered, appId, token, now + p.duration) == Ok(())
            && Validated(p, registered, appId, token, late) == Err(SessionExpired)
            && Validated(p, AfterAccesses(p, registered, [DoTouch(appId, late)]),
                         appId, token, late) == Ok(())
  {
    assert [DoRegister(appId, info, token, now)][1..] == [] && [DoTouch(appId, now + p.duration + 1)][1..] == [];
  }

  // -------------------------------------------------------- one call at a time

  datatype Request =
    | Register(appId: string, info: AppInfo, token: string, now: Ms)
    | Heartbeat(appId: string, token: string, now: Ms)
    | Unregister(appId: string, token: string, now: Ms)
    | Use(appId: string, token: string, now: Ms)

  function Served(p: Platform, table: Table, request: Request)
    : (Table, Result<(), SessionError>)
  {
    var verdict := Validated(p, table, request.appId, request.token, request.now);
    match request
    case Register(appId, info, token, now) => (Upserted(p, table, appId, info, token, now), Ok(()))
    case Heartbeat(appId, _, now) => (if verdict.Ok? then Touched(p, table, appId, now) else table, verdict)
    case Unregister(appId, _, _) => (if verdict.Ok? then Revoked(table, appId) else table, verdict)
    case Use(_, _, _) => (table, verdict)
  }

  function AllServed(p: Platform, table: Table, requests: seq<Request>)
    : (r: (Table, seq<Result<(), SessionError>>))
    ensures |r.1| == |requests|
  {
    if requests == [] then (table, [])
    else
      var n := |requests| - 1;
      var (before, verdicts) := AllServed(p, table, requests[..n]);
      var (after, verdict) := Served(p, before, requests[n]);
      (after, verdicts + [verdict])
  }

  ghost predicate IdsNeverReused(requests: seq<Request>) {
    forall i, j | 0 <= i < j < |requests| && requests[i].Register? && requests[j].Register? ::
      requests[i].appId != requests[j].appId
  }

  ghost predicate ClockNeverStepsBack(requests: seq<Request>) {
    forall i, j | 0 <= i < j < |requests| :: requests[i].now <= requests[j].now
  }

  // Request i registered this app.
  ghost predicate RegisteredAt(requests: seq<Request>, appId: string, i: nat) {
    i < |requests| && requests[i].Register? && requests[i].appId == appId
  }

  // Request j is the last accepted one that renewed the session: its registration or a heartbeat.
  ghost predicate LastRenewal(
    requests: seq<Request>, verdicts: seq<Result<(), SessionError>>, appId: string, j: nat)
    requires |verdicts| == |requests|
  {
    && j < |requests| && Renews(requests[j], verdicts[j], appId)
    && forall k | j < k < |requests| :: !Renews(requests[k], verdicts[k], appId)
  }

  predicate Renews(request: Request, verdict: Result<(), SessionError>, appId: string) {
    request.appId == appId && verdict.Ok? && (request.Register? || request.Heartbeat?)
  }

  ghost predicate NeverUnregistered(
    requests: seq<Request>, verdicts: seq<Result<(), SessionError>>, appId: string)
    requires |verdicts| == |requests|
  {
    forall k | 0 <= k < |requests| :: !(requests[k].Unregister? && requests[k].appId == appId && verdicts[k].Ok?)
  }

  // What the table says of one app, in terms of the requests served so far.
  ghost predicate TableRemembers(
    p: Platform, table: Table, requests: seq<Request>,
    verdicts: seq<Result<(), SessionError>>, appId: string)
    requires |verdicts| == |requests|
  {
    if appId in table then
      exists i: nat, j: nat ::
        && RegisteredAt(requests, appId, i) && LastRenewal(requests, verdicts, appId, j)
        && table[appId].tokenHash == Hex((p.digest)(requests[i].token))
        && table[appId].expiresAt == requests[j].now + p.duration
        && (table[appId].revoked <==> !NeverUnregistered(requests, verdicts, appId))
    else
      (forall i: nat :: !RegisteredAt(requests, appId, i)) && NeverUnregistered(requests, verdicts, appId)
  }

  lemma RenewalSnoc(
    requests: seq<Request>, verdicts: seq<Result<(), SessionError>>, request: Request,
    verdict: Result<(), SessionError>, appId: string)
    requires |verdicts| == |requests|
    ensures var requests', verdicts', n := requests + [request], verdicts + [verdict], |requests|;
            && (Renews(request, verdict, appId) ==> LastRenewal(requests', verdicts', appId, n))
            && (!Renews(request, verdict, appId) ==>
                  forall j: nat | LastRenewal(requests, verdicts, appId, j) ::
                    LastRenewal(requests', verdicts', appId, j))
            && (NeverUnregistered(requests', verdicts', appId)
                <==> NeverUnregistered(requests, verdicts, appId)
                     && !(request.Unregister? && request.appId == appId && verdict.Ok?))
  {
    var requests', verdicts', n := requests + [request], verdicts + [verdict], |requests|;
    assert requests'[n] == request && verdicts'[n] == verdict;
    assert forall k | 0 <= k < n :: requests'[k] == requests[k] && verdicts'[k] == verdicts[k];
  }

  lemma OneMoreRequest(
    p: Platform, table: Table, requests: seq<Request>,
    verdicts: seq<Result<(), SessionError>>, request: Request, appId: string)
    requires |verdicts| == |requests| && IdsNeverReused(requests + [request])
    requires TableRemembers(p, table, requests, verdicts, appId)
    ensures var (table', verdict) := Served(p, table, request);
            TableRemembers(p, table', requests + [request], verdicts + [verdict], appId)
  {
    hide NeverUnregistered, Hex;
    var (table', verdict) := Served(p, table, request);
    var requests', verdicts', n := requests + [request], verdicts + [verdict], |requests|;
    assert requests'[n] == request;
    assert forall k | 0 <= k < n :: requests'[k] == requests[k];
    RenewalSnoc(requests, verdicts, request, verdict, appId);
    if appId in table {
      var i: nat, j: nat :| RegisteredAt(requests, appId, i) && LastRenewal(requests, verdicts, appId, j)
                  && table[appId].tokenHash == Hex((p.digest)(requests[i].token))
                  && table[appId].expiresAt == requests[j].now + p.duration
                  && (table[appId].revoked <==> !NeverUnregistered(requests, verdicts, appId));
      assert RegisteredAt(requests', appId, i);
      assert LastRenewal(requests', verdicts', appId, if Renews(request, verdict, appId) then n else j);
    } else if RegisteredAt(requests', appId, n) {
      assert Renews(request, verdict, appId);
      assert table'[appId].expiresAt == requests'[n].now + p.duration;
    } else {
      forall i: nat ensures !RegisteredAt(requests', appId, i) {
        assert !RegisteredAt(requests, appId, i);
      }
    }
  }

  lemma {:induction false} TableRemembersAll(p: Platform, requests: seq<Request>, appId: string)
    requires IdsNeverReused(requests)
    ensures var (table, verdicts) := AllServed(p, map[], requests);
            TableRemembers(p, table, requests, verdicts, appId)
  {
    if requests == [] {
    } else {
      var n := |requests| - 1;
      TableRemembersAll(p, requests[..n], appId);
      assert requests == requests[..n] + [requests[n]];
      var (before, verdicts) := AllServed(p, map[], requests[..n]);
      OneMoreRequest(p, before, requests[..n], verdicts, requests[n], appId);
    }
  }

  // In runs of whole calls a session is valid exactly while it is registered under this token,
  // not unregistered, and no later than its last accepted renewal plus the duration.
  lemma ValidIffFreshAndNotRevoked(
    p: Platform, requests: seq<Request>, appId: string, token: string, now: Ms)
    requires IdsNeverReused(requests)
    ensures var (table, verdicts) := AllServed(p, map[], requests);
            Validated(p, table, appId, token, now).Ok?
            <==> && NeverUnregistered(requests, verdicts, appId)
                 && (exists i: nat :: RegisteredAt(requests, appId, i)
                                 && (p.digest)(requests[i].token) == (p.digest)(token))
                 && (exists j: nat :: LastRenewal(requests, verdicts, appId, j) && now <= requests[j].now + p.duration)
  {
    hide Hex;
    TableRemembersAll(p, requests, appId);
    forall i: nat | RegisteredAt(requests, appId, i)
      ensures HashToken(p, requests[i].token) == HashToken(p, token)
         <==> (p.digest)(requests[i].token) == (p.digest)(token)
    {
      EqualHashesIff(p, requests[i].token, token);
    }
  }

  // Expiry is permanent: with a clock that never steps back, a session found expired is refused
  // in every later call.
  lemma ExpiryIsPermanent(
    p: Platform, requests: seq<Request>, appId: string, i: nat, j: nat)
    requires IdsNeverReused(requests) && ClockNeverStepsBack(requests) && i < j < |requests|
    requires !requests[i].Register? && requests[i].appId == appId
    requires !requests[j].Register? && requests[j].appId == appId
    requires AllServed(p, map[], requests).1[i] == Err(SessionExpired)
    ensures AllServed(p, map[], requests).1[j].Err?
  {
    var table := AllServed(p, map[], requests[..i]).0;
    VerdictAt(p, requests, i);
    ExpiredStaysExpired(p, requests, appId, i, j);
    VerdictAt(p, requests, j);
  }

  lemma {:induction false} VerdictAt(p: Platform, requests: seq<Request>, i: nat)
    requires i < |requests|
    ensures AllServed(p, map[], requests).1[i]
         == Served(p, AllServed(p, map[], requests[..i]).0, requests[i]).1
    decreases |requests|
  {
    hide Served;
    var n := |requests| - 1;
    if i == n {
    } else {
      VerdictAt(p, requests[..n], i);
      assert requests[..n][..i] == requests[..i];
    }
  }

  lemma ExpiredOneMore(
    p: Platform, requests: seq<Request>, appId: string, k: nat, expiredAt: Ms)
    requires IdsNeverReused(requests) && k < |requests| && expiredAt <= requests[k].now
    requires var table := AllServed(p, map[], requests[..k]).0;
             appId in table && table[appId].expiresAt < expiredAt
    ensures var table := AllServed(p, map[], requests[..k + 1]).0;
            appId in table && table[appId].expiresAt < expiredAt
  {
    assert requests[..k + 1][..k] == requests[..k];
    if requests[k].Register? && requests[k].appId == appId {
      TableRemembersAll(p, requests[..k], appId);
    }
  }

  lemma {:induction false} ExpiredStaysExpired(
    p: Platform, requests: seq<Request>, appId: string, i: nat, j: nat)
    requires IdsNeverReused(requests) && ClockNeverStepsBack(requests) && i <= j < |requests|
    requires var table := AllServed(p, map[], requests[..i]).0;
             appId in table && table[appId].expiresAt < requests[i].now
    ensures var table := AllServed(p, map[], requests[..j]).0;
            appId in table && table[appId].expiresAt < requests[i].now
    decreases j - i
  {
    hide AllServed;
    if i == j {
    } else {
      ExpiredStaysExpired(p, requests, appId, i, j - 1);
      ExpiredOneMore(p, requests, appId, j - 1, requests[i].now);
    }
  }
}
