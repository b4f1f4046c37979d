// The application upgrade engine of src/upgrade_engine.rs: the OTA state machine, and the
// backup, swap and rollback of directories underneath it.
//
// I/O errors are part of the environment of a run: where the run is interrupted, and what an
// interrupted copy or removal leaves behind.
module UpgradeEngine {
  import opened Wrappers
  import opened FileTree

  datatype Manifest = Manifest(
    appId: string, fromVersion: string, toVersion: string, buildNumber: nat,
    packageSha256: string, signatureB64: string, publicKeyB64: string)

  // The lower-case SHA-256 of a content, which texts are base64, and which signature over a content
  // a key accepts.
  datatype Crypto = Crypto(
    sha256Hex: seq<int> -> string, isBase64: string -> bool, accepts: (string, seq<int>, string) -> bool)

  datatype UpgradeState =
    | Idle | Received | Validated | Downloading | Verifying | PreCheck | Staging | ReadyToActivate
    | Activating | PostCheck | Committed | RollingBack | RolledBack | Failed(reason: string)

  datatype Fault = NoFault | StageFault | BackupFault | RemoveFault | RenameFault | PostCheckFault

  datatype RollbackFault = NoRollbackFault | RollbackRemoveFault | RollbackCopyFault

  datatype Environment = Environment(
    packagePath: string, package: Option<seq<int>>, crypto: Crypto, fault: Fault, rollbackFault: RollbackFault,
    halfBackup: map<string, Node>,           // in the slot when the backup copy stops
    halfRemoved: Option<map<string, Node>>,  // of the old install when its removal stops
    halfCleared: Option<map<string, Node>>,  // of the install when the rollback's removal stops
    halfRestored: map<string, Node>)         // at the install path when the restoring copy stops

  datatype Layout = Layout(installRoot: Path, backupRoot: Path, stagingRoot: Path)
  {
    function InstallDir(m: Manifest): Path { installRoot + [m.appId] }

    // Joining an empty version adds no component.
    function BackupDir(m: Manifest): Path {
      backupRoot + [m.appId] + if m.fromVersion == "" then [] else [m.fromVersion]
    }

    function StagingDir(m: Manifest): Path { stagingRoot + [m.appId] }

    ghost predicate RootsApart() {
      Unrelated(installRoot, backupRoot) && Unrelated(installRoot, stagingRoot) && Unrelated(backupRoot, stagingRoot)
    }
  }

  // ------------------------------------------------------------- the strategy

  // A directory left with these entries, or nothing left of it.
  function Rest(entries: Option<map<string, Node>>): Option<Node> {
    if entries.Some? then Some(Dir(entries.value)) else None
  }

  function PutOrRemove(fs: Node, path: Path, entries: Option<map<string, Node>>): Node
    requires path != []
  {
    if entries.Some? then Put(fs, path, Dir(entries.value)) else Without(fs, path)
  }

  // First half of activate: create the slot and copy the install into it.
  function BackedUp(fs: Node, l: Layout, m: Manifest, env: Environment): (Node, bool) {
    var install := Lookup(fs, l.InstallDir(m));
    var slot := l.BackupDir(m);
    if install.None? then (fs, true)
    else if !CanCreateDir(fs, slot) then (fs, false)
    else
      var destination := Lookup(WithDir(fs, slot), slot);
      if install.value.File? then (WithDir(fs, slot), false)
      else if env.fault == BackupFault || !Copyable(destination, install.value) then
        (Put(fs, slot, Dir(env.halfBackup)), false)
      else (Put(fs, slot, Overlay(destination, install.value)), true)
  }

  function Activated(fs: Node, l: Layout, m: Manifest, env: Environment): (Node, bool) {
    var install, staging := l.InstallDir(m), l.StagingDir(m);
    var (fs1, backedUp) := BackedUp(fs, l, m, env);
    if !backedUp then (fs1, false)
    else if Lookup(fs1, install).Some? && env.fault == RemoveFault then
      (PutOrRemove(fs1, install, env.halfRemoved), false)
    else
      var fs2 := Without(fs1, install);
      var parent, staged := Lookup(fs2, l.installRoot), Lookup(fs2, staging);
      if env.fault == RenameFault || staged.None? || parent.None? || parent.value.File? then (fs2, false)
      else (Put(Without(fs2, staging), install, staged.value), true)
  }

  // A plain file at the install path cannot be removed as a directory.
  function Restored(fs: Node, l: Layout, m: Manifest, env: Environment): (Node, bool) {
    var install := l.InstallDir(m);
    var backup, present := Lookup(fs, l.BackupDir(m)), Lookup(fs, install);
    if backup.None? || (present.Some? && present.value.File?) then (fs, false)
    else if present.Some? && env.rollbackFault == RollbackRemoveFault then
      (PutOrRemove(fs, install, env.halfCleared), false)
    else
      var fs1 := Without(fs, install);
      if !CanCreateDir(fs1, install) then (fs1, false)
      else if backup.value.File? then (Put(fs1, install, EMPTY_DIR), false)
      else if env.rollbackFault == RollbackCopyFault then (Put(fs1, install, Dir(env.halfRestored)), false)
      else (Put(fs1, install, Overlay(Some(EMPTY_DIR), backup.value)), true)
  }

  // --------------------------------------------------------------- the engine

  function ManifestError(m: Manifest): Option<string> {
    if m.appId == "" then Some("manifest: app_id is empty")
    else if m.toVersion == "" then Some("manifest: to_version is empty")
    else if m.buildNumber == 0 then Some("manifest: build_number must be > 0")
    else None
  }

  function LowerCase(text: string): string {
    seq(|text|, i requires 0 <= i < |text| =>
      if 'A' <= text[i] <= 'Z' then text[i] - 'A' + 'a' else text[i])
  }

  // An absent hash or an absent signature is not checked.
  function PackageError(m: Manifest, env: Environment): Option<string> {
    if env.package.None? then Some("package not found: " + env.packagePath)
    else
      var content := env.package.value;
      var hash := (env.crypto.sha256Hex)(content);
      if m.packageSha256 != "" && hash != LowerCase(m.packageSha256) then
        Some("package sha256 mismatch: expected " + m.packageSha256 + ", got " + hash)
      else if m.signatureB64 == "" && m.publicKeyB64 == "" then None
      else if m.signatureB64 == "" || m.publicKeyB64 == "" then
        Some("manifest signature and public key must be provided together")
      else if !(env.crypto.isBase64)(m.signatureB64) then Some("decode signature_b64")
      else if !(env.crypto.isBase64)(m.publicKeyB64) then Some("decode public_key_b64")
      else if !(env.crypto.accepts)(m.publicKeyB64, content, m.signatureB64) then Some(BAD_SIGNATURE)
      else None
  }

  const BAD_SIGNATURE := "package signature verification failed: signature verification failed"
  const STAGING_FAILED := "create staging dir"

  // How a run ends, and the states it goes through on the way.
  datatype Ending =
    | BadManifest(reason: string) | BadPackage(reason: string) | NotStaged | NotActivated | NotHealthy | Done
  {
    function States(): (states: seq<UpgradeState>)
      ensures states != []
    {
      match this
      case BadManifest(reason) => [Received, Validated, Failed(reason)]
      case BadPackage(reason) => [Received, Validated, Downloading, Verifying, Failed(reason)]
      case NotStaged => UpToStaging() + [Failed(STAGING_FAILED)]
      case _ => UpToStaging() + FromActivation()
    }

    function FromActivation(): seq<UpgradeState> {
      match this
      case NotActivated => [ReadyToActivate, Activating, RollingBack, RolledBack]
      case NotHealthy => [ReadyToActivate, Activating, PostCheck, RollingBack, RolledBack]
      case _ => [ReadyToActivate, Activating, PostCheck, Committed]
    }

    static function UpToStaging(): seq<UpgradeState> {
      [Received, Validated, Downloading, Verifying, PreCheck, Staging]
    }

    function Final(): UpgradeState {
      States()[|States()| - 1]
    }

    predicate Undone() {
      NotActivated? || NotHealthy?
    }
  }

  // `restored` is the result of the rollback, which the engine itself ignores.
  datatype Outcome = Outcome(fs: Node, ending: Ending, restored: bool)

  function UndoneBy(fs: Node, l: Layout, m: Manifest, env: Environment, ending: Ending): Outcome {
    var (fs', restored) := Restored(fs, l, m, env);
    Outcome(fs', ending, restored)
  }

  // From activation on, with the package staged.
  function Deployed(fs: Node, l: Layout, m: Manifest, env: Environment): Outcome {
    var (fs1, activated) := Activated(fs, l, m, env);
    if !activated then UndoneBy(fs1, l, m, env, NotActivated)
    else if env.fault == PostCheckFault then UndoneBy(fs1, l, m, env, NotHealthy)
    else Outcome(fs1, Done, false)
  }

  // How a run ends that does not get as far as activation.
  function EarlyEnding(fs: Node, l: Layout, m: Manifest, env: Environment): (ending: Option<Ending>)
    ensures ending.Some? ==> !ending.value.Done? && !ending.value.Undone()
  {
    var error := ManifestError(m);
    if error.Some? then Some(BadManifest(error.value))
    else if PackageError(m, env).Some? then Some(BadPackage(PackageError(m, env).value))
    else if env.fault == StageFault || !CanCreateDir(fs, l.StagingDir(m)) then Some(NotStaged)
    else None
  }

  function RunOutcome(fs: Node, l: Layout, m: Manifest, env: Environment): Outcome {
    var early := EarlyEnding(fs, l, m, env);
    if early.Some? then Outcome(fs, early.value, false)
    else Deployed(WithDir(fs, l.StagingDir(m)), l, m, env)
  }

  // Persisted state, keyed by application id.
  datatype StateRecord = StateRecord(targetVersion: string, state: UpgradeState)
  type Records = map<string, StateRecord>

  function Persisted(records: Records, current: Option<Manifest>, state: UpgradeState): Records {
    if current.None? then records
    else records[current.value.appId := StateRecord(current.value.toVersion, state)]
  }

  // The first state of a run is written before the run's manifest is recorded, so it lands on
  // the record of the manifest before.
  function RecordsAfter(records: Records, previous: Option<Manifest>, m: Manifest, last: UpgradeState): Records {
    Persisted(Persisted(records, previous, Received), Some(m), last)
  }

  lemma RunKeepsWalking(trace: seq<UpgradeState>, ending: Ending)
    ensures WalksTheMachine(trace) ==> WalksTheMachine(trace + ending.States())
  {
    if WalksTheMachine(trace) {
      RunWalksTheMachine(trace, ending);
    }
  }

  lemma LaterRecordReplaces(m: Manifest)
    ensures forall base, a, b {:trigger Persisted(Persisted(base, Some(m), a), Some(m), b)} ::
      Persisted(Persisted(base, Some(m), a), Some(m), b) == Persisted(base, Some(m), b)
  {
  }

  lemma LaterRecordFollows(records: Records, previous: Option<Manifest>, m: Manifest)
    ensures forall a, b {:trigger Persisted(RecordsAfter(records, previous, m, a), Some(m), b)} ::
      Persisted(RecordsAfter(records, previous, m, a), Some(m), b) == RecordsAfter(records, previous, m, b)
  {
  }

  lemma StatesWithoutActivation()
    ensures forall reason :: BadManifest(reason).States() == [Received, Validated, Failed(reason)]
    ensures forall reason ::
              BadPackage(reason).States() == [Received, Validated, Downloading, Verifying, Failed(reason)]
    ensures NotStaged.States() == Ending.UpToStaging() + [Failed(STAGING_FAILED)]
    ensures forall ending: Ending | ending.Done? || ending.Undone() ::
              ending.States() == Ending.UpToStaging() + ending.FromActivation()
  {
  }

  lemma FinalStates()
    ensures forall reason :: BadManifest(reason).Final() == Failed(reason)
    ensures forall reason :: BadPackage(reason).Final() == Failed(reason)
    ensures NotStaged.Final() == Failed(STAGING_FAILED)
    ensures NotActivated.Final() == RolledBack == NotHealthy.Final() && Done.Final() == Committed
  {
  }

  // --------------------------------------------------------- state machine

  // A run may start from rest: before any run, or after one that has ended.
  predicate AtRest(s: UpgradeState) {
    s.Idle? || s.Committed? || s.RolledBack? || s.Failed?
  }

  predicate MayFollow(before: UpgradeState, after: UpgradeState) {
    match before
    case Received => after == Validated
    case Validated => after == Downloading || after.Failed?
    case Downloading => after == Verifying
    case Verifying => after == PreCheck || after.Failed?
    case PreCheck => after == Staging
    case Staging => after == ReadyToActivate || after.Failed?
    case ReadyToActivate => after == Activating
    case Activating => after == PostCheck || after == RollingBack
    case PostCheck => after == Committed || after == RollingBack
    case RollingBack => after == RolledBack
    case _ => after == Received
  }

  // From Idle on, every state set follows the one before, and the engine has come to rest.
  ghost predicate WalksTheMachine(trace: seq<UpgradeState>) {
    var walk := [Idle] + trace;
    AtRest(walk[|trace|]) && forall i | 0 <= i < |trace| :: MayFollow(walk[i], walk[i + 1])
  }

  // States that follow one another from Received to a state at rest.
  ghost predicate OneRun(states: seq<UpgradeState>) {
    && states != [] && states[0] == Received && AtRest(states[|states| - 1])
    && forall i | 0 <= i < |states| - 1 :: MayFollow(states[i], states[i + 1])
  }

  lemma EndingsAreRuns(ending: Ending)
    ensures OneRun(ending.States())
    ensures ending.Final() == Committed <==> ending.Done?
    ensures ending.Final() == RolledBack <==> ending.Undone()
    ensures ending.Final().Failed? <==> !ending.Done? && !ending.Undone()
  {
  }

  // Which states a run passes tells how far it came.
  lemma StatesTellHowFar(ending: Ending)
    ensures Downloading in ending.States() <==> !ending.BadManifest?
    ensures Staging in ending.States() <==> !ending.BadManifest? && !ending.BadPackage?
    ensures Activating in ending.States() <==> ending.Done? || ending.Undone()
    ensures PostCheck in ending.States() <==> ending.Done? || ending.NotHealthy?
    ensures RollingBack in ending.States() <==> ending.Undone()
    ensures Committed in ending.States() <==> ending.Done?
  {
  }

  lemma RunContinuesTheWalk(trace: seq<UpgradeState>, states: seq<UpgradeState>)
    requires WalksTheMachine(trace) && OneRun(states)
    ensures WalksTheMachine(trace + states)
  {
    var before, walk := [Idle] + trace, [Idle] + (trace + states);
    assert MayFollow(before[|trace|], states[0]);
    hide MayFollow, AtRest;
    assert forall i | 0 <= i <= |trace| :: walk[i] == before[i];
    assert forall i | 0 <= i < |states| :: walk[|trace| + 1 + i] == states[i];
    forall i | 0 <= i < |trace + states| ensures MayFollow(walk[i], walk[i + 1]) {
      if i > |trace| {
        assert MayFollow(states[i - |trace| - 1], states[i - |trace|]);
      }
    }
  }

  // A run, however it ends, continues the walk from one state at rest to another, and that state
  // tells how it ended.
  lemma RunWalksTheMachine(trace: seq<UpgradeState>, ending: Ending)
    requires WalksTheMachine(trace)
    ensures WalksTheMachine(trace + ending.States())
    ensures ending.Final() == Committed <==> ending.Done?
    ensures ending.Final() == RolledBack <==> ending.Undone()
    ensures ending.Final().Failed? <==> !ending.Done? && !ending.Undone()
  {
    EndingsAreRuns(ending);
    RunContinuesTheWalk(trace, ending.States());
  }

  class UpgradeEngine {
    const layout: Layout
    var fs: Node
    var state: UpgradeState
    var currentManifest: Option<Manifest>
    var records: Records
    ghost var trace: seq<UpgradeState>  // every state set so far, in order

    constructor (layout: Layout, fs: Node)
      ensures this.layout == layout && this.fs == fs
      ensures state == Idle && currentManifest == None && records == map[] && WalksTheMachine(trace)
    {
      this.layout := layout;
      this.fs := fs;
      state, currentManifest, records, trace := Idle, None, map[], [];
    }

    method SetState(newState: UpgradeState)
      modifies this`state, this`records, this`trace
      ensures state == newState && records == Persisted(old(records), currentManifest, newState)
      ensures trace == old(trace) + [newState]
    {
      state := newState;
      trace := trace + [newState];
      if currentManifest.Some? {
        var m := currentManifest.value;
        records := records[m.appId := StateRecord(m.toVersion, state)];
      }
    }

    method Run(m: Manifest, env: Environment) returns (ok: bool)
      modifies this
      ensures var outcome := RunOutcome(old(fs), layout, m, env);
              && fs == outcome.fs && ok == outcome.ending.Done? && state == outcome.ending.Final()
              && currentManifest == Some(m)
              && records == RecordsAfter(old(records), old(currentManifest), m, outcome.ending.Final())
              && trace == old(trace) + outcome.ending.States()
      ensures WalksTheMachine(old(trace)) ==> WalksTheMachine(trace)
    {
      hide Deployed, EarlyEnding, Ending.Final, Ending.States, Ending.FromActivation, Persisted, WalksTheMachine;
      LaterRecordReplaces(m);
      FinalStates();
      StatesWithoutActivation();
      RunKeepsWalking(trace, RunOutcome(fs, layout, m, env).ending);
      ghost var was := trace;
      var staged := Prepare(m, env);
      if !staged {
        return false;
      }
      ok := Deploy(m, env);
      assert trace == was + (Ending.UpToStaging() + RunOutcome(old(fs), layout, m, env).ending.FromActivation());
    }

    // The start of run.
    method Validate(m: Manifest) returns (valid: bool)
      modifies this`state, this`records, this`trace, this`currentManifest
      ensures var error := ManifestError(m);
              && valid == error.None? && currentManifest == Some(m)
              && state == (if valid then Validated else Failed(error.value))
              && trace == old(trace) + (if valid then [Received, Validated] else BadManifest(error.value).States())
      ensures records == RecordsAfter(old(records), old(currentManifest), m, state)
    {
      hide Persisted, ManifestError;
      LaterRecordReplaces(m);
      ghost var was := trace;
      SetState(Received);
      currentManifest := Some(m);
      SetState(Validated);
      assert trace == was + [Received, Validated];
      var error := ManifestError(m);
      if error.Some? {
        SetState(Failed(error.value));
        assert trace == was + [Received, Validated, Failed(error.value)];
      }
      return error.None?;
    }

    // The first half of run, up to the staged package.
    method Prepare(m: Manifest, env: Environment) returns (staged: bool)
      modifies this
      ensures var early := EarlyEnding(old(fs), layout, m, env);
              && staged == early.None? && currentManifest == Some(m)
              && fs == (if staged then WithDir(old(fs), layout.StagingDir(m)) else old(fs))
              && trace == old(trace) + (if staged then Ending.UpToStaging() else early.value.States())
              && (!staged ==> state == early.value.Final())
      ensures records == RecordsAfter(old(records), old(currentManifest), m, state)
    {
      hide CanCreateDir, WithDir, Ending.Final, Ending.States, Persisted, ManifestError, PackageError, RecordsAfter;
      LaterRecordFollows(records, currentManifest, m);
      ghost var was := trace;
      var valid := Validate(m);
      if !valid {
        FinalStates();
        return false;
      }
      SetState(Downloading);
      SetState(Verifying);
      assert trace == was + [Received, Validated, Downloading, Verifying];
      var error := VerifyPackage(m, env);
      if error.Some? {
        SetState(Failed(error.value));
        FinalStates();
        StatesWithoutActivation();
        assert trace == was + [Received, Validated, Downloading, Verifying, Failed(error.value)];
        return false;
      }
      SetState(PreCheck);
      SetState(Staging);
      assert trace == was + Ending.UpToStaging();
      staged := Stage(m, env);
      if !staged {
        SetState(Failed(STAGING_FAILED));
        FinalStates();
        StatesWithoutActivation();
        assert trace == was + (Ending.UpToStaging() + [Failed(STAGING_FAILED)]);
      }
    }

    // The second half of run.
    method Deploy(m: Manifest, env: Environment) returns (ok: bool)
      requires currentManifest == Some(m)
      modifies this`fs, this`state, this`records, this`trace
      ensures var outcome := Deployed(old(fs), layout, m, env);
              && fs == outcome.fs && ok == outcome.ending.Done? && state == outcome.ending.Final()
              && (outcome.ending.Done? || outcome.ending.Undone())
              && trace == old(trace) + outcome.ending.FromActivation()
      ensures records == Persisted(old(records), Some(m), state)
    {
      hide Activated, Restored, Ending.Final, Persisted;
      LaterRecordReplaces(m);
      FinalStates();
      ghost var was := trace;
      SetState(ReadyToActivate);
      SetState(Activating);
      assert trace == was + [ReadyToActivate, Activating];
      var activated := Activate(m, env);
      if !activated {
        SetState(RollingBack);
        var _ := Rollback(m, env);
        SetState(RolledBack);
        return false;
      }
      SetState(PostCheck);
      assert trace == was + [ReadyToActivate, Activating, PostCheck];
      if env.fault == PostCheckFault {
        SetState(RollingBack);
        var _ := Rollback(m, env);
        SetState(RolledBack);
        return false;
      }
      SetState(Committed);
      return true;
    }

    method VerifyPackage(m: Manifest, env: Environment) returns (error: Option<string>)
      ensures error == PackageError(m, env)
    {
      if env.package.None? {
        return Some("package not found: " + env.packagePath);
      }
      var content := env.package.value;
      var hash := (env.crypto.sha256Hex)(content);
      if m.packageSha256 != "" && hash != LowerCase(m.packageSha256) {
        return Some("package sha256 mismatch: expected " + m.packageSha256 + ", got " + hash);
      }
      if m.signatureB64 != "" || m.publicKeyB64 != "" {
        if m.signatureB64 == "" || m.publicKeyB64 == "" {
          return Some("manifest signature and public key must be provided together");
        }
        if !(env.crypto.isBase64)(m.signatureB64) {
          return Some("decode signature_b64");
        }
        if !(env.crypto.isBase64)(m.publicKeyB64) {
          return Some("decode public_key_b64");
        }
        if !(env.crypto.accepts)(m.publicKeyB64, content, m.signatureB64) {
          return Some(BAD_SIGNATURE);
        }
      }
      return None;
    }

    method Stage(m: Manifest, env: Environment) returns (ok: bool)
      modifies this`fs
      ensures ok == (env.fault != StageFault && CanCreateDir(old(fs), layout.StagingDir(m)))
      ensures fs == if ok then WithDir(old(fs), layout.StagingDir(m)) else old(fs)
    {
      ok := env.fault != StageFault && CanCreateDir(fs, layout.StagingDir(m));
      if ok {
        fs := WithDir(fs, layout.StagingDir(m));
      }
    }

    method Activate(m: Manifest, env: Environment) returns (ok: bool)
      modifies this`fs
      ensures (fs, ok) == Activated(old(fs), layout, m, env)
    {
      var installDir, backupDir, stagingDir := layout.InstallDir(m), layout.BackupDir(m), layout.StagingDir(m);
      var install := Lookup(fs, installDir);
      if install.Some? {
        if !CanCreateDir(fs, backupDir) {
          return false;
        }
        var destination := Lookup(WithDir(fs, backupDir), backupDir);
        if install.value.File? {
          fs := WithDir(fs, backupDir);
          return false;
        }
        if env.fault == BackupFault {
          fs := Put(fs, backupDir, Dir(env.halfBackup));
          return false;
        }
        var copied := CopyDirRecursive(install.value, destination);
        if copied.None? {
          fs := Put(fs, backupDir, Dir(env.halfBackup));
          return false;
        }
        fs := Put(fs, backupDir, copied.value);
      }
      if Lookup(fs, installDir).Some? {
        if env.fault == RemoveFault {
          fs := PutOrRemove(fs, installDir, env.halfRemoved);
          return false;
        }
      }
      fs := Without(fs, installDir);
      var parent, staged := Lookup(fs, layout.installRoot), Lookup(fs, stagingDir);
      if env.fault == RenameFault || staged.None? || parent.None? || parent.value.File? {
        return false;
      }
      fs := Put(Without(fs, stagingDir), installDir, staged.value);
      return true;
    }

    method Rollback(m: Manifest, env: Environment) returns (ok: bool)
      modifies this`fs
      ensures (fs, ok) == Restored(old(fs), layout, m, env)
    {
      var installDir, backupDir := layout.InstallDir(m), layout.BackupDir(m);
      var backup := Lookup(fs, backupDir);
      if backup.None? {
        return false;
      }
      if Lookup(fs, installDir).Some? {
        if Lookup(fs, installDir).value.File? {
          return false;
        }
        if env.rollbackFault == RollbackRemoveFault {
          fs := PutOrRemove(fs, installDir, env.halfCleared);
          return false;
        }
      }
      fs := Without(fs, installDir);
      if !CanCreateDir(fs, installDir) {
        return false;
      }
      if backup.value.File? {
        fs := Put(fs, installDir, EMPTY_DIR);
        return false;
      }
      if env.rollbackFault == RollbackCopyFault {
        fs := Put(fs, installDir, Dir(env.halfRestored));
        return false;
      }
      var copied := CopyDirRecursive(backup.value, Some(EMPTY_DIR));
      fs := Put(fs, installDir, copied.value);
      return true;
    }
  }

  // The hash is the text but for its upper-case letters, which it has in lower case.
  ghost predicate IsLowerCaseOf(hash: string, text: string) {
    && |hash| == |text|
    && forall i | 0 <= i < |text| ::
         if 'A' <= text[i] <= 'Z' then hash[i] as int == text[i] as int + 32 else hash[i] == text[i]
  }

  // The checks before staging, in order, each with what a run that fails it reports.
  ghost function Checks(m: Manifest, env: Environment): seq<(bool, string)> {
    var content := env.package.GetOr([]);
    var hash := (env.crypto.sha256Hex)(content);
    var checksSignature := m.signatureB64 != "" || m.publicKeyB64 != "";
    [(m.appId != "", "manifest: app_id is empty"),
     (m.toVersion != "", "manifest: to_version is empty"),
     (m.buildNumber > 0, "manifest: build_number must be > 0"),
     (env.package.Some?, "package not found: " + env.packagePath),
     (m.packageSha256 == "" || IsLowerCaseOf(hash, m.packageSha256),
      "package sha256 mismatch: expected " + m.packageSha256 + ", got " + hash),
     (m.signatureB64 == "" <==> m.publicKeyB64 == "", "manifest signature and public key must be provided together"),
     (checksSignature ==> (env.crypto.isBase64)(m.signatureB64), "decode signature_b64"),
     (checksSignature ==> (env.crypto.isBase64)(m.publicKeyB64), "decode public_key_b64"),
     (checksSignature ==> (env.crypto.accepts)(m.publicKeyB64, content, m.signatureB64),
      "package signature verification failed: signature verification failed")]
  }

  ghost predicate FirstFailed(checks: seq<(bool, string)>, k: nat) {
    k < |checks| && !checks[k].0 && forall i | 0 <= i < k :: checks[i].0
  }

  ghost predicate AllPass(checks: seq<(bool, string)>) {
    forall i | 0 <= i < |checks| :: checks[i].0
  }

  lemma LowerCaseIs(hash: string, text: string)
    ensures hash == LowerCase(text) <==> IsLowerCaseOf(hash, text)
  {
    if IsLowerCaseOf(hash, text) {
      assert forall i | 0 <= i < |text| :: hash[i] == LowerCase(text)[i];
    }
  }

  lemma CheckThatFails(m: Manifest, env: Environment) returns (k: nat)
    ensures ManifestError(m).Some? || PackageError(m, env).Some? ==>
              && FirstFailed(Checks(m, env), k) && (k < 3 <==> ManifestError(m).Some?)
              && Checks(m, env)[k].1 == if k < 3 then ManifestError(m).value else PackageError(m, env).value
    ensures ManifestError(m).None? && PackageError(m, env).None? ==> AllPass(Checks(m, env))
  {
    LowerCaseIs((env.crypto.sha256Hex)(env.package.GetOr([])), m.packageSha256);
    hide LowerCase, IsLowerCaseOf;
    k := if m.appId == "" then 0 else if m.toVersion == "" then 1 else if m.buildNumber == 0 then 2
         else if env.package.None? then 3
         else if m.packageSha256 != "" && (env.crypto.sha256Hex)(env.package.value) != LowerCase(m.packageSha256) then 4
         else if (m.signatureB64 == "") != (m.publicKeyB64 == "") then 5
         else if !(env.crypto.isBase64)(m.signatureB64) then 6
         else if !(env.crypto.isBase64)(m.publicKeyB64) then 7
         else 8;
  }

  // A run whose manifest or package fails a check ends with what the first such check reports, and
  // touches no file; one that passes all goes on to staging.
  lemma FailedCheckIsReported(fs: Node, l: Layout, m: Manifest, env: Environment)
    ensures var outcome, checks := RunOutcome(fs, l, m, env), Checks(m, env);
            && (!AllPass(checks) ==>
                  && outcome.fs == fs
                  && exists k: nat :: FirstFailed(checks, k)
                       && outcome.ending == if k < 3 then BadManifest(checks[k].1) else BadPackage(checks[k].1))
            && (AllPass(checks) ==>
                  if env.fault == StageFault || !CanCreateDir(fs, l.StagingDir(m)) then
                    outcome.ending == NotStaged && outcome.fs == fs
                  else outcome.ending.Done? || outcome.ending.Undone())
  {
    hide Checks, ManifestError, PackageError, Activated, Restored, CanCreateDir;
    var k := CheckThatFails(m, env);
  }

  // So a run gets as far as activation exactly when all checks pass and staging succeeds. A manifest
  // with neither hash nor signature nor key lets every package through.
  lemma RunReachesActivationIff(fs: Node, l: Layout, m: Manifest, env: Environment)
    ensures var ending := RunOutcome(fs, l, m, env).ending;
            ending.Done? || ending.Undone()
            <==> && m.appId != "" && m.toVersion != "" && m.buildNumber != 0
                 && env.package.Some?
                 && (m.packageSha256 == "" || IsLowerCaseOf((env.crypto.sha256Hex)(env.package.value), m.packageSha256))
                 && ((m.signatureB64 == "" && m.publicKeyB64 == "")
                     || (&& m.signatureB64 != "" && m.publicKeyB64 != ""
                         && (env.crypto.isBase64)(m.signatureB64) && (env.crypto.isBase64)(m.publicKeyB64)
                         && (env.crypto.accepts)(m.publicKeyB64, env.package.value, m.signatureB64)))
                 && env.fault != StageFault && CanCreateDir(fs, l.StagingDir(m))
  {
    hide CanCreateDir, LowerCase, IsLowerCaseOf, Activated, Restored;
    LowerCaseIs((env.crypto.sha256Hex)(env.package.GetOr([])), m.packageSha256);
  }

  // ------------------------------------------------- separate directories

  ghost predicate Separate(l: Layout, m: Manifest) {
    && Unrelated(l.InstallDir(m), l.BackupDir(m))
    && Unrelated(l.InstallDir(m), l.StagingDir(m))
    && Unrelated(l.BackupDir(m), l.StagingDir(m))
  }

  // A path with no bearing on the three directories of a run.
  ghost predicate Elsewhere(l: Layout, m: Manifest, q: Path) {
    Unrelated(l.InstallDir(m), q) && Unrelated(l.BackupDir(m), q) && Unrelated(l.StagingDir(m), q)
  }

  // The directories of a run: one per application for the install and for staging, one per application
  // and version replaced for the backup.
  lemma DirectoriesAre(l: Layout, m: Manifest)
    ensures l.InstallDir(m) == l.installRoot + [m.appId] && l.StagingDir(m) == l.stagingRoot + [m.appId]
    ensures l.BackupDir(m) == if m.fromVersion == "" then l.backupRoot + [m.appId]
                              else l.backupRoot + [m.appId, m.fromVersion]
  {
  }

  lemma UnrelatedExtends(p: Path, q: Path, p': Path, q': Path)
    requires Unrelated(p, q) && p <= p' && q <= q'
    ensures Unrelated(p', q')
  {
  }

  lemma ApartRootsSeparate(l: Layout, m: Manifest)
    requires l.RootsApart()
    ensures Separate(l, m)
  {
    UnrelatedExtends(l.installRoot, l.backupRoot, l.InstallDir(m), l.BackupDir(m));
    UnrelatedExtends(l.installRoot, l.stagingRoot, l.InstallDir(m), l.StagingDir(m));
    UnrelatedExtends(l.backupRoot, l.stagingRoot, l.BackupDir(m), l.StagingDir(m));
  }

  lemma PutEffect(fs: Node, path: Path, node: Node)
    ensures Lookup(Put(fs, path, node), path) == Some(node)
    ensures forall q | Unrelated(path, q) :: Lookup(Put(fs, path, node), q) == Lookup(fs, q)
  {
    LookupPutSame(fs, path, node);
    forall q | Unrelated(path, q) ensures Lookup(Put(fs, path, node), q) == Lookup(fs, q) {
      LookupPutElsewhere(fs, path, node, q);
    }
  }

  lemma WithoutEffect(fs: Node, path: Path)
    requires path != []
    ensures Lookup(Without(fs, path), path) == None
    ensures forall q | Unrelated(path, q) :: Lookup(Without(fs, path), q) == Lookup(fs, q)
  {
    LookupWithoutSame(fs, path);
    forall q | Unrelated(path, q) ensures Lookup(Without(fs, path), q) == Lookup(fs, q) {
      LookupWithoutElsewhere(fs, path, q);
    }
  }

  // ------------------------------------------------------ what each part does

  // A finished backup leaves the overlay in the slot, an unfinished one whatever it had copied;
  // nothing else moves.
  lemma BackupEffect(fs: Node, l: Layout, m: Manifest, env: Environment)
    requires Separate(l, m)
    ensures var (fs1, done) := BackedUp(fs, l, m, env);
            var install, slot := Lookup(fs, l.InstallDir(m)), Lookup(fs, l.BackupDir(m));
            && (forall q | Unrelated(l.BackupDir(m), q) :: Lookup(fs1, q) == Lookup(fs, q))
            && (done && install.Some? ==>
                  install.value.Dir? && Copyable(slot, install.value)
                  && Lookup(fs1, l.BackupDir(m)) == Some(Overlay(slot, install.value)))
            && (done && install.None? ==> fs1 == fs)
            && (!done ==> install.Some?)
            && (!done ==> if CanCreateDir(fs, l.BackupDir(m))
                          then Lookup(fs1, l.BackupDir(m))
                               == Some(if install.value.File? then slot.GetOr(EMPTY_DIR) else Dir(env.halfBackup))
                          else fs1 == fs)
  {
    var slot := l.BackupDir(m);
    var install := Lookup(fs, l.InstallDir(m));
    PutEffect(fs, slot, Dir(env.halfBackup));
    PutEffect(fs, slot, EMPTY_DIR);
    if install.Some? {
      PutEffect(fs, slot, Overlay(Lookup(WithDir(fs, slot), slot), install.value));
      OverlayOnNothing(install.value);
    }
  }

  lemma ActivateEffect(fs: Node, l: Layout, m: Manifest, env: Environment)
    requires Separate(l, m)
    ensures var (fs1, done) := BackedUp(fs, l, m, env);
            var (fs', ok) := Activated(fs, l, m, env);
            var install, staged := Lookup(fs, l.InstallDir(m)), Lookup(fs, l.StagingDir(m));
            && (ok ==> done)
            && Lookup(fs', l.BackupDir(m)) == Lookup(fs1, l.BackupDir(m))
            && (forall q | Elsewhere(l, m, q) :: Lookup(fs', q) == Lookup(fs, q))
            && (ok ==> Lookup(fs', l.InstallDir(m)) == staged && Lookup(fs', l.StagingDir(m)) == None)
            && (!done ==> fs' == fs1)
            && (done && !ok ==> Lookup(fs', l.InstallDir(m))
                                == if env.fault == RemoveFault && install.Some? then Rest(env.halfRemoved) else None)
            && (install.Some? && staged.Some? && done ==>
                  (ok <==> env.fault != RemoveFault && env.fault != RenameFault))
  {
    hide Lookup, Put, Without, BackedUp;
    var install, staging := l.InstallDir(m), l.StagingDir(m);
    BackupEffect(fs, l, m, env);
    var (fs1, done) := BackedUp(fs, l, m, env);
    WithoutEffect(fs1, install);
    if env.halfRemoved.Some? {
      PutEffect(fs1, install, Dir(env.halfRemoved.value));
    }
    var fs2 := Without(fs1, install);
    WithoutEffect(fs2, staging);
    if Lookup(fs2, staging).Some? {
      PutEffect(Without(fs2, staging), install, Lookup(fs2, staging).value);
    }
    if Lookup(fs1, install).Some? {
      ParentStays(fs1, l.installRoot, m.appId);
    }
  }

  // What a rollback leaves at the install path, from what it finds there and in the slot.
  function InstallAfterRollback(
    install: Option<Node>, creatable: bool, backup: Option<Node>, env: Environment): Option<Node>
  {
    if backup.None? || (install.Some? && install.value.File?) then install
    else if install.Some? && env.rollbackFault == RollbackRemoveFault then Rest(env.halfCleared)
    else if install.None? && !creatable then None
    else if backup.value.File? then Some(EMPTY_DIR)
    else if env.rollbackFault == RollbackCopyFault then Some(Dir(env.halfRestored))
    else backup
  }

  // A rollback succeeds exactly with a directory in the slot, room for the install and no fault of its
  // own; it then makes the install what the slot holds.
  lemma RollbackEffect(fs: Node, l: Layout, m: Manifest, env: Environment)
    requires Separate(l, m)
    ensures var (fs', ok) := Restored(fs, l, m, env);
            var install, backup := Lookup(fs, l.InstallDir(m)), Lookup(fs, l.BackupDir(m));
            var creatable := CanCreateDir(fs, l.InstallDir(m));
            && Lookup(fs', l.BackupDir(m)) == backup
            && (forall q | Elsewhere(l, m, q) :: Lookup(fs', q) == Lookup(fs, q))
            && (ok ==> backup.Some? && Lookup(fs', l.InstallDir(m)) == backup)
            && (backup == None ==> fs' == fs && !ok)
            && Lookup(fs', l.InstallDir(m)) == InstallAfterRollback(install, creatable, backup, env)
            && (ok <==> && backup.Some? && backup.value.Dir? && env.rollbackFault != RollbackCopyFault
                        && (if install.Some? then install.value.Dir? && env.rollbackFault != RollbackRemoveFault
                            else creatable))
  {
    hide Lookup, Put, Without, Overlay, CanCreateDir;
    var install := l.InstallDir(m);
    WithoutEffect(fs, install);
    var fs1 := Without(fs, install);
    PutEffect(fs1, install, Dir(env.halfRestored));
    PutEffect(fs1, install, EMPTY_DIR);
    if env.halfCleared.Some? {
      PutEffect(fs, install, Dir(env.halfCleared.value));
    }
    var backup := Lookup(fs, l.BackupDir(m));
    if backup.Some? {
      OverlayOnNothing(backup.value);
      PutEffect(fs1, install, Overlay(Some(EMPTY_DIR), backup.value));
    }
    if Lookup(fs, install).Some? || CanCreateDir(fs, install) {
      ClearedPathIsCreatable(fs, install);
    } else {
      WithoutNothing(fs, install);
    }
  }

  // ----------------------------------------------------------- whole runs

  // The tree a run will install: what the staging directory holds once it exists.
  function StagedTree(fs: Node, l: Layout, m: Manifest): Node {
    Lookup(fs, l.StagingDir(m)).GetOr(EMPTY_DIR)
  }

  lemma StageEffect(fs: Node, l: Layout, m: Manifest)
    requires Separate(l, m)
    ensures var fs' := WithDir(fs, l.StagingDir(m));
            && Lookup(fs', l.StagingDir(m)) == Some(StagedTree(fs, l, m))
            && (forall q | Unrelated(l.StagingDir(m), q) :: Lookup(fs', q) == Lookup(fs, q))
  {
    PutEffect(fs, l.StagingDir(m), EMPTY_DIR);
  }

  // Whether the run got its backup copied in full.
  predicate BackupCompletes(fs: Node, l: Layout, m: Manifest, env: Environment) {
    BackedUp(WithDir(fs, l.StagingDir(m)), l, m, env).1
  }

  // Whatever happens, a run changes nothing outside its install, slot and staging directories.
  lemma RunTouchesOnlyItsDirectories(fs: Node, l: Layout, m: Manifest, env: Environment, q: Path)
    requires Separate(l, m) && Elsewhere(l, m, q)
    ensures Lookup(RunOutcome(fs, l, m, env).fs, q) == Lookup(fs, q)
  {
    var fs0 := WithDir(fs, l.StagingDir(m));
    StageEffect(fs, l, m);
    ActivateEffect(fs0, l, m, env);
    RollbackEffect(Activated(fs0, l, m, env).0, l, m, env);
  }

  // A committed run over an installed tree: the staged tree is installed, the old tree is merged into
  // whatever the slot held, and the slot then holds the old tree exactly when it was unused or held
  // no name that the old tree lacks.
  lemma CommittedRunMergesBackup(fs: Node, l: Layout, m: Manifest, env: Environment, tree: Node)
    requires Separate(l, m) && Lookup(fs, l.InstallDir(m)) == Some(tree)
    requires RunOutcome(fs, l, m, env).ending.Done?
    ensures var fs', slot := RunOutcome(fs, l, m, env).fs, Lookup(fs, l.BackupDir(m));
            && Lookup(fs', l.InstallDir(m)) == Some(StagedTree(fs, l, m))
            && Lookup(fs', l.StagingDir(m)) == None
            && Lookup(fs', l.BackupDir(m)) == Some(Overlay(slot, tree))
            && (Lookup(fs', l.BackupDir(m)) == Some(tree) <==> slot.None? || NamesWithin(slot.value, tree))
  {
    hide Lookup, Overlay, NamesWithin, Copyable, CanCreateDir;
    var fs0 := WithDir(fs, l.StagingDir(m));
    StageEffect(fs, l, m);
    BackupEffect(fs0, l, m, env);
    ActivateEffect(fs0, l, m, env);
    RestoredOverlayIsTreeIff(Lookup(fs, l.BackupDir(m)), tree);
  }

  // In particular over an unused slot: the old tree is kept as it was.
  lemma CommittedRunSwapsAndKeeps(fs: Node, l: Layout, m: Manifest, env: Environment, tree: Node)
    requires Separate(l, m)
    requires Lookup(fs, l.InstallDir(m)) == Some(tree) && Lookup(fs, l.BackupDir(m)) == None
    requires RunOutcome(fs, l, m, env).ending.Done?
    ensures var fs' := RunOutcome(fs, l, m, env).fs;
            && Lookup(fs', l.InstallDir(m)) == Some(StagedTree(fs, l, m))
            && Lookup(fs', l.BackupDir(m)) == Some(tree)
            && Lookup(fs', l.StagingDir(m)) == None
  {
    CommittedRunMergesBackup(fs, l, m, env, tree);
  }

  // Whether something in the way keeps the slot from being created as a directory.
  predicate SlotBlocked(fs: Node, l: Layout, m: Manifest) {
    !CanCreateDir(WithDir(fs, l.StagingDir(m)), l.BackupDir(m))
  }

  // What the rollback of a run finds at the install path, where `tree` was before.
  function InstallToUndo(fs: Node, l: Layout, m: Manifest, env: Environment, tree: Node): Option<Node> {
    if !BackupCompletes(fs, l, m, env) then Some(tree)
    else if env.fault == RemoveFault then Rest(env.halfRemoved)
    else if env.fault == RenameFault then None
    else Some(StagedTree(fs, l, m))
  }

  // What it finds in the slot.
  function SlotToRestore(fs: Node, l: Layout, m: Manifest, env: Environment, tree: Node): Option<Node> {
    var slot := Lookup(fs, l.BackupDir(m));
    if SlotBlocked(fs, l, m) then slot
    else if BackupCompletes(fs, l, m, env) then Some(Overlay(slot, tree))
    else if tree.File? then Some(slot.GetOr(EMPTY_DIR))
    else Some(Dir(env.halfBackup))
  }

  lemma CompleteBackupMeansDirectories(fs: Node, l: Layout, m: Manifest, env: Environment, tree: Node)
    requires Separate(l, m) && Lookup(fs, l.InstallDir(m)) == Some(tree) && BackupCompletes(fs, l, m, env)
    ensures !SlotBlocked(fs, l, m) && tree.Dir? && Copyable(Lookup(fs, l.BackupDir(m)), tree)
  {
    StageEffect(fs, l, m);
    BackupEffect(WithDir(fs, l.StagingDir(m)), l, m, env);
  }

  // The state a rollback starts from, when something was installed before the run.
  lemma BeforeRollback(fs: Node, l: Layout, m: Manifest, env: Environment, tree: Node)
    requires Separate(l, m) && Lookup(fs, l.InstallDir(m)) == Some(tree)
    requires RunOutcome(fs, l, m, env).ending.Undone()
    ensures var fs1 := Activated(WithDir(fs, l.StagingDir(m)), l, m, env).0;
            && RunOutcome(fs, l, m, env).fs == Restored(fs1, l, m, env).0
            && RunOutcome(fs, l, m, env).restored == Restored(fs1, l, m, env).1
            && Lookup(fs1, l.InstallDir(m)) == InstallToUndo(fs, l, m, env, tree)
            && Lookup(fs1, l.BackupDir(m)) == SlotToRestore(fs, l, m, env, tree)
            && (Lookup(fs1, l.InstallDir(m)).Some? || CanCreateDir(fs1, l.InstallDir(m)))
  {
    hide Lookup, Put, Without, CanCreateDir, Restored, WithDir, StagedTree;
    var fs0 := WithDir(fs, l.StagingDir(m));
    StageEffect(fs, l, m);
    BackupEffect(fs0, l, m, env);
    ActivateEffect(fs0, l, m, env);
    if BackupCompletes(fs, l, m, env) {
      CompleteBackupMeansDirectories(fs, l, m, env, tree);
      ClearedPathIsCreatable(BackedUp(fs0, l, m, env).0, l.InstallDir(m));
    }
  }

  // Exactly when an undone run is restored: a directory could be made of the slot, a directory was
  // installed, and the rollback met no fault of its own.
  lemma UndoneRunIsRestoredIff(fs: Node, l: Layout, m: Manifest, env: Environment, tree: Node)
    requires Separate(l, m) && Lookup(fs, l.InstallDir(m)) == Some(tree)
    requires RunOutcome(fs, l, m, env).ending.Undone()
    ensures RunOutcome(fs, l, m, env).restored
       <==> && !SlotBlocked(fs, l, m) && tree.Dir? && env.rollbackFault != RollbackCopyFault
            && (InstallToUndo(fs, l, m, env, tree).Some? ==> env.rollbackFault != RollbackRemoveFault)
  {
    hide Lookup, CanCreateDir, Restored, Activated, WithDir;
    BeforeRollback(fs, l, m, env, tree);
    RollbackEffect(Activated(WithDir(fs, l.StagingDir(m)), l, m, env).0, l, m, env);
    BlockedSlotIsNoDirectory(fs, l, m);
    if BackupCompletes(fs, l, m, env) {
      CompleteBackupMeansDirectories(fs, l, m, env, tree);
      StageEffect(fs, l, m);
      StagedTreeIsADirectory(fs, l, m, env);
    }
  }

  lemma BlockedSlotIsNoDirectory(fs: Node, l: Layout, m: Manifest)
    ensures Separate(l, m) && SlotBlocked(fs, l, m) ==>
              Lookup(fs, l.BackupDir(m)).None? || Lookup(fs, l.BackupDir(m)).value.File?
  {
    if Separate(l, m) && SlotBlocked(fs, l, m) && Lookup(fs, l.BackupDir(m)).Some? {
      StageEffect(fs, l, m);
      if Lookup(fs, l.BackupDir(m)).value.Dir? {
        DirLookupCanBeCreated(WithDir(fs, l.StagingDir(m)), l.BackupDir(m));
      }
    }
  }

  // The condition under which a run that was undone, well or badly, leaves `tree` installed.
  predicate OldTreeSurvives(fs: Node, l: Layout, m: Manifest, env: Environment, tree: Node) {
    var slot := Lookup(fs, l.BackupDir(m));
    if tree.File? then true                                    // never backed up, never removed
    else if SlotBlocked(fs, l, m) && slot.None? then true      // nothing to roll back from
    else if InstallToUndo(fs, l, m, env, tree).Some? && env.rollbackFault == RollbackRemoveFault then
      Rest(env.halfCleared) == Some(tree)
    else if SlotBlocked(fs, l, m) then tree == EMPTY_DIR        // a file in the slot
    else if env.rollbackFault == RollbackCopyFault then tree == Dir(env.halfRestored)
    else if BackupCompletes(fs, l, m, env) then slot.None? || NamesWithin(slot.value, tree)
    else tree == Dir(env.halfBackup)
  }

  // Whatever becomes of the rollback, whose result the engine ignores: the state ends as RolledBack,
  // and the old tree is installed exactly under this condition on what was there and what failed.
  lemma UndoneRunKeepsOldTreeIff(fs: Node, l: Layout, m: Manifest, env: Environment, tree: Node)
    requires Separate(l, m) && Lookup(fs, l.InstallDir(m)) == Some(tree)
    requires RunOutcome(fs, l, m, env).ending.Undone()
    ensures RunOutcome(fs, l, m, env).ending.Final() == RolledBack
    ensures Lookup(RunOutcome(fs, l, m, env).fs, l.InstallDir(m)) == Some(tree)
       <==> OldTreeSurvives(fs, l, m, env, tree)
  {
    hide Lookup, CanCreateDir, Restored, Activated, WithDir, Overlay, Copyable, NamesWithin;
    FinalStates();
    BeforeRollback(fs, l, m, env, tree);
    RollbackEffect(Activated(WithDir(fs, l.StagingDir(m)), l, m, env).0, l, m, env);
    BlockedSlotIsNoDirectory(fs, l, m);
    if BackupCompletes(fs, l, m, env) {
      CompleteBackupMeansDirectories(fs, l, m, env, tree);
      StagedTreeIsADirectory(fs, l, m, env);
      RestoredOverlayIsTreeIff(Lookup(fs, l.BackupDir(m)), tree);
    }
  }

  lemma RestoredOverlayIsTreeIff(slot: Option<Node>, tree: Node)
    requires tree.Dir? && Copyable(slot, tree)
    ensures Overlay(slot, tree).Dir?
    ensures Overlay(slot, tree) == tree <==> slot.None? || NamesWithin(slot.value, tree)
  {
    OverlayOnNothing(tree);
    if slot.Some? {
      OverlayIsSourceIff(slot.value, tree);
    }
  }

  // With a plain file where the slot should be, a run without any fault loses the old tree: the
  // backup cannot be made, and the rollback removes the install before it fails to read the slot.
  lemma FileInTheSlotLosesTheInstall(fs: Node, l: Layout, m: Manifest, env: Environment, tree: Node)
    requires Separate(l, m) && Lookup(fs, l.InstallDir(m)) == Some(tree) && tree.Dir?
    requires Lookup(fs, l.BackupDir(m)).Some? && Lookup(fs, l.BackupDir(m)).value.File?
    requires ManifestError(m).None? && PackageError(m, env).None? && CanCreateDir(fs, l.StagingDir(m))
    requires env.fault == NoFault && env.rollbackFault == NoRollbackFault
    ensures var outcome := RunOutcome(fs, l, m, env);
            && outcome.ending.Final() == RolledBack && !outcome.restored
            && Lookup(outcome.fs, l.InstallDir(m)) == Some(EMPTY_DIR)
  {
    hide Lookup, CanCreateDir, Restored, WithDir;
    FinalStates();
    StageEffect(fs, l, m);
    FileIsNoDirectoryPath(WithDir(fs, l.StagingDir(m)), l.BackupDir(m));
    BeforeRollback(fs, l, m, env, tree);
    RollbackEffect(Activated(WithDir(fs, l.StagingDir(m)), l, m, env).0, l, m, env);
  }

  lemma {:induction false} FileIsNoDirectoryPath(fs: Node, path: Path)
    requires Lookup(fs, path).Some? && Lookup(fs, path).value.File?
    ensures !CanCreateDir(fs, path)
    decreases |path|
  {
    if path == [] {
    } else {
      FileIsNoDirectoryPath(fs.entries[path[0]], path[1..]);
    }
  }

  // A rolled-back run whose rollback succeeded: the install equals the slot, and it is the old
  // tree exactly when the backup had been copied in full over a slot that held no foreign name,
  // or the interrupted copy happens to have been complete.
  lemma RolledBackRunRestoresIff(fs: Node, l: Layout, m: Manifest, env: Environment, tree: Node)
    requires Separate(l, m) && Lookup(fs, l.InstallDir(m)) == Some(tree)
    requires RunOutcome(fs, l, m, env).ending.Undone() && RunOutcome(fs, l, m, env).restored
    ensures var fs', slot := RunOutcome(fs, l, m, env).fs, Lookup(fs, l.BackupDir(m));
            && Lookup(fs', l.InstallDir(m)) == Lookup(fs', l.BackupDir(m))
            && (Lookup(fs', l.InstallDir(m)) == Some(tree)
                <==> if BackupCompletes(fs, l, m, env) then slot.None? || NamesWithin(slot.value, tree)
                     else tree == Dir(env.halfBackup))
  {
    hide Lookup, CanCreateDir, Restored, Activated, WithDir, NamesWithin;
    BeforeRollback(fs, l, m, env, tree);
    RollbackEffect(Activated(WithDir(fs, l.StagingDir(m)), l, m, env).0, l, m, env);
    UndoneRunIsRestoredIff(fs, l, m, env, tree);
    UndoneRunKeepsOldTreeIff(fs, l, m, env, tree);
  }

  lemma {:induction false} DirLookupCanBeCreated(fs: Node, path: Path)
    requires Lookup(fs, path).Some? && Lookup(fs, path).value.Dir?
    ensures CanCreateDir(fs, path)
    decreases |path|
  {
    if path == [] {
    } else {
      DirLookupCanBeCreated(fs.entries[path[0]], path[1..]);
    }
  }

  // Staging having succeeded, a directory is staged.
  lemma StagedTreeIsADirectory(fs: Node, l: Layout, m: Manifest, env: Environment)
    requires RunOutcome(fs, l, m, env).ending.Done? || RunOutcome(fs, l, m, env).ending.Undone()
    ensures StagedTree(fs, l, m).Dir?
  {
    if Lookup(fs, l.StagingDir(m)).Some? && Lookup(fs, l.StagingDir(m)).value.File? {
      FileIsNoDirectoryPath(fs, l.StagingDir(m));
    }
  }

  // The promise as documented: with the slot unused and the backup complete, a run that fails in
  // remove, rename or post-check and rolls back leaves the old tree installed.
  lemma FailedRunRestoresOldTree(fs: Node, l: Layout, m: Manifest, env: Environment, tree: Node)
    requires Separate(l, m)
    requires Lookup(fs, l.InstallDir(m)) == Some(tree) && Lookup(fs, l.BackupDir(m)) == None
    requires BackupCompletes(fs, l, m, env)
    requires RunOutcome(fs, l, m, env).ending.Undone() && RunOutcome(fs, l, m, env).restored
    ensures Lookup(RunOutcome(fs, l, m, env).fs, l.InstallDir(m)) == Some(tree)
    ensures Lookup(RunOutcome(fs, l, m, env).fs, l.BackupDir(m)) == Some(tree)
  {
    RolledBackRunRestoresIff(fs, l, m, env, tree);
  }

  // --------------------------------------------------- nothing installed before

  // With nothing to back up or remove, activation fails by the rename alone.
  predicate FirstActivationFails(fs: Node, l: Layout, m: Manifest, env: Environment) {
    var parent := Lookup(WithDir(fs, l.StagingDir(m)), l.installRoot);
    env.fault == RenameFault || parent.None? || parent.value.File?
  }

  lemma BeforeRollbackOfFirstInstall(fs: Node, l: Layout, m: Manifest, env: Environment)
    requires Separate(l, m) && Lookup(fs, l.InstallDir(m)) == None
    requires RunOutcome(fs, l, m, env).ending.Undone()
    ensures var outcome, fs0 := RunOutcome(fs, l, m, env), WithDir(fs, l.StagingDir(m));
            var fs1, failed := Activated(fs0, l, m, env).0, FirstActivationFails(fs, l, m, env);
            && outcome.fs == Restored(fs1, l, m, env).0 && outcome.restored == Restored(fs1, l, m, env).1
            && (outcome.ending.NotActivated? <==> failed)
            && (failed ==> fs1 == fs0)
            && Lookup(fs1, l.InstallDir(m)) == (if failed then None else Some(StagedTree(fs, l, m)))
            && Lookup(fs1, l.BackupDir(m)) == Lookup(fs, l.BackupDir(m))
  {
    hide Lookup, Put, Without, CanCreateDir, Restored, WithDir, StagedTree;
    var fs0 := WithDir(fs, l.StagingDir(m));
    StageEffect(fs, l, m);
    BackupEffect(fs0, l, m, env);
    ActivateEffect(fs0, l, m, env);
    WithoutNothing(fs0, l.InstallDir(m));
  }

  // What an undone run leaves where nothing was installed: what the slot holds, if there is a slot and
  // the rollback gets through.
  function FirstInstallAfterUndone(fs: Node, l: Layout, m: Manifest, env: Environment): Option<Node> {
    var found := if FirstActivationFails(fs, l, m, env) then None else Some(StagedTree(fs, l, m));
    var creatable := CanCreateDir(WithDir(fs, l.StagingDir(m)), l.InstallDir(m));
    InstallAfterRollback(found, creatable, Lookup(fs, l.BackupDir(m)), env)
  }

  // Exactly when an undone run over an empty install path leaves it empty. After a failed activation:
  // when there is no slot to restore from, or no room to restore to. After a failed post-check: when
  // there is a slot, and the rollback stops with nothing left of what it removes.
  lemma UndoneFirstInstallIsGoneIff(fs: Node, l: Layout, m: Manifest, env: Environment)
    requires Separate(l, m) && Lookup(fs, l.InstallDir(m)) == None
    requires RunOutcome(fs, l, m, env).ending.Undone()
    ensures var outcome, slot := RunOutcome(fs, l, m, env), Lookup(fs, l.BackupDir(m));
            && outcome.ending.Final() == RolledBack
            && Lookup(outcome.fs, l.InstallDir(m)) == FirstInstallAfterUndone(fs, l, m, env)
            && (Lookup(outcome.fs, l.InstallDir(m)) == None
                <==> if FirstActivationFails(fs, l, m, env)
                     then slot.None? || !CanCreateDir(WithDir(fs, l.StagingDir(m)), l.InstallDir(m))
                     else slot.Some? && env.rollbackFault == RollbackRemoveFault && env.halfCleared.None?)
  {
    hide Lookup, CanCreateDir, Restored, Activated, WithDir, StagedTree, FirstActivationFails, EarlyEnding;
    hide Ending.Final;
    FinalStates();
    BeforeRollbackOfFirstInstall(fs, l, m, env);
    StagedTreeIsADirectory(fs, l, m, env);
    var fs0 := WithDir(fs, l.StagingDir(m));
    RollbackEffect(Activated(fs0, l, m, env).0, l, m, env);
  }

  // In particular over an unused slot: nothing is restored, and a tree that was activated stays.
  lemma FirstInstallIsNotUndone(fs: Node, l: Layout, m: Manifest, env: Environment)
    requires Separate(l, m)
    requires Lookup(fs, l.InstallDir(m)) == None && Lookup(fs, l.BackupDir(m)) == None
    requires RunOutcome(fs, l, m, env).ending.Undone()
    ensures var outcome := RunOutcome(fs, l, m, env);
            && !outcome.restored
            && Lookup(outcome.fs, l.InstallDir(m))
               == if outcome.ending.NotHealthy? then Some(StagedTree(fs, l, m)) else None
  {
    hide Lookup, CanCreateDir, Restored, Activated, WithDir;
    BeforeRollbackOfFirstInstall(fs, l, m, env);
    RollbackEffect(Activated(WithDir(fs, l.StagingDir(m)), l, m, env).0, l, m, env);
  }

  // A first install that fails in the rename, with a directory where its slot would be: the rollback
  // succeeds, and installs the content of the slot where nothing was.
  lemma FailedFirstInstallInstallsTheSlot(fs: Node, l: Layout, m: Manifest, env: Environment)
    requires Separate(l, m) && Lookup(fs, l.InstallDir(m)) == None
    requires Lookup(fs, l.BackupDir(m)).Some? && Lookup(fs, l.BackupDir(m)).value.Dir?
    requires EarlyEnding(fs, l, m, env).None? && env.fault == RenameFault && env.rollbackFault == NoRollbackFault
    requires CanCreateDir(WithDir(fs, l.StagingDir(m)), l.InstallDir(m))
    ensures var outcome := RunOutcome(fs, l, m, env);
            && outcome.ending.Final() == RolledBack && outcome.restored
            && Lookup(outcome.fs, l.InstallDir(m)) == Lookup(fs, l.BackupDir(m))
  {
    hide Lookup, CanCreateDir, Restored, WithDir, EarlyEnding;
    FinalStates();
    BeforeRollbackOfFirstInstall(fs, l, m, env);
    RollbackEffect(Activated(WithDir(fs, l.StagingDir(m)), l, m, env).0, l, m, env);
  }

  // A manifest without a from-version has the parent of all earlier slots as its slot: the old
  // backups themselves, each under its version, end up at the install path.
  lemma FailedFirstInstallInstallsAllBackups(
    fs: Node, l: Layout, m: Manifest, env: Environment, earlier: Manifest)
    requires Separate(l, m) && Lookup(fs, l.InstallDir(m)) == None
    requires m.fromVersion == "" && earlier.fromVersion != "" && earlier.appId == m.appId
    requires Lookup(fs, l.BackupDir(earlier)).Some?
    requires EarlyEnding(fs, l, m, env).None? && env.fault == RenameFault && env.rollbackFault == NoRollbackFault
    requires CanCreateDir(WithDir(fs, l.StagingDir(m)), l.InstallDir(m))
    ensures Lookup(RunOutcome(fs, l, m, env).fs, l.InstallDir(m) + [earlier.fromVersion])
         == Lookup(fs, l.BackupDir(earlier))
  {
    assert l.BackupDir(earlier) == l.BackupDir(m) + [earlier.fromVersion];
    ParentIsADirectory(fs, l.BackupDir(m), earlier.fromVersion);
    FailedFirstInstallInstallsTheSlot(fs, l, m, env);
    var fs' := RunOutcome(fs, l, m, env).fs;
    LookupBelow(fs, l.BackupDir(m), [earlier.fromVersion]);
    LookupBelow(fs', l.InstallDir(m), [earlier.fromVersion]);
  }

  lemma {:induction false} ParentIsADirectory(fs: Node, parent: Path, name: string)
    requires Lookup(fs, parent + [name]).Some?
    ensures Lookup(fs, parent).Some? && Lookup(fs, parent).value.Dir?
    decreases |parent|
  {
    if parent == [] {
    } else {
      assert (parent + [name])[1..] == parent[1..] + [name];
      ParentIsADirectory(Child(fs, parent[0]).value, parent[1..], name);
    }
  }

  // The persisted record of the run's own application ends with the final state; the record of
  // the application upgraded before it is set back to Received, even if it had been Committed.
  lemma PreviousRecordFallsBack(records: Records, previous: Manifest, m: Manifest, last: UpgradeState, app: string)
    ensures var after := RecordsAfter(records, Some(previous), m, last);
            && after[m.appId] == StateRecord(m.toVersion, last)
            && (app != m.appId && app == previous.appId ==> after[app] == StateRecord(previous.toVersion, Received))
            && (app != m.appId && app != previous.appId ==>
                  (app in after <==> app in records) && (app in records ==> after[app] == records[app]))
  {
  }

  // Exactly when the backup gets copied in full: nothing is installed, or a directory is, the slot can
  // be a directory, no fault interrupts the copy, and no file and directory meet in it.
  lemma BackupCompletesIff(fs: Node, l: Layout, m: Manifest, env: Environment)
    requires Separate(l, m)
    ensures var install, slot := Lookup(fs, l.InstallDir(m)), Lookup(fs, l.BackupDir(m));
            BackupCompletes(fs, l, m, env)
            <==> install.None? || (&& install.value.Dir? && !SlotBlocked(fs, l, m) && env.fault != BackupFault
                                   && Copyable(slot, install.value))
  {
    hide Lookup, Overlay, CanCreateDir, WithDir;
    var fs0 := WithDir(fs, l.StagingDir(m));
    StageEffect(fs, l, m);
    SlotOnceCreated(fs0, l, m);
  }

  lemma SlotOnceCreated(fs: Node, l: Layout, m: Manifest)
    ensures Lookup(WithDir(fs, l.BackupDir(m)), l.BackupDir(m)) == Some(Lookup(fs, l.BackupDir(m)).GetOr(EMPTY_DIR))
    ensures forall tree: Node :: tree.Dir? ==> Copyable(Some(EMPTY_DIR), tree)
  {
    LookupPutSame(fs, l.BackupDir(m), EMPTY_DIR);
  }

  // Exactly how a run ends that got as far as activation. It is committed when the backup completes,
  // the staged tree can be moved, and the post-check passes.
  lemma RunCommitsIff(fs: Node, l: Layout, m: Manifest, env: Environment)
    requires Separate(l, m)
    requires RunOutcome(fs, l, m, env).ending.Done? || RunOutcome(fs, l, m, env).ending.Undone()
    ensures var ending := RunOutcome(fs, l, m, env).ending;
            var install, slot := Lookup(fs, l.InstallDir(m)), Lookup(fs, l.BackupDir(m));
            var activates := if install.Some? then
                               && install.value.Dir? && !SlotBlocked(fs, l, m) && Copyable(slot, install.value)
                               && env.fault !in {BackupFault, RemoveFault, RenameFault}
                             else !FirstActivationFails(fs, l, m, env);
            && (ending.Done? <==> activates && env.fault != PostCheckFault)
            && (ending.NotHealthy? <==> activates && env.fault == PostCheckFault)
            && (ending.NotActivated? <==> !activates)
  {
    hide Lookup, Put, Without, Overlay, CanCreateDir, WithDir, Restored, StagedTree;
    var fs0 := WithDir(fs, l.StagingDir(m));
    StageEffect(fs, l, m);
    BackupCompletesIff(fs, l, m, env);
    ActivateEffect(fs0, l, m, env);
    BackupEffect(fs0, l, m, env);
    if Lookup(fs0, l.InstallDir(m)) == None {
      WithoutNothing(fs0, l.InstallDir(m));
    }
  }

  // ------------------------------------------------------------ many upgrades

  // One upgrade: the package is unpacked into the staging directory, then the engine runs.
  datatype UpgradeJob = UpgradeJob(manifest: Manifest, staged: Node, env: Environment)

  function AfterJob(fs: Node, l: Layout, job: UpgradeJob): Outcome {
    RunOutcome(Put(fs, l.StagingDir(job.manifest), job.staged), l, job.manifest, job.env)
  }

  function AfterJobs(fs: Node, l: Layout, jobs: seq<UpgradeJob>): Node
    decreases |jobs|
  {
    if jobs == [] then fs else AfterJobs(AfterJob(fs, l, jobs[0]).fs, l, jobs[1..])
  }

  predicate AllCommit(fs: Node, l: Layout, jobs: seq<UpgradeJob>)
    decreases |jobs|
  {
    jobs == [] || (AfterJob(fs, l, jobs[0]).ending.Done? && AllCommit(AfterJob(fs, l, jobs[0]).fs, l, jobs[1..]))
  }

  // The tree installed just before job i.
  function InstalledBefore(fs: Node, l: Layout, jobs: seq<UpgradeJob>, i: nat): Option<Node>
    requires i < |jobs|
    decreases |jobs|
  {
    if i == 0 then Lookup(fs, l.InstallDir(jobs[0].manifest))
    else InstalledBefore(AfterJob(fs, l, jobs[0]).fs, l, jobs[1..], i - 1)
  }

  // Jobs for one application, each from a version of its own.
  ghost predicate OneAppDistinctVersions(app: string, jobs: seq<UpgradeJob>) {
    && (forall i | 0 <= i < |jobs| :: jobs[i].manifest.appId == app && jobs[i].manifest.fromVersion != "")
    && (forall i, j | 0 <= i < j < |jobs| :: jobs[i].manifest.fromVersion != jobs[j].manifest.fromVersion)
  }

  lemma SlotsAreElsewhere(l: Layout, m: Manifest, other: Manifest)
    requires l.RootsApart() && m.appId == other.appId
    requires m.fromVersion != "" && other.fromVersion != "" && m.fromVersion != other.fromVersion
    ensures Elsewhere(l, other, l.BackupDir(m))
  {
    ApartRootsSeparate(l, m);
    var a, b := l.BackupDir(m), l.BackupDir(other);
    assert |a| == |b| && a[|a| - 1] != b[|b| - 1];
    assert l.InstallDir(m) == l.InstallDir(other) && l.StagingDir(m) == l.StagingDir(other);
  }

  lemma JobLeavesOtherSlots(fs: Node, l: Layout, job: UpgradeJob, m: Manifest)
    requires l.RootsApart() && m.appId == job.manifest.appId
    requires m.fromVersion != "" && job.manifest.fromVersion != "" && m.fromVersion != job.manifest.fromVersion
    ensures Lookup(AfterJob(fs, l, job).fs, l.BackupDir(m)) == Lookup(fs, l.BackupDir(m))
  {
    ApartRootsSeparate(l, job.manifest);
    SlotsAreElsewhere(l, m, job.manifest);
    PutEffect(fs, l.StagingDir(job.manifest), job.staged);
    RunTouchesOnlyItsDirectories(
      Put(fs, l.StagingDir(job.manifest), job.staged), l, job.manifest, job.env, l.BackupDir(m));
  }

  lemma {:induction false} JobsLeaveOtherSlots(fs: Node, l: Layout, jobs: seq<UpgradeJob>, m: Manifest)
    requires l.RootsApart() && m.fromVersion != "" && OneAppDistinctVersions(m.appId, jobs)
    requires forall i | 0 <= i < |jobs| :: jobs[i].manifest.fromVersion != m.fromVersion
    ensures Lookup(AfterJobs(fs, l, jobs), l.BackupDir(m)) == Lookup(fs, l.BackupDir(m))
    decreases |jobs|
  {
    if jobs == [] {
    } else {
      JobLeavesOtherSlots(fs, l, jobs[0], m);
      JobsLeaveOtherSlots(AfterJob(fs, l, jobs[0]).fs, l, jobs[1..], m);
    }
  }

  lemma CommittedJob(fs: Node, l: Layout, job: UpgradeJob, tree: Node)
    requires l.RootsApart() && AfterJob(fs, l, job).ending.Done?
    requires Lookup(fs, l.InstallDir(job.manifest)) == Some(tree) && Lookup(fs, l.BackupDir(job.manifest)) == None
    ensures var fs' := AfterJob(fs, l, job).fs;
            && Lookup(fs', l.InstallDir(job.manifest)) == Some(job.staged)
            && Lookup(fs', l.BackupDir(job.manifest)) == Some(tree)
  {
    var m := job.manifest;
    ApartRootsSeparate(l, m);
    PutEffect(fs, l.StagingDir(m), job.staged);
    CommittedRunSwapsAndKeeps(Put(fs, l.StagingDir(m), job.staged), l, m, job.env, tree);
  }

  // Along any chain of committed upgrades with distinct from-versions, every slot keeps the tree
  // that was installed just before its upgrade: the first one the tree found there, each later
  // one the tree staged by the upgrade before.
  lemma {:induction false} EverySlotKeepsItsTree(
    fs: Node, l: Layout, app: string, jobs: seq<UpgradeJob>, i: nat)
    requires l.RootsApart() && OneAppDistinctVersions(app, jobs) && AllCommit(fs, l, jobs) && i < |jobs|
    requires Lookup(fs, l.installRoot + [app]).Some?
    requires forall j | 0 <= j < |jobs| :: Lookup(fs, l.BackupDir(jobs[j].manifest)) == None
    ensures Lookup(AfterJobs(fs, l, jobs), l.BackupDir(jobs[i].manifest)) == InstalledBefore(fs, l, jobs, i)
    ensures InstalledBefore(fs, l, jobs, i)
         == if i == 0 then Lookup(fs, l.installRoot + [app]) else Some(jobs[i - 1].staged)
    decreases |jobs|
  {
    hide AfterJob, Lookup;
    var job, rest := jobs[0], jobs[1..];
    var fs' := AfterJob(fs, l, job).fs;
    CommittedJob(fs, l, job, Lookup(fs, l.installRoot + [app]).value);
    if i == 0 {
      JobsLeaveOtherSlots(fs', l, rest, job.manifest);
    } else {
      forall j | 0 <= j < |rest| ensures Lookup(fs', l.BackupDir(rest[j].manifest)) == None {
        assert rest[j] == jobs[j + 1];
        JobLeavesOtherSlots(fs, l, job, rest[j].manifest);
      }
      EverySlotKeepsItsTree(fs', l, app, rest, i - 1);
    }
  }
}
