/**
  The public gateway script: stage, activate and roll back a Caddy site, keeping the original
  Caddyfile recoverable when the script is killed between any two file-system steps
  (scripts/deploy_public_sdk_gateway.py).
 */
module PublicGateway {
  import opened Wrappers

  type Bytes = string

  /** What an activated Caddyfile has after the original. */
  const IMPORT: Bytes := "\nimport /etc/caddy/marketcow-sdk-public.caddy\n"

  datatype Target = CaddyTarget | FragmentTarget | SshdTarget

  /** `leftovers` are the targets whose temporary file exists. */
  datatype Disk = Disk(
    caddy: Bytes,
    backup: Option<Bytes>,
    fragment: Option<Bytes>,
    sshd: Option<Bytes>,
    leftovers: set<Target>)
  {
    function Put(target: Target, data: Bytes): Disk {
      match target
      case CaddyTarget => this.(caddy := data)
      case FragmentTarget => this.(fragment := Some(data))
      case SshdTarget => this.(sshd := Some(data))
    }
  }

  /** A disk, and how many more file-system steps happen before the script is killed. */
  datatype Machine = Machine(disk: Disk, steps: nat)

  datatype Status = Done | Raised | Killed

  /**
    What the commands the script runs answer, when it is killed, and how much of a first backup reaches the disk
    then.
   */
  datatype Env = Env(steps: nat, torn: nat, account: bool, sshdAccepts: bool, healthy: bool, adapts: bool,
                     process: bool, reloads: bool)

  datatype Command = Stage(sshdBody: Bytes) | Activate(body: Bytes) | Rollback

  /** Atomic replacement through an exclusively created temporary. */
  function Save(m: Machine, target: Target, data: Bytes): (Machine, Status) {
    if m.steps == 0 then (m, Killed)
    else if target in m.disk.leftovers then (m, Raised)
    else if m.steps == 1 then (Machine(m.disk.(leftovers := m.disk.leftovers + {target}), 0), Killed)
    else (Machine(m.disk.Put(target, data), m.steps - 2), Done)
  }

  /** The backup is written in place, once: a kill can leave a prefix of it. */
  function BackUp(m: Machine, torn: nat): (Machine, Status) {
    if m.disk.backup.Some? then (m, Done)
    else if m.steps == 0 then (m, Killed)
    else if m.steps == 1 then
      var written := if torn <= |m.disk.caddy| then m.disk.caddy[..torn] else m.disk.caddy;
      (Machine(m.disk.(backup := Some(written)), 0), Killed)
    else (Machine(m.disk.(backup := Some(m.disk.caddy)), m.steps - 2), Done)
  }

  function StageSteps(m: Machine, body: Bytes, e: Env): (Machine, Status) {
    if m.disk.backup.None? && (m.disk.fragment.Some? || m.disk.sshd.Some?) then (m, Raised)
    else
      var (saved, status) := BackUp(m, e.torn);
      if status != Done then (saved, status)
      else if !e.account then (saved, Raised)
      else if saved.disk.sshd.Some? then
          (saved, if saved.disk.sshd.value == body && e.sshdAccepts then Done else Raised)
      else
        var (written, outcome) := Save(saved, SshdTarget, body);
        (written, if outcome != Done then outcome else if e.sshdAccepts then Done else Raised)
  }

  /** Everything of an activation up to the reload. */
  function InstallSteps(m: Machine, body: Bytes, original: Bytes): (Machine, Status) {
    if m.disk.fragment.Some? && m.disk.fragment.value != body then (m, Raised)
    else
      var (written, status) := if m.disk.fragment.Some? then (m, Done) else Save(m, FragmentTarget, body);
      if status != Done then (written, status)
      else if written.disk.caddy == original + IMPORT then (written, Done)
      else Save(written, CaddyTarget, original + IMPORT)
  }

  function ActivateSteps(m: Machine, body: Bytes, e: Env): (Machine, Status) {
    if m.disk.backup.None? || !e.healthy || !e.process then (m, Raised)
    else
      var original := m.disk.backup.value;
      if m.disk.caddy != original && m.disk.caddy != original + IMPORT then (m, Raised)
      else if !e.adapts then (m, Raised)
      else
        var (installed, status) := InstallSteps(m, body, original);
        if status != Done || e.reloads then (installed, status)
        else
          var (restored, outcome) := Save(installed, CaddyTarget, original);
          (restored, if outcome == Done then Raised else outcome)
  }

  function RollbackSteps(m: Machine, e: Env): (Machine, Status) {
    if m.disk.backup.None? then (m, Raised)
    else
      var original := m.disk.backup.value;
      if m.disk.caddy != original && m.disk.caddy != original + IMPORT then (m, Raised)
      else if !e.process then (m, Raised)
      else
        var (restored, status) := Save(m, CaddyTarget, original);
        (restored, if status != Done then status else if e.reloads then Done else Raised)
  }

  function Perform(disk: Disk, command: Command, e: Env): (Disk, Status) {
    var m := Machine(disk, e.steps);
    var (after, status) := match command
      case Stage(body) => StageSteps(m, body, e)
      case Activate(body) => ActivateSteps(m, body, e)
      case Rollback => RollbackSteps(m, e);
    (after.disk, status)
  }

  // ---------- the program ----------

  class Host {
    var caddy: Bytes
    var backup: Option<Bytes>
    var fragment: Option<Bytes>
    var sshd: Option<Bytes>
    var leftovers: set<Target>
    var steps: nat

    ghost function View(): Machine
      reads this
    {
      Machine(Disk(caddy, backup, fragment, sshd, leftovers), steps)
    }

    constructor (disk: Disk, steps: nat)
      ensures View() == Machine(disk, steps)
    {
      caddy, backup, fragment, sshd, leftovers := disk.caddy, disk.backup, disk.fragment, disk.sshd, disk.leftovers;
      this.steps := steps;
    }

    method SaveFile(target: Target, data: Bytes) returns (status: Status)
      modifies this
      ensures (View(), status) == Save(old(View()), target, data)
    {
      if steps == 0 { return Killed; }
      if target in leftovers { return Raised; }
      leftovers := leftovers + {target};
      steps := steps - 1;
      if steps == 0 { return Killed; }
      match target {
        case CaddyTarget => caddy := data;
        case FragmentTarget => fragment := Some(data);
        case SshdTarget => sshd := Some(data);
      }
      leftovers := leftovers - {target};
      steps := steps - 1;
      assert leftovers == old(leftovers);
      status := Done;
    }

    method BackUpCaddy(torn: nat) returns (status: Status)
      modifies this
      ensures (View(), status) == BackUp(old(View()), torn)
    {
      if backup.Some? { return Done; }
      if steps == 0 { return Killed; }
      steps := steps - 1;
      if steps == 0 {
        backup := Some(if torn <= |caddy| then caddy[..torn] else caddy);
        return Killed;
      }
      backup := Some(caddy);
      steps := steps - 1;
      status := Done;
    }

    method DoStage(body: Bytes, e: Env) returns (status: Status)
      modifies this
      ensures (View(), status) == StageSteps(old(View()), body, e)
    {
      if backup.None? && (fragment.Some? || sshd.Some?) { return Raised; }
      status := BackUpCaddy(e.torn);
      if status != Done { return; }
      if !e.account { return Raised; }
      if sshd.Some? {
        if sshd.value != body { return Raised; }
      } else {
        status := SaveFile(SshdTarget, body);
        if status != Done { return; }
      }
      status := if e.sshdAccepts then Done else Raised;
    }

    method Install(body: Bytes, original: Bytes) returns (status: Status)
      modifies this
      ensures (View(), status) == InstallSteps(old(View()), body, original)
    {
      if fragment.Some? {
        if fragment.value != body { return Raised; }
      } else {
        status := SaveFile(FragmentTarget, body);
        if status != Done { return; }
      }
      status := Done;
      if caddy != original + IMPORT {
        status := SaveFile(CaddyTarget, original + IMPORT);
      }
    }

    method DoActivate(body: Bytes, e: Env) returns (status: Status)
      modifies this
      ensures (View(), status) == ActivateSteps(old(View()), body, e)
    {
      if backup.None? || !e.healthy || !e.process { return Raised; }
      var original := backup.value;
      if caddy != original && caddy != original + IMPORT { return Raised; }
      if !e.adapts { return Raised; }
      status := Install(body, original);
      if status == Done && !e.reloads {
        status := SaveFile(CaddyTarget, original);
        if status == Done { status := Raised; }
      }
    }

    method DoRollback(e: Env) returns (status: Status)
      modifies this
      ensures (View(), status) == RollbackSteps(old(View()), e)
    {
      if backup.None? { return Raised; }
      var original := backup.value;
      if caddy != original && caddy != original + IMPORT { return Raised; }
      if !e.process { return Raised; }
      status := SaveFile(CaddyTarget, original);
      if status == Done && !e.reloads { status := Raised; }
    }
  }

  // ---------- histories ----------

  datatype Event = Event(command: Command, env: Env)

  function Replay(disk: Disk, history: seq<Event>): Disk
    decreases |history|
  {
    if history == [] then disk
    else Replay(Perform(disk, history[0].command, history[0].env).0, history[1..])
  }

  ghost predicate EndsWithImport(original: Bytes) {
    exists p :: p + IMPORT == original
  }

  /** What a single action may change: the backup, the fragment and the SSH file are written once. */
  ghost predicate WriteOnce(before: Disk, after: Disk) {
    && (before.backup.Some? ==> after.backup == before.backup)
    && (before.fragment.Some? ==> after.fragment == before.fragment)
    && (before.sshd.Some? ==> after.sshd == before.sshd)
    && before.leftovers <= after.leftovers
  }

  lemma PerformWritesOnce(disk: Disk, command: Command, e: Env)
    ensures WriteOnce(disk, Perform(disk, command, e).0)
  {
  }

  /** Over any history, kills included, backup, fragment and SSH file never change once they exist. */
  lemma {:induction false} HistoryWritesOnce(disk: Disk, history: seq<Event>)
    ensures WriteOnce(disk, Replay(disk, history))
    decreases |history|
  {
    if history != [] {
      PerformWritesOnce(disk, history[0].command, history[0].env);
      HistoryWritesOnce(Perform(disk, history[0].command, history[0].env).0, history[1..]);
    }
  }

  /** A Caddyfile that is neither the backed-up original nor its activated form was edited by someone else. */
  ghost predicate Foreign(disk: Disk) {
    disk.backup.Some? && disk.caddy != disk.backup.value && disk.caddy != disk.backup.value + IMPORT
  }

  lemma {:induction false} ForeignEditsSurvive(disk: Disk, history: seq<Event>)
    requires Foreign(disk)
    ensures Replay(disk, history).caddy == disk.caddy && Replay(disk, history).backup == disk.backup
    decreases |history|
  {
    if history != [] {
      ForeignEditsSurvive(Perform(disk, history[0].command, history[0].env).0, history[1..]);
    }
  }

  // ---------- crash safety ----------

  ghost predicate IsPrefix(p: Bytes, s: Bytes) {
    |p| <= |s| && s[..|p|] == p
  }

  /** Where the script can have left the Caddyfile, its backup and the fragment. */
  ghost predicate Recoverable(disk: Disk, original: Bytes) {
    match disk.backup
    case None => disk.caddy == original
    case Some(b) =>
      && IsPrefix(b, original)
      && (disk.caddy == original || (b == original && disk.caddy == original + IMPORT && disk.fragment.Some?))
  }

  lemma ImportIsNew(original: Bytes)
    ensures original != original + IMPORT
  {
    assert |IMPORT| > 0;
  }

  lemma TornBackupIsForeign(disk: Disk, original: Bytes)
    requires Recoverable(disk, original) && !EndsWithImport(original)
    requires disk.backup.Some? && disk.backup.value != original
    ensures Foreign(disk)
  {
  }

  lemma PerformStaysRecoverable(disk: Disk, command: Command, e: Env, original: Bytes)
    requires Recoverable(disk, original) && !EndsWithImport(original)
    ensures Recoverable(Perform(disk, command, e).0, original)
  {
    if disk.backup.Some? && disk.backup.value != original {
      TornBackupIsForeign(disk, original);
    }
    ImportIsNew(original);
  }

  lemma {:induction false} HistoryStaysRecoverable(disk: Disk, history: seq<Event>, original: Bytes)
    requires Recoverable(disk, original) && !EndsWithImport(original)
    ensures Recoverable(Replay(disk, history), original)
    decreases |history|
  {
    if history != [] {
      PerformStaysRecoverable(disk, history[0].command, history[0].env, original);
      HistoryStaysRecoverable(Perform(disk, history[0].command, history[0].env).0, history[1..], original);
    }
  }

  /** After any history the Caddyfile is the original, or the original with the import of an existing fragment. */
  ghost predicate CaddySafe(disk: Disk, original: Bytes) {
    disk.caddy == original || (disk.caddy == original + IMPORT && disk.fragment.Some? && disk.backup == Some(original))
  }

  /**
    Crash safety, exactly: starting from an untouched host that could be staged, every history
    of actions -- each killed at any file-system step or failing at any command -- leaves the
    Caddyfile as the original or the original with the import, if and only if the original
    does not itself end with the import line.
   */
  lemma CrashSafetyExactly(original: Bytes)
    ensures (forall history: seq<Event> :: CaddySafe(Replay(Fresh(original), history), original)) <==>
        !EndsWithImport(original)
  {
    if EndsWithImport(original) {
      var history := TornBackupLosesImport(original);
    } else {
      forall history: seq<Event> ensures CaddySafe(Replay(Fresh(original), history), original) {
        HistoryStaysRecoverable(Fresh(original), history, original);
      }
    }
  }

  function Fresh(original: Bytes): Disk {
    Disk(original, None, None, None, {})
  }

  /** A first backup cut off just before the import line makes the next rollback drop that line. */
  lemma TornBackupLosesImport(original: Bytes) returns (history: seq<Event>)
    requires EndsWithImport(original)
    ensures !CaddySafe(Replay(Fresh(original), history), original)
  {
    var p :| p + IMPORT == original;
    var cut := Event(Stage(""), Env(1, |p|, true, true, true, true, true, true));
    var undo := Event(Rollback, Env(2, 0, true, true, true, true, true, true));
    history := [cut, undo];
    assert original[..|p|] == p;
    ImportIsNew(p);
    var torn := Disk(original, Some(p), None, None, {});
    assert Perform(Fresh(original), cut.command, cut.env).0 == torn;
    var undone := torn.(caddy := p);
    assert Perform(torn, undo.command, undo.env).0 == undone;
    assert history[1..] == [undo];
    assert Replay(Fresh(original), history) == Replay(torn, [undo]) == Replay(undone, []) == undone;
  }

  // ---------- what a completed action means ----------

  /** File-system steps of a stage: the first one writes a backup, and the SSH file is written if it is missing. */
  function StageWrites(disk: Disk): nat {
    (if disk.backup.None? then 2 else 0) + (if disk.sshd.None? then 2 else 0)
  }

  /**
    A stage completes exactly on a host it owns, with the account, a valid SSH file and enough steps; then the
    Caddyfile it first saw is backed up, the SSH file is the requested one, and nothing else has changed.
   */
  lemma StageCompletesIff(disk: Disk, body: Bytes, e: Env)
    ensures Perform(disk, Stage(body), e).1 == Done <==>
            && (disk.backup.None? ==> disk.fragment.None? && disk.sshd.None?)
            && (if disk.sshd.Some? then disk.sshd.value == body else SshdTarget !in disk.leftovers)
            && e.account && e.sshdAccepts && e.steps >= StageWrites(disk)
    ensures Perform(disk, Stage(body), e).1 == Done ==>
            Perform(disk, Stage(body), e).0 ==
            disk.(backup := if disk.backup.Some? then disk.backup else Some(disk.caddy), sshd := Some(body))
  {
  }

  /**
    A stage of a host it owns that is not killed leaves exactly this, whether or not it completes: the first backup,
    and, with the account and without a temporary in the way, the SSH file where there was none.
   */
  lemma StageLeaves(disk: Disk, body: Bytes, e: Env)
    requires disk.backup.None? ==> disk.fragment.None? && disk.sshd.None?
    requires e.steps >= StageWrites(disk)
    ensures Perform(disk, Stage(body), e).0 ==
            disk.(backup := if disk.backup.Some? then disk.backup else Some(disk.caddy),
                  sshd := if disk.sshd.None? && e.account && SshdTarget !in disk.leftovers then Some(body)
                          else disk.sshd)
  {
  }

  /** What an activation asks of the host before it changes anything. */
  ghost predicate Activatable(disk: Disk, body: Bytes, e: Env) {
    && disk.backup.Some? && !Foreign(disk) && e.healthy && e.process && e.adapts
    && (if disk.fragment.Some? then disk.fragment.value == body else FragmentTarget !in disk.leftovers)
  }

  /** File-system steps up to the reload: the fragment and the Caddyfile are written if they differ. */
  function InstallWrites(disk: Disk): nat
    requires disk.backup.Some?
  {
    (if disk.fragment.None? then 2 else 0) + (if disk.caddy == disk.backup.value + IMPORT then 0 else 2)
  }

  /** An activation completes exactly then, and leaves the import of the requested fragment and nothing else new. */
  lemma ActivationCompletesIff(disk: Disk, body: Bytes, e: Env)
    ensures Perform(disk, Activate(body), e).1 == Done <==>
            && Activatable(disk, body, e) && e.reloads && e.steps >= InstallWrites(disk)
            && (disk.caddy == disk.backup.value + IMPORT || CaddyTarget !in disk.leftovers)
    ensures Perform(disk, Activate(body), e).1 == Done ==>
            Perform(disk, Activate(body), e).0 ==
            disk.(caddy := disk.backup.value + IMPORT, fragment := Some(body))
  {
  }

  /**
    When the reload of an activation fails and no temporary is in the way, it raises with the original back in
    place exactly if the steps last for two more; with fewer it is killed on the way.
   */
  lemma FailedReloadRestores(disk: Disk, body: Bytes, e: Env)
    requires Activatable(disk, body, e) && !e.reloads && CaddyTarget !in disk.leftovers
    ensures Perform(disk, Activate(body), e).1 == (if e.steps >= InstallWrites(disk) + 2 then Raised else Killed)
    ensures e.steps >= InstallWrites(disk) + 2 ==>
            Perform(disk, Activate(body), e).0 == disk.(caddy := disk.backup.value, fragment := Some(body))
  {
  }

  /** A rollback completes exactly under these conditions, and then the original is back. */
  lemma RollbackCompletesIff(disk: Disk, e: Env)
    ensures Perform(disk, Rollback, e).1 == Done <==>
            disk.backup.Some? && !Foreign(disk) && CaddyTarget !in disk.leftovers && e.steps >= 2 && e.process
                && e.reloads
    ensures Perform(disk, Rollback, e).1 == Done ==>
            Perform(disk, Rollback, e).0 == disk.(caddy := disk.backup.value)
  {
  }

  /**
    When the reload of a rollback fails and no temporary is in the way, it raises with the original already back
    exactly if the steps last for the save; with fewer it is killed on the way and the Caddyfile is as it was.
   */
  lemma FailedRollbackRestores(disk: Disk, e: Env)
    requires disk.backup.Some? && !Foreign(disk) && e.process && !e.reloads && CaddyTarget !in disk.leftovers
    ensures Perform(disk, Rollback, e).1 == (if e.steps >= 2 then Raised else Killed)
    ensures e.steps >= 2 ==> Perform(disk, Rollback, e).0 == disk.(caddy := disk.backup.value)
    ensures e.steps < 2 ==> Perform(disk, Rollback, e).0.caddy == disk.caddy
  {
  }

  /**
    What an action refuses it refuses before it changes anything: a stage of a host it does not own, an activation
    or rollback without a backup, over a foreign Caddyfile or without a running server, and an activation whose
    site is not adapted or not the one already installed.
   */
  lemma RefusalChangesNothing(disk: Disk, command: Command, e: Env)
    requires match command
             case Stage(_) => disk.backup.None? && (disk.fragment.Some? || disk.sshd.Some?)
             case Activate(body) =>
               || disk.backup.None? || Foreign(disk) || !e.healthy || !e.process || !e.adapts
               || (disk.fragment.Some? && disk.fragment.value != body)
             case Rollback => disk.backup.None? || Foreign(disk) || !e.process
    ensures Perform(disk, command, e) == (disk, Raised)
  {
  }

  /**
    A kill between creating the Caddyfile's temporary and renaming it is not recovered from:
    the leftover stays, so no later action ever changes the Caddyfile and no rollback completes.
   */
  lemma {:induction false} LeftoverFreezesCaddyfile(disk: Disk, history: seq<Event>, e: Env)
    requires CaddyTarget in disk.leftovers && disk.backup.Some?
    ensures Replay(disk, history).caddy == disk.caddy
    ensures Perform(Replay(disk, history), Rollback, e).1 != Done
    decreases |history|
  {
    if history == [] {
      RollbackCompletesIff(disk, e);
    } else {
      LeftoverFreezesCaddyfile(Perform(disk, history[0].command, history[0].env).0, history[1..], e);
    }
  }

  /** Such a leftover is reached: a complete stage, then an activation killed inside its second save. */
  lemma LeftoverIsReached(original: Bytes, sshdBody: Bytes, body: Bytes) returns (history: seq<Event>)
    ensures |history| == 2 && history[0].command == Stage(sshdBody) && history[1].command == Activate(body)
    ensures var disk := Replay(Fresh(original), history);
            CaddyTarget in disk.leftovers && disk.backup == Some(original) && disk.caddy == original
  {
    var stage := Event(Stage(sshdBody), Env(4, 0, true, true, true, true, true, true));
    var cut := Event(Activate(body), Env(3, 0, true, true, true, true, true, true));
    history := [stage, cut];
    StageCompletesIff(Fresh(original), sshdBody, stage.env);
    ImportIsNew(original);
    var staged := Disk(original, Some(original), None, Some(sshdBody), {});
    assert Perform(Fresh(original), stage.command, stage.env).0 == staged;
    var stuck := staged.(fragment := Some(body), leftovers := {CaddyTarget});
    assert Perform(staged, cut.command, cut.env).0 == stuck;
    assert history[1..] == [cut];
    assert Replay(Fresh(original), history) == Replay(staged, [cut]) == Replay(stuck, []) == stuck;
  }

  /** Stage, activate, roll back, with anything in between: whenever the rollback completes, the original is back. */
  lemma RollbackRestoresOriginal(original: Bytes, history: seq<Event>, e: Env)
    requires !EndsWithImport(original)
    requires Perform(Replay(Fresh(original), history), Rollback, e).1 == Done
    ensures Perform(Replay(Fresh(original), history), Rollback, e).0.caddy == original
  {
    var disk := Replay(Fresh(original), history);
    HistoryStaysRecoverable(Fresh(original), history, original);
    RollbackCompletesIff(disk, e);
    if disk.backup.value != original {
      TornBackupIsForeign(disk, original);
    }
  }
}
