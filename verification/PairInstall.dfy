/** Installing the native hook command and its stamp as a pair, with rollback. */
module PairInstall {

  import opened Results

  datatype Node = File(content: string, mode: nat) | Symlink(to: string) | Directory

  const COMMAND_MODE: nat := 448 // 0o700
  const STAMP_MODE: nat := 384   // 0o600

  /** How a copy into a staging file can fail: before the file is created, or after. */
  datatype CopyFault = Never | AtCreate | AtCopy

  /** Which steps the operating system lets fail in one installation. */
  datatype Faults = Faults(
    stageCommand: CopyFault, stageStamp: CopyFault, backupCommand: CopyFault, backupStamp: CopyFault,
    replaceCommand: bool, replaceStamp: bool, sync: bool, restoreStamp: bool, restoreCommand: bool)

  /** The paths of one installation; the last four are names that the temporary-file calls hand out. */
  datatype Job = Job(
    builtCommand: string, builtStamp: string, command: string, stamp: string,
    stagedCommand: string, stagedStamp: string, commandBackup: string, stampBackup: string)

  predicate IsFile(files: map<string, Node>, path: string) {
    path in files && files[path].File?
  }

  /** A destination that may be replaced: absent, or a regular file. */
  predicate Replaceable(files: map<string, Node>, path: string) {
    path in files ==> files[path].File?
  }

  predicate NewName(files: map<string, Node>, j: Job, name: string) {
    name !in files && name !in {j.command, j.stamp, j.builtCommand, j.builtStamp}
  }

  /** Temporary names are new and differ, and so do the two destinations. */
  predicate Fresh(files: map<string, Node>, j: Job) {
    && NewName(files, j, j.stagedCommand) && NewName(files, j, j.stagedStamp)
    && NewName(files, j, j.commandBackup) && NewName(files, j, j.stampBackup)
    && j.stagedCommand !in {j.stagedStamp, j.commandBackup, j.stampBackup}
    && j.stagedStamp !in {j.commandBackup, j.stampBackup} && j.commandBackup != j.stampBackup
    && j.command != j.stamp
  }

  /** Both built files are there, and what the destinations hold can be copied and backed up. */
  predicate Stageable(files: map<string, Node>, j: Job, f: Faults) {
    && IsFile(files, j.builtCommand) && IsFile(files, j.builtStamp)
    && Replaceable(files, j.command) && Replaceable(files, j.stamp)
    && f.stageCommand == Never && f.stageStamp == Never
    && (j.command in files ==> f.backupCommand == Never) && (j.stamp in files ==> f.backupStamp == Never)
  }

  /** Nothing goes wrong before the rollback would start. */
  predicate Clean(files: map<string, Node>, j: Job, f: Faults) {
    Stageable(files, j, f) && !f.replaceCommand && !f.replaceStamp && !f.sync
  }

  /** The file system, and the operations that the installer uses. */
  class FileSystem {
    var files: map<string, Node>

    constructor (files: map<string, Node>)
      ensures this.files == files
    {
      this.files := files;
    }

    method Unlink(path: string)
      modifies this
      ensures files == old(files) - {path}
    {
      files := files - {path};
    }

    method Replace(from: string, to: string, fails: bool) returns (ok: bool)
      requires from in files && from != to
      modifies this
      ensures ok == !fails
      ensures files == if ok then old(files)[to := old(files)[from]] - {from} else old(files)
    {
      if fails { return false; }
      files := files[to := files[from]] - {from};
      return true;
    }

    /** `_copy_to_destination_staging_file`: a failed copy leaves nothing behind. */
    method CopyToStaging(source: string, name: string, mode: nat, fault: CopyFault) returns (staged: Option<string>)
      requires name !in files
      modifies this
      ensures staged == if IsFile(old(files), source) && fault == Never then Some(name) else None
      ensures staged.None? ==> files == old(files)
      ensures staged.Some? ==> files == old(files)[name := File(old(files)[source].content, mode)]
    {
      if fault == AtCreate { return None; }
      ghost var before := files;
      files := files[name := File("", 384)];
      if !IsFile(files, source) || source == name || fault == AtCopy {
        Unlink(name);
        assert files == before;
        return None;
      }
      files := files[name := File(files[source].content, mode)];
      return Some(name);
    }

    /** `_stage_existing_destination`: None where it raises, else the backup of what exists. */
    method StageExisting(path: string, name: string, fault: CopyFault) returns (r: Option<Option<string>>)
      requires name !in files && name != path
      modifies this
      ensures r.Some? <==> Replaceable(old(files), path) && (path in old(files) ==> fault == Never)
      ensures r.None? || r.value.None? ==> files == old(files)
      ensures r.Some? ==> r.value == if path in old(files) then Some(name) else None
      ensures r.Some? && r.value.Some? ==> files == old(files)[name := old(files)[path]]
    {
      if path in files && files[path].Symlink? { return None; }
      if path !in files { return Some(None); }
      if !files[path].File? { return None; }
      var mode := files[path].mode;
      var backup := CopyToStaging(path, name, mode, fault);
      if backup.None? { return None; }
      return Some(backup);
    }

    /** `_restore_destination`: whether it succeeds. */
    method Restore(path: string, backup: Option<string>, fails: bool) returns (ok: bool)
      requires backup.Some? ==> backup.value in files && backup.value != path
      modifies this
      ensures ok == !fails
      ensures !ok ==> files == old(files)
      ensures ok && backup.Some? ==> files == old(files)[path := old(files)[backup.value]] - {backup.value}
      ensures ok && backup.None? ==> files == old(files) - {path}
    {
      if backup.Some? {
        ok := Replace(backup.value, path, fails);
      } else {
        if fails { return false; }
        Unlink(path);
        ok := true;
      }
    }

    method RemoveStaging(path: Option<string>)
      modifies this
      ensures files == old(files) - Named(path)
    {
      if path.Some? { Unlink(path.value); }
    }
  }

  function NewCommand(files: map<string, Node>, j: Job): Node
    requires IsFile(files, j.builtCommand)
  {
    File(files[j.builtCommand].content, COMMAND_MODE)
  }

  function NewStamp(files: map<string, Node>, j: Job): Node
    requires IsFile(files, j.builtStamp)
  {
    File(files[j.builtStamp].content, STAMP_MODE)
  }

  datatype Staged = Staged(command: Option<string>, stamp: Option<string>, commandBackup: Option<string>, stampBackup: Option<string>)

  /** The staging phase: whether both copies and both backups were made, and the temporary files that exist. */
  method StageAll(fs: FileSystem, j: Job, f: Faults) returns (ok: bool, s: Staged)
    requires Fresh(fs.files, j)
    modifies fs
    ensures ok <==> Stageable(old(fs.files), j, f)
    ensures OnlyTemporary(old(fs.files), fs.files, j, s)
    ensures ok ==> Ready(old(fs.files), fs.files, j, s)
  {
    ghost var before := fs.files;
    ok, s := StageCopies(fs, j, f);
    if !ok { return; }
    ghost var copied, c := fs.files, s;
    var commandBackup := fs.StageExisting(j.command, j.commandBackup, f.backupCommand);
    if commandBackup.None? { return false, s; }
    s := s.(commandBackup := commandBackup.value);
    assert OnlyTemporary(before, fs.files, j, s) by { OneMore(before, copied, fs.files, j, c, s, j.commandBackup); }
    ghost var backed, d := fs.files, s;
    var stampBackup := fs.StageExisting(j.stamp, j.stampBackup, f.backupStamp);
    if stampBackup.None? { return false, s; }
    s := s.(stampBackup := stampBackup.value);
    assert OnlyTemporary(before, fs.files, j, s) by { OneMore(before, backed, fs.files, j, d, s, j.stampBackup); }
    return true, s;
  }

  method StageCopies(fs: FileSystem, j: Job, f: Faults) returns (ok: bool, s: Staged)
    requires Fresh(fs.files, j)
    modifies fs
    ensures ok <==> IsFile(old(fs.files), j.builtCommand) && IsFile(old(fs.files), j.builtStamp)
                    && f.stageCommand == Never && f.stageStamp == Never
    ensures OnlyTemporary(old(fs.files), fs.files, j, s)
    ensures ok ==> s == Staged(Some(j.stagedCommand), Some(j.stagedStamp), None, None)
    ensures ok ==> fs.files == old(fs.files)[j.stagedCommand := NewCommand(old(fs.files), j)][j.stagedStamp := NewStamp(old(fs.files), j)]
  {
    s := Staged(None, None, None, None);
    var command := fs.CopyToStaging(j.builtCommand, j.stagedCommand, COMMAND_MODE, f.stageCommand);
    if command.None? { return false, s; }
    s := s.(command := command);
    var stamp := fs.CopyToStaging(j.builtStamp, j.stagedStamp, STAMP_MODE, f.stageStamp);
    if stamp.None? { return false, s; }
    s := s.(stamp := stamp);
    return true, s;
  }

  /** One more temporary file is still only a temporary file. */
  lemma OneMore(before: map<string, Node>, last: map<string, Node>, now: map<string, Node>, j: Job, s: Staged, t: Staged, name: string)
    requires OnlyTemporary(before, last, j, s) && name in {j.stagedCommand, j.stagedStamp, j.commandBackup, j.stampBackup}
    requires name !in before
    requires Temporaries(t) == Temporaries(s) + if now == last then {} else {name}
    requires now != last ==> name in now && now == last[name := now[name]]
    ensures OnlyTemporary(before, now, j, t)
  {
    hide Temporaries;
    if now != last {
      assert now - Temporaries(t) == (last - Temporaries(s)) - {name};
      assert before - {name} == before;
    }
  }

  function Named(path: Option<string>): set<string> {
    if path.Some? then {path.value} else {}
  }

  function Temporaries(s: Staged): set<string> {
    Named(s.command) + Named(s.stamp) + Named(s.commandBackup) + Named(s.stampBackup)
  }

  /** The temporary files come on top of what was there. */
  predicate OnlyTemporary(before: map<string, Node>, now: map<string, Node>, j: Job, s: Staged) {
    && Temporaries(s) <= {j.stagedCommand, j.stagedStamp, j.commandBackup, j.stampBackup}
    && now - Temporaries(s) == before
  }

  /** Both copies stand ready, and every destination that exists is backed up. */
  predicate Ready(before: map<string, Node>, now: map<string, Node>, j: Job, s: Staged)
  {
    && s.command == Some(j.stagedCommand) && s.stamp == Some(j.stagedStamp)
    && s.commandBackup == (if j.command in before then Some(j.commandBackup) else None)
    && s.stampBackup == (if j.stamp in before then Some(j.stampBackup) else None)
    && IsFile(before, j.builtCommand) && IsFile(before, j.builtStamp)
    && j.stagedCommand in now && now[j.stagedCommand] == File(before[j.builtCommand].content, COMMAND_MODE)
    && j.stagedStamp in now && now[j.stagedStamp] == File(before[j.builtStamp].content, STAMP_MODE)
    && (j.command in before ==> j.commandBackup in now && now[j.commandBackup] == before[j.command])
    && (j.stamp in before ==> j.stampBackup in now && now[j.stampBackup] == before[j.stamp])
  }

  /** The command was already replaced when a later step failed, and could not be put back. */
  predicate CommandStuck(files: map<string, Node>, j: Job, f: Faults) {
    Stageable(files, j, f) && !f.replaceCommand && (f.replaceStamp || f.sync) && f.restoreCommand
  }

  predicate StampStuck(files: map<string, Node>, j: Job, f: Faults) {
    Stageable(files, j, f) && !f.replaceCommand && !f.replaceStamp && f.sync && f.restoreStamp
  }

  /** What an installation leaves: everything new, or everything as it was but for what the rollback could not put back. */
  function After(files: map<string, Node>, j: Job, f: Faults): map<string, Node> {
    var one := if Clean(files, j, f) || CommandStuck(files, j, f) then files[j.command := NewCommand(files, j)] else files;
    if Clean(files, j, f) || StampStuck(files, j, f) then one[j.stamp := NewStamp(files, j)] else one
  }

  /** The files as they were, but with the destinations that have been replaced. */
  function Shown(files: map<string, Node>, j: Job, commandIn: bool, stampIn: bool): map<string, Node>
    requires commandIn || stampIn ==> IsFile(files, j.builtCommand) && IsFile(files, j.builtStamp)
  {
    var one := if commandIn then files[j.command := NewCommand(files, j)] else files;
    if stampIn then one[j.stamp := NewStamp(files, j)] else one
  }

  /** During the replacements: the temporary files on top of what shows, and a backup of each destination there was. */
  predicate Standing(before: map<string, Node>, now: map<string, Node>, j: Job, s: Staged, commandIn: bool, stampIn: bool) {
    && IsFile(before, j.builtCommand) && IsFile(before, j.builtStamp)
    && Temporaries(s) <= {j.stagedCommand, j.stagedStamp, j.commandBackup, j.stampBackup}
    && now - Temporaries(s) == Shown(before, j, commandIn, stampIn)
    && BackedUp(before, now, j.command, s.commandBackup, j.commandBackup)
    && BackedUp(before, now, j.stamp, s.stampBackup, j.stampBackup)
    && s.command in {None, Some(j.stagedCommand)} && s.stamp in {None, Some(j.stagedStamp)}
  }

  predicate BackedUp(before: map<string, Node>, now: map<string, Node>, path: string, backup: Option<string>, name: string) {
    if path in before then backup == Some(name) && name in now && now[name] == before[path] else backup == None
  }

  lemma ReadyStands(before: map<string, Node>, now: map<string, Node>, j: Job, s: Staged)
    requires OnlyTemporary(before, now, j, s) && Ready(before, now, j, s)
    ensures Standing(before, now, j, s, false, false)
  {
  }

  method ReplaceCommand(fs: FileSystem, j: Job, s: Staged, fails: bool, ghost before: map<string, Node>) returns (ok: bool, t: Staged)
    requires Fresh(before, j) && Standing(before, fs.files, j, s, false, false) && s.command == Some(j.stagedCommand)
    requires j.stagedCommand in fs.files && fs.files[j.stagedCommand] == NewCommand(before, j)
    modifies fs
    ensures ok == !fails && Standing(before, fs.files, j, t, ok, false)
    ensures t.stamp == s.stamp && (j.stagedStamp in old(fs.files) ==> j.stagedStamp in fs.files && fs.files[j.stagedStamp] == old(fs.files)[j.stagedStamp])
  {
    t := s;
    ok := fs.Replace(s.command.value, j.command, fails);
    if ok {
      t := s.(command := None);
      assert fs.files - Temporaries(t) == (old(fs.files) - Temporaries(s))[j.command := NewCommand(before, j)];
    }
  }

  method ReplaceStamp(fs: FileSystem, j: Job, s: Staged, fails: bool, ghost before: map<string, Node>) returns (ok: bool, t: Staged)
    requires Fresh(before, j) && Standing(before, fs.files, j, s, true, false) && s.stamp == Some(j.stagedStamp)
    requires j.stagedStamp in fs.files && fs.files[j.stagedStamp] == NewStamp(before, j)
    modifies fs
    ensures ok == !fails && Standing(before, fs.files, j, t, true, ok)
  {
    t := s;
    ok := fs.Replace(s.stamp.value, j.stamp, fails);
    if ok {
      t := s.(stamp := None);
      assert fs.files - Temporaries(t) == (old(fs.files) - Temporaries(s))[j.stamp := NewStamp(before, j)];
    }
  }

  method RestoreStamp(fs: FileSystem, j: Job, s: Staged, fails: bool, ghost before: map<string, Node>) returns (t: Staged)
    requires Fresh(before, j) && Standing(before, fs.files, j, s, true, true)
    modifies fs
    ensures t.commandBackup == s.commandBackup && BackedUp(before, fs.files, j.command, t.commandBackup, j.commandBackup)
    ensures Temporaries(t) <= {j.stagedCommand, j.stagedStamp, j.commandBackup, j.stampBackup}
    ensures IsFile(before, j.builtCommand) && IsFile(before, j.builtStamp)
    ensures fs.files - Temporaries(t) == Shown(before, j, true, fails)
  {
    t := s;
    var restored := fs.Restore(j.stamp, s.stampBackup, fails);
    if restored {
      t := s.(stampBackup := None);
      ghost var shown := old(fs.files) - Temporaries(s);
      assert j.stamp in before ==> fs.files - Temporaries(t) == shown[j.stamp := before[j.stamp]];
      assert j.stamp !in before ==> fs.files - Temporaries(t) == shown - {j.stamp};
    }
  }

  method RestoreCommand(fs: FileSystem, j: Job, s: Staged, fails: bool, stampIn: bool, ghost before: map<string, Node>) returns (t: Staged)
    requires Fresh(before, j) && BackedUp(before, fs.files, j.command, s.commandBackup, j.commandBackup)
    requires Temporaries(s) <= {j.stagedCommand, j.stagedStamp, j.commandBackup, j.stampBackup}
    requires IsFile(before, j.builtCommand) && IsFile(before, j.builtStamp)
    requires fs.files - Temporaries(s) == Shown(before, j, true, stampIn)
    modifies fs
    ensures fs.files - Temporaries(t) == Shown(before, j, fails, stampIn)
  {
    t := s;
    var restored := fs.Restore(j.command, s.commandBackup, fails);
    if restored {
      t := s.(commandBackup := None);
      ghost var shown := old(fs.files) - Temporaries(s);
      assert j.command in before ==> fs.files - Temporaries(t) == shown[j.command := before[j.command]];
      assert j.command !in before ==> fs.files - Temporaries(t) == shown - {j.command};
    }
  }

  /** The `finally` block. */
  method CleanUp(fs: FileSystem, s: Staged)
    modifies fs
    ensures fs.files == old(fs.files) - Temporaries(s)
  {
    hide Named;
    fs.RemoveStaging(s.command);
    fs.RemoveStaging(s.stamp);
    fs.RemoveStaging(s.commandBackup);
    fs.RemoveStaging(s.stampBackup);
  }

  /** `_install_native_pre_tool_use_artifacts`: whether it returns, rather than raises. */
  method InstallPair(fs: FileSystem, j: Job, f: Faults) returns (ok: bool)
    requires Fresh(fs.files, j)
    modifies fs
    ensures ok <==> Clean(old(fs.files), j, f)
    ensures fs.files == After(old(fs.files), j, f)
  {
    hide Fresh, Standing, OnlyTemporary, Temporaries, BackedUp;
    ghost var before := fs.files;
    var commandReplaced, stampReplaced := false, false;
    var s;
    ok, s := StageAll(fs, j, f);
    if ok {
      assert Standing(before, fs.files, j, s, false, false) by { ReadyStands(before, fs.files, j, s); }
      ok, s := ReplaceCommand(fs, j, s, f.replaceCommand, before);
      commandReplaced := ok;
      if ok {
        ok, s := ReplaceStamp(fs, j, s, f.replaceStamp, before);
        stampReplaced := ok;
        ok := ok && !f.sync;
      }
      assert fs.files - Temporaries(s) == Shown(before, j, commandReplaced, stampReplaced)
        && BackedUp(before, fs.files, j.command, s.commandBackup, j.commandBackup)
        && Temporaries(s) <= {j.stagedCommand, j.stagedStamp, j.commandBackup, j.stampBackup} by {
        StandingFacts(before, fs.files, j, s, commandReplaced, stampReplaced);
      }
      if !ok {
        if stampReplaced { s := RestoreStamp(fs, j, s, f.restoreStamp, before); }
        if commandReplaced { s := RestoreCommand(fs, j, s, f.restoreCommand, stampReplaced && f.restoreStamp, before); }
      }
    } else {
      assert fs.files - Temporaries(s) == before by { OnlyTemporaryFacts(before, fs.files, j, s); }
    }
    CleanUp(fs, s);
  }

  lemma OnlyTemporaryFacts(before: map<string, Node>, now: map<string, Node>, j: Job, s: Staged)
    requires OnlyTemporary(before, now, j, s)
    ensures now - Temporaries(s) == before
  {
  }

  lemma StandingFacts(before: map<string, Node>, now: map<string, Node>, j: Job, s: Staged, commandIn: bool, stampIn: bool)
    requires Standing(before, now, j, s, commandIn, stampIn)
    ensures IsFile(before, j.builtCommand) && IsFile(before, j.builtStamp)
    ensures now - Temporaries(s) == Shown(before, j, commandIn, stampIn)
    ensures BackedUp(before, now, j.command, s.commandBackup, j.commandBackup)
    ensures Temporaries(s) <= {j.stagedCommand, j.stagedStamp, j.commandBackup, j.stampBackup}
  {
  }

  /**
   All or nothing: if the rollback's own steps succeed, either both files are the new ones or the file
   system is exactly as it was, modes and absent files included; no temporary file is left either way.
   */
  lemma InstallAllOrNothing(files: map<string, Node>, j: Job, f: Faults)
    requires Fresh(files, j)
    ensures j.stagedCommand !in After(files, j, f) && j.stagedStamp !in After(files, j, f)
    ensures j.commandBackup !in After(files, j, f) && j.stampBackup !in After(files, j, f)
    ensures Clean(files, j, f) ==> After(files, j, f) == files[j.command := NewCommand(files, j)][j.stamp := NewStamp(files, j)]
    ensures !Clean(files, j, f) && !f.restoreCommand && !f.restoreStamp ==> After(files, j, f) == files
  {
  }
}
