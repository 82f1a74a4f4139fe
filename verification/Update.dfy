/**
 * Self-update: download, verify, unpack, and swap the running binary by renames, with a
 * backup to go back to. Any step may fail, and the process or the machine may stop between
 * any two steps.
 */
module Update {
  import opened Text

  // ----- the disk -----

  /** The executable, its backup, and the two files of the `n`-th temporary directory beside them. */
  datatype Path = Exe | Backup | Archive(n: nat) | NewExe(n: nat)

  /** `flushed`: the contents are known to be on the medium. */
  datatype File = File(data: string, flushed: bool)

  type Names = map<Path, nat>

  /**
   * `live` is the directory as running programs see it, from path to file number. `unsynced` lists the earlier
   * directories that the medium may still hold, because no directory flush has succeeded since.
   */
  datatype Disk = Disk(live: Names, unsynced: seq<Names>, files: map<nat, File>, next: nat)

  datatype Act =
    | Write(path: Path, data: string)
    | Flush(path: Path)
    | Rename(from: Path, to: Path)
    | FlushDir
    | RemoveTemp(n: nat)

  function Relink(d: Disk, names: Names): Disk {
    d.(live := names, unsynced := d.unsynced + [d.live])
  }

  /** A successful system call. A rename replaces its target in one step. */
  function Perform(d: Disk, act: Act): Disk {
    match act
    case Write(path, data) => Relink(d, d.live[path := d.next]).(files := d.files[d.next := File(data, false)],
      next := d.next + 1)
    case Flush(path) =>
      if path in d.live && d.live[path] in d.files then
        d.(files := d.files[d.live[path] := d.files[d.live[path]].(flushed := true)])
      else d
    case Rename(from, to) => if from in d.live then Relink(d, (d.live - {from})[to := d.live[from]]) else d
    case FlushDir => d.(unsynced := [])
    case RemoveTemp(n) => Relink(d, d.live - {Archive(n), NewExe(n)})
  }

  function PerformAll(d: Disk, acts: seq<Act>): Disk
    decreases |acts|
  {
    if acts == [] then d else PerformAll(Perform(d, acts[0]), acts[1..])
  }

  function Content(d: Disk, path: Path): Option<string> {
    if path in d.live && d.live[path] in d.files then Some(d.files[d.live[path]].data) else None
  }

  // ----- one update, one rollback -----

  const MAX_ARCHIVE_SIZE: nat := 0xC80_0000

  /** SHA-256 in hex, and the contents of the binary entry of an archive. */
  datatype Tools = Tools(sha: string -> string, untar: string -> Option<string>)

  /** What the outside decides: what arrives, and which calls succeed. */
  datatype Env = Env(
    eligible: bool, mkdir: bool, archive: string, downloaded: bool, sum: Option<string>,
    unpacked: bool, partial: string, chmod: bool, flushed: bool,
    renamedOut: bool, dirFlushed: bool, renamedIn: bool, renamedBack: bool, dirFlushedAgain: bool, cleaned: bool)

  datatype Outcome =
    | Prepared
    | Refused
    | NoTempDir
    | DownloadFailed
    | NoChecksum
    | ChecksumMismatch
    | UnpackFailed
    | FlushFailed
    | BackupFailed
    | Restored
    | Stranded
    | Installed
    | NoBackup
    | RollbackFailed
    | RolledBack

  /** The system calls that succeed, in order, and how the operation ends. */
  datatype Plan = Plan(acts: seq<Act>, outcome: Outcome)

  /** Unpacking copies at most `MAX_ARCHIVE_SIZE` bytes of the entry. */
  function Capped(s: string): string {
    if |s| <= MAX_ARCHIVE_SIZE then s else s[..MAX_ARCHIVE_SIZE]
  }

  predicate Verified(t: Tools, archive: string, sum: string) {
    Lower(t.sha(archive)) == Lower(sum)
  }

  /** `replaceExecutable`: back up by rename, install by rename, and rename back if that fails. */
  function ReplacePlan(d: Disk, e: Env, n: nat): Plan {
    if Exe !in d.live || !e.renamedOut then Plan([], BackupFailed)
    else
      var out := [Rename(Exe, Backup)] + (if e.dirFlushed then [FlushDir] else []);
      if NewExe(n) in d.live && e.renamedIn
        then Plan(out + [Rename(NewExe(n), Exe)] + (if e.dirFlushedAgain then [FlushDir] else []), Installed)
      else if e.renamedBack then Plan(out + [Rename(Backup, Exe)], Restored)
      else Plan(out, Stranded)
  }

  /** Everything up to the point where the new binary lies flushed in the temporary directory. */
  function PreparePlan(t: Tools, e: Env, n: nat): Plan {
    if !e.eligible then Plan([], Refused)
    else if !e.mkdir then Plan([], NoTempDir)
    else
      var got := [Write(Archive(n), e.archive)];
      if !e.downloaded || |e.archive| > MAX_ARCHIVE_SIZE then Plan(got, DownloadFailed)
      else if e.sum.None? then Plan(got, NoChecksum)
      else if !Verified(t, e.archive, e.sum.value) then Plan(got, ChecksumMismatch)
      else if t.untar(e.archive).None? then Plan(got, UnpackFailed)
      else
        var unpacked := got + [Write(NewExe(n), if e.unpacked then Capped(t.untar(e.archive).value) else e.partial)];
        if !e.unpacked || !e.chmod then Plan(unpacked, UnpackFailed)
        else if !e.flushed then Plan(unpacked, FlushFailed)
        else Plan(unpacked + [Flush(NewExe(n))], Prepared)
  }

  function Cleanup(e: Env, n: nat): seq<Act> {
    if e.eligible && e.mkdir && e.cleaned then [RemoveTemp(n)] else []
  }

  function ApplyPlan(t: Tools, d: Disk, e: Env, n: nat): Plan {
    var prepare := PreparePlan(t, e, n);
    if prepare.outcome != Prepared then Plan(prepare.acts + Cleanup(e, n), prepare.outcome)
    else
      var replace := ReplacePlan(PerformAll(d, prepare.acts), e, n);
      Plan(prepare.acts + replace.acts + Cleanup(e, n), replace.outcome)
  }

  function RollbackPlan(d: Disk, e: Env): Plan {
    if Backup !in d.live then Plan([], NoBackup)
    else if !e.renamedBack then Plan([], RollbackFailed)
    else Plan([Rename(Backup, Exe)], RolledBack)
  }

  // ----- the service -----

  lemma {:induction false} PerformAllConcat(d: Disk, xs: seq<Act>, ys: seq<Act>)
    ensures PerformAll(d, xs + ys) == PerformAll(PerformAll(d, xs), ys)
    decreases |xs|
  {
    if xs == [] {
      assert xs + ys == ys;
    } else {
      assert (xs + ys)[1..] == xs[1..] + ys;
      PerformAllConcat(Perform(d, xs[0]), xs[1..], ys);
    }
  }

  /** A disk that remembers the calls made on it. */
  class FileSystem {
    var disk: Disk
    ghost var base: Disk
    ghost var acts: seq<Act>

    ghost predicate Valid()
      reads this
    {
      disk == PerformAll(base, acts)
    }

    constructor (disk: Disk)
      ensures Valid() && this.disk == disk && base == disk && acts == []
    {
      this.disk, base, acts := disk, disk, [];
    }

    method Do(act: Act)
      requires Valid()
      modifies this
      ensures Valid() && base == old(base) && acts == old(acts) + [act] && disk == Perform(old(disk), act)
    {
      PerformAllConcat(base, acts, [act]);
      disk, acts := Perform(disk, act), acts + [act];
    }

    /** A rename also fails when its source is missing. */
    method TryRename(from: Path, to: Path, allowed: bool) returns (ok: bool)
      requires Valid()
      modifies this
      ensures Valid() && base == old(base) && ok == (from in old(disk).live && allowed)
      ensures acts == old(acts) + if ok then [Rename(from, to)] else []
      ensures disk == if ok then Perform(old(disk), Rename(from, to)) else old(disk)
    {
      ok := from in disk.live && allowed;
      if ok {
        Do(Rename(from, to));
      }
    }
  }

  /** Moving the executable aside puts it at the backup's path and leaves the new binary where it is. */
  lemma MovedAside(d: Disk, n: nat)
    requires Exe in d.live
    ensures var moved := Perform(d, Rename(Exe, Backup));
      Backup in moved.live && (NewExe(n) in moved.live <==> NewExe(n) in d.live)
  {
  }

  lemma FlushKeepsNames(d: Disk)
    ensures Perform(d, FlushDir).live == d.live
  {
  }

  method ReplaceExecutable(fs: FileSystem, e: Env, n: nat) returns (outcome: Outcome)
    requires fs.Valid()
    modifies fs
    ensures fs.Valid() && fs.base == old(fs.base)
    ensures var plan := ReplacePlan(old(fs.disk), e, n); outcome == plan.outcome && fs.acts == old(fs.acts) + plan.acts
  {
    hide Perform, PerformAll;
    var ok := fs.TryRename(Exe, Backup, e.renamedOut);
    if !ok {
      return BackupFailed;
    }
    MovedAside(old(fs.disk), n);
    FlushKeepsNames(fs.disk);
    if e.dirFlushed {
      fs.Do(FlushDir);
    }
    ok := fs.TryRename(NewExe(n), Exe, e.renamedIn);
    if !ok {
      ok := fs.TryRename(Backup, Exe, e.renamedBack);
      return if ok then Restored else Stranded;
    }
    if e.dirFlushedAgain {
      fs.Do(FlushDir);
    }
    return Installed;
  }

  /** `applyRelease` up to the swap. */
  method PrepareBinary(fs: FileSystem, t: Tools, e: Env, n: nat) returns (outcome: Outcome)
    requires fs.Valid()
    modifies fs
    ensures fs.Valid() && fs.base == old(fs.base)
    ensures var plan := PreparePlan(t, e, n);
      outcome == plan.outcome && fs.acts == old(fs.acts) + plan.acts
  {
    if !e.eligible {
      return Refused;
    }
    if !e.mkdir {
      return NoTempDir;
    }
    fs.Do(Write(Archive(n), e.archive));
    if !e.downloaded || |e.archive| > MAX_ARCHIVE_SIZE {
      return DownloadFailed;
    }
    if e.sum.None? {
      return NoChecksum;
    }
    if Lower(t.sha(e.archive)) != Lower(e.sum.value) {
      return ChecksumMismatch;
    }
    var binary := t.untar(e.archive);
    if binary.None? {
      return UnpackFailed;
    }
    fs.Do(Write(NewExe(n), if e.unpacked then Capped(binary.value) else e.partial));
    if !e.unpacked || !e.chmod {
      return UnpackFailed;
    }
    if !e.flushed {
      return FlushFailed;
    }
    fs.Do(Flush(NewExe(n)));
    return Prepared;
  }

  method Apply(fs: FileSystem, t: Tools, e: Env, n: nat) returns (outcome: Outcome)
    requires fs.Valid()
    modifies fs
    ensures fs.Valid() && fs.base == old(fs.base)
    ensures var plan := ApplyPlan(t, old(fs.disk), e, n);
      outcome == plan.outcome && fs.acts == old(fs.acts) + plan.acts
  {
    hide PreparePlan, ReplacePlan, Perform, PerformAll;
    outcome := PrepareBinary(fs, t, e, n);
    PerformAllConcat(fs.base, old(fs.acts), PreparePlan(t, e, n).acts);
    if outcome == Prepared {
      outcome := ReplaceExecutable(fs, e, n);
    }
    if e.eligible && e.mkdir && e.cleaned {
      fs.Do(RemoveTemp(n));
    }
  }

  method Rollback(fs: FileSystem, e: Env) returns (outcome: Outcome)
    requires fs.Valid()
    modifies fs
    ensures fs.Valid() && fs.base == old(fs.base)
    ensures var plan := RollbackPlan(old(fs.disk), e);
      outcome == plan.outcome && fs.acts == old(fs.acts) + plan.acts
  {
    if Backup !in fs.disk.live {
      return NoBackup;
    }
    var ok := fs.TryRename(Backup, Exe, e.renamedBack);
    return if ok then RolledBack else RollbackFailed;
  }
}
