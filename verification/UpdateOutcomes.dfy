/** What each way an update or rollback can end means for the executable and its backup. */
module UpdateOutcomes {
  import opened Text
  import opened Update

  /** Every name leads to a file. */
  ghost predicate WellFormed(d: Disk) {
    && (forall p :: p in d.live ==> d.live[p] in d.files)
    && (forall i :: i in d.files ==> i < d.next)
  }

  predicate Untouched(d: Disk, d': Disk) {
    Content(d', Exe) == Content(d, Exe) && Content(d', Backup) == Content(d, Backup)
  }

  /** Acts confined to a temporary directory. */
  predicate Aside(act: Act) {
    match act
    case Write(path, _) => path.Archive? || path.NewExe?
    case Flush(path) => path.Archive? || path.NewExe?
    case Rename(_, _) => false
    case FlushDir => true
    case RemoveTemp(_) => true
  }

  lemma {:induction false} AsideTouchesNothing(d: Disk, acts: seq<Act>)
    requires WellFormed(d) && forall a :: a in acts ==> Aside(a)
    ensures WellFormed(PerformAll(d, acts)) && Untouched(d, PerformAll(d, acts))
    decreases |acts|
  {
    if acts != [] {
      var d1 := Perform(d, acts[0]);
      assert Aside(acts[0]);
      assert WellFormed(d1) && Untouched(d, d1);
      AsideTouchesNothing(d1, acts[1..]);
    }
  }

  lemma PrepareAside(t: Tools, e: Env, n: nat)
    ensures forall a :: a in PreparePlan(t, e, n).acts ==> Aside(a)
    ensures PreparePlan(t, e, n).outcome == Prepared ==>
      && |e.archive| <= MAX_ARCHIVE_SIZE && e.sum.Some? && Verified(t, e.archive, e.sum.value)
        && t.untar(e.archive).Some?
      && e.eligible && e.mkdir
  {
  }

  /**
   * If any check or any step before the swap fails, the executable and the backup read the same as before, at
   * every moment of the attempt.
   */
  lemma FailedAttemptTouchesNothing(t: Tools, d: Disk, e: Env, n: nat, k: nat)
    requires WellFormed(d)
    requires ApplyPlan(t, d, e, n).outcome !in {Installed, Restored, Stranded} && k <= |ApplyPlan(t, d, e, n).acts|
    ensures Untouched(d, PerformAll(d, ApplyPlan(t, d, e, n).acts[..k]))
  {
    PrepareAside(t, e, n);
    var acts := ApplyPlan(t, d, e, n).acts;
    assert acts == PreparePlan(t, e, n).acts + Cleanup(e, n);
    forall a | a in acts[..k] ensures Aside(a) {
      assert a in acts;
    }
    AsideTouchesNothing(d, acts[..k]);
  }

  /** A binary goes into place only from an archive of admissible size that matches the published sum. */
  lemma OnlyVerifiedIsInstalled(t: Tools, d: Disk, e: Env, n: nat, from: Path)
    requires Rename(from, Exe) in ApplyPlan(t, d, e, n).acts && from != Backup
    ensures from == NewExe(n) && |e.archive| <= MAX_ARCHIVE_SIZE
    ensures e.sum.Some? && Verified(t, e.archive, e.sum.value) && t.untar(e.archive).Some?
  {
    PrepareAside(t, e, n);
    var prepare := PreparePlan(t, e, n);
    assert Rename(from, Exe) !in prepare.acts && Rename(from, Exe) !in Cleanup(e, n) by {
      assert !Aside(Rename(from, Exe));
    }
    var replace := ReplacePlan(PerformAll(d, prepare.acts), e, n);
    assert Rename(from, Exe) in replace.acts;
  }

  /** After preparation, the new binary waits in the temporary directory and the old files are as they were. */
  lemma PreparedState(t: Tools, d: Disk, e: Env, n: nat)
    requires WellFormed(d) && PreparePlan(t, e, n).outcome == Prepared
    ensures var d' := PerformAll(d, PreparePlan(t, e, n).acts);
      && WellFormed(d') && Untouched(d, d')
      && NewExe(n) in d'.live && Content(d', NewExe(n)) == Some(Capped(t.untar(e.archive).value))
  {
    PrepareAside(t, e, n);
    var acts := PreparePlan(t, e, n).acts;
    AsideTouchesNothing(d, acts);
    var write, flush := Write(NewExe(n), Capped(t.untar(e.archive).value)), Flush(NewExe(n));
    assert acts == [Write(Archive(n), e.archive), write, flush];
    assert acts[1..] == [write, flush] && [write, flush][1..] == [flush] && [flush][1..] == [];
    var d2 := Perform(Perform(d, Write(Archive(n), e.archive)), write);
    assert PerformAll(d2, [flush]) == Perform(d2, flush);
  }

  /** How the swap can end, seen from the executable and its backup. */
  predicate Outcomes(d: Disk, d': Disk, outcome: Outcome, n: nat) {
    && (outcome == Installed ==> Content(d', Exe) == Content(d, NewExe(n)) && Content(d', Backup) == Content(d, Exe))
    && (outcome == Restored ==> Content(d', Exe) == Content(d, Exe) && Content(d', Backup) == None)
    && (outcome == Stranded ==> Content(d', Exe) == None && Content(d', Backup) == Content(d, Exe))
    && (outcome == BackupFailed ==> Untouched(d, d'))
  }

  lemma OptionalFlush(d: Disk, flush: bool)
    ensures var d' := PerformAll(d, if flush then [FlushDir] else []);
      d'.live == d.live && d'.files == d.files && d'.next == d.next
  {
    assert [FlushDir][1..] == [];
    assert PerformAll(d, [FlushDir]) == Perform(d, FlushDir);
  }

  lemma ReplaceOutcome(d: Disk, e: Env, n: nat)
    requires WellFormed(d) && NewExe(n) in d.live
    ensures var plan := ReplacePlan(d, e, n); var d' := PerformAll(d, plan.acts);
      WellFormed(d') && Outcomes(d, d', plan.outcome, n) && (plan.outcome != BackupFailed ==> Exe in d.live)
  {
    var plan := ReplacePlan(d, e, n);
    if plan.outcome != BackupFailed {
      var d1 := Perform(d, Rename(Exe, Backup));
      var sync := if e.dirFlushed then [FlushDir] else [];
      var d2 := PerformAll(d1, sync);
      OptionalFlush(d1, e.dirFlushed);
      var out := [Rename(Exe, Backup)] + sync;
      assert out[1..] == sync;
      assert PerformAll(d, out) == d2;
      if plan.outcome == Stranded {
        assert plan.acts == out;
      } else {
        var move := if plan.outcome == Installed then Rename(NewExe(n), Exe) else Rename(Backup, Exe);
        var d3 := Perform(d2, move);
        var end := if plan.outcome == Installed && e.dirFlushedAgain then [FlushDir] else [];
        OptionalFlush(d3, plan.outcome == Installed && e.dirFlushedAgain);
        assert plan.acts == out + ([move] + end);
        assert ([move] + end)[1..] == end;
        PerformAllConcat(d, out, [move] + end);
      }
    }
  }

  /** The state an update leaves: what is installed, what is kept, and what a failed swap gives back. */
  lemma ApplyOutcome(t: Tools, d: Disk, e: Env, n: nat)
    requires WellFormed(d)
    ensures var plan := ApplyPlan(t, d, e, n); var d' := PerformAll(d, plan.acts);
      && WellFormed(d')
      && (plan.outcome == Installed ==> t.untar(e.archive).Some? && Exe in d.live)
      && (plan.outcome == Installed ==> Content(d', Exe) == Some(Capped(t.untar(e.archive).value)))
      && (plan.outcome == Installed || plan.outcome == Stranded ==> Content(d', Backup) == Content(d, Exe))
      && (plan.outcome == Stranded ==> Content(d', Exe) == None)
      && (plan.outcome == Restored ==> Content(d', Exe) == Content(d, Exe) && Content(d', Backup) == None)
      && (plan.outcome !in {Installed, Restored, Stranded} ==> Untouched(d, d'))
  {
    var prepare := PreparePlan(t, e, n);
    PrepareAside(t, e, n);
    if prepare.outcome == Prepared {
      var d1 := PerformAll(d, prepare.acts);
      PreparedState(t, d, e, n);
      ReplaceOutcome(d1, e, n);
      var replace := ReplacePlan(d1, e, n);
      PerformAllConcat(d, prepare.acts, replace.acts);
      PerformAllConcat(d, prepare.acts + replace.acts, Cleanup(e, n));
      AsideTouchesNothing(PerformAll(d, prepare.acts + replace.acts), Cleanup(e, n));
    } else {
      AsideTouchesNothing(d, prepare.acts + Cleanup(e, n));
    }
  }

  /**
   * The installed binary is a prefix of the one in the archive, as long as the size limit allows, and so all of it
   * exactly when that one is within the limit.
   */
  lemma InstalledWhole(t: Tools, d: Disk, e: Env, n: nat)
    requires WellFormed(d) && ApplyPlan(t, d, e, n).outcome == Installed
    ensures t.untar(e.archive).Some?
    ensures var installed, whole := Content(PerformAll(d, ApplyPlan(t, d, e, n).acts), Exe), t.untar(e.archive);
      && installed.Some? && installed.value <= whole.value
      && (installed == whole <==> |whole.value| <= MAX_ARCHIVE_SIZE)
      && (installed != whole ==> |installed.value| == MAX_ARCHIVE_SIZE)
  {
    ApplyOutcome(t, d, e, n);
  }

  // ----- what survives a power loss after the update -----

  /** Executable and backup stand for the same files in every directory the medium may still hold. */
  predicate Durable(d: Disk) {
    forall i | 0 <= i < |d.unsynced| :: SamePaths(d.unsynced[i], d.live)
  }

  predicate SamePaths(names: Names, live: Names) {
    && (Exe in names <==> Exe in live) && (Backup in names <==> Backup in live)
    && (Exe in live ==> names[Exe] == live[Exe]) && (Backup in live ==> names[Backup] == live[Backup])
  }

  lemma {:induction false} AsideKeepsDurable(d: Disk, acts: seq<Act>)
    requires Durable(d) && forall a :: a in acts ==> Aside(a)
    ensures Durable(PerformAll(d, acts))
    decreases |acts|
  {
    if acts != [] {
      assert Aside(acts[0]);
      AsideKeepsDurable(Perform(d, acts[0]), acts[1..]);
    }
  }

  /** The last call that changed either path was followed by a flush of the directory. */
  lemma ReplaceIsDurable(d: Disk, e: Env, n: nat)
    requires NewExe(n) in d.live
    requires var outcome := ReplacePlan(d, e, n).outcome;
      (outcome == Installed && e.dirFlushedAgain) || (outcome == Stranded && e.dirFlushed)
    ensures Durable(PerformAll(d, ReplacePlan(d, e, n).acts))
  {
    var plan := ReplacePlan(d, e, n);
    var init := plan.acts[..|plan.acts| - 1];
    assert plan.acts == init + [FlushDir];
    PerformAllConcat(d, init, [FlushDir]);
    assert [FlushDir][1..] == [];
    assert PerformAll(PerformAll(d, init), [FlushDir]) == Perform(PerformAll(d, init), FlushDir);
  }

  /** An update that is installed and whose directory flush succeeds outlives a power loss. */
  lemma InstalledIsDurable(t: Tools, d: Disk, e: Env, n: nat)
    requires WellFormed(d)
    requires var outcome := ApplyPlan(t, d, e, n).outcome;
      (outcome == Installed && e.dirFlushedAgain) || (outcome == Stranded && e.dirFlushed)
    ensures Durable(PerformAll(d, ApplyPlan(t, d, e, n).acts))
  {
    var prepare := PreparePlan(t, e, n);
    PrepareAside(t, e, n);
    PreparedState(t, d, e, n);
    var d1 := PerformAll(d, prepare.acts);
    var replace := ReplacePlan(d1, e, n);
    ReplaceIsDurable(d1, e, n);
    PerformAllConcat(d, prepare.acts, replace.acts);
    PerformAllConcat(d, prepare.acts + replace.acts, Cleanup(e, n));
    AsideKeepsDurable(PerformAll(d, prepare.acts + replace.acts), Cleanup(e, n));
  }

  /** A published sum matches in either case. */
  lemma VerifiedInAnyCase(t: Tools, archive: string, sum: string)
    ensures Verified(t, archive, sum) <==> SameButCase(t.sha(archive), sum)
  {
    LowerExactly(t.sha(archive), sum);
  }

  /**
   * How far an update gets, told by what it meets: it is refused if not eligible; fails for want of a directory, of the
   * whole archive within the limit, of a published sum, of a match with it, of a binary unpacked and made executable,
   * of a flush, in this order; and comes to the swap exactly if nothing is wanting.
   */
  lemma PrepareOutcomeExactly(t: Tools, e: Env, n: nat)
    ensures var outcome := PreparePlan(t, e, n).outcome;
      var got := e.eligible && e.mkdir && e.downloaded && |e.archive| <= MAX_ARCHIVE_SIZE;
      var checked := got && e.sum.Some? && SameButCase(t.sha(e.archive), e.sum.value);
      var unpacked := checked && t.untar(e.archive).Some? && e.unpacked && e.chmod;
      && (outcome == Refused <==> !e.eligible)
      && (outcome == NoTempDir <==> e.eligible && !e.mkdir)
      && (outcome == DownloadFailed <==> e.eligible && e.mkdir && !(e.downloaded && |e.archive| <= MAX_ARCHIVE_SIZE))
      && (outcome == NoChecksum <==> got && e.sum.None?)
      && (outcome == ChecksumMismatch <==> got && e.sum.Some? && !checked)
      && (outcome == UnpackFailed <==> checked && !unpacked)
      && (outcome == FlushFailed <==> unpacked && !e.flushed)
      && (outcome == Prepared <==> unpacked && e.flushed)
  {
    if e.sum.Some? {
      VerifiedInAnyCase(t, e.archive, e.sum.value);
    }
    hide Verified, SameButCase;
  }

  /** How the swap ends, told by which renames succeed; the new binary is known to be there. */
  lemma ReplaceOutcomeExactly(d: Disk, e: Env, n: nat)
    requires NewExe(n) in d.live
    ensures var outcome := ReplacePlan(d, e, n).outcome; var moved := Exe in d.live && e.renamedOut;
      && (outcome == BackupFailed <==> !moved)
      && (outcome == Installed <==> moved && e.renamedIn)
      && (outcome == Restored <==> moved && !e.renamedIn && e.renamedBack)
      && (outcome == Stranded <==> moved && !e.renamedIn && !e.renamedBack)
  {
  }

  /** If cleaning up succeeds, an update leaves none of its temporary files, however it ends. */
  lemma NothingLeftBehind(t: Tools, d: Disk, e: Env, n: nat)
    requires e.eligible && e.mkdir && e.cleaned
    ensures var d' := PerformAll(d, ApplyPlan(t, d, e, n).acts); Archive(n) !in d'.live && NewExe(n) !in d'.live
  {
    var acts := ApplyPlan(t, d, e, n).acts;
    var init := acts[..|acts| - 1];
    assert acts == init + [RemoveTemp(n)];
    PerformAllConcat(d, init, [RemoveTemp(n)]);
    assert [RemoveTemp(n)][1..] == [];
    assert PerformAll(PerformAll(d, init), [RemoveTemp(n)]) == Perform(PerformAll(d, init), RemoveTemp(n));
  }

  /** A larger binary is cut at the limit and still installed, with every check passed. */
  lemma OversizedIsCutSilently() returns (t: Tools, d: Disk, e: Env)
    ensures WellFormed(d) && ApplyPlan(t, d, e, 0).outcome == Installed && t.untar(e.archive).Some?
    ensures Content(PerformAll(d, ApplyPlan(t, d, e, 0).acts), Exe) != t.untar(e.archive)
  {
    t := Tools(s => "00", s => Some(seq(MAX_ARCHIVE_SIZE + 1, _ => 'x')));
    d := Disk(map[Exe := 0], [], map[0 := File("old", true)], 1);
    e := Env(true, true, "archive", true, Some("00"), true, "", true, true, true, true, true, true, true, true);
    PreparedState(t, d, e, 0);
    PrepareAside(t, e, 0);
    assert Exe in PerformAll(d, PreparePlan(t, e, 0).acts).live by {
      assert Content(d, Exe) == Some("old");
    }
    InstalledWhole(t, d, e, 0);
  }

  /**
   * A rollback finds a backup after every update that was installed or left stranded; if its rename succeeds
   * the previous executable is back exactly and the backup is gone.
   */
  lemma ApplyThenRollback(t: Tools, d: Disk, e: Env, n: nat, e': Env)
    requires WellFormed(d) && ApplyPlan(t, d, e, n).outcome in {Installed, Stranded} && Exe in d.live
    ensures var d1 := PerformAll(d, ApplyPlan(t, d, e, n).acts); var plan := RollbackPlan(d1, e');
      var d2 := PerformAll(d1, plan.acts);
      && plan.outcome == (if e'.renamedBack then RolledBack else RollbackFailed)
      && (plan.outcome == RolledBack ==> Content(d2, Exe) == Content(d, Exe) && Content(d2, Backup) == None)
      && (plan.outcome == RollbackFailed ==> d2 == d1)
  {
    ApplyOutcome(t, d, e, n);
    var d1 := PerformAll(d, ApplyPlan(t, d, e, n).acts);
    assert [Rename(Backup, Exe)][1..] == [];
    assert PerformAll(d1, [Rename(Backup, Exe)]) == Perform(d1, Rename(Backup, Exe));
  }
}
