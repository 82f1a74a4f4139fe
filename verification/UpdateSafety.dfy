/**
 * Crash safety of self-update: over every run of updates and rollbacks, with calls failing and the process
 * or the power going at any point, a flushed binary, original or out of a verified archive, stays at the executable's
 * path or its backup's. It is the binary as unpacked, which is all of it if it is within the size limit.
 */
module UpdateSafety {
  import opened Text
  import opened Update

  // ----- what is kept -----

  /** A binary that was there from the start, or one as unpacked from an archive matching a published sum. */
  ghost predicate Genuine(t: Tools, originals: set<string>, sums: set<string>, binary: string) {
    binary in originals || exists archive, sum :: FromArchive(t, sums, archive, sum, binary)
  }

  predicate FromArchive(t: Tools, sums: set<string>, archive: string, sum: string, binary: string) {
    sum in sums && Verified(t, archive, sum) && t.untar(archive).Some? && binary == Capped(t.untar(archive).value)
  }

  ghost predicate GoodFile(t: Tools, originals: set<string>, sums: set<string>, d: Disk, inode: nat) {
    inode in d.files && d.files[inode].flushed && Genuine(t, originals, sums, d.files[inode].data)
  }

  /** In this directory a binary can be found, and whatever stands at its two paths is flushed and genuine. */
  ghost predicate Bootable(t: Tools, originals: set<string>, sums: set<string>, d: Disk, names: Names) {
    && (Exe in names || Backup in names)
    && (forall p :: p in {Exe, Backup} && p in names ==> GoodFile(t, originals, sums, d, names[p]))
    && (forall p :: p in names ==> names[p] < d.next)
  }

  /** Every directory the medium may still hold is bootable. */
  ghost predicate Safe(t: Tools, originals: set<string>, sums: set<string>, d: Disk) {
    && Bootable(t, originals, sums, d, d.live)
    && (forall i :: 0 <= i < |d.unsynced| ==> Bootable(t, originals, sums, d, d.unsynced[i]))
    && (forall i :: i in d.files ==> i < d.next)
  }

  /** Acts that keep a disk safe; only moving a new binary into place has a condition. */
  ghost predicate Allowed(t: Tools, originals: set<string>, sums: set<string>, d: Disk, act: Act) {
    match act
    case Write(path, _) => path.Archive? || path.NewExe?
    case Rename(from, to) =>
      || (from == Exe && to == Backup)
      || (from == Backup && to == Exe)
      || (from.NewExe? && to == Exe && (from in d.live ==> GoodFile(t, originals, sums, d, d.live[from])))
    case _ => true
  }

  lemma BootableKept(t: Tools, originals: set<string>, sums: set<string>, d: Disk, d': Disk, names: Names)
    requires Bootable(t, originals, sums, d, names) && d.next <= d'.next
    requires forall i :: i in d.files && i < d.next ==> i in d'.files && d'.files[i].data == d.files[i].data
    requires forall i :: i in d.files && i < d.next && d.files[i].flushed ==> i in d'.files && d'.files[i].flushed
    ensures Bootable(t, originals, sums, d', names)
  {
    forall p | p in {Exe, Backup} && p in names ensures GoodFile(t, originals, sums, d', names[p]) {
      assert GoodFile(t, originals, sums, d, names[p]);
    }
  }

  lemma ActKeepsSafe(t: Tools, originals: set<string>, sums: set<string>, d: Disk, act: Act)
    requires Safe(t, originals, sums, d) && Allowed(t, originals, sums, d, act)
    ensures Safe(t, originals, sums, Perform(d, act))
  {
    var d' := Perform(d, act);
    assert forall i :: i in d.files && i < d.next ==> i in d'.files && d'.files[i].data == d.files[i].data;
    BootableKept(t, originals, sums, d, d', d.live);
    forall i | 0 <= i < |d.unsynced| ensures Bootable(t, originals, sums, d', d.unsynced[i]) {
      BootableKept(t, originals, sums, d, d', d.unsynced[i]);
    }
    assert Bootable(t, originals, sums, d', d'.live);
  }

  ghost predicate AllAllowed(t: Tools, originals: set<string>, sums: set<string>, d: Disk, acts: seq<Act>)
    decreases |acts|
  {
    acts == [] || (Allowed(t, originals, sums, d, acts[0])
      && AllAllowed(t, originals, sums, Perform(d, acts[0]), acts[1..]))
  }

  lemma {:induction false} PrefixesSafe(t: Tools, originals: set<string>, sums: set<string>, d: Disk, acts: seq<Act>,
      k: nat)
    requires Safe(t, originals, sums, d) && AllAllowed(t, originals, sums, d, acts) && k <= |acts|
    ensures Safe(t, originals, sums, PerformAll(d, acts[..k]))
    decreases k
  {
    if k > 0 {
      ActKeepsSafe(t, originals, sums, d, acts[0]);
      PrefixesSafe(t, originals, sums, Perform(d, acts[0]), acts[1..], k - 1);
      assert acts[..k][1..] == acts[1..][..k - 1];
    }
  }

  lemma {:induction false} AllowedConcat(t: Tools, originals: set<string>, sums: set<string>, d: Disk, xs: seq<Act>,
      ys: seq<Act>)
    requires AllAllowed(t, originals, sums, d, xs) && AllAllowed(t, originals, sums, PerformAll(d, xs), ys)
    ensures AllAllowed(t, originals, sums, d, xs + ys)
    decreases |xs|
  {
    if xs == [] {
      assert xs + ys == ys;
    } else {
      assert (xs + ys)[1..] == xs[1..] + ys;
      AllowedConcat(t, originals, sums, Perform(d, xs[0]), xs[1..], ys);
    }
  }

  // ----- one operation keeps it -----

  /** Once preparation succeeds, the new binary lies flushed and genuine in the temporary directory. */
  lemma PrepareAllowed(t: Tools, originals: set<string>, sums: set<string>, d: Disk, e: Env, n: nat)
    requires e.sum.Some? ==> e.sum.value in sums
    ensures var plan := PreparePlan(t, e, n); var d' := PerformAll(d, plan.acts);
      && AllAllowed(t, originals, sums, d, plan.acts)
      && (plan.outcome == Prepared ==> NewExe(n) in d'.live && GoodFile(t, originals, sums, d', d'.live[NewExe(n)]))
  {
    var plan := PreparePlan(t, e, n);
    var d1 := Perform(d, Write(Archive(n), e.archive));
    assert |plan.acts| >= 1 ==> plan.acts[0] == Write(Archive(n), e.archive);
    if plan.outcome == Prepared {
      var binary := Capped(t.untar(e.archive).value);
      assert FromArchive(t, sums, e.archive, e.sum.value, binary);
      var write := Write(NewExe(n), binary);
      var d2 := Perform(d1, write);
      var flush := Flush(NewExe(n));
      assert plan.acts == [Write(Archive(n), e.archive), write, flush];
      assert [flush][1..] == [] && [write, flush][1..] == [flush] && plan.acts[1..] == [write, flush];
      var d3 := Perform(d2, flush);
      assert PerformAll(d2, [flush]) == d3 && AllAllowed(t, originals, sums, d2, [flush]);
      assert PerformAll(d1, [write, flush]) == d3 && AllAllowed(t, originals, sums, d1, [write, flush]);
      assert PerformAll(d, plan.acts) == d3;
    } else if |plan.acts| == 2 {
      assert plan.acts[1].Write? && plan.acts[1].path == NewExe(n);
      assert plan.acts[1..][1..] == [];
    } else if |plan.acts| == 1 {
      assert plan.acts[1..] == [];
    }
  }

  lemma ReplaceAllowed(t: Tools, originals: set<string>, sums: set<string>, d: Disk, e: Env, n: nat)
    requires NewExe(n) in d.live && GoodFile(t, originals, sums, d, d.live[NewExe(n)])
    ensures AllAllowed(t, originals, sums, d, ReplacePlan(d, e, n).acts)
  {
    var acts := ReplacePlan(d, e, n).acts;
    if acts != [] {
      var d1 := Perform(d, acts[0]);
      var sync := if e.dirFlushed then [FlushDir] else [];
      var d2 := PerformAll(d1, sync);
      if e.dirFlushed {
        assert [FlushDir][1..] == [];
        assert PerformAll(d1, [FlushDir]) == Perform(d1, FlushDir);
      }
      assert d2.live == d1.live && d2.files == d.files;
      var rest := if e.renamedIn then [Rename(NewExe(n), Exe)] + (if e.dirFlushedAgain then [FlushDir] else [])
                  else if e.renamedBack then [Rename(Backup, Exe)] else [];
      assert acts == [Rename(Exe, Backup)] + (sync + rest);
      assert AllAllowed(t, originals, sums, d1, sync);
      assert AllAllowed(t, originals, sums, d2, rest) by {
        if e.renamedIn {
          assert rest[1..] == if e.dirFlushedAgain then [FlushDir] else [];
        }
      }
      AllowedConcat(t, originals, sums, d1, sync, rest);
      assert acts[1..] == sync + rest;
    }
  }

  lemma ApplyAllowed(t: Tools, originals: set<string>, sums: set<string>, d: Disk, e: Env, n: nat)
    requires e.sum.Some? ==> e.sum.value in sums
    ensures AllAllowed(t, originals, sums, d, ApplyPlan(t, d, e, n).acts)
  {
    var prepare := PreparePlan(t, e, n);
    var d1 := PerformAll(d, prepare.acts);
    PrepareAllowed(t, originals, sums, d, e, n);
    if prepare.outcome == Prepared {
      var replace := ReplacePlan(d1, e, n);
      ReplaceAllowed(t, originals, sums, d1, e, n);
      AllowedConcat(t, originals, sums, d1, replace.acts, Cleanup(e, n));
      AllowedConcat(t, originals, sums, d, prepare.acts, replace.acts + Cleanup(e, n));
      assert ApplyPlan(t, d, e, n).acts == prepare.acts + (replace.acts + Cleanup(e, n));
    } else {
      AllowedConcat(t, originals, sums, d, prepare.acts, Cleanup(e, n));
    }
  }

  // ----- whole runs -----

  /** `cut`: how many of the operation's calls are made before the process is killed, if fewer than it has. */
  datatype Episode =
    | Update(env: Env, n: nat, cut: nat)
    | Revert(env: Env, cut: nat)
    | PowerLoss(pick: nat, tear: nat -> string)

  function UpTo(acts: seq<Act>, cut: nat): seq<Act> {
    acts[..if cut < |acts| then cut else |acts|]
  }

  /** The medium comes back with one of the directories it may hold, and unflushed contents are anything. */
  function AfterPowerLoss(d: Disk, pick: nat, tear: nat -> string): Disk {
    var names := if pick < |d.unsynced| then d.unsynced[pick] else d.live;
    d.(live := names, unsynced := [],
       files := map i | i in d.files :: File(if d.files[i].flushed then d.files[i].data else tear(i), true))
  }

  function After(t: Tools, d: Disk, episode: Episode): Disk {
    match episode
    case Update(e, n, cut) => PerformAll(d, UpTo(ApplyPlan(t, d, e, n).acts, cut))
    case Revert(e, cut) => PerformAll(d, UpTo(RollbackPlan(d, e).acts, cut))
    case PowerLoss(pick, tear) => AfterPowerLoss(d, pick, tear)
  }

  function AfterAll(t: Tools, d: Disk, run: seq<Episode>): Disk
    decreases |run|
  {
    if run == [] then d else AfterAll(t, After(t, d, run[0]), run[1..])
  }

  ghost predicate Published(sums: set<string>, run: seq<Episode>) {
    forall i :: 0 <= i < |run| && run[i].Update? && run[i].env.sum.Some? ==> run[i].env.sum.value in sums
  }

  lemma PowerLossKeepsSafe(t: Tools, originals: set<string>, sums: set<string>, d: Disk, pick: nat, tear: nat -> string)
    requires Safe(t, originals, sums, d)
    ensures Safe(t, originals, sums, AfterPowerLoss(d, pick, tear))
  {
    var d' := AfterPowerLoss(d, pick, tear);
    assert Bootable(t, originals, sums, d, d'.live);
    forall p | p in {Exe, Backup} && p in d'.live ensures GoodFile(t, originals, sums, d', d'.live[p]) {
      assert GoodFile(t, originals, sums, d, d'.live[p]);
    }
    assert Bootable(t, originals, sums, d', d'.live);
  }

  lemma EpisodeKeepsSafe(t: Tools, originals: set<string>, sums: set<string>, d: Disk, episode: Episode)
    requires Safe(t, originals, sums, d) && Published(sums, [episode])
    ensures Safe(t, originals, sums, After(t, d, episode))
  {
    match episode
    case Update(e, n, cut) =>
      assert [episode][0] == episode;
      var acts := ApplyPlan(t, d, e, n).acts;
      ApplyAllowed(t, originals, sums, d, e, n);
      PrefixesSafe(t, originals, sums, d, acts, |UpTo(acts, cut)|);
    case Revert(e, cut) =>
      var acts := RollbackPlan(d, e).acts;
      PrefixesSafe(t, originals, sums, d, acts, |UpTo(acts, cut)|);
    case PowerLoss(pick, tear) => PowerLossKeepsSafe(t, originals, sums, d, pick, tear);
  }

  /**
   * After every run, hence at every moment of every run, a running program finds at the executable's path or its
   * backup's a flushed binary that was there at the start or was unpacked from a verified archive, as it was then,
   * and so would the machine after losing power.
   */
  lemma {:induction false} CrashSafety(t: Tools, originals: set<string>, sums: set<string>, d: Disk, run: seq<Episode>)
    requires Safe(t, originals, sums, d) && Published(sums, run)
    ensures Safe(t, originals, sums, AfterAll(t, d, run))
    decreases |run|
  {
    if run != [] {
      assert Published(sums, [run[0]]) && Published(sums, run[1..]);
      EpisodeKeepsSafe(t, originals, sums, d, run[0]);
      CrashSafety(t, originals, sums, After(t, d, run[0]), run[1..]);
    }
  }

  // ----- complete binaries -----

  /** No archive that matches a published sum holds a binary over the size limit. */
  ghost predicate AllFit(t: Tools, sums: set<string>) {
    forall archive, sum :: sum in sums && Verified(t, archive, sum) && t.untar(archive).Some? ==>
      |t.untar(archive).value| <= MAX_ARCHIVE_SIZE
  }

  /** A binary that was there from the start, or all of one that a published archive holds. */
  ghost predicate Complete(t: Tools, originals: set<string>, sums: set<string>, binary: string) {
    binary in originals || exists archive, sum ::
      sum in sums && Verified(t, archive, sum) && t.untar(archive) == Some(binary)
  }

  lemma GenuineIsComplete(t: Tools, originals: set<string>, sums: set<string>, binary: string)
    requires Genuine(t, originals, sums, binary) && AllFit(t, sums)
    ensures Complete(t, originals, sums, binary)
  {
    if binary !in originals {
      var archive, sum :| FromArchive(t, sums, archive, sum, binary);
      assert sum in sums && Verified(t, archive, sum) && t.untar(archive) == Some(binary);
    }
  }

  /** A complete binary stands at one of the two paths, and nothing else at either. */
  ghost predicate BootsComplete(t: Tools, originals: set<string>, sums: set<string>, d: Disk, names: Names) {
    && (Exe in names || Backup in names)
    && forall p :: p in {Exe, Backup} && p in names ==>
         && names[p] in d.files && d.files[names[p]].flushed
         && Complete(t, originals, sums, d.files[names[p]].data)
  }

  /**
   * If published binaries are within the size limit, then after every run the directory in force, and every one the
   * medium may come back with, has a complete flushed binary at the executable's path or its backup's.
   */
  lemma CrashSafetyComplete(t: Tools, originals: set<string>, sums: set<string>, d: Disk, run: seq<Episode>)
    requires Safe(t, originals, sums, d) && Published(sums, run) && AllFit(t, sums)
    ensures var end := AfterAll(t, d, run);
      && BootsComplete(t, originals, sums, end, end.live)
      && forall i :: 0 <= i < |end.unsynced| ==> BootsComplete(t, originals, sums, end, end.unsynced[i])
  {
    CrashSafety(t, originals, sums, d, run);
    hide AfterAll;
    var end := AfterAll(t, d, run);
    BootableIsComplete(t, originals, sums, end, end.live);
    forall i | 0 <= i < |end.unsynced| ensures BootsComplete(t, originals, sums, end, end.unsynced[i]) {
      BootableIsComplete(t, originals, sums, end, end.unsynced[i]);
    }
  }

  lemma BootableIsComplete(t: Tools, originals: set<string>, sums: set<string>, d: Disk, names: Names)
    requires Bootable(t, originals, sums, d, names) && AllFit(t, sums)
    ensures BootsComplete(t, originals, sums, d, names)
  {
    hide Genuine, Complete, AllFit;
    forall p | p in {Exe, Backup} && p in names
      ensures GoodFile(t, originals, sums, d, names[p]) && Complete(t, originals, sums, d.files[names[p]].data)
    {
      GenuineIsComplete(t, originals, sums, d.files[names[p]].data);
    }
  }
}
