/** What each pool operation does to each field of each account, told field by field. */
module PoolEffects {
  import opened Text
  import opened Pool
  import opened Slots

  /** Account `k` is the first of its name. */
  predicate IsFirst(accts: Accounts, k: nat) {
    k < |accts| && forall j | 0 <= j < k :: accts[j].name != accts[k].name
  }

  lemma FirstIsIndex(accts: Accounts, k: nat)
    requires k < |accts|
    ensures IsFirst(accts, k) <==> IndexOf(accts, accts[k].name) == k
  {
  }

  /**
   * An account after an operation. Its count moves for an acquire within the limit or a release of a slot held, on the
   * first account of the name only; errors are counted and forgotten, cool-downs set, and accounts disabled for every
   * account of the name; re-enabling and clearing the cool-down reach the first one only. Name and limit stay, and what
   * is not mentioned stays.
   */
  predicate Effect(cfg: Config, now: int, op: Op, first: bool, a: AccountState, b: AccountState) {
    var mine := !op.Nothing? && op.name == a.name;
    && b.name == a.name && b.max == a.max
    && b.active == (if op.Acquire? && mine && first && a.active < a.max then a.active + 1
                    else if op.Release? && mine && first && a.active > 0 then a.active - 1 else a.active)
    && b.errCount == (if op.NoteError? && mine then a.errCount + 1 else if op.NoteSuccess? && mine then 0
                      else a.errCount)
    && b.coolUntil == (if op.NoteError? && mine && a.errCount + 1 >= cfg.errThreshold then now + cfg.errCooldown
                       else if op.CoolDown? && mine then now + op.dur
                       else if op.ClearCooldown? && mine && first then 0 else a.coolUntil)
    && (b.disabled <==> (a.disabled && !(op.Reenable? && mine && first)) || (op.Disable? && mine))
  }

  lemma SlotEffect(cfg: Config, now: int, accts: Accounts, op: Op, k: nat)
    requires k < |accts| && (op.Acquire? || op.Release?)
    ensures |Apply(cfg, now, accts, op)| == |accts|
    ensures Effect(cfg, now, op, IndexOf(accts, accts[k].name) == k, accts[k], Apply(cfg, now, accts, op)[k])
  {
    assert op.name == accts[k].name ==> Has(accts, op.name);
    hide TouchAll, TouchFirst;
  }

  lemma FirstEffect(cfg: Config, now: int, accts: Accounts, op: Op, k: nat)
    requires k < |accts| && (op.Reenable? || op.ClearCooldown?)
    ensures |Apply(cfg, now, accts, op)| == |accts|
    ensures Effect(cfg, now, op, IndexOf(accts, accts[k].name) == k, accts[k], Apply(cfg, now, accts, op)[k])
  {
    assert op.name == accts[k].name ==> Has(accts, op.name);
    hide TouchAll, CanAcquire, SetActive;
  }

  lemma NoteEffect(cfg: Config, now: int, accts: Accounts, op: Op, k: nat)
    requires k < |accts| && !op.Acquire? && !op.Release? && !op.Reenable? && !op.ClearCooldown?
    ensures |Apply(cfg, now, accts, op)| == |accts|
    ensures Effect(cfg, now, op, IndexOf(accts, accts[k].name) == k, accts[k], Apply(cfg, now, accts, op)[k])
  {
    hide TouchFirst, CanAcquire, SetActive;
  }

  /** Every operation has exactly this effect on every account. */
  lemma OperationExactly(cfg: Config, now: int, accts: Accounts, op: Op, k: nat)
    requires k < |accts|
    ensures |Apply(cfg, now, accts, op)| == |accts|
    ensures Effect(cfg, now, op, IsFirst(accts, k), accts[k], Apply(cfg, now, accts, op)[k])
  {
    FirstIsIndex(accts, k);
    hide IsFirst, Apply, Effect;
    if op.Acquire? || op.Release? {
      SlotEffect(cfg, now, accts, op, k);
    } else if op.Reenable? || op.ClearCooldown? {
      FirstEffect(cfg, now, accts, op, k);
    } else {
      NoteEffect(cfg, now, accts, op, k);
    }
  }

  /** A new account: idle, under the current limit, without errors, cool-down or ban. */
  predicate IsIdle(cfg: Config, name: string, a: AccountState) {
    && a.name == name && a.active == 0 && a.max == cfg.maxConcurrent
    && a.errCount == 0 && a.coolUntil == 0 && !a.disabled
  }

  /** Adding an account that is there enables its first one under the current limit; any other goes to the end, idle. */
  lemma AddExactly(cfg: Config, accts: Accounts, name: string)
    ensures var after := Add(cfg, accts, name);
      if exists k :: 0 <= k < |accts| && accts[k].name == name then
        && |after| == |accts|
        && forall k: nat | k < |accts| ::
             var a, b := accts[k], after[k];
             var mine := a.name == name && IsFirst(accts, k);
             && b.name == a.name && b.active == a.active && b.errCount == a.errCount && b.coolUntil == a.coolUntil
             && b.max == (if mine then cfg.maxConcurrent else a.max) && b.disabled == (a.disabled && !mine)
      else
        |after| == |accts| + 1 && after[..|accts|] == accts && IsIdle(cfg, name, after[|accts|])
  {
    forall k: nat | k < |accts| ensures IsFirst(accts, k) <==> IndexOf(accts, accts[k].name) == k {
      FirstIsIndex(accts, k);
    }
    hide IsFirst;
  }

  /**
   * Aligning with the credential files, names unique on both sides: the list has the files' names in their order; an
   * account known before keeps everything but its limit, every other is idle.
   */
  lemma SyncKeepsState(cfg: Config, accts: Accounts, names: seq<string>, i: nat)
    requires UniqueNames(names) && forall j, k | 0 <= j < k < |accts| :: accts[j].name != accts[k].name
    requires i < |names|
    ensures var after := Sync(cfg, accts, names);
      && |after| == |names| && after[i].name == names[i]
      && (forall k | 0 <= k < |accts| :: accts[k].name == names[i] ==>
            && after[i].active == accts[k].active && after[i].errCount == accts[k].errCount
            && after[i].coolUntil == accts[k].coolUntil && after[i].disabled == accts[k].disabled
            && after[i].max == cfg.maxConcurrent)
      && (names[i] !in Names(accts) ==> IsIdle(cfg, names[i], after[i]))
  {
    SyncAt(cfg, accts, names, i);
    forall k | 0 <= k < |accts| && accts[k].name == names[i] ensures IndexOf(accts, names[i]) == k {
      IndexOfUnique(accts, k);
    }
    if Has(accts, names[i]) {
      assert accts[IndexOf(accts, names[i])].name in Names(accts);
    }
  }

  function Names(accts: Accounts): set<string> {
    set k | 0 <= k < |accts| :: accts[k].name
  }
}
