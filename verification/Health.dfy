/** Disabled and cooling accounts stay out of rotation, over whole histories of the pool. */
module Health {
  import opened Text
  import opened Pool
  import opened Chat
  import opened Rotation
  import opened Slots

  /** What can happen to the pool between two moments. */
  datatype Change =
    | Called(op: Op, now: int)
    | Added(name: string)
    | Synced(names: seq<string>)

  function Changed(cfg: Config, accts: Accounts, change: Change): Accounts {
    match change
    case Called(op, now) => Apply(cfg, now, accts, op)
    case Added(name) => Add(cfg, accts, name)
    case Synced(names) => Sync(cfg, accts, names)
  }

  function History(cfg: Config, accts: Accounts, changes: seq<Change>): Accounts {
    if changes == [] then accts else Changed(cfg, History(cfg, accts, changes[..|changes| - 1]), changes[|changes| - 1])
  }

  /** Every account of this name is disabled. */
  predicate AllDisabled(accts: Accounts, name: string) {
    forall i | 0 <= i < |accts| :: accts[i].name == name ==> accts[i].disabled
  }

  /** Every account of this name cools down at least until then. */
  predicate AllCooling(accts: Accounts, name: string, until: int) {
    forall i | 0 <= i < |accts| :: accts[i].name == name ==> accts[i].coolUntil >= until
  }

  /** Aligning with these files makes a new account of the name: it is listed anew, or more than once. */
  predicate Relists(accts: Accounts, names: seq<string>, name: string) {
    || (name in names && forall i | 0 <= i < |accts| :: accts[i].name != name)
    || exists i, j :: 0 <= i < j < |names| && names[i] == name && names[j] == name
  }

  /** The only changes that can enable the name again. */
  predicate MayEnable(accts: Accounts, change: Change, name: string) {
    match change
    case Called(op, _) => op == Reenable(name)
    case Added(n) => n == name
    case Synced(names) => Relists(accts, names, name)
  }

  /** The only changes that can end its cool-down before `until`. */
  predicate MayShorten(cfg: Config, accts: Accounts, change: Change, name: string, until: int) {
    match change
    case Called(op, now) =>
      || op == ClearCooldown(name)
      || (op.CoolDown? && op.name == name && now + op.dur < until)
      || (op == NoteError(name) && now + cfg.errCooldown < until
          && exists i | 0 <= i < |accts| :: accts[i].name == name && accts[i].errCount + 1 >= cfg.errThreshold)
    case Added(n) => n == name && forall i | 0 <= i < |accts| :: accts[i].name != name
    case Synced(names) => Relists(accts, names, name)
  }

  // ----- one change -----

  lemma {:induction false} ByNameFrom(accts: Accounts, name: string)
    ensures name in ByName(accts) <==> exists i :: 0 <= i < |accts| && accts[i].name == name
    ensures name in ByName(accts) ==> ByName(accts)[name] in accts && ByName(accts)[name].name == name
    decreases |accts|
  {
    if accts != [] {
      var init, last := accts[..|accts| - 1], accts[|accts| - 1];
      ByNameFrom(init, name);
      if name in ByName(init) {
        var i :| 0 <= i < |init| && init[i].name == name;
        assert accts[i].name == name;
      }
      if exists i :: 0 <= i < |accts| && accts[i].name == name {
        var i :| 0 <= i < |accts| && accts[i].name == name;
        assert i < |init| ==> init[i].name == name;
      }
    }
  }

  /** An account that alignment does not make anew is one of the old ones, but for its limit. */
  lemma SyncKeeps(cfg: Config, accts: Accounts, names: seq<string>, name: string, i: nat)
    requires !Relists(accts, names, name) && i < |Sync(cfg, accts, names)| && Sync(cfg, accts, names)[i].name == name
    ensures exists a :: a in accts && a.name == name && Sync(cfg, accts, names)[i] == a.(max := cfg.maxConcurrent)
  {
    ByNameKeyed(accts);
    AlignedLength(cfg, ByName(accts), names);
    AlignedAt(cfg, ByName(accts), names, i);
    ByNameFrom(accts, name);
    hide Aligned, ByName;
    assert forall j | 0 <= j < i :: names[j] != names[i];
    assert name in names;
    var a := ByName(accts)[name];
    assert a in accts && a.name == name && Sync(cfg, accts, names)[i] == a.(max := cfg.maxConcurrent);
  }

  lemma {:induction false} AlignedLength(cfg: Config, known: map<string, AccountState>, names: seq<string>)
    ensures |Aligned(cfg, known, names)| == |names|
    decreases |names|
  {
    if names != [] {
      AlignedLength(cfg, if names[0] in known then known - {names[0]} else known, names[1..]);
    }
  }

  lemma StaysDisabled(cfg: Config, accts: Accounts, change: Change, name: string)
    requires AllDisabled(accts, name) && !MayEnable(accts, change, name)
    ensures AllDisabled(Changed(cfg, accts, change), name)
  {
    if change.Synced? {
      var after := Sync(cfg, accts, change.names);
      forall i | 0 <= i < |after| && after[i].name == name ensures after[i].disabled {
        SyncKeeps(cfg, accts, change.names, name, i);
      }
    }
    hide Sync;
  }

  lemma CallKeepsCooling(cfg: Config, accts: Accounts, op: Op, now: int, name: string, until: int, i: nat)
    requires AllCooling(accts, name, until) && !MayShorten(cfg, accts, Called(op, now), name, until)
    requires i < |Apply(cfg, now, accts, op)| && Apply(cfg, now, accts, op)[i].name == name
    ensures Apply(cfg, now, accts, op)[i].coolUntil >= until
  {
    ApplyKeepsLength(cfg, now, accts, op);
    assert accts[i].name == name && accts[i].coolUntil >= until;
    if op == NoteError(name) && now + cfg.errCooldown < until {
      assert accts[i].errCount + 1 < cfg.errThreshold;
    }
  }

  lemma StaysCooling(cfg: Config, accts: Accounts, change: Change, name: string, until: int)
    requires AllCooling(accts, name, until) && !MayShorten(cfg, accts, change, name, until)
    ensures AllCooling(Changed(cfg, accts, change), name, until)
  {
    match change
    case Called(op, now) =>
      forall i | 0 <= i < |Apply(cfg, now, accts, op)| && Apply(cfg, now, accts, op)[i].name == name
        ensures Apply(cfg, now, accts, op)[i].coolUntil >= until
      {
        CallKeepsCooling(cfg, accts, op, now, name, until, i);
      }
    case Added(_) =>
    case Synced(names) =>
      var after := Sync(cfg, accts, names);
      forall i | 0 <= i < |after| && after[i].name == name ensures after[i].coolUntil >= until {
        SyncKeeps(cfg, accts, names, name, i);
      }
  }

  // ----- whole histories -----

  ghost predicate NeverEnabled(cfg: Config, accts: Accounts, changes: seq<Change>, name: string) {
    forall t | 0 <= t < |changes| :: !MayEnable(History(cfg, accts, changes[..t]), changes[t], name)
  }

  ghost predicate NeverShortened(cfg: Config, accts: Accounts, changes: seq<Change>, name: string, until: int) {
    forall t | 0 <= t < |changes| :: !MayShorten(cfg, History(cfg, accts, changes[..t]), changes[t], name, until)
  }

  lemma {:induction false} HistoryDisabled(cfg: Config, accts: Accounts, changes: seq<Change>, name: string)
    requires AllDisabled(accts, name) && NeverEnabled(cfg, accts, changes, name)
    ensures AllDisabled(History(cfg, accts, changes), name)
    decreases |changes|
  {
    if changes != [] {
      var n := |changes| - 1;
      assert forall t | 0 <= t < n :: changes[..n][..t] == changes[..t];
      HistoryDisabled(cfg, accts, changes[..n], name);
      hide MayEnable, Changed, AllDisabled;
      StaysDisabled(cfg, History(cfg, accts, changes[..n]), changes[n], name);
    }
  }

  lemma {:induction false} HistoryCooling(cfg: Config, accts: Accounts, changes: seq<Change>, name: string, until: int)
    requires AllCooling(accts, name, until) && NeverShortened(cfg, accts, changes, name, until)
    ensures AllCooling(History(cfg, accts, changes), name, until)
    decreases |changes|
  {
    if changes != [] {
      var n := |changes| - 1;
      assert forall t | 0 <= t < n :: changes[..n][..t] == changes[..t];
      HistoryCooling(cfg, accts, changes[..n], name, until);
      hide MayShorten, Changed, AllCooling;
      StaysCooling(cfg, History(cfg, accts, changes[..n]), changes[n], name, until);
    }
  }

  /** No request turns to this account at this moment: it is neither picked nor taken as the sticky one. */
  ghost predicate OutOfRotation(cfg: Config, accts: Accounts, name: string, now: int) {
    && (forall tried :: PickExcluding(accts, tried, now) != Some(name))
    && forall lim, r: Request, input: Input {:trigger ChatStep(cfg, lim, r, accts, input)} ::
         input.now == now && (r.pc.Start? || r.pc.Pick?) ==> ChatStep(cfg, lim, r, accts, input).0.pc != Wait(name)
  }

  lemma BarredIsOut(cfg: Config, accts: Accounts, name: string, now: int)
    requires AllDisabled(accts, name) || AllCooling(accts, name, now)
    ensures OutOfRotation(cfg, accts, name, now)
  {
    assert Has(accts, name) ==> !Healthy(Lookup(accts, name), now);
    hide CallStep;
  }

  /**
   * After it was disabled, whatever happens, an account is out of rotation until it is enabled again, added again, or
   * listed anew.
   */
  lemma DisabledStaysOut(cfg: Config, accts: Accounts, at: int, name: string, changes: seq<Change>, now: int)
    requires NeverEnabled(cfg, Apply(cfg, at, accts, Disable(name)), changes, name)
    ensures OutOfRotation(cfg, History(cfg, Apply(cfg, at, accts, Disable(name)), changes), name, now)
  {
    HistoryDisabled(cfg, Apply(cfg, at, accts, Disable(name)), changes, name);
    hide History, NeverEnabled, OutOfRotation;
    BarredIsOut(cfg, History(cfg, Apply(cfg, at, accts, Disable(name)), changes), name, now);
  }

  /**
   * After a cool-down of `dur` noted at `at`, an account is out of rotation up to and including `at + dur`, unless its
   * cool-down is cleared, a later note ends it before then, or it is added or listed anew.
   */
  lemma CoolingStaysOut(cfg: Config, accts: Accounts, at: int, name: string, dur: int, changes: seq<Change>, now: int)
    requires NeverShortened(cfg, Apply(cfg, at, accts, CoolDown(name, dur)), changes, name, at + dur)
    requires now <= at + dur
    ensures OutOfRotation(cfg, History(cfg, Apply(cfg, at, accts, CoolDown(name, dur)), changes), name, now)
  {
    HistoryCooling(cfg, Apply(cfg, at, accts, CoolDown(name, dur)), changes, name, at + dur);
    hide History, NeverShortened, OutOfRotation;
    BarredIsOut(cfg, History(cfg, Apply(cfg, at, accts, CoolDown(name, dur)), changes), name, now);
  }
}
