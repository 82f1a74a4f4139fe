/**
 * The account pool: slot counting, health, error accounting and membership.
 *
 * `Account` and `Pool` are the mutable objects; every method is specified by a function on
 * the list of account states, and the slot protocol reasons about those functions. Each
 * method runs under the pool lock, so it is one atomic step.
 */
module Pool {
  import opened Text

  /** Times are integers; 0 stands for the zero time, before any reading of the clock. */
  datatype AccountState = AccountState(name: string, active: nat, max: int, errCount: nat, coolUntil: int,
      disabled: bool)

  type Accounts = seq<AccountState>

  /** `errThreshold` failures cool an account for `errCooldown`; a 429 cools it for `softCooldown`. */
  datatype Config = Config(maxConcurrent: nat, errThreshold: int, errCooldown: int, softCooldown: int)

  function Fresh(cfg: Config, name: string): AccountState {
    AccountState(name, 0, cfg.maxConcurrent, 0, 0, false)
  }

  predicate Healthy(a: AccountState, now: int) {
    !a.disabled && now > a.coolUntil
  }

  /** The position of the first account with this name, or the length. */
  function IndexOf(accts: Accounts, name: string): (i: nat)
    ensures i <= |accts|
    ensures forall j | 0 <= j < i :: accts[j].name != name
    ensures i < |accts| ==> accts[i].name == name
  {
    if accts == [] || accts[0].name == name then 0
    else
      var i := IndexOf(accts[1..], name);
      assert forall j | 1 <= j < i + 1 :: accts[j] == accts[1..][j - 1];
      i + 1
  }

  predicate Has(accts: Accounts, name: string) {
    IndexOf(accts, name) < |accts|
  }

  function Lookup(accts: Accounts, name: string): AccountState
    requires Has(accts, name)
  {
    accts[IndexOf(accts, name)]
  }

  predicate CanAcquire(accts: Accounts, name: string) {
    Has(accts, name) && Lookup(accts, name).active < Lookup(accts, name).max
  }

  function SetActive(accts: Accounts, name: string, active: nat): Accounts
    requires Has(accts, name)
  {
    accts[IndexOf(accts, name) := Lookup(accts, name).(active := active)]
  }

  // ----- what a pool call does to the list -----

  datatype Op =
    | Nothing
    | Acquire(name: string)
    | Release(name: string)
    | NoteError(name: string)
    | NoteSuccess(name: string)
    | CoolDown(name: string, dur: int)
    | Disable(name: string)
    | Reenable(name: string)
    | ClearCooldown(name: string)

  /** The fields an operation touches on an account that bears its name. */
  function Touch(cfg: Config, now: int, a: AccountState, op: Op): AccountState {
    match op
    case NoteError(_) =>
      var n := a.errCount + 1;
      a.(errCount := n, coolUntil := if n >= cfg.errThreshold then now + cfg.errCooldown else a.coolUntil)
    case NoteSuccess(_) => a.(errCount := 0)
    case CoolDown(_, dur) => a.(coolUntil := now + dur)
    case Disable(_) => a.(disabled := true)
    case Reenable(_) => a.(disabled := false)
    case ClearCooldown(_) => a.(coolUntil := 0)
    case _ => a
  }

  /** Error, success, cool-down and disable notes reach every account of that name, in list order. */
  function TouchAll(cfg: Config, now: int, accts: Accounts, op: Op): (r: Accounts)
    requires !op.Nothing?
    ensures |r| == |accts|
    ensures forall i | 0 <= i < |r| :: r[i] == if accts[i].name == op.name then Touch(cfg, now, accts[i], op)
      else accts[i]
  {
    seq(|accts|, i requires 0 <= i < |accts| => if accts[i].name == op.name then Touch(cfg, now, accts[i], op)
      else accts[i])
  }

  function TouchFirst(cfg: Config, now: int, accts: Accounts, op: Op): Accounts
    requires !op.Nothing?
  {
    if Has(accts, op.name) then accts[IndexOf(accts, op.name) := Touch(cfg, now, Lookup(accts, op.name), op)] else accts
  }

  function Apply(cfg: Config, now: int, accts: Accounts, op: Op): Accounts {
    match op
    case Nothing => accts
    case Acquire(name) => if CanAcquire(accts, name) then SetActive(accts, name, Lookup(accts, name).active + 1)
      else accts
    case Release(name) =>
      if Has(accts, name) && Lookup(accts, name).active > 0
        then SetActive(accts, name, Lookup(accts, name).active - 1) else accts
    case Reenable(_) => TouchFirst(cfg, now, accts, op)
    case ClearCooldown(_) => TouchFirst(cfg, now, accts, op)
    case _ => TouchAll(cfg, now, accts, op)
  }

  /** Not tried yet, not disabled, and its cool-down is over. */
  predicate IsFree(a: AccountState, tried: set<string>, now: int) {
    a.name !in tried && !a.disabled && a.coolUntil < now
  }

  predicate IsFirstFree(accts: Accounts, tried: set<string>, now: int, i: nat) {
    i < |accts| && IsFree(accts[i], tried, now) && forall j | 0 <= j < i :: !IsFree(accts[j], tried, now)
  }

  /** The first healthy account not tried yet. */
  function PickExcluding(accts: Accounts, tried: set<string>, now: int): (r: Option<string>)
    ensures r.Some? ==> exists i | 0 <= i < |accts| :: accts[i].name == r.value && IsFirstFree(accts, tried, now, i)
    ensures r.None? ==> forall i | 0 <= i < |accts| :: !IsFree(accts[i], tried, now)
  {
    if accts == [] then None
    else if accts[0].name !in tried && Healthy(accts[0], now) then
      assert IsFirstFree(accts, tried, now, 0);
      Some(accts[0].name)
    else
      var r := PickExcluding(accts[1..], tried, now);
      assert forall j | 1 <= j < |accts| :: accts[j] == accts[1..][j - 1];
      assert forall i: nat | i < |accts| - 1 && IsFirstFree(accts[1..], tried, now, i) ::
        IsFirstFree(accts, tried, now, i + 1);
      r
  }

  function Add(cfg: Config, accts: Accounts, name: string): Accounts {
    if Has(accts, name) then
      accts[IndexOf(accts, name) := Lookup(accts, name).(max := cfg.maxConcurrent, disabled := false)]
    else accts + [Fresh(cfg, name)]
  }

  /** Alignment with the credential files: known names keep their state once, all others start afresh. */
  function Aligned(cfg: Config, known: map<string, AccountState>, names: seq<string>): Accounts
    decreases |names|
  {
    if names == [] then []
    else if names[0] in known then
      [known[names[0]].(max := cfg.maxConcurrent)] + Aligned(cfg, known - {names[0]}, names[1..])
    else [Fresh(cfg, names[0])] + Aligned(cfg, known, names[1..])
  }

  lemma AlignedNil(cfg: Config, known: map<string, AccountState>)
    ensures Aligned(cfg, known, []) == []
  {
  }

  lemma AlignedCons(cfg: Config, known: map<string, AccountState>, name: string, names: seq<string>)
    ensures Aligned(cfg, known, [name] + names) == Aligned(cfg, known, [name]) + Aligned(cfg, known - {name}, names)
  {
    assert ([name] + names)[1..] == names && [name][1..] == [];
    if name !in known { assert known - {name} == known; }
  }

  /** Accounts by name; a later account shadows an earlier one of the same name. */
  function ByName(accts: Accounts): map<string, AccountState> {
    if accts == [] then map[] else ByName(accts[..|accts| - 1])[accts[|accts| - 1].name := accts[|accts| - 1]]
  }

  function Sync(cfg: Config, accts: Accounts, names: seq<string>): Accounts {
    Aligned(cfg, ByName(accts), names)
  }

  // ----- the objects -----

  class Account {
    const name: string
    var active: nat
    var max: int
    var errCount: nat
    var coolUntil: int
    var disabled: bool

    constructor (cfg: Config, name: string)
      ensures View() == Fresh(cfg, name)
    {
      this.name := name;
      active, max, errCount, coolUntil, disabled := 0, cfg.maxConcurrent, 0, 0, false;
    }

    function View(): AccountState
      reads this
    {
      AccountState(name, active, max, errCount, coolUntil, disabled)
    }

    method Note(cfg: Config, op: Op, now: int)
      requires op.NoteError? || op.NoteSuccess? || op.CoolDown? || op.Disable?
      modifies this
      ensures View() == Touch(cfg, now, old(View()), op)
    {
      match op {
        case NoteError(_) =>
          errCount := errCount + 1;
          if errCount >= cfg.errThreshold {
            coolUntil := now + cfg.errCooldown;
          }
        case NoteSuccess(_) => errCount := 0;
        case CoolDown(_, dur) => coolUntil := now + dur;
        case Disable(_) => disabled := true;
      }
    }
  }

  ghost predicate Distinct(s: seq<Account>) {
    forall i, j | 0 <= i < j < |s| :: s[i] != s[j]
  }

  function Views(s: seq<Account>): (r: Accounts)
    reads s
    ensures |r| == |s| && forall i | 0 <= i < |s| :: r[i] == s[i].View()
  {
    seq(|s|, i requires 0 <= i < |s| reads s => s[i].View())
  }

  class Pool {
    const cfg: Config
    var accounts: seq<Account>

    ghost predicate Valid()
      reads this
    {
      Distinct(accounts)
    }

    function View(): Accounts
      reads this, accounts
    {
      Views(accounts)
    }

    constructor (cfg: Config)
      ensures Valid() && accounts == [] && this.cfg == cfg
    {
      this.cfg := cfg;
      accounts := [];
    }

    /** The position of the first account with this name, or the length. */
    method Find(name: string) returns (i: nat)
      ensures i == IndexOf(View(), name)
    {
      i := 0;
      while i < |accounts| && accounts[i].name != name
        invariant 0 <= i <= |accounts|
        invariant forall j | 0 <= j < i :: accounts[j].name != name
      {
        i := i + 1;
      }
      assert i < |accounts| ==> View()[i].name == name;
      assert forall j | 0 <= j < i :: View()[j].name != name;
    }

    method AcquireLock(name: string) returns (ok: bool)
      requires Valid()
      modifies accounts
      ensures ok == CanAcquire(old(View()), name)
      ensures View() == Apply(cfg, 0, old(View()), Acquire(name))
    {
      var i := Find(name);
      ok := i < |accounts| && accounts[i].active < accounts[i].max;
      if ok {
        accounts[i].active := accounts[i].active + 1;
      }
      assert View() == Apply(cfg, 0, old(View()), Acquire(name));
    }

    method ReleaseLock(name: string)
      requires Valid()
      modifies accounts
      ensures View() == Apply(cfg, 0, old(View()), Release(name))
    {
      var i := Find(name);
      if i < |accounts| && accounts[i].active > 0 {
        accounts[i].active := accounts[i].active - 1;
      }
      assert View() == Apply(cfg, 0, old(View()), Release(name));
    }

    method PickFirst(tried: set<string>, now: int) returns (r: Option<Account>)
      requires Valid()
      ensures r.Some? ==> r.value in accounts
      ensures (if r.Some? then Some(r.value.name) else None) == PickExcluding(View(), tried, now)
    {
      var i := 0;
      while i < |accounts|
        invariant 0 <= i <= |accounts|
        invariant PickExcluding(View()[i..], tried, now) == PickExcluding(View(), tried, now)
      {
        var a := accounts[i];
        assert View()[i..][1..] == View()[i + 1..];
        if a.name !in tried && !a.disabled && now > a.coolUntil {
          return Some(a);
        }
        i := i + 1;
      }
      return None;
    }

    /** `NoteError`, `NoteSuccess`, `Cooldown` and `Disable` walk the whole list. */
    method Note(op: Op, now: int)
      requires Valid() && (op.NoteError? || op.NoteSuccess? || op.CoolDown? || op.Disable?)
      modifies accounts
      ensures View() == Apply(cfg, now, old(View()), op)
    {
      var i := 0;
      while i < |accounts|
        invariant 0 <= i <= |accounts|
        invariant forall j | 0 <= j < |accounts| ::
          accounts[j].View() == if j < i then TouchAll(cfg, now, old(View()), op)[j] else old(accounts[j].View())
      {
        if accounts[i].name == op.name {
          accounts[i].Note(cfg, op, now);
        }
        i := i + 1;
      }
      assert View() == TouchAll(cfg, now, old(View()), op);
    }

    method AddAccount(name: string) returns (a: Account)
      requires Valid()
      modifies this, accounts
      ensures Valid() && a in accounts && a.name == name
      ensures View() == Add(cfg, old(View()), name)
    {
      var i := Find(name);
      if i < |accounts| {
        a := accounts[i];
        a.max, a.disabled := cfg.maxConcurrent, false;
      } else {
        a := new Account(cfg, name);
        accounts := accounts + [a];
      }
      assert View() == Add(cfg, old(View()), name);
    }

    ghost predicate Tracks(byUID: map<string, Account>, known: map<string, AccountState>)
      reads byUID.Values
    {
      byUID.Keys == known.Keys && forall k | k in byUID :: byUID[k].View() == known[k] && byUID[k].name == k
    }

    /** The index of the accounts by name that the alignment starts from. */
    method IndexAccounts() returns (byUID: map<string, Account>)
      ensures Tracks(byUID, ByName(View()))
      ensures forall k | k in byUID :: byUID[k] in accounts
    {
      byUID := map[];
      var i := 0;
      while i < |accounts|
        invariant 0 <= i <= |accounts|
        invariant Tracks(byUID, ByName(View()[..i]))
        invariant forall k | k in byUID :: byUID[k] in accounts
      {
        assert View()[..i + 1][..i] == View()[..i];
        byUID := byUID[accounts[i].name := accounts[i]];
        i := i + 1;
      }
      assert View()[..i] == View();
    }

    /** Mid-alignment: the new list is duplicate-free and apart from the accounts still in the index. */
    ghost predicate Building(next: seq<Account>, byUID: map<string, Account>, known: map<string, AccountState>)
      reads this, byUID.Values
    {
      && Distinct(next)
      && Tracks(byUID, known)
      && (forall k | k in byUID :: byUID[k] in accounts)
      && (forall j, k | 0 <= j < |next| && k in byUID :: byUID[k] != next[j])
    }

    /** Takes the account of that name out of the index, or makes a new one, and appends it. */
    method TakeOrMake(next: seq<Account>, byUID: map<string, Account>, name: string,
        ghost known: map<string, AccountState>)
      returns (longer: seq<Account>, rest: map<string, Account>)
      requires Building(next, byUID, known)
      modifies accounts
      ensures Building(longer, rest, known - {name})
      ensures Views(longer) == old(Views(next)) + Aligned(cfg, known, [name])
    {
      rest := byUID - {name};
      var a: Account;
      if name in byUID {
        a := byUID[name];
        a.max := cfg.maxConcurrent;
      } else {
        a := new Account(cfg, name);
        assert known - {name} == known;
      }
      longer := next + [a];
      assert forall j | 0 <= j < |next| :: longer[j].View() == old(Views(next))[j];
      assert Aligned(cfg, known, [name]) == [a.View()] by {
        assert [name][1..] == [];
      }
      assert Views(longer) == old(Views(next)) + [a.View()];
    }

    method SyncToDir(names: seq<string>)
      requires Valid()
      modifies this, accounts
      ensures Valid() && View() == Sync(cfg, old(View()), names)
    {
      hide ByName, Aligned;
      var byUID := IndexAccounts();
      ghost var known := ByName(View());
      var next: seq<Account> := [];
      var i := 0;
      while i < |names|
        invariant 0 <= i <= |names|
        invariant accounts == old(accounts) && Building(next, byUID, known)
        invariant Views(next) + Aligned(cfg, known, names[i..]) == Sync(cfg, old(View()), names)
      {
        assert names[i..] == [names[i]] + names[i + 1..];
        AlignedCons(cfg, known, names[i], names[i + 1..]);
        next, byUID := TakeOrMake(next, byUID, names[i], known);
        known := known - {names[i]};
        i := i + 1;
      }
      AlignedNil(cfg, known);
      assert names[i..] == [];
      assert Views(next) + [] == Views(next);
      accounts := next;
    }
  }
}
