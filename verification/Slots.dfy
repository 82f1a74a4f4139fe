/**
 * Slot conservation: any number of requests and probes, interleaved step by step with each
 * other and with operators who change the pool, keep `active` equal to the number of slots
 * actually held.
 */
module Slots {
  import opened Text
  import opened Pool
  import opened Chat

  datatype Client = Chatting(request: Request) | Sweeping(probe: Probe)

  /**
   * `slots[i]` is the ledger of client `i`: it grows when an acquire it performed succeeded and shrinks when it
   * released, and nothing else writes it. The code keeps no such ledger; it only has `lockHeld` and its position.
   */
  datatype World = World(accts: Accounts, clients: seq<Client>, slots: seq<multiset<string>>, probing: set<string>)

  datatype Action =
    | StepClient(i: nat, input: Input)
    | Arrive(client: Client)
    | Operate(op: Op, now: int)
    | AddAccount(name: string)
    | SyncAccounts(names: seq<string>)

  function Ledger(slots: multiset<string>, accts: Accounts, op: Op): multiset<string> {
    match op
    case Acquire(name) => if CanAcquire(accts, name) then slots + multiset{name} else slots
    case Release(name) => slots - multiset{name}
    case _ => slots
  }

  /** A request just parsed, or a probe not yet begun. */
  predicate IsNew(c: Client) {
    match c
    case Chatting(r) => r.pc == Start && !r.lockHeld && r.rotation == 0 && r.attempted == [] && r.tried == {}
      && r.calls == 0 && r.refreshes == []
    case Sweeping(p) => p.pc == Idle
  }

  predicate UniqueNames(names: seq<string>) {
    forall i, j | 0 <= i < j < |names| :: names[i] != names[j]
  }

  /** Which operator actions the theorem covers: credential files name an account once and none in use is dropped. */
  predicate Admissible(w: World, action: Action) {
    match action
    case StepClient(i, _) => i < |w.clients|
    case Arrive(c) => IsNew(c)
    case Operate(op, _) => !op.Acquire? && !op.Release?
    case AddAccount(_) => true
    case SyncAccounts(names) =>
      UniqueNames(names) && forall i | 0 <= i < |w.accts| :: w.accts[i].active > 0 ==> w.accts[i].name in names
  }

  function ClientStep(cfg: Config, lim: Limits, w: World, c: Client, input: Input): (Client, Op, set<string>) {
    match c
    case Chatting(r) =>
      var (r', op) := ChatStep(cfg, lim, r, w.accts, input);
      (Chatting(r'), op, w.probing)
    case Sweeping(p) =>
      var (p', op, probing) := ProbeStep(p, w.accts, w.probing, input.cancelled);
      (Sweeping(p'), op, probing)
  }

  function Next(cfg: Config, lim: Limits, w: World, action: Action): World
    requires Admissible(w, action) && |w.slots| == |w.clients|
  {
    match action
    case StepClient(i, input) =>
      var (c, op, probing) := ClientStep(cfg, lim, w, w.clients[i], input);
      World(Apply(cfg, input.now, w.accts, op), w.clients[i := c], w.slots[i := Ledger(w.slots[i], w.accts, op)],
        probing)
    case Arrive(c) => w.(clients := w.clients + [c], slots := w.slots + [multiset{}])
    case Operate(op, now) => w.(accts := Apply(cfg, now, w.accts, op))
    case AddAccount(name) => w.(accts := Add(cfg, w.accts, name))
    case SyncAccounts(names) => w.(accts := Sync(cfg, w.accts, names))
  }

  // ----- the invariant -----

  function Held(slots: seq<multiset<string>>, name: string): nat {
    if slots == [] then 0 else slots[0][name] + Held(slots[1..], name)
  }

  /** The slot a client holds, read off its position alone. */
  function Holding(c: Client): Option<string> {
    match c
    case Chatting(r) =>
      if r.pc.Check? || r.pc.Reject? || r.pc.Call? || r.pc.Respond? || (r.pc.GiveUp? && r.lockHeld)
        then Some(r.pc.acct) else None
    case Sweeping(p) =>
      if p.pc == Claim || p.pc == Probing || p.pc == Unclaim || p.pc == Unlock then Some(p.acct) else None
  }

  function Expected(c: Client): multiset<string> {
    if Holding(c).Some? then multiset{Holding(c).value} else multiset{}
  }

  /** `lockHeld` tells the truth wherever the code consults or maintains it. */
  predicate LockFlagRight(c: Client) {
    c.Chatting? ==> (c.request.lockHeld <==> Holding(c).Some?)
  }

  predicate AccountsRight(cfg: Config, accts: Accounts, slots: seq<multiset<string>>) {
    && (forall i, j | 0 <= i < j < |accts| :: accts[i].name != accts[j].name)
    && (forall i | 0 <= i < |accts| ::
          accts[i].max == cfg.maxConcurrent && accts[i].active == Held(slots, accts[i].name) <= cfg.maxConcurrent)
  }

  ghost predicate NoStrays(accts: Accounts, slots: seq<multiset<string>>) {
    forall name: string :: Held(slots, name) > 0 ==> Has(accts, name)
  }

  predicate ClientsRight(clients: seq<Client>, slots: seq<multiset<string>>) {
    && |slots| == |clients|
    && forall i | 0 <= i < |clients| :: slots[i] == Expected(clients[i]) && LockFlagRight(clients[i])
  }

  ghost predicate Inv(cfg: Config, w: World) {
    AccountsRight(cfg, w.accts, w.slots) && NoStrays(w.accts, w.slots) && ClientsRight(w.clients, w.slots)
  }

  lemma {:induction false} HeldUpdate(slots: seq<multiset<string>>, i: nat, s: multiset<string>, name: string)
    requires i < |slots|
    ensures Held(slots[i := s], name) == Held(slots, name) - slots[i][name] + s[name]
    decreases i
  {
    var t := slots[i := s];
    if i == 0 {
      assert t[1..] == slots[1..];
    } else {
      assert t[1..] == slots[1..][i - 1 := s];
      HeldUpdate(slots[1..], i - 1, s, name);
    }
  }

  lemma {:induction false} HeldAppend(slots: seq<multiset<string>>, name: string)
    ensures Held(slots + [multiset{}], name) == Held(slots, name)
  {
    if slots != [] {
      assert (slots + [multiset{}])[1..] == slots[1..] + [multiset{}];
      HeldAppend(slots[1..], name);
    }
  }

  lemma {:induction false} HeldAtLeast(slots: seq<multiset<string>>, i: nat, name: string)
    requires i < |slots|
    ensures Held(slots, name) >= slots[i][name]
    decreases i
  {
    if i > 0 {
      HeldAtLeast(slots[1..], i - 1, name);
    }
  }

  // ----- one client step -----

  /** Acquires come from clients without a slot, releases from clients that give up theirs; nothing else moves any. */
  predicate Moves(accts: Accounts, before: Client, op: Op, after: Client) {
    match op
    case Acquire(name) => CanAcquire(accts, name) && Holding(before) == None && Holding(after) == Some(name)
    case Release(name) => Holding(before) == Some(name) && Holding(after) == None
    case _ => Holding(after) == Holding(before)
  }

  lemma CallMoves(lim: Limits, r: Request, accts: Accounts, input: Input)
    requires r.pc.Call? && LockFlagRight(Chatting(r))
    ensures var (r', op) := CallStep(lim, r, r.pc.acct, input);
      Moves(accts, Chatting(r), op, Chatting(r')) && LockFlagRight(Chatting(r'))
  {
    hide CanAcquire;
  }

  lemma ChatMoves(cfg: Config, lim: Limits, r: Request, accts: Accounts, input: Input)
    requires LockFlagRight(Chatting(r))
    ensures var (r', op) := ChatStep(cfg, lim, r, accts, input);
      Moves(accts, Chatting(r), op, Chatting(r')) && LockFlagRight(Chatting(r'))
  {
    hide PickExcluding, Healthy, Has, Lookup, CanAcquire;
    if r.pc.Call? {
      CallMoves(lim, r, accts, input);
    }
    hide CallStep;
  }

  lemma ClientMoves(cfg: Config, lim: Limits, w: World, c: Client, input: Input)
    requires LockFlagRight(c)
    ensures var (c', op, _) := ClientStep(cfg, lim, w, c, input); Moves(w.accts, c, op, c') && LockFlagRight(c')
  {
    hide Has, Lookup, CanAcquire;
    if c.Chatting? {
      ChatMoves(cfg, lim, c.request, w.accts, input);
      hide ChatStep;
    }
  }

  /** Operations touch slot counts by acquire and release only, on the first account of the name. */
  lemma ApplyKeepsSlots(cfg: Config, now: int, accts: Accounts, op: Op, k: nat)
    requires k < |accts|
    requires op.Acquire? ==> CanAcquire(accts, op.name)
    requires op.Release? ==> Has(accts, op.name) && Lookup(accts, op.name).active > 0
    ensures var others := Apply(cfg, now, accts, op);
      && |others| == |accts| && others[k].name == accts[k].name && others[k].max == accts[k].max
      && others[k].active == accts[k].active +
           if op.Acquire? && k == IndexOf(accts, op.name) then 1
           else if op.Release? && k == IndexOf(accts, op.name) then -1 else 0
  {
  }

  lemma {:induction false} SameNamesSameIndex(accts: Accounts, others: Accounts, name: string)
    requires |accts| == |others| && forall k | 0 <= k < |accts| :: accts[k].name == others[k].name
    ensures IndexOf(accts, name) == IndexOf(others, name)
    decreases |accts|
  {
    if accts != [] && accts[0].name != name {
      SameNamesSameIndex(accts[1..], others[1..], name);
    }
  }

  lemma IndexOfUnique(accts: Accounts, k: nat)
    requires k < |accts| && forall i, j | 0 <= i < j < |accts| :: accts[i].name != accts[j].name
    ensures IndexOf(accts, accts[k].name) == k
  {
    var i := IndexOf(accts, accts[k].name);
    assert !(k < i);
  }

  /** One account after one operation by the client with ledger `slots[i]`. */
  lemma AccountAfter(cfg: Config, now: int, accts: Accounts, slots: seq<multiset<string>>, i: nat, op: Op, k: nat)
    requires AccountsRight(cfg, accts, slots) && NoStrays(accts, slots) && i < |slots| && k < |accts|
    requires op.Acquire? ==> CanAcquire(accts, op.name)
    requires op.Release? ==> op.name in slots[i]
    ensures op.Release? ==> Has(accts, op.name) && Lookup(accts, op.name).active > 0
    ensures var others, after := Apply(cfg, now, accts, op), slots[i := Ledger(slots[i], accts, op)];
      && |others| == |accts| && others[k].name == accts[k].name && others[k].max == cfg.maxConcurrent
      && others[k].active == Held(after, others[k].name) <= cfg.maxConcurrent
  {
    if op.Release? {
      HeldAtLeast(slots, i, op.name);
    }
    ApplyKeepsSlots(cfg, now, accts, op, k);
    HeldUpdate(slots, i, Ledger(slots[i], accts, op), accts[k].name);
    IndexOfUnique(accts, k);
    hide Apply, Held;
  }

  lemma AccountsAfter(cfg: Config, now: int, accts: Accounts, slots: seq<multiset<string>>, i: nat, op: Op)
    requires AccountsRight(cfg, accts, slots) && NoStrays(accts, slots) && i < |slots|
    requires op.Acquire? ==> CanAcquire(accts, op.name)
    requires op.Release? ==> op.name in slots[i]
    ensures var others, after := Apply(cfg, now, accts, op), slots[i := Ledger(slots[i], accts, op)];
      AccountsRight(cfg, others, after) && NoStrays(others, after)
  {
    var others, after := Apply(cfg, now, accts, op), slots[i := Ledger(slots[i], accts, op)];
    if op.Release? {
      HeldAtLeast(slots, i, op.name);
    }
    ApplyKeepsLength(cfg, now, accts, op);
    forall k | 0 <= k < |accts|
      ensures |others| == |accts| && others[k].name == accts[k].name && others[k].max == cfg.maxConcurrent
      ensures others[k].active == Held(after, others[k].name) <= cfg.maxConcurrent
    {
      AccountAfter(cfg, now, accts, slots, i, op, k);
    }
    hide Apply;
    forall name: string | Held(after, name) > 0 ensures Has(others, name) {
      HeldUpdate(slots, i, Ledger(slots[i], accts, op), name);
      SameNamesSameIndex(accts, others, name);
    }
  }

  lemma ApplyKeepsLength(cfg: Config, now: int, accts: Accounts, op: Op)
    ensures |Apply(cfg, now, accts, op)| == |accts|
  {
  }

  lemma ClientStepKeepsInv(cfg: Config, lim: Limits, w: World, i: nat, input: Input)
    requires Inv(cfg, w) && i < |w.clients|
    ensures Inv(cfg, Next(cfg, lim, w, StepClient(i, input)))
  {
    var (c, op, probing) := ClientStep(cfg, lim, w, w.clients[i], input);
    ClientMoves(cfg, lim, w, w.clients[i], input);
    AccountsAfter(cfg, input.now, w.accts, w.slots, i, op);
    hide ClientStep, Holding, LockFlagRight, Apply, AccountsRight, NoStrays;
  }

  // ----- the operators -----

  lemma OperateKeepsInv(cfg: Config, lim: Limits, w: World, op: Op, now: int)
    requires Inv(cfg, w) && !op.Acquire? && !op.Release?
    ensures Inv(cfg, Next(cfg, lim, w, Operate(op, now)))
  {
    hide Held;
    var accts := Apply(cfg, now, w.accts, op);
    ApplyKeepsLength(cfg, now, w.accts, op);
    forall k | 0 <= k < |accts|
      ensures accts[k].name == w.accts[k].name && accts[k].max == w.accts[k].max && accts[k].active == w.accts[k].active
    {
      ApplyKeepsSlots(cfg, now, w.accts, op, k);
    }
    hide Apply;
    forall name: string | Held(w.slots, name) > 0 ensures Has(accts, name) {
      SameNamesSameIndex(w.accts, accts, name);
    }
  }

  lemma AddKeepsInv(cfg: Config, lim: Limits, w: World, name: string)
    requires Inv(cfg, w)
    ensures Inv(cfg, Next(cfg, lim, w, AddAccount(name)))
  {
    hide Held;
    var accts := Add(cfg, w.accts, name);
    assert !Has(w.accts, name) ==> Held(w.slots, name) == 0;
    forall n: string | Held(w.slots, n) > 0 ensures Has(accts, n) {
      assert accts[IndexOf(w.accts, n)].name == n;
      HasByPosition(accts, IndexOf(w.accts, n));
    }
  }

  lemma HasByPosition(accts: Accounts, i: nat)
    requires i < |accts|
    ensures Has(accts, accts[i].name)
  {
  }

  lemma ArriveKeepsInv(cfg: Config, lim: Limits, w: World, c: Client)
    requires Inv(cfg, w) && IsNew(c)
    ensures Inv(cfg, Next(cfg, lim, w, Arrive(c)))
  {
    var after := Next(cfg, lim, w, Arrive(c));
    forall name: string ensures Held(after.slots, name) == Held(w.slots, name) {
      HeldAppend(w.slots, name);
    }
    hide Held;
  }

  /** With account names unique, the index of the alignment is the list. */
  lemma {:induction false} ByNameIsLookup(accts: Accounts, name: string)
    requires forall i, j | 0 <= i < j < |accts| :: accts[i].name != accts[j].name
    ensures name in ByName(accts) <==> Has(accts, name)
    ensures Has(accts, name) ==> ByName(accts)[name] == Lookup(accts, name)
    decreases |accts|
  {
    if accts != [] {
      var init, last := accts[..|accts| - 1], accts[|accts| - 1];
      ByNameIsLookup(init, name);
      var i := IndexOf(accts, name);
      if Has(init, name) {
        IndexOfUnique(accts, IndexOf(init, name));
      } else if last.name == name {
        IndexOfUnique(accts, |accts| - 1);
      } else {
        assert forall j | 0 <= j < |init| :: init[j].name != name;
        assert accts == init + [last];
      }
    }
  }

  function Kept(cfg: Config, known: map<string, AccountState>, name: string): AccountState {
    if name in known then known[name].(max := cfg.maxConcurrent) else Fresh(cfg, name)
  }

  /** What alignment makes of one listed name: the account as it was, under the current limit, or a fresh one. */
  function Realigned(cfg: Config, accts: Accounts, name: string): AccountState {
    if Has(accts, name) then Lookup(accts, name).(max := cfg.maxConcurrent) else Fresh(cfg, name)
  }

  /** The aligned list follows the files name by name; a name listed once keeps its account's state. */
  lemma {:induction false} AlignedAt(cfg: Config, known: map<string, AccountState>, names: seq<string>, i: nat)
    requires forall k | k in known :: known[k].name == k
    requires i < |names|
    ensures |Aligned(cfg, known, names)| == |names| && Aligned(cfg, known, names)[i].name == names[i]
    ensures (forall j | 0 <= j < i :: names[j] != names[i]) ==>
      Aligned(cfg, known, names)[i] == Kept(cfg, known, names[i])
    decreases |names|
  {
    var rest := known - {names[0]};
    if names[0] !in known { assert rest == known; }
    if i > 0 {
      AlignedAt(cfg, rest, names[1..], i - 1);
    } else if |names| > 1 {
      AlignedAt(cfg, rest, names[1..], 0);
    }
  }

  lemma {:induction false} ByNameKeyed(accts: Accounts)
    ensures forall k | k in ByName(accts) :: ByName(accts)[k].name == k
    decreases |accts|
  {
    if accts != [] {
      ByNameKeyed(accts[..|accts| - 1]);
    }
  }

  lemma SyncAt(cfg: Config, accts: Accounts, names: seq<string>, i: nat)
    requires forall i, j | 0 <= i < j < |accts| :: accts[i].name != accts[j].name
    requires i < |names|
    ensures |Sync(cfg, accts, names)| == |names| && Sync(cfg, accts, names)[i].name == names[i]
    ensures UniqueNames(names) ==> Sync(cfg, accts, names)[i] == Realigned(cfg, accts, names[i])
  {
    ByNameKeyed(accts);
    ByNameIsLookup(accts, names[i]);
    AlignedAt(cfg, ByName(accts), names, i);
  }

  predicate KeepsBusy(accts: Accounts, names: seq<string>) {
    forall i | 0 <= i < |accts| :: accts[i].active > 0 ==> accts[i].name in names
  }

  /**
   * Aligning the pool with the credential files preserves slot counting exactly if no file repeats a name and no
   * account in use is dropped: a dropped account takes its count with it while its holders live on.
   */
  lemma SyncExactly(cfg: Config, w: World, names: seq<string>)
    requires Inv(cfg, w)
    ensures Inv(cfg, w.(accts := Sync(cfg, w.accts, names))) <==> UniqueNames(names) && KeepsBusy(w.accts, names)
  {
    var accts := Sync(cfg, w.accts, names);
    forall i | 0 <= i < |names|
      ensures |accts| == |names| && accts[i].name == names[i]
      ensures UniqueNames(names) ==> accts[i] == Realigned(cfg, w.accts, names[i])
    {
      SyncAt(cfg, w.accts, names, i);
    }
    assert names == [] ==> accts == [];
    hide Sync, Held;
    if Inv(cfg, w.(accts := accts)) {
      forall i | 0 <= i < |w.accts| && w.accts[i].active > 0 ensures w.accts[i].name in names {
        assert Has(accts, w.accts[i].name);
        assert names[IndexOf(accts, w.accts[i].name)] == w.accts[i].name;
      }
    }
    if UniqueNames(names) && KeepsBusy(w.accts, names) {
      SyncKeepsInv(cfg, w, names, accts);
    }
  }

  lemma SyncKeepsInv(cfg: Config, w: World, names: seq<string>, accts: Accounts)
    requires Inv(cfg, w) && UniqueNames(names) && KeepsBusy(w.accts, names) && |accts| == |names|
    requires forall i | 0 <= i < |names| :: accts[i].name == names[i] && accts[i] == Realigned(cfg, w.accts, names[i])
    ensures Inv(cfg, w.(accts := accts))
  {
    hide Held;
    forall name: string | Held(w.slots, name) > 0 ensures Has(accts, name) {
      var a := w.accts[IndexOf(w.accts, name)];
      assert a.active > 0 && a.name == name;
      var i :| 0 <= i < |names| && names[i] == name;
      HasByPosition(accts, i);
    }
  }

  // ----- whole runs -----

  lemma NextKeepsInv(cfg: Config, lim: Limits, w: World, action: Action)
    requires Inv(cfg, w) && Admissible(w, action)
    ensures Inv(cfg, Next(cfg, lim, w, action))
  {
    match action {
      case StepClient(i, input) => ClientStepKeepsInv(cfg, lim, w, i, input);
      case Arrive(c) => ArriveKeepsInv(cfg, lim, w, c);
      case Operate(op, now) => OperateKeepsInv(cfg, lim, w, op, now);
      case AddAccount(name) => AddKeepsInv(cfg, lim, w, name);
      case SyncAccounts(names) => SyncExactly(cfg, w, names);
    }
  }

  /** `worlds` is a run: each world follows from the one before by an admissible action. */
  ghost predicate IsRun(cfg: Config, lim: Limits, worlds: seq<World>) {
    && worlds != [] && worlds[0].clients == [] && worlds[0].slots == [] && worlds[0].probing == {}
    && AccountsRight(cfg, worlds[0].accts, [])
    && forall t | 0 < t < |worlds| :: Follows(cfg, lim, worlds[t - 1], worlds[t])
  }

  ghost predicate Follows(cfg: Config, lim: Limits, w: World, w': World) {
    |w.slots| == |w.clients| && exists action :: Admissible(w, action) && w' == Next(cfg, lim, w, action)
  }

  lemma {:induction false} RunKeepsInv(cfg: Config, lim: Limits, worlds: seq<World>, t: nat)
    requires IsRun(cfg, lim, worlds) && t < |worlds|
    ensures Inv(cfg, worlds[t])
  {
    if t > 0 {
      RunKeepsInv(cfg, lim, worlds, t - 1);
      assert Follows(cfg, lim, worlds[t - 1], worlds[t]);
      var action :| Admissible(worlds[t - 1], action) && worlds[t] == Next(cfg, lim, worlds[t - 1], action);
      NextKeepsInv(cfg, lim, worlds[t - 1], action);
    }
  }

  /**
   * Slot conservation, at every moment of every run: each account's count is the number of slots its clients hold and
   * within the limit; whoever is about to release finds a positive count to decrement; and a client that is through
   * holds nothing, on whatever path it got there.
   */
  lemma SlotsConserved(cfg: Config, lim: Limits, worlds: seq<World>, t: nat)
    requires IsRun(cfg, lim, worlds) && t < |worlds|
    ensures var w := worlds[t];
      && (forall k | 0 <= k < |w.accts| :: w.accts[k].active == Held(w.slots, w.accts[k].name) <= cfg.maxConcurrent)
      && |w.slots| == |w.clients|
    ensures forall i, input | 0 <= i < |worlds[t].clients| ::
      var op := ClientStep(cfg, lim, worlds[t], worlds[t].clients[i], input).1;
      op.Release? ==> Has(worlds[t].accts, op.name) && Lookup(worlds[t].accts, op.name).active > 0
    ensures forall i | 0 <= i < |worlds[t].clients| ::
      (match worlds[t].clients[i]
       case Chatting(r) => r.pc == Finished
       case Sweeping(p) => p.pc == Over) ==> worlds[t].slots[i] == multiset{}
  {
    var w := worlds[t];
    RunKeepsInv(cfg, lim, worlds, t);
    hide IsRun, ClientStep;
    forall i, input | 0 <= i < |w.clients|
      ensures var op := ClientStep(cfg, lim, w, w.clients[i], input).1;
        op.Release? ==> Has(w.accts, op.name) && Lookup(w.accts, op.name).active > 0
    {
      var (c, op, _) := ClientStep(cfg, lim, w, w.clients[i], input);
      ClientMoves(cfg, lim, w, w.clients[i], input);
      if op.Release? {
        HeldAtLeast(w.slots, i, op.name);
        assert Held(w.slots, op.name) > 0;
      }
    }
  }

  // ----- the probing marks -----

  predicate InFlight(c: Client, key: string) {
    c.Sweeping? && (c.probe.pc == Probing || c.probe.pc == Unclaim) && c.probe.key == key
  }

  /** A key is marked exactly while one probe of it is under way, and never two. */
  ghost predicate MarksRight(w: World) {
    && (forall key: string :: key in w.probing <==> Marked(w.clients, key))
    && (forall key: string, i, j | 0 <= i < j < |w.clients| ::
      !(InFlight(w.clients[i], key) && InFlight(w.clients[j], key)))
  }

  ghost predicate Marked(clients: seq<Client>, key: string) {
    exists i :: 0 <= i < |clients| && InFlight(clients[i], key)
  }

  /** Only claiming a free key puts a probe in flight, and only unclaiming takes it and its mark away. */
  lemma StepMarks(cfg: Config, lim: Limits, w: World, c: Client, input: Input, key: string)
    ensures var (c', _, probing) := ClientStep(cfg, lim, w, c, input);
      && (InFlight(c', key) && !InFlight(c, key) ==> key !in w.probing && key in probing)
      && (InFlight(c, key) && !InFlight(c', key) ==> key !in probing)
      && (InFlight(c, key) == InFlight(c', key) ==> (key in probing <==> key in w.probing) || InFlight(c, key))
      && (InFlight(c, key) && InFlight(c', key) ==> (key in probing <==> key in w.probing))
  {
    hide Has, Lookup, CanAcquire, ChatStep;
  }

  lemma StepKeepsMarks(cfg: Config, lim: Limits, w: World, i: nat, input: Input)
    requires MarksRight(w) && i < |w.clients| && |w.slots| == |w.clients|
    ensures MarksRight(Next(cfg, lim, w, StepClient(i, input)))
  {
    var (c, op, probing) := ClientStep(cfg, lim, w, w.clients[i], input);
    var clients := w.clients[i := c];
    forall key: string
      ensures key in probing <==> Marked(clients, key)
      ensures forall j | 0 <= j < |clients| && j != i :: !(InFlight(clients[i], key) && InFlight(clients[j], key))
    {
      StepMarks(cfg, lim, w, w.clients[i], input, key);
      hide ClientStep;
      assert key in w.probing <==> Marked(w.clients, key);
      if Marked(w.clients, key) {
        var j :| 0 <= j < |w.clients| && InFlight(w.clients[j], key);
        if j != i {
          assert InFlight(clients[j], key);
        } else if InFlight(c, key) {
          assert InFlight(clients[i], key);
        }
      } else if InFlight(c, key) {
        assert InFlight(clients[i], key);
      }
    }
    hide ClientStep, InFlight;
  }

  /** In every run at most one probe per account and model is under way, and no mark outlives its probe. */
  lemma {:induction false} OneProbePerKey(cfg: Config, lim: Limits, worlds: seq<World>, t: nat)
    requires IsRun(cfg, lim, worlds) && t < |worlds|
    ensures MarksRight(worlds[t])
  {
    if t > 0 {
      OneProbePerKey(cfg, lim, worlds, t - 1);
      var w := worlds[t - 1];
      assert Follows(cfg, lim, w, worlds[t]);
      var action :| Admissible(w, action) && worlds[t] == Next(cfg, lim, w, action);
      hide Apply, Sync, Add;
      match action {
        case StepClient(i, input) => StepKeepsMarks(cfg, lim, w, i, input);
        case Arrive(c) =>
          forall key: string ensures Marked(w.clients, key) <==> Marked(worlds[t].clients, key) {
            if Marked(w.clients, key) {
              var i :| 0 <= i < |w.clients| && InFlight(w.clients[i], key);
              assert InFlight(worlds[t].clients[i], key);
            }
          }
        case _ =>
      }
    }
  }
}
