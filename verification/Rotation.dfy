/** Bounds on one request, whatever the pool, the upstream and the other clients do. */
module Rotation {
  import opened Text
  import opened Pool
  import opened Chat

  predicate InAttempt(pc: Pc) {
    !pc.Start? && !pc.Pick? && !pc.Finished?
  }

  predicate BeforeCalls(pc: Pc) {
    pc.Start? || pc.Pick? || pc.Wait? || pc.Check? || pc.Reject?
  }

  predicate InRetryLoop(pc: Pc) {
    pc.Call? || pc.Sleep? || pc.Rewait?
  }

  /** Calls the current attempt may have made by this point. */
  function CallsHere(lim: Limits, r: Request): nat {
    if BeforeCalls(r.pc) then 0
    else if r.pc.Call? then r.retry
    else if InRetryLoop(r.pc) then r.retry + 1
    else lim.attempts
  }

  /** The calls that `n` rotations allow. */
  function Budget(lim: Limits, n: nat): nat {
    n * lim.attempts
  }

  /** Accounts taken and calls made, against the rotation and retry counters. */
  predicate Bounded(lim: Limits, r: Request) {
    if r.pc.Finished? then
      && |r.attempted| <= lim.rotations
      && r.calls <= Budget(lim, lim.rotations)
    else
      && r.rotation <= lim.rotations
      && (!r.pc.Start? ==> r.rotation < lim.rotations)
      && (InRetryLoop(r.pc) ==> r.retry < lim.attempts)
      && |r.attempted| == r.rotation + (if InAttempt(r.pc) then 1 else 0)
      && r.calls <= Budget(lim, r.rotation) + CallsHere(lim, r)
  }

  lemma BudgetGrows(lim: Limits, n: nat)
    ensures Budget(lim, n + 1) == Budget(lim, n) + lim.attempts
    ensures n <= lim.rotations ==> Budget(lim, n) <= Budget(lim, lim.rotations)
  {
    if n <= lim.rotations {
      assert lim.rotations * lim.attempts == n * lim.attempts + (lim.rotations - n) * lim.attempts;
    }
  }

  lemma CallKeepsBounds(lim: Limits, r: Request, input: Input)
    requires Bounded(lim, r) && r.pc.Call?
    ensures Bounded(lim, CallStep(lim, r, r.pc.acct, input).0)
  {
    hide IsQueueLimit, IsUnauthorized, Budget;
  }

  lemma OuterKeepsBounds(cfg: Config, lim: Limits, r: Request, accts: Accounts, input: Input)
    requires Bounded(lim, r) && lim.attempts > 0 && BeforeCalls(r.pc)
    ensures Bounded(lim, ChatStep(cfg, lim, r, accts, input).0)
  {
    BudgetGrows(lim, r.rotation);
    hide PickExcluding, Healthy, Has, Lookup, CanAcquire, CallStep, Budget, Again;
  }

  lemma InnerKeepsBounds(cfg: Config, lim: Limits, r: Request, accts: Accounts, input: Input)
    requires Bounded(lim, r) && !BeforeCalls(r.pc) && !r.pc.Call?
    ensures Bounded(lim, ChatStep(cfg, lim, r, accts, input).0)
  {
    if !r.pc.Finished? {
      BudgetGrows(lim, r.rotation);
      BudgetGrows(lim, r.rotation + 1);
    }
    hide CanAcquire, Blame, Budget, StartStep, PickStep, CallStep;
  }

  /** Every step keeps the bounds. */
  lemma StepKeepsBounds(cfg: Config, lim: Limits, r: Request, accts: Accounts, input: Input)
    requires Bounded(lim, r) && lim.attempts > 0
    ensures Bounded(lim, ChatStep(cfg, lim, r, accts, input).0)
  {
    if BeforeCalls(r.pc) {
      OuterKeepsBounds(cfg, lim, r, accts, input);
    } else if r.pc.Call? {
      CallKeepsBounds(lim, r, input);
      hide CallStep, Bounded;
    } else {
      InnerKeepsBounds(cfg, lim, r, accts, input);
    }
    hide ChatStep, Bounded;
  }

  // ----- progress -----

  /** Lexicographic: rotations left, stage within the rotation, retries left with the place in the retry loop. */
  datatype Rank = Rank(rotations: nat, stage: nat, inner: nat)

  predicate Below(x: Rank, y: Rank) {
    x.rotations < y.rotations
    || (x.rotations == y.rotations && (x.stage < y.stage || (x.stage == y.stage && x.inner < y.inner)))
  }

  function RankOf(lim: Limits, r: Request): Rank
    requires Bounded(lim, r)
  {
    if r.pc.Finished? then Rank(0, 0, 0)
    else
      var inner := if InRetryLoop(r.pc) then (lim.attempts - r.retry) * 4 else 0;
      Rank(lim.rotations - r.rotation, match r.pc
        case Start => 9 case Pick => 8 case Wait(_) => 7 case Check(_) => 6
        case Call(_) => 5 case Sleep(_, _) => 5 case Rewait(_, _) => 5
        case Respond(_) => 4 case Reject(_) => 4 case GiveUp(_, _) => 3 case Accuse(_, _) => 2
        case Settle(_, _) => 2 case Finished => 0,
        inner + match r.pc case Call(_) => 3 case Sleep(_, _) => 2 case Rewait(_, _) => 1 case _ => 0)
  }

  /** Nearer the end, or a poll for a slot that is still taken and not timed out yet, which changes nothing. */
  predicate Progresses(lim: Limits, r: Request, accts: Accounts, input: Input, next: Request)
    requires Bounded(lim, r) && Bounded(lim, next)
  {
    Below(RankOf(lim, next), RankOf(lim, r))
    || (next == r && (r.pc.Wait? || r.pc.Rewait?) && !input.timedOut && !CanAcquire(accts, r.pc.acct))
  }

  lemma OuterProgresses(cfg: Config, lim: Limits, r: Request, accts: Accounts, input: Input)
    requires Bounded(lim, r) && BeforeCalls(r.pc) && Bounded(lim, ChatStep(cfg, lim, r, accts, input).0)
    ensures Progresses(lim, r, accts, input, ChatStep(cfg, lim, r, accts, input).0)
  {
    hide PickExcluding, Healthy, Has, Lookup, CanAcquire, CallStep, Again, Budget, CallsHere;
  }

  lemma CallProgresses(lim: Limits, r: Request, accts: Accounts, input: Input)
    requires Bounded(lim, r) && r.pc.Call? && Bounded(lim, CallStep(lim, r, r.pc.acct, input).0)
    ensures Progresses(lim, r, accts, input, CallStep(lim, r, r.pc.acct, input).0)
  {
    hide IsQueueLimit, IsUnauthorized, CanAcquire, Budget, CallsHere;
  }

  lemma InnerProgresses(cfg: Config, lim: Limits, r: Request, accts: Accounts, input: Input)
    requires Bounded(lim, r) && !BeforeCalls(r.pc) && !r.pc.Call? && !r.pc.Finished?
    requires Bounded(lim, ChatStep(cfg, lim, r, accts, input).0)
    ensures Progresses(lim, r, accts, input, ChatStep(cfg, lim, r, accts, input).0)
  {
    hide CanAcquire, Blame, StartStep, PickStep, CallStep, Budget, CallsHere;
  }

  /**
   * A request always gets nearer its end: a step lowers the rank, except that a poll for a slot that is still taken
   * and not timed out yet leaves the request as it is. So between polls every run is finite.
   */
  lemma StepProgresses(cfg: Config, lim: Limits, r: Request, accts: Accounts, input: Input)
    requires Bounded(lim, r) && lim.attempts > 0 && !r.pc.Finished?
    ensures Bounded(lim, ChatStep(cfg, lim, r, accts, input).0)
    ensures Progresses(lim, r, accts, input, ChatStep(cfg, lim, r, accts, input).0)
  {
    StepKeepsBounds(cfg, lim, r, accts, input);
    if BeforeCalls(r.pc) {
      OuterProgresses(cfg, lim, r, accts, input);
    } else if r.pc.Call? {
      hide CallStep, Bounded, Progresses;
      CallProgresses(lim, r, accts, input);
    } else {
      InnerProgresses(cfg, lim, r, accts, input);
    }
    hide ChatStep, Bounded, Progresses;
  }

  // ----- whole runs of one request -----

  /** The request's own steps; between them the account list may have become anything. */
  datatype Moment = Moment(accts: Accounts, input: Input)

  function After(cfg: Config, lim: Limits, r: Request, run: seq<Moment>): Request
    decreases |run|
  {
    if run == [] then r else After(cfg, lim, ChatStep(cfg, lim, r, run[0].accts, run[0].input).0, run[1..])
  }

  predicate IsFresh(r: Request) {
    r.pc.Start? && r.rotation == 0 && r.attempted == [] && r.tried == {} && r.calls == 0 && r.refreshes == []
  }

  lemma {:induction false} RunKeepsBounds(cfg: Config, lim: Limits, r: Request, run: seq<Moment>)
    requires Bounded(lim, r) && lim.attempts > 0
    ensures Bounded(lim, After(cfg, lim, r, run))
    decreases |run|
  {
    if run != [] {
      StepKeepsBounds(cfg, lim, r, run[0].accts, run[0].input);
      hide ChatStep, Bounded;
      RunKeepsBounds(cfg, lim, ChatStep(cfg, lim, r, run[0].accts, run[0].input).0, run[1..]);
    }
  }

  // ----- refreshes, attempt by attempt -----

  /** No attempt was granted more than one refresh-retry, and the current one none before `authRetried` is set. */
  predicate RefreshesRight(r: Request) {
    && |r.refreshes| == |r.attempted|
    && (forall i | 0 <= i < |r.refreshes| :: r.refreshes[i] <= 1)
    && (InAttempt(r.pc) && (BeforeCalls(r.pc) || !r.authRetried) ==>
      r.refreshes != [] && r.refreshes[|r.refreshes| - 1] == 0)
  }

  lemma CallKeepsRefreshes(lim: Limits, r: Request, input: Input)
    requires RefreshesRight(r) && r.pc.Call?
    ensures RefreshesRight(CallStep(lim, r, r.pc.acct, input).0)
  {
    hide IsQueueLimit, IsUnauthorized;
  }

  lemma TakeKeepsRefreshes(r: Request, name: string)
    requires RefreshesRight(r) && !InAttempt(r.pc)
    ensures RefreshesRight(Take(r, name))
  {
  }

  lemma OtherKeepsRefreshes(cfg: Config, lim: Limits, r: Request, accts: Accounts, input: Input)
    requires RefreshesRight(r) && !r.pc.Start? && !r.pc.Pick? && !r.pc.Call?
    ensures RefreshesRight(ChatStep(cfg, lim, r, accts, input).0)
  {
    hide CanAcquire, Blame, StartStep, PickStep, CallStep, IsFinal;
    var next := ChatStep(cfg, lim, r, accts, input).0;
    assert next.refreshes == r.refreshes && next.attempted == r.attempted;
    assert InAttempt(next.pc) && (BeforeCalls(next.pc) || !next.authRetried) ==>
      InAttempt(r.pc) && (BeforeCalls(r.pc) || !r.authRetried);
    hide ChatStep, InAttempt, BeforeCalls;
  }

  lemma StepKeepsRefreshes(cfg: Config, lim: Limits, r: Request, accts: Accounts, input: Input)
    requires RefreshesRight(r)
    ensures RefreshesRight(ChatStep(cfg, lim, r, accts, input).0)
  {
    hide PickExcluding, Healthy, Has, Lookup, CallStep;
    if r.pc.Start? || r.pc.Pick? {
      var next := ChatStep(cfg, lim, r, accts, input).0;
      if next.pc.Wait? {
        TakeKeepsRefreshes(r, next.pc.acct);
      }
      hide Take;
    } else if r.pc.Call? {
      CallKeepsRefreshes(lim, r, input);
      hide RefreshesRight;
    } else {
      OtherKeepsRefreshes(cfg, lim, r, accts, input);
      hide ChatStep, RefreshesRight;
    }
  }

  lemma {:induction false} RunKeepsRefreshes(cfg: Config, lim: Limits, r: Request, run: seq<Moment>)
    requires RefreshesRight(r)
    ensures RefreshesRight(After(cfg, lim, r, run))
    decreases |run|
  {
    if run != [] {
      StepKeepsRefreshes(cfg, lim, r, run[0].accts, run[0].input);
      hide ChatStep, RefreshesRight;
      RunKeepsRefreshes(cfg, lim, ChatStep(cfg, lim, r, run[0].accts, run[0].input).0, run[1..]);
    }
  }

  // ----- which accounts are tried -----

  /** The first `k` attempts went to the sticky account; the rest are pairwise distinct and none of them is it. */
  ghost predicate Route(attempted: seq<string>, sticky: string, k: nat) {
    && k <= |attempted|
    && (forall i | 0 <= i < k :: attempted[i] == sticky)
    && (forall i, j | 0 <= i < j < |attempted| && k <= j :: attempted[i] != attempted[j])
  }

  /** While the sticky route is in force every attempt used it; `tried` remembers every attempt. */
  ghost predicate Routed(r: Request, sticky: string, k: nat) {
    && Route(r.attempted, sticky, k)
    && (forall i | 0 <= i < |r.attempted| :: r.attempted[i] in r.tried)
    && (r.sticky != "" ==> r.sticky == sticky && k == |r.attempted| && !r.pc.Pick?)
  }

  /** Same attempts, same accounts tried, same sticky route. */
  predicate SameWay(r: Request, next: Request) {
    next.attempted == r.attempted && next.tried == r.tried && next.sticky == r.sticky && !next.pc.Pick?
  }

  lemma EarlyFrame(cfg: Config, lim: Limits, r: Request, accts: Accounts, input: Input)
    requires r.pc.Wait? || r.pc.Check? || r.pc.Reject? || r.pc.Sleep? || r.pc.Rewait?
    ensures SameWay(r, ChatStep(cfg, lim, r, accts, input).0)
  {
    hide CanAcquire, Blame, StartStep, PickStep, CallStep, IsFinal;
  }

  lemma LateFrame(cfg: Config, lim: Limits, r: Request, accts: Accounts, input: Input)
    requires r.pc.GiveUp? || r.pc.Accuse? || r.pc.Respond? || r.pc.Settle? || r.pc.Finished?
    ensures SameWay(r, ChatStep(cfg, lim, r, accts, input).0)
  {
    hide CanAcquire, Blame, StartStep, PickStep, CallStep, IsFinal;
  }

  /** Only the top of the rotation loop touches the route. */
  lemma StepFrame(cfg: Config, lim: Limits, r: Request, accts: Accounts, input: Input)
    requires !r.pc.Start? && !r.pc.Pick?
    ensures SameWay(r, ChatStep(cfg, lim, r, accts, input).0)
  {
    if r.pc.Call? {
      hide CanAcquire, CallStep, SameWay;
      CallFrame(lim, r, input);
    } else if r.pc.Wait? || r.pc.Check? || r.pc.Reject? || r.pc.Sleep? || r.pc.Rewait? {
      EarlyFrame(cfg, lim, r, accts, input);
      hide ChatStep;
    } else {
      LateFrame(cfg, lim, r, accts, input);
      hide ChatStep;
    }
  }

  lemma CallFrame(lim: Limits, r: Request, input: Input)
    requires r.pc.Call?
    ensures SameWay(r, CallStep(lim, r, r.pc.acct, input).0)
  {
    hide IsQueueLimit, IsUnauthorized;
  }

  lemma TakeKeepsRoute(r: Request, name: string, sticky: string, k: nat)
    requires Routed(r.(pc := Start), sticky, k)
    requires if r.sticky != "" then name == r.sticky else name !in r.tried
    ensures Routed(Take(r, name), sticky, if r.sticky != "" then k + 1 else k)
  {
  }

  predicate SeesHealthy(m: Moment, name: string) {
    Has(m.accts, name) && !Lookup(m.accts, name).disabled && Lookup(m.accts, name).coolUntil < m.input.now
  }

  /** Does a rotation begin with this step? */
  predicate BeginsRotation(lim: Limits, r: Request) {
    r.pc.Start? && r.rotation < lim.rotations
  }

  /** A rotation begins with this step while there is a sticky account, and it is healthy. */
  predicate TakesSticky(lim: Limits, r: Request, m: Moment) {
    BeginsRotation(lim, r) && r.sticky != "" && SeesHealthy(m, r.sticky)
  }

  lemma StepKeepsRoute(cfg: Config, lim: Limits, r: Request, m: Moment, sticky: string, k: nat)
    requires Routed(r, sticky, k)
    ensures var next := ChatStep(cfg, lim, r, m.accts, m.input).0;
      && Routed(next, sticky, if TakesSticky(lim, r, m) then k + 1 else k)
      && next.sticky == if BeginsRotation(lim, r) && !TakesSticky(lim, r, m) then "" else r.sticky
  {
    var next := ChatStep(cfg, lim, r, m.accts, m.input).0;
    if r.pc.Start? {
      hide Healthy, Has, Lookup;
      if next.pc.Wait? {
        TakeKeepsRoute(r, r.sticky, sticky, k);
      }
      hide Route;
    } else if r.pc.Pick? {
      if next.pc.Wait? {
        TakeKeepsRoute(r, next.pc.acct, sticky, k);
      }
      hide Route, SeesHealthy;
    } else {
      StepFrame(cfg, lim, r, m.accts, m.input);
      hide ChatStep, Route, SeesHealthy;
    }
  }

  /** The moments at which the rotations of a run begin. */
  function Begins(cfg: Config, lim: Limits, r: Request, run: seq<Moment>): seq<Moment>
    decreases |run|
  {
    if run == [] then []
    else (if BeginsRotation(lim, r) then [run[0]] else [])
         + Begins(cfg, lim, ChatStep(cfg, lim, r, run[0].accts, run[0].input).0, run[1..])
  }

  /** At how many of these moments, from the first one on, the account was healthy without a break. */
  function HealthyPrefix(ms: seq<Moment>, name: string): (n: nat)
    ensures n <= |ms|
    ensures n == |ms| <==> forall m :: m in ms ==> SeesHealthy(m, name)
  {
    if ms == [] || !SeesHealthy(ms[0], name) then 0 else 1 + HealthyPrefix(ms[1..], name)
  }

  function StickyRounds(cfg: Config, lim: Limits, r: Request, run: seq<Moment>): nat {
    if r.sticky == "" then 0 else HealthyPrefix(Begins(cfg, lim, r, run), r.sticky)
  }

  lemma {:induction false} RunKeepsRoute(cfg: Config, lim: Limits, r: Request, run: seq<Moment>, sticky: string, k: nat)
    requires Routed(r, sticky, k)
    ensures var end, n := After(cfg, lim, r, run), StickyRounds(cfg, lim, r, run);
      && Routed(end, sticky, k + n)
      && end.sticky == if r.sticky != "" && n == |Begins(cfg, lim, r, run)| then r.sticky else ""
    decreases |run|
  {
    if run != [] {
      var next := ChatStep(cfg, lim, r, run[0].accts, run[0].input).0;
      StepKeepsRoute(cfg, lim, r, run[0], sticky, k);
      hide ChatStep, Routed, SeesHealthy;
      RunKeepsRoute(cfg, lim, next, run[1..], sticky, if TakesSticky(lim, r, run[0]) then k + 1 else k);
      var later := Begins(cfg, lim, next, run[1..]);
      if BeginsRotation(lim, r) {
        assert ([run[0]] + later)[0] == run[0] && ([run[0]] + later)[1..] == later;
      } else {
        assert [] + later == later;
      }
    }
  }

  /**
   * The exact rule for the sticky account: a rotation takes it exactly if there is one and it has been in the pool and
   * healthy at the beginning of this and every earlier rotation, whatever came of the attempts on it.
   */
  lemma StickyExactly(cfg: Config, lim: Limits, r: Request, run: seq<Moment>, m: Moment)
    requires IsFresh(r) && BeginsRotation(lim, After(cfg, lim, r, run))
    ensures var at := After(cfg, lim, r, run); var next := ChatStep(cfg, lim, at, m.accts, m.input).0;
      && (next.pc.Wait? <==> r.sticky != "" && forall b :: b in Begins(cfg, lim, r, run) + [m] ==>
        SeesHealthy(b, r.sticky))
      && (next.pc.Wait? ==> next == Take(at, r.sticky))
  {
    RunKeepsRoute(cfg, lim, r, run, r.sticky, 0);
    hide After, Begins, Routed, SeesHealthy, CallStep, PickExcluding;
    var at, begins := After(cfg, lim, r, run), Begins(cfg, lim, r, run);
    assert (forall b :: b in begins + [m] ==> SeesHealthy(b, r.sticky)) <==>
      SeesHealthy(m, r.sticky) && forall b :: b in begins ==> SeesHealthy(b, r.sticky) by {
      assert m in begins + [m];
    }
    StartIsSticky(cfg, lim, at, m);
  }

  lemma StartIsSticky(cfg: Config, lim: Limits, r: Request, m: Moment)
    requires BeginsRotation(lim, r)
    ensures var next := ChatStep(cfg, lim, r, m.accts, m.input).0;
      (next.pc.Wait? <==> TakesSticky(lim, r, m)) && (next.pc.Wait? ==> next == Take(r, r.sticky))
  {
    hide CallStep, PickExcluding;
  }

  /**
   * Bounded rotation, for every request and whatever happens between its steps: at most `rotations` accounts are
   * attempted, at most `rotations * attempts` upstream calls made, and at most one refresh-retry granted in each
   * attempt. The first attempts go to the sticky account, as many as there are rotations before it is first found
   * missing or unhealthy; the others are pairwise distinct and none of them is it.
   */
  lemma RotationBounded(cfg: Config, lim: Limits, r: Request, run: seq<Moment>)
    requires IsFresh(r) && lim.attempts > 0
    ensures var end := After(cfg, lim, r, run);
      && |end.attempted| <= lim.rotations
      && end.calls <= lim.rotations * lim.attempts
      && |end.refreshes| == |end.attempted| && (forall i | 0 <= i < |end.refreshes| :: end.refreshes[i] <= 1)
      && Route(end.attempted, r.sticky, StickyRounds(cfg, lim, r, run))
  {
    RunKeepsBounds(cfg, lim, r, run);
    RunKeepsRoute(cfg, lim, r, run, r.sticky, 0);
    RunKeepsRefreshes(cfg, lim, r, run);
    hide ChatStep, Route, StickyRounds, After;
    var end := After(cfg, lim, r, run);
    BudgetGrows(lim, end.rotation);
    BudgetGrows(lim, end.rotation + 1);
  }

  /** A healthy sticky account whose slots stay taken is attempted a second time, although it was tried. */
  lemma StickyAttemptedTwice(cfg: Config, lim: Limits, stream: bool) returns (r: Request, run: seq<Moment>)
    requires lim.rotations >= 2
    ensures IsFresh(r) && r.sticky == "s" && After(cfg, lim, r, run).attempted == ["s", "s"]
  {
    r := Request(Start, stream, "s", {}, 0, 0, false, false, [], 0, []);
    var full := [AccountState("s", 1, 1, 0, 0, false)];
    var m := Moment(full, Input(1, true, Unverified, None, false, false, false, Delivered));
    run := [m, m, m];
    assert IndexOf(full, "s") == 0 && SeesHealthy(m, "s") && !CanAcquire(full, "s");
    hide Has, Lookup, CanAcquire, Healthy, PickExcluding, CallStep;
    var r1 := Take(r, "s");
    var r2 := NextRotation(r1);
    var r3 := Take(r2, "s");
    assert run[1..] == [m, m] && run[1..][1..] == [m] && run[1..][1..][1..] == [];
    assert After(cfg, lim, r2, [m]) == After(cfg, lim, r3, []) == r3;
    assert After(cfg, lim, r1, [m, m]) == r3;
    assert [] + ["s"] + ["s"] == ["s", "s"];
  }
}
