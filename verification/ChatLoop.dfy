/**
 * `chatCompletions` as the loops it is written as: rotation outside, retries inside. Every pool call it makes is the
 * one the step machine of `Chat` makes at that point, so what is proved of the machine holds of the loops.
 */
module ChatLoop {
  import opened Text
  import opened Pool
  import opened Chat
  import opened Rotation
  import opened Slots
  import opened Notes

  /** Slots of this account taken and not given back. */
  function Taken(ops: seq<Op>, name: string): int {
    if ops == [] then 0
    else
      Taken(ops[..|ops| - 1], name) +
      if ops[|ops| - 1] == Acquire(name) then 1 else if ops[|ops| - 1] == Release(name) then -1 else 0
  }

  function Holds(r: Request, name: string): int {
    if Holding(Chatting(r)) == Some(name) then 1 else 0
  }

  /** At every point of a request, the slots taken and not given back are the one it holds, if it holds one. */
  lemma {:induction false} SlotsTaken(cfg: Config, lim: Limits, r: Request, run: seq<Moment>, name: string)
    requires LockFlagRight(Chatting(r)) && Holding(Chatting(r)) == None
    ensures LockFlagRight(Chatting(After(cfg, lim, r, run)))
    ensures Taken(Ops(cfg, lim, r, run), name) == Holds(After(cfg, lim, r, run), name)
    decreases |run|
  {
    hide ChatStep, LockFlagRight, Holding;
    if run == [] {
      assert Ops(cfg, lim, r, run) == [];
    } else {
      var init, m := run[..|run| - 1], run[|run| - 1];
      assert run == init + [m];
      SlotsTaken(cfg, lim, r, init, name);
      OneMoreMoment(cfg, lim, r, init, m);
      var s := After(cfg, lim, r, init);
      ChatMoves(cfg, lim, s, m.accts, m.input);
      var ops, op := Ops(cfg, lim, r, init), ChatStep(cfg, lim, s, m.accts, m.input).1;
      assert (ops + [op])[..|ops|] == ops;
    }
  }

  ghost predicate TimesOutFrom(script: nat -> Moment, p: nat, patience: nat) {
    exists q: nat :: p <= q <= p + patience && script(q).input.timedOut
  }

  /** Every wait for a slot times out within `patience` polls. */
  ghost predicate TimesOut(script: nat -> Moment, patience: nat) {
    forall p: nat :: TimesOutFrom(script, p, patience)
  }

  function NewRequest(stream: bool, sticky: string): Request {
    Request(Start, stream, sticky, {}, 0, 0, false, false, [], 0, [])
  }

  /** Where a wait for `acct` leads. */
  function Waited(lim: Limits, r: Request, acct: string, acquired: bool): Request {
    match r.pc
    case Wait(_) => if acquired then r.(pc := Check(acct), lockHeld := true) else NextRotation(r)
    case Rewait(_, f) => if acquired then Again(lim, r.(lockHeld := true), acct, f) else r.(pc := GiveUp(acct, f))
    case _ => r
  }

  /**
   * What a request meets, moment by moment, and what it does there. The machine runs alongside as a ghost; a call
   * is accepted only if the machine makes the same one.
   */
  class Session {
    const cfg: Config
    const lim: Limits
    const script: nat -> Moment
    var pos: nat
    var log: seq<Op>
    ghost const start: Request
    ghost var run: seq<Moment>
    ghost var machine: Request

    ghost predicate Valid()
      reads this
    {
      && machine == After(cfg, lim, start, run) && log == Ops(cfg, lim, start, run) && pos == |run|
      && forall i | 0 <= i < |run| :: run[i] == script(i)
    }

    constructor (cfg: Config, lim: Limits, script: nat -> Moment, stream: bool, sticky: string)
      ensures Valid() && machine == start == NewRequest(stream, sticky)
      ensures this.cfg == cfg && this.lim == lim && this.script == script
    {
      this.cfg, this.lim, this.script := cfg, lim, script;
      pos, log := 0, [];
      start, run, machine := NewRequest(stream, sticky), [], NewRequest(stream, sticky);
    }

    function Now(): Moment
      reads this
    {
      script(pos)
    }

    ghost function Stepped(): (Request, Op)
      reads this
    {
      ChatStep(cfg, lim, machine, Now().accts, Now().input)
    }

    /** One pool call, or none. */
    method Do(op: Op)
      requires Valid() && op == Stepped().1
      modifies this
      ensures Valid() && machine == old(Stepped().0) && pos == old(pos) + 1
    {
      OneMoreMoment(cfg, lim, start, run, Now());
      hide ChatStep;
      machine, run := Stepped().0, run + [Now()];
      pos, log := pos + 1, log + [op];
    }

    /** `AcquireLockWait`, on entering an attempt or after a queue delay. */
    method AcquireLockWait(acct: string, ghost patience: nat) returns (acquired: bool)
      requires Valid() && TimesOut(script, patience)
      requires (machine.pc.Wait? || machine.pc.Rewait?) && machine.pc.acct == acct
      modifies this
      ensures Valid()
      ensures machine == Waited(lim, old(machine), acct, acquired)
    {
      assert TimesOutFrom(script, pos, patience);
      ghost var deadline: nat :| pos <= deadline <= pos + patience && script(deadline).input.timedOut;
      hide Valid, TimesOut, CanAcquire, StartStep, PickStep, CallStep, Blame;
      while true
        invariant Valid() && machine == old(machine) && pos <= deadline
        decreases deadline - pos
      {
        if CanAcquire(Now().accts, acct) {
          Do(Acquire(acct));
          return true;
        }
        if Now().input.timedOut {
          Do(Nothing);
          return false;
        }
        Do(Nothing);
      }
    }

    /** Top of the rotation: the sticky account while it is healthy, else any untried one. */
    method PickAccount(tried0: set<string>, sticky0: string)
      returns (acct: Option<string>, tried: set<string>, stickyAcct: string)
      requires Valid() && machine.pc.Start? && machine.rotation < lim.rotations
      requires machine.tried == tried0 && machine.sticky == sticky0
      modifies this
      ensures Valid()
      ensures acct.None? ==> machine.pc.Finished?
      ensures acct.Some? ==> machine == Take(old(machine).(sticky := stickyAcct), acct.value) && tried == machine.tried
    {
      hide Valid, PickExcluding, Healthy, Has, Lookup;
      acct, tried, stickyAcct := None, tried0, sticky0;
      if stickyAcct != "" {
        if Has(Now().accts, stickyAcct) && Healthy(Lookup(Now().accts, stickyAcct), Now().input.now) {
          acct := Some(stickyAcct);
        } else {
          stickyAcct := "";
        }
      }
      Do(Nothing);
      if acct.None? {
        acct := PickExcluding(Now().accts, tried, Now().input.now);
        Do(Nothing);
      }
      if acct.Some? {
        tried := tried + {acct.value};
      }
    }

    /** The token check; an account that fails it gives its slot back. */
    method ValidateAccount(acct: string) returns (ok: bool)
      requires Valid() && machine.pc == Check(acct)
      modifies this
      ensures Valid()
      ensures machine ==
        if ok then old(machine).(pc := Call(acct), retry := 0, authRetried := false)
          else NextRotation(old(machine)).(lockHeld := false)
    {
      hide Valid, CanAcquire, StartStep, PickStep, CallStep, Again, Blame;
      match Now().input.validation {
        case Valid(refreshed) =>
          Do(if refreshed then Reenable(acct) else Nothing);
          return true;
        case Invalid => Do(Disable(acct));
        case Unverified => Do(Nothing);
      }
      Do(Release(acct));
      return false;
    }

    /** One upstream call and what follows from its failure; `again` if the retry loop goes on. */
    method CallOnce(acct: string, retry: nat, authRetried0: bool, ghost patience: nat)
      returns (serr: Option<Failure>, again: bool, authRetried: bool, lockHeld: bool, cancelled: bool)
      requires Valid() && TimesOut(script, patience)
      requires machine.pc == Call(acct) && machine.retry == retry < lim.attempts
        && machine.authRetried == authRetried0 && machine.lockHeld
      modifies this
      ensures Valid() && SameRoute(machine, old(machine))
      ensures cancelled ==> machine.pc.Finished?
      ensures !cancelled && again ==> InLoop(acct, retry + 1, serr, authRetried) && lockHeld
      ensures !cancelled && !again ==> LeftLoop(acct, serr, lockHeld)
    {
      hide Valid, CanAcquire, TimesOut, StartStep, PickStep, Blame;
      serr, again, authRetried, lockHeld, cancelled := Now().input.upstream, false, authRetried0, true, false;
      if serr.None? {
        Do(Nothing);
        return;
      }
      if IsUnauthorized(serr.value) && !authRetried && Now().input.refreshable && Now().input.refreshed {
        Do(Reenable(acct));
        authRetried, again := true, true;
        return;
      }
      if IsQueueLimit(serr.value) {
        Do(Release(acct));
        lockHeld := false;
        cancelled := Now().input.cancelled;
        Do(Nothing);
        if cancelled {
          return;
        }
        again := AcquireLockWait(acct, patience);
        lockHeld := again;
        return;
      }
      Do(Nothing);
    }

    /** At the head of the retry loop, or out of it for want of retries. */
    ghost predicate InLoop(acct: string, retry: nat, serr: Option<Failure>, authRetried: bool)
      reads this
    {
      && machine.lockHeld && machine.authRetried == authRetried && machine.retry == retry
      && if retry < lim.attempts then machine.pc == Call(acct) else serr.Some? && machine.pc == GiveUp(acct, serr.value)
    }

    /** Out of the retry loop. */
    ghost predicate LeftLoop(acct: string, serr: Option<Failure>, lockHeld: bool)
      reads this
    {
      if serr.None? then machine.pc == Respond(acct)
        else machine.pc == GiveUp(acct, serr.value) && machine.lockHeld == lockHeld
    }

    /** The retry loop on one account. */
    method CallUpstream(acct: string, ghost patience: nat)
      returns (serr: Option<Failure>, lockHeld: bool, cancelled: bool)
      requires Valid() && TimesOut(script, patience) && lim.attempts > 0
      requires machine.pc == Call(acct) && machine.retry == 0 && !machine.authRetried && machine.lockHeld
      modifies this
      ensures Valid() && SameRoute(machine, old(machine))
      ensures if cancelled then machine.pc.Finished? else LeftLoop(acct, serr, lockHeld)
    {
      hide TimesOut;
      serr, lockHeld, cancelled := None, true, false;
      var retry, authRetried, again := 0, false, true;
      while again && retry < lim.attempts
        invariant Valid() && SameRoute(machine, old(machine)) && retry <= lim.attempts
        invariant !cancelled && again ==> InLoop(acct, retry, serr, authRetried) && lockHeld
        invariant !cancelled && !again ==> LeftLoop(acct, serr, lockHeld)
        invariant cancelled ==> machine.pc.Finished? && !again
        decreases lim.attempts - retry, again
      {
        serr, again, authRetried, lockHeld, cancelled := CallOnce(acct, retry, authRetried, patience);
        if cancelled {
          return;
        }
        if again {
          retry := retry + 1;
        }
      }
    }

    /** Hands out the blame; `over` if the failure ends the request. */
    method GiveUpOn(acct: string, serr: Failure, lockHeld: bool) returns (over: bool)
      requires Valid() && machine.pc == GiveUp(acct, serr) && machine.lockHeld == lockHeld
      modifies this
      ensures Valid() && SameCourse(machine, old(machine))
      ensures if over then machine.pc.Finished? else AtTop(machine, old(machine).rotation + 1)
    {
      Do(if lockHeld then Release(acct) else Nothing);
      over := IsFinal(serr);
      hide IsFinal;
      Do(Blame(cfg, acct, serr));
    }

    /** Streams or aggregates the answer; `over` unless an aggregated answer came to nothing. */
    method Answer(acct: string, stream: bool) returns (over: bool)
      requires Valid() && machine.pc == Respond(acct) && machine.stream == stream
      modifies this
      ensures Valid() && SameCourse(machine, old(machine))
      ensures if over then machine.pc.Finished? else AtTop(machine, old(machine).rotation + 1)
    {
      var ending := Now().input.ending;
      Do(Release(acct));
      if stream {
        Do(if ending == Delivered then NoteSuccess(acct) else if ending == ClientGone then Nothing
          else NoteError(acct));
        return true;
      }
      Do(if ending == Delivered then NoteSuccess(acct) else NoteError(acct));
      return ending == Delivered;
    }

    /** One round of the rotation loop with the account it picked. */
    method Attempt(acct: string, stream: bool, ghost patience: nat) returns (over: bool)
      requires Valid() && TimesOut(script, patience) && lim.attempts > 0
      requires machine.pc == Wait(acct) && machine.stream == stream
      modifies this
      ensures Valid() && SameCourse(machine, old(machine))
      ensures if over then machine.pc.Finished? else AtTop(machine, old(machine).rotation + 1)
    {
      hide TimesOut, Valid;
      var acquired := AcquireLockWait(acct, patience);
      if !acquired {
        return false;
      }
      var ok := ValidateAccount(acct);
      if !ok {
        return false;
      }
      var serr, lockHeld, cancelled := CallUpstream(acct, patience);
      if cancelled {
        return true;
      }
      if serr.Some? {
        over := GiveUpOn(acct, serr.value, lockHeld);
      } else {
        over := Answer(acct, stream);
      }
    }

    /**
     * The rotation loop. It always comes to an end if waits for slots do, and the pool calls it made are those of a
     * finished run of the machine.
     */
    method ChatCompletions(stream: bool, sticky: string, ghost patience: nat)
      requires Valid() && machine == start == NewRequest(stream, sticky) && lim.attempts > 0
        && TimesOut(script, patience)
      modifies this
      ensures Valid() && machine.pc.Finished?
      ensures |machine.attempted| <= lim.rotations && machine.calls <= lim.rotations * lim.attempts
      ensures forall name: string :: Taken(log, name) == 0
      ensures NotesRight()
    {
      hide TimesOut, Valid, Bounded, NotesRight;
      var tried: set<string> := {};
      var stickyAcct := sticky;
      var i := 0;
      var over := false;
      while !over && i < lim.rotations
        invariant Valid() && i <= lim.rotations
        invariant if over then machine.pc.Finished?
          else AtTop(machine, i) && machine.tried == tried && machine.sticky == stickyAcct
        invariant !over ==> machine.stream == stream
        decreases lim.rotations - i, !over
      {
        var acct;
        acct, tried, stickyAcct := PickAccount(tried, stickyAcct);
        if acct.None? {
          over := true;
        } else {
          over := Attempt(acct.value, stream, patience);
          i := i + 1;
        }
      }
      if !over {
        Do(Nothing);
      }
      FinishedSession();
    }

    /** This note is what the moments met call for; a success means an answer delivered, and nothing follows it. */
    ghost predicate NoteIsRight(u: nat, name: string)
      requires u < |log|
      reads this
    {
      && NoteRight(cfg, lim, start, run, u, name, log[u])
      && (log[u] == NoteSuccess(name) ==> SuccessIsLast(log, u, machine.attempted, name))
    }

    /** What was met is what the script holds, and every note in the log is right. */
    ghost predicate NotesRight()
      reads this
    {
      && (forall i | 0 <= i < |run| :: run[i] == script(i))
      && (forall u: nat, name: string | u < |log| :: NoteIsRight(u, name))
    }

    lemma FinishedSession()
      requires Valid() && start.pc.Start? && !start.lockHeld && IsFresh(start) && lim.attempts > 0
        && machine.pc.Finished?
      ensures |machine.attempted| <= lim.rotations && machine.calls <= lim.rotations * lim.attempts
      ensures forall name: string :: Taken(log, name) == 0
      ensures NotesRight()
    {
      RotationBounded(cfg, lim, start, run);
      forall name: string ensures Taken(log, name) == 0 {
        SlotsTaken(cfg, lim, start, run, name);
      }
      hide NoteRight, SuccessIsLast, After, Ops;
      forall u: nat, name: string | u < |log| ensures NoteIsRight(u, name) {
        NotesExactly(cfg, lim, start, run, u, name);
        SuccessExactly(cfg, lim, start, run, u, name);
      }
    }
  }

  /** Steps that leave the route alone. */
  predicate SameRoute(r: Request, s: Request) {
    r.rotation == s.rotation && r.tried == s.tried && r.sticky == s.sticky && r.stream == s.stream
  }

  predicate SameCourse(r: Request, s: Request) {
    r.tried == s.tried && r.sticky == s.sticky && r.stream == s.stream
  }

  predicate AtTop(r: Request, rotation: nat) {
    r.pc.Start? && r.rotation == rotation
  }
}
