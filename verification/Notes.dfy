/**
 * Which notes a request leaves in the pool, and when it retries and ends, told by the moments it meets: what the
 * upstream answered to its calls and how the answers ended.
 */
module Notes {
  import opened Text
  import opened Pool
  import opened Chat
  import opened Rotation

  /** The pool operations of a run of the machine. */
  function Ops(cfg: Config, lim: Limits, r: Request, run: seq<Moment>): (ops: seq<Op>)
    ensures |ops| == |run|
    decreases |run|
  {
    if run == [] then []
    else
      var (next, op) := ChatStep(cfg, lim, r, run[0].accts, run[0].input);
      [op] + Ops(cfg, lim, next, run[1..])
  }

  /** Where the request stands before its `t`-th moment. */
  function Before(cfg: Config, lim: Limits, r: Request, run: seq<Moment>, t: nat): Request
    requires t <= |run|
  {
    After(cfg, lim, r, run[..t])
  }

  lemma {:induction false} OneMoreMoment(cfg: Config, lim: Limits, r: Request, run: seq<Moment>, m: Moment)
    ensures var s := After(cfg, lim, r, run);
      && After(cfg, lim, r, run + [m]) == ChatStep(cfg, lim, s, m.accts, m.input).0
      && Ops(cfg, lim, r, run + [m]) == Ops(cfg, lim, r, run) + [ChatStep(cfg, lim, s, m.accts, m.input).1]
    decreases |run|
  {
    hide ChatStep;
    if run == [] {
      assert [m][1..] == [];
      assert [] + [m] == [m];
    } else {
      assert (run + [m])[1..] == run[1..] + [m];
      OneMoreMoment(cfg, lim, ChatStep(cfg, lim, r, run[0].accts, run[0].input).0, run[1..], m);
    }
  }

  lemma {:induction false} OpsPrefix(cfg: Config, lim: Limits, r: Request, run: seq<Moment>, t: nat)
    requires t <= |run|
    ensures Ops(cfg, lim, r, run[..t]) == Ops(cfg, lim, r, run)[..t]
    decreases |run|
  {
    hide ChatStep;
    if t == 0 {
    } else {
      assert run[..t][1..] == run[1..][..t - 1];
      OpsPrefix(cfg, lim, ChatStep(cfg, lim, r, run[0].accts, run[0].input).0, run[1..], t - 1);
    }
  }

  /** One moment of a run: where it leads, and what it does to the pool. */
  lemma MomentStep(cfg: Config, lim: Limits, r: Request, run: seq<Moment>, t: nat)
    requires t < |run|
    ensures (Before(cfg, lim, r, run, t + 1), Ops(cfg, lim, r, run)[t]) ==
      ChatStep(cfg, lim, Before(cfg, lim, r, run, t), run[t].accts, run[t].input)
  {
    hide ChatStep;
    assert run[..t + 1] == run[..t] + [run[t]];
    OneMoreMoment(cfg, lim, r, run[..t], run[t]);
    OpsPrefix(cfg, lim, r, run, t + 1);
  }

  // ----- what happened, moment by moment -----

  /** At this moment the upstream is called on this account. */
  predicate CallsAt(cfg: Config, lim: Limits, r: Request, run: seq<Moment>, t: nat, name: string) {
    t < |run| && Before(cfg, lim, r, run, t).pc == Call(name)
  }

  /** At this moment the upstream accepts a call on this account, and at the next one the answer ends like this. */
  predicate AnsweredAt(cfg: Config, lim: Limits, r: Request, run: seq<Moment>, t: nat, name: string, ending: Ending) {
    && CallsAt(cfg, lim, r, run, t, name) && run[t].input.upstream.None?
    && t + 1 < |run| && run[t + 1].input.ending == ending
  }

  /** At this moment the request blames this account for a failure. */
  predicate BlamesAt(cfg: Config, lim: Limits, r: Request, run: seq<Moment>, t: nat, name: string, f: Failure) {
    t < |run| && Before(cfg, lim, r, run, t).pc == Accuse(name, f)
  }

  /** At this moment the token of this account is checked, with this result. */
  predicate ChecksAt(cfg: Config, lim: Limits, r: Request, run: seq<Moment>, t: nat, name: string, v: Validation) {
    t < |run| && Before(cfg, lim, r, run, t).pc == Check(name) && run[t].input.validation == v
  }

  // ----- where a request comes from -----

  /** Where a request may stand after a step, and what of the input decides it. */
  predicate Follows(pc: Pc, input: Input, next: Pc) {
    match pc
    case Start => next.Pick? || next.Wait? || next.Finished?
    case Pick => next.Wait? || next.Finished?
    case Wait(acct) => next == Check(acct) || next == Wait(acct) || next == Start
    case Check(acct) => next == if input.validation.Valid? then Call(acct) else Reject(acct)
    case Reject(_) => next == Start
    case Call(acct) =>
      if input.upstream.None? then next == Respond(acct)
      else next == Call(acct) || next == Sleep(acct, input.upstream.value) || next == GiveUp(acct, input.upstream.value)
    case Sleep(acct, f) => next == if input.cancelled then Pc.Finished else Rewait(acct, f)
    case Rewait(acct, f) => next == Call(acct) || next == Rewait(acct, f) || next == GiveUp(acct, f)
    case GiveUp(acct, f) => next == Accuse(acct, f)
    case Accuse(_, f) => next == if f.ApiError? && f.unavailable then Pc.Finished else Start
    case Respond(acct) => next == Settle(acct, input.ending)
    case Settle(_, _) => next == Start || next == Pc.Finished
    case Finished => next == Pc.Finished
  }

  lemma CallFollows(lim: Limits, s: Request, acct: string, input: Input)
    requires s.pc == Call(acct)
    ensures var next := CallStep(lim, s, acct, input).0; Follows(s.pc, input, next.pc) && next.stream == s.stream
  {
    hide IsQueueLimit, IsUnauthorized;
  }

  lemma EarlyFollows(cfg: Config, lim: Limits, s: Request, m: Moment)
    requires BeforeCalls(s.pc)
    ensures var next := ChatStep(cfg, lim, s, m.accts, m.input).0;
      Follows(s.pc, m.input, next.pc) && next.stream == s.stream
  {
    hide CanAcquire, Has, Lookup, Healthy, PickExcluding, CallStep, Blame;
  }

  lemma LateFollows(cfg: Config, lim: Limits, s: Request, m: Moment)
    requires !BeforeCalls(s.pc) && !s.pc.Call?
    ensures var next := ChatStep(cfg, lim, s, m.accts, m.input).0;
      Follows(s.pc, m.input, next.pc) && next.stream == s.stream
  {
    hide CanAcquire, StartStep, PickStep, CallStep, Blame;
  }

  lemma StepFollows(cfg: Config, lim: Limits, s: Request, m: Moment)
    ensures var next := ChatStep(cfg, lim, s, m.accts, m.input).0;
      Follows(s.pc, m.input, next.pc) && next.stream == s.stream
  {
    if BeforeCalls(s.pc) {
      EarlyFollows(cfg, lim, s, m);
      hide ChatStep, Follows;
    } else if s.pc.Call? {
      CallFollows(lim, s, s.pc.acct, m.input);
      hide Follows, CallStep;
    } else {
      LateFollows(cfg, lim, s, m);
      hide ChatStep, Follows;
    }
  }

  /** A request that settles was accepted by the upstream two moments ago, and its answer ended at the last one. */
  lemma SettlesAfterAnswer(cfg: Config, lim: Limits, r: Request, run: seq<Moment>, t: nat)
    requires IsFresh(r) && t <= |run| && Before(cfg, lim, r, run, t).pc.Settle?
    ensures var pc := Before(cfg, lim, r, run, t).pc; t >= 2 && AnsweredAt(cfg, lim, r, run, t - 2, pc.acct, pc.result)
  {
    hide ChatStep, Ops;
    assert t > 0 by { assert run[..0] == []; }
    MomentStep(cfg, lim, r, run, t - 1);
    StepFollows(cfg, lim, Before(cfg, lim, r, run, t - 1), run[t - 1]);
    assert t > 1 by { assert run[..0] == []; }
    MomentStep(cfg, lim, r, run, t - 2);
    StepFollows(cfg, lim, Before(cfg, lim, r, run, t - 2), run[t - 2]);
  }

  lemma AnswerSettles(cfg: Config, lim: Limits, r: Request, run: seq<Moment>, t: nat, name: string, ending: Ending)
    requires AnsweredAt(cfg, lim, r, run, t, name, ending)
    ensures t + 2 <= |run| && Before(cfg, lim, r, run, t + 2).pc == Settle(name, ending)
  {
    hide Ops, ChatStep;
    MomentStep(cfg, lim, r, run, t);
    StepFollows(cfg, lim, Before(cfg, lim, r, run, t), run[t]);
    MomentStep(cfg, lim, r, run, t + 1);
    StepFollows(cfg, lim, Before(cfg, lim, r, run, t + 1), run[t + 1]);
  }

  lemma {:induction false} StreamStays(cfg: Config, lim: Limits, r: Request, run: seq<Moment>, t: nat)
    requires t <= |run|
    ensures Before(cfg, lim, r, run, t).stream == r.stream
  {
    if t == 0 {
      assert run[..0] == [];
    } else {
      StreamStays(cfg, lim, r, run, t - 1);
      MomentStep(cfg, lim, r, run, t - 1);
      StepFollows(cfg, lim, Before(cfg, lim, r, run, t - 1), run[t - 1]);
      hide ChatStep, Ops;
    }
  }

  // ----- the failure a request gives up with -----

  /** Out of the retry loop, or still in it, with a failure in hand. */
  predicate InHand(pc: Pc, name: string, f: Failure) {
    pc == Sleep(name, f) || pc == Rewait(name, f) || pc == GiveUp(name, f) || pc == Accuse(name, f)
  }

  /** The failure in hand is the one that the last call met, and that call was on the same account. */
  lemma {:induction false} FailureIsLast(cfg: Config, lim: Limits, r: Request, run: seq<Moment>, t: nat, name: string,
      f: Failure) returns (u: nat)
    requires IsFresh(r) && t <= |run| && InHand(Before(cfg, lim, r, run, t).pc, name, f)
    ensures u < t && CallsAt(cfg, lim, r, run, u, name) && run[u].input.upstream == Some(f)
    ensures forall v | u < v < t :: InHand(Before(cfg, lim, r, run, v).pc, name, f)
    decreases t
  {
    hide ChatStep, Ops;
    assert t > 0 by { assert run[..0] == []; }
    MomentStep(cfg, lim, r, run, t - 1);
    StepFollows(cfg, lim, Before(cfg, lim, r, run, t - 1), run[t - 1]);
    if InHand(Before(cfg, lim, r, run, t - 1).pc, name, f) {
      u := FailureIsLast(cfg, lim, r, run, t - 1, name, f);
    } else {
      u := t - 1;
    }
  }

  // ----- the notes -----

  /** Unauthorized, and not for want of the model. */
  predicate DeservesDisabling(f: Failure) {
    f.ApiError? && !f.unavailable && (f.status == 401 || f.code == 401)
  }

  predicate DeservesCooling(f: Failure) {
    f.ApiError? && !f.unavailable && f.code != 401 && f.status == 429
  }

  predicate DeservesError(f: Failure) {
    f.OtherError? || (!f.unavailable && f.code != 401 && f.status >= 500)
  }

  /** The answer broke; a client that goes away while it streams is not the account's fault. */
  predicate BrokeAt(cfg: Config, lim: Limits, r: Request, run: seq<Moment>, t: nat, name: string) {
    AnsweredAt(cfg, lim, r, run, t, name, Broken) || (!r.stream && AnsweredAt(cfg, lim, r, run, t, name, ClientGone))
  }

  /** This moment's operation, told by what happened. */
  ghost predicate NoteRight(cfg: Config, lim: Limits, r: Request, run: seq<Moment>, t: nat, name: string, op: Op) {
    && (op == NoteSuccess(name) <==> t >= 2 && AnsweredAt(cfg, lim, r, run, t - 2, name, Delivered))
    && (op == NoteError(name) <==>
          || (t >= 2 && BrokeAt(cfg, lim, r, run, t - 2, name))
          || exists f :: BlamesAt(cfg, lim, r, run, t, name, f) && DeservesError(f))
    && (op == Disable(name) <==>
          || ChecksAt(cfg, lim, r, run, t, name, Invalid)
          || exists f :: BlamesAt(cfg, lim, r, run, t, name, f) && DeservesDisabling(f))
    && (forall dur :: op == CoolDown(name, dur) <==>
          dur == cfg.softCooldown && exists f :: BlamesAt(cfg, lim, r, run, t, name, f) && DeservesCooling(f))
    && (op == Reenable(name) <==>
          || ChecksAt(cfg, lim, r, run, t, name, Valid(true))
          || (CallsAt(cfg, lim, r, run, t, name) && RefreshedBy(Before(cfg, lim, r, run, t), run[t].input)))
    && op != ClearCooldown(name)
  }

  /** A first 401 on this account that a token refresh answers. */
  predicate RefreshedBy(s: Request, input: Input) {
    && input.upstream.Some? && input.upstream.value.ApiError?
    && (input.upstream.value.status == 401 || input.upstream.value.code == 401)
    && !s.authRetried && input.refreshable && input.refreshed
  }

  /** The account blamed at this point, for a failure with this property. */
  predicate Accuses(s: Request, name: string, p: Failure -> bool) {
    s.pc.Accuse? && s.pc.acct == name && p(s.pc.failure)
  }

  /** The same, read off where the request stands. */
  predicate StepNoteRight(cfg: Config, s: Request, input: Input, name: string, op: Op) {
    && (op == NoteSuccess(name) <==> s.pc == Settle(name, Delivered))
    && (op == NoteError(name) <==>
          s.pc == Settle(name, Broken) || (s.pc == Settle(name, ClientGone) && !s.stream)
          || Accuses(s, name, DeservesError))
    && (op == Disable(name) <==>
          (s.pc == Check(name) && input.validation == Invalid) || Accuses(s, name, DeservesDisabling))
    && (op.CoolDown? && op.name == name <==> Accuses(s, name, DeservesCooling))
    && (op.CoolDown? ==> op.dur == cfg.softCooldown)
    && (op == Reenable(name) <==>
          (s.pc == Check(name) && input.validation == Valid(true)) || (s.pc == Call(name) && RefreshedBy(s, input)))
    && op != ClearCooldown(name)
  }

  lemma BlameNotes(cfg: Config, s: Request, input: Input, name: string)
    requires s.pc.Accuse?
    ensures StepNoteRight(cfg, s, input, name, Blame(cfg, s.pc.acct, s.pc.failure))
  {
  }

  lemma CallNotes(cfg: Config, lim: Limits, s: Request, input: Input, name: string)
    requires s.pc.Call?
    ensures StepNoteRight(cfg, s, input, name, CallStep(lim, s, s.pc.acct, input).1)
  {
    hide IsQueueLimit;
  }

  lemma OtherNotes(cfg: Config, lim: Limits, s: Request, m: Moment, name: string)
    requires !s.pc.Accuse? && !s.pc.Call?
    ensures StepNoteRight(cfg, s, m.input, name, ChatStep(cfg, lim, s, m.accts, m.input).1)
  {
    hide CanAcquire, StartStep, PickStep, CallStep, Blame;
  }

  /**
   * Which note a request leaves at a moment. A success exactly if the upstream accepted a call two moments ago and its
   * answer was delivered at the last; an error exactly if that answer broke (a client going away counts only if the
   * answer was not streamed), or if the account is blamed for a failure that is none of the API or of status 500 or
   * more; a disabling exactly for an invalid token or a 401; a cool-down exactly for a 429; a re-enabling exactly for a
   * token refreshed. An account that cannot use the model is blamed for nothing.
   */
  lemma NotesExactly(cfg: Config, lim: Limits, r: Request, run: seq<Moment>, t: nat, name: string)
    requires IsFresh(r) && t < |run|
    ensures NoteRight(cfg, lim, r, run, t, name, Ops(cfg, lim, r, run)[t])
  {
    var s, m := Before(cfg, lim, r, run, t), run[t];
    StepNotes(cfg, lim, s, m, name);
    MomentStep(cfg, lim, r, run, t);
    StreamStays(cfg, lim, r, run, t);
    hide ChatStep, Ops, Before, RefreshedBy, DeservesCooling, DeservesDisabling, DeservesError;
    if s.pc.Settle? {
      SettlesAfterAnswer(cfg, lim, r, run, t);
    }
    forall ending | t >= 2 && AnsweredAt(cfg, lim, r, run, t - 2, name, ending) ensures s.pc == Settle(name, ending) {
      AnswerSettles(cfg, lim, r, run, t - 2, name, ending);
    }
    if s.pc.Accuse? && s.pc.acct == name {
      assert BlamesAt(cfg, lim, r, run, t, name, s.pc.failure);
    }
  }

  lemma StepNotes(cfg: Config, lim: Limits, s: Request, m: Moment, name: string)
    ensures StepNoteRight(cfg, s, m.input, name, ChatStep(cfg, lim, s, m.accts, m.input).1)
  {
    hide StepNoteRight, StartStep, PickStep, CallStep, Blame, CanAcquire;
    if s.pc.Accuse? {
      BlameNotes(cfg, s, m.input, name);
    } else if s.pc.Call? {
      CallNotes(cfg, lim, s, m.input, name);
    } else {
      OtherNotes(cfg, lim, s, m, name);
    }
  }

  // ----- what a request remembers -----

  /**
   * A call counts where it is made; a rotation counts where the request is back at the top; an account is recorded as
   * attempted, and as tried, where the request turns to it; a sticky account is given up where it is not taken.
   */
  predicate Recorded(s: Request, next: Request) {
    var taken := if (s.pc.Start? || s.pc.Pick?) && next.pc.Wait? then [next.pc.acct] else [];
    && next.calls == s.calls + (if s.pc.Call? then 1 else 0)
    && next.rotation == s.rotation + (if next.pc.Start? then 1 else 0)
    && next.attempted == s.attempted + taken
    && next.tried == s.tried + (if taken != [] then {taken[0]} else {})
    && |next.refreshes| == |s.refreshes| + |taken|
    && next.sticky == (if s.pc.Start? && next.pc.Pick? then "" else s.sticky)
  }

  lemma TopRecords(cfg: Config, lim: Limits, s: Request, m: Moment)
    requires s.pc.Start? || s.pc.Pick?
    ensures Recorded(s, ChatStep(cfg, lim, s, m.accts, m.input).0)
  {
    hide Has, Lookup, Healthy, PickExcluding, CallStep;
  }

  lemma CallRecords(lim: Limits, s: Request, acct: string, input: Input)
    requires s.pc.Call?
    ensures Recorded(s, CallStep(lim, s, acct, input).0)
  {
    hide IsQueueLimit, IsUnauthorized;
  }

  /** Nothing remembered changes but the rotation. */
  predicate Unrecorded(s: Request, next: Request) {
    && next.calls == s.calls && next.attempted == s.attempted && next.tried == s.tried
    && next.refreshes == s.refreshes && next.sticky == s.sticky
    && next.rotation == s.rotation + (if next.pc.Start? then 1 else 0)
  }

  lemma WaitsRecord(cfg: Config, lim: Limits, s: Request, m: Moment)
    requires s.pc.Wait? || s.pc.Rewait? || s.pc.Sleep?
    ensures Unrecorded(s, ChatStep(cfg, lim, s, m.accts, m.input).0)
  {
    hide CanAcquire, StartStep, PickStep, CallStep, Blame;
  }

  lemma ChecksRecord(cfg: Config, lim: Limits, s: Request, m: Moment)
    requires s.pc.Check? || s.pc.Reject? || s.pc.GiveUp?
    ensures Unrecorded(s, ChatStep(cfg, lim, s, m.accts, m.input).0)
  {
    hide CanAcquire, StartStep, PickStep, CallStep, Blame, Again;
  }

  lemma EndsRecord(cfg: Config, lim: Limits, s: Request, m: Moment)
    requires s.pc.Accuse? || s.pc.Respond? || s.pc.Settle? || s.pc.Finished?
    ensures Unrecorded(s, ChatStep(cfg, lim, s, m.accts, m.input).0)
  {
    hide CanAcquire, StartStep, PickStep, CallStep, Blame, Again;
  }

  lemma RecordsExactly(cfg: Config, lim: Limits, s: Request, m: Moment)
    ensures Recorded(s, ChatStep(cfg, lim, s, m.accts, m.input).0)
  {
    if s.pc.Start? || s.pc.Pick? {
      TopRecords(cfg, lim, s, m);
      hide ChatStep, Recorded;
    } else if s.pc.Call? {
      CallRecords(lim, s, s.pc.acct, m.input);
      hide Recorded, CallStep;
    } else {
      if s.pc.Wait? || s.pc.Rewait? || s.pc.Sleep? {
        WaitsRecord(cfg, lim, s, m);
      } else if s.pc.Check? || s.pc.Reject? || s.pc.GiveUp? {
        ChecksRecord(cfg, lim, s, m);
      } else {
        EndsRecord(cfg, lim, s, m);
      }
      hide ChatStep;
      UnrecordedIsRecorded(s, ChatStep(cfg, lim, s, m.accts, m.input).0);
      hide Recorded, Unrecorded;
    }
  }

  lemma UnrecordedIsRecorded(s: Request, next: Request)
    requires Unrecorded(s, next) && !s.pc.Start? && !s.pc.Pick? && !s.pc.Call?
    ensures Recorded(s, next)
  {
  }

  // ----- how a request ends -----

  /** Why a request that is not over yet ends with this step. */
  predicate EndsNow(lim: Limits, s: Request, accts: Accounts, input: Input) {
    match s.pc
    case Start => s.rotation >= lim.rotations
    case Pick => forall i | 0 <= i < |accts| :: !IsFree(accts[i], s.tried, input.now)
    case Sleep(_, _) => input.cancelled
    case Accuse(_, f) => f.ApiError? && f.unavailable
    case Settle(_, ending) => ending == Delivered || s.stream
    case _ => false
  }

  /**
   * A request ends exactly when its rotations are used up, no account is left to pick, the client goes away during a
   * queue delay, the failure to blame is that the model is unavailable, or an answer was delivered or streamed.
   */
  lemma EndsExactly(cfg: Config, lim: Limits, s: Request, m: Moment)
    requires !s.pc.Finished?
    ensures ChatStep(cfg, lim, s, m.accts, m.input).0.pc.Finished? <==> EndsNow(lim, s, m.accts, m.input)
  {
    if s.pc.Call? {
      CallFollows(lim, s, s.pc.acct, m.input);
    }
    hide CanAcquire, CallStep, Blame, Has, Lookup, Healthy;
    if s.pc.Start? || s.pc.Pick? {
      var picked := PickExcluding(m.accts, s.tried, m.input.now);
      hide PickExcluding;
    }
  }

  /** Once over, a request stays over and leaves nothing more. */
  lemma {:induction false} OverIsOver(cfg: Config, lim: Limits, r: Request, run: seq<Moment>, t: nat, u: nat)
    requires t <= u <= |run| && Before(cfg, lim, r, run, t).pc.Finished?
    ensures Before(cfg, lim, r, run, u) == Before(cfg, lim, r, run, t)
    ensures u < |run| ==> Ops(cfg, lim, r, run)[u] == Nothing
    decreases u
  {
    hide Ops, CanAcquire, StartStep, PickStep, CallStep, Blame;
    if u < |run| {
      MomentStep(cfg, lim, r, run, u);
    }
    if u > t {
      OverIsOver(cfg, lim, r, run, t, u - 1);
      MomentStep(cfg, lim, r, run, u - 1);
    }
  }

  /** In an attempt, the account at hand is the one attempted last. */
  predicate AtHand(s: Request) {
    InAttempt(s.pc) ==> s.attempted != [] && s.attempted[|s.attempted| - 1] == s.pc.acct
  }

  lemma TopAtHand(cfg: Config, lim: Limits, s: Request, m: Moment)
    requires s.pc.Start? || s.pc.Pick?
    ensures AtHand(ChatStep(cfg, lim, s, m.accts, m.input).0)
  {
    hide Has, Lookup, Healthy, PickExcluding, CallStep;
  }

  lemma StaysAtHand(s: Request, input: Input, next: Request)
    requires AtHand(s) && InAttempt(s.pc) && Follows(s.pc, input, next.pc) && next.attempted == s.attempted
    ensures AtHand(next)
  {
  }

  lemma OverAtHand(s: Request)
    requires s.pc.Finished?
    ensures AtHand(s)
  {
  }

  lemma {:induction false} AttemptIsLast(cfg: Config, lim: Limits, r: Request, run: seq<Moment>, t: nat)
    requires IsFresh(r) && t <= |run|
    ensures AtHand(Before(cfg, lim, r, run, t))
  {
    if t == 0 {
      assert run[..0] == [];
    } else {
      AttemptIsLast(cfg, lim, r, run, t - 1);
      var s, m := Before(cfg, lim, r, run, t - 1), run[t - 1];
      MomentStep(cfg, lim, r, run, t - 1);
      hide AtHand;
      if s.pc.Start? || s.pc.Pick? {
        TopAtHand(cfg, lim, s, m);
      } else {
        StepFrame(cfg, lim, s, m.accts, m.input);
        StepFollows(cfg, lim, s, m);
        hide ChatStep, Ops, Before;
        if s.pc.Finished? {
          OverAtHand(Before(cfg, lim, r, run, t));
        } else {
          StaysAtHand(s, m.input, Before(cfg, lim, r, run, t));
        }
      }
    }
  }

  /** The account this moment's answer was delivered from. */
  ghost predicate DeliveredAt(cfg: Config, lim: Limits, r: Request, run: seq<Moment>, t: nat, name: string) {
    t + 2 < |run| && AnsweredAt(cfg, lim, r, run, t, name, Delivered)
  }

  /** Nothing is done to the pool after moment `u`, and the account is the one attempted last. */
  predicate SuccessIsLast(ops: seq<Op>, u: nat, attempted: seq<string>, name: string) {
    && (forall v | u < v < |ops| :: ops[v] == Nothing)
    && attempted != [] && attempted[|attempted| - 1] == name
  }

  /**
   * A success is noted exactly if an answer was delivered; it is noted on the account attempted last, and nothing
   * follows it.
   */
  lemma SuccessExactly(cfg: Config, lim: Limits, r: Request, run: seq<Moment>, u: nat, name: string)
    requires IsFresh(r) && u < |run|
    ensures Ops(cfg, lim, r, run)[u] == NoteSuccess(name) <==> u >= 2 && DeliveredAt(cfg, lim, r, run, u - 2, name)
    ensures Ops(cfg, lim, r, run)[u] == NoteSuccess(name) ==>
      SuccessIsLast(Ops(cfg, lim, r, run), u, After(cfg, lim, r, run).attempted, name)
  {
    NotesExactly(cfg, lim, r, run, u, name);
    if Ops(cfg, lim, r, run)[u] == NoteSuccess(name) {
      var s := Before(cfg, lim, r, run, u);
      AnswerSettles(cfg, lim, r, run, u - 2, name, Delivered);
      AttemptIsLast(cfg, lim, r, run, u);
      MomentStep(cfg, lim, r, run, u);
      EndsExactly(cfg, lim, s, run[u]);
      StepFrame(cfg, lim, s, run[u].accts, run[u].input);
      hide Ops, ChatStep;
      forall v | u < v < |run| ensures Ops(cfg, lim, r, run)[v] == Nothing {
        OverIsOver(cfg, lim, r, run, u + 1, v);
      }
      OverIsOver(cfg, lim, r, run, u + 1, |run|);
      assert run[..|run|] == run;
    }
  }

  // ----- retries and waits -----

  /** Worth a queue delay: throttling, or the limit on concurrent sessions. */
  predicate IsBusy(f: Failure) {
    f.ApiError? && (f.status == 429 || (f.status == 400 && f.sessions) || f.throttled)
  }

  /**
   * After a failed call the upstream is called again at once exactly if a first 401 was answered by a token refresh and
   * retries are left; the request goes into a queue delay, without its slot, exactly for any other failure that is
   * worth one.
   */
  lemma RetriesExactly(cfg: Config, lim: Limits, s: Request, m: Moment)
    requires s.pc.Call?
    ensures var next := ChatStep(cfg, lim, s, m.accts, m.input).0; var refreshed := RefreshedBy(s, m.input);
      && (next.pc.Call? <==> refreshed && s.retry + 1 < lim.attempts)
      && (next.pc.Sleep? <==> !refreshed && m.input.upstream.Some? && IsBusy(m.input.upstream.value))
      && (next.authRetried <==> s.authRetried || refreshed)
      && next.retry == (if refreshed then s.retry + 1 else s.retry)
      && next.lockHeld == (if next.pc.Sleep? then false else s.lockHeld)
  {
  }

  /** The first account of this name has a slot to spare. */
  predicate HasRoom(accts: Accounts, name: string) {
    exists i | 0 <= i < |accts| :: accts[i].name == name && accts[i].active < accts[i].max
      && forall j | 0 <= j < i :: accts[j].name != name
  }

  lemma RoomIsRoom(accts: Accounts, name: string)
    ensures CanAcquire(accts, name) <==> HasRoom(accts, name)
  {
    var k := IndexOf(accts, name);
    if HasRoom(accts, name) {
      var i :| 0 <= i < |accts| && accts[i].name == name && accts[i].active < accts[i].max
        && forall j | 0 <= j < i :: accts[j].name != name;
      assert i == k;
    }
  }

  /**
   * A wait ends with the slot exactly if there is room, and otherwise exactly when it times out: before an attempt that
   * leads to the next rotation, after a queue delay to giving up. With the slot back, the upstream is called again if
   * retries are left.
   */
  lemma WaitsExactly(cfg: Config, lim: Limits, s: Request, m: Moment)
    requires s.pc.Wait? || s.pc.Rewait?
    ensures var (next, op) := ChatStep(cfg, lim, s, m.accts, m.input); var room := HasRoom(m.accts, s.pc.acct);
      && (op == Acquire(s.pc.acct) <==> room) && (op == Acquire(s.pc.acct) || op == Nothing)
      && (next == s <==> !room && !m.input.timedOut)
      && (s.pc.Wait? && room ==> next.pc == Check(s.pc.acct) && next.rotation == s.rotation)
      && (s.pc.Wait? && !room && m.input.timedOut ==> next.pc == Start && next.rotation == s.rotation + 1)
      && (s.pc.Rewait? && room ==> next.retry == s.retry + 1)
      && (s.pc.Rewait? && room ==>
            next.pc == if s.retry + 1 < lim.attempts then Call(s.pc.acct) else GiveUp(s.pc.acct, s.pc.failure))
      && (s.pc.Rewait? && !room && m.input.timedOut ==> next.pc == GiveUp(s.pc.acct, s.pc.failure))
  {
    RoomIsRoom(m.accts, s.pc.acct);
    hide CanAcquire, HasRoom, StartStep, PickStep, CallStep, Blame;
  }

  // ----- probes -----

  /** The first account of this name has a slot in use. */
  predicate IsInUse(accts: Accounts, name: string) {
    exists i | 0 <= i < |accts| :: accts[i].name == name && accts[i].active > 0
      && forall j | 0 <= j < i :: accts[j].name != name
  }

  lemma UseIsUse(accts: Accounts, name: string)
    ensures Has(accts, name) && Lookup(accts, name).active > 0 <==> IsInUse(accts, name)
  {
    if IsInUse(accts, name) {
      var i :| 0 <= i < |accts| && accts[i].name == name && accts[i].active > 0
        && forall j | 0 <= j < i :: accts[j].name != name;
      assert i == IndexOf(accts, name);
    }
  }

  /**
   * A probe yields to traffic: it tries for a slot only on an account without recent traffic and with none in use. It
   * takes one only if there is room, marks its key only if nobody else has, and then gives mark and slot back.
   */
  lemma ProbeYields(p: Probe, accts: Accounts, probing: set<string>, recentTraffic: bool)
    ensures var (next, op, marked) := ProbeStep(p, accts, probing, recentTraffic);
      && (p.pc == Idle ==>
            op == Nothing && next.pc == if recentTraffic || IsInUse(accts, p.acct) then Over else TryLock)
      && (p.pc == TryLock ==>
            if HasRoom(accts, p.acct) then op == Acquire(p.acct) && next.pc == Claim
            else op == Nothing && next.pc == Over)
      && (p.pc == Claim ==> op == Nothing && next.pc == if p.key in probing then Unlock else Probing)
      && (p.pc == Probing ==> op == Nothing && next.pc == Unclaim)
      && (p.pc == Unclaim ==> op == Nothing && next.pc == Unlock)
      && (p.pc == Unlock ==> op == Release(p.acct) && next.pc == Over)
      && (p.pc == Over ==> op == Nothing && next == p)
      && marked == (if p.pc == Claim then probing + {p.key} else if p.pc == Unclaim then probing - {p.key} else probing)
      && next.acct == p.acct && next.key == p.key
  {
    UseIsUse(accts, p.acct);
    RoomIsRoom(accts, p.acct);
    hide CanAcquire, Has, Lookup, HasRoom, IsInUse;
    assert p.key in probing ==> probing + {p.key} == probing;
  }
}
