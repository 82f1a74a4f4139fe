/**
 * One chat request and one availability probe, as the sequences of atomic steps they take
 * against the pool. Between two steps any other request, probe or operator may run, so a
 * step sees whatever account list it finds and performs at most one pool operation.
 */
module Chat {
  import opened Text
  import opened Pool

  /** `rotations` accounts at most, `attempts` upstream calls on each. Both are positive by construction. */
  datatype Limits = Limits(rotations: nat, attempts: nat)

  // ----- upstream failures -----

  /** `unavailable`: the text says this account cannot use the model. `sessions`: it names the session limit. */
  datatype Failure =
    | ApiError(status: int, code: int, unavailable: bool, sessions: bool, throttled: bool)
    | OtherError

  /** `isQueueLimitError`: worth waiting for on the same account. */
  predicate IsQueueLimit(f: Failure) {
    f.ApiError? && (f.status == 429 || (f.status == 400 && f.sessions) || f.throttled)
  }

  predicate IsUnauthorized(f: Failure) {
    f.ApiError? && (f.status == 401 || f.code == 401)
  }

  /** `handleUpstreamError`: the note it leaves in the pool. */
  function Blame(cfg: Config, name: string, f: Failure): Op {
    match f
    case OtherError => NoteError(name)
    case ApiError(status, _, unavailable, sessions, _) =>
      if unavailable then Nothing
      else if IsUnauthorized(f) then Disable(name)
      else if status == 429 then CoolDown(name, cfg.softCooldown)
      else if status == 400 && sessions then Nothing
      else if status >= 500 then NoteError(name)
      else Nothing
  }

  /** A model-level failure ends the rotation: another account would answer the same. */
  predicate IsFinal(f: Failure) {
    f.ApiError? && f.unavailable
  }

  // ----- a chat request -----

  /** Where a request stands; every constructor is a point at which others may run. */
  datatype Pc =
    | Start
    | Pick
    | Wait(acct: string)
    | Check(acct: string)
    | Reject(acct: string)
    | Call(acct: string)
    | Sleep(acct: string, failure: Failure)
    | Rewait(acct: string, failure: Failure)
    | GiveUp(acct: string, failure: Failure)
    | Accuse(acct: string, failure: Failure)
    | Respond(acct: string)
    | Settle(acct: string, result: Ending)
    | Finished

  datatype Ending = Delivered | Broken | ClientGone

  /**
   * The variables of `chatCompletions`. `attempted` and `calls` record the accounts taken into an attempt and the
   * upstream calls made, `refreshes` the refresh-retries granted in each attempt.
   */
  datatype Request = Request(
    pc: Pc, stream: bool, sticky: string, tried: set<string>, rotation: nat, retry: nat, authRetried: bool,
      lockHeld: bool,
    attempted: seq<string>, calls: nat, refreshes: seq<nat>)

  datatype Validation = Valid(refreshed: bool) | Invalid | Unverified

  /** Everything the outside decides for one step. */
  datatype Input = Input(
    now: int, timedOut: bool, validation: Validation, upstream: Option<Failure>, refreshable: bool, refreshed: bool,
    cancelled: bool, ending: Ending)

  function NextRotation(r: Request): Request {
    r.(pc := Start, rotation := r.rotation + 1)
  }

  function Take(r: Request, name: string): Request {
    r.(pc := Wait(name), tried := r.tried + {name}, attempted := r.attempted + [name], refreshes := r.refreshes + [0])
  }

  /** Top of the rotation loop: the sticky account while it is healthy, else any untried one. */
  function StartStep(lim: Limits, r: Request, accts: Accounts, input: Input): Request {
    if r.rotation >= lim.rotations then r.(pc := Finished)
    else if r.sticky == "" then r.(pc := Pick)
    else if Has(accts, r.sticky) && Healthy(Lookup(accts, r.sticky), input.now) then Take(r, r.sticky)
    else r.(pc := Pick, sticky := "")
  }

  function PickStep(r: Request, accts: Accounts, input: Input): Request {
    match PickExcluding(accts, r.tried, input.now)
    case None => r.(pc := Finished)
    case Some(name) => Take(r, name)
  }

  /** One more refresh-retry in the current attempt. */
  function Granted(refreshes: seq<nat>): seq<nat> {
    if refreshes == [] then [] else refreshes[|refreshes| - 1 := refreshes[|refreshes| - 1] + 1]
  }

  /** The retry loop's head: another call, or out of it with the last failure. */
  function Again(lim: Limits, r: Request, acct: string, failure: Failure): Request {
    r.(retry := r.retry + 1, pc := if r.retry + 1 < lim.attempts then Call(acct) else GiveUp(acct, failure))
  }

  /** One upstream call: accepted, refreshed after a 401, queued behind other sessions, or failed. */
  function CallStep(lim: Limits, r0: Request, acct: string, input: Input): (Request, Op) {
    var r := r0.(calls := r0.calls + 1);
    match input.upstream
    case None => (r.(pc := Respond(acct)), Nothing)
    case Some(f) =>
      if IsUnauthorized(f) && !r.authRetried && input.refreshable && input.refreshed then
        (Again(lim, r.(authRetried := true, refreshes := Granted(r.refreshes)), acct, f), Reenable(acct))
      else if IsQueueLimit(f) then (r.(pc := Sleep(acct, f), lockHeld := false), Release(acct))
      else (r.(pc := GiveUp(acct, f)), Nothing)
  }

  /** The whole request, one atomic step: the new variables and the pool operation performed. */
  function ChatStep(cfg: Config, lim: Limits, r: Request, accts: Accounts, input: Input): (Request, Op) {
    match r.pc
    case Start => (StartStep(lim, r, accts, input), Nothing)
    case Pick => (PickStep(r, accts, input), Nothing)
    case Wait(acct) =>
      if CanAcquire(accts, acct) then (r.(pc := Check(acct), lockHeld := true), Acquire(acct))
      else if input.timedOut then (NextRotation(r), Nothing)
      else (r, Nothing)
    case Check(acct) => (match input.validation
      case Valid(refreshed) =>
        (r.(pc := Call(acct), retry := 0, authRetried := false), if refreshed then Reenable(acct) else Nothing)
      case Invalid => (r.(pc := Reject(acct)), Disable(acct))
      case Unverified => (r.(pc := Reject(acct)), Nothing))
    case Reject(acct) => (NextRotation(r).(lockHeld := false), Release(acct))
    case Call(acct) => CallStep(lim, r, acct, input)
    case Sleep(acct, f) => (r.(pc := if input.cancelled then Finished else Rewait(acct, f)), Nothing)
    case Rewait(acct, f) =>
      if CanAcquire(accts, acct) then (Again(lim, r.(lockHeld := true), acct, f), Acquire(acct))
      else if input.timedOut then (r.(pc := GiveUp(acct, f)), Nothing)
      else (r, Nothing)
    case GiveUp(acct, f) =>
      if r.lockHeld then (r.(pc := Accuse(acct, f), lockHeld := false), Release(acct))
        else (r.(pc := Accuse(acct, f)), Nothing)
    case Accuse(acct, f) => (if IsFinal(f) then r.(pc := Finished) else NextRotation(r), Blame(cfg, acct, f))
    case Respond(acct) => (r.(pc := Settle(acct, input.ending), lockHeld := false), Release(acct))
    case Settle(acct, ending) =>
      if ending == Delivered then (r.(pc := Finished), NoteSuccess(acct))
      else if r.stream then (r.(pc := Finished), if ending == ClientGone then Nothing else NoteError(acct))
      else (NextRotation(r), NoteError(acct))
    case Finished => (r, Nothing)
  }

  // ----- an availability probe -----

  datatype ProbePc = Idle | TryLock | Claim | Probing | Unclaim | Unlock | Over

  datatype Probe = Probe(pc: ProbePc, acct: string, key: string)

  /** One step of a probe, with its pool operation and the keys being probed afterwards. */
  function ProbeStep(p: Probe, accts: Accounts, probing: set<string>, recentTraffic: bool): (Probe, Op, set<string>) {
    match p.pc
    case Idle =>
      var busy := Has(accts, p.acct) && Lookup(accts, p.acct).active > 0;
      (p.(pc := if busy || recentTraffic then Over else TryLock), Nothing, probing)
    case TryLock => if CanAcquire(accts, p.acct) then (p.(pc := Claim), Acquire(p.acct), probing)
      else (p.(pc := Over), Nothing, probing)
    case Claim => if p.key in probing then (p.(pc := Unlock), Nothing, probing)
      else (p.(pc := Probing), Nothing, probing + {p.key})
    case Probing => (p.(pc := Unclaim), Nothing, probing)
    case Unclaim => (p.(pc := Unlock), Nothing, probing - {p.key})
    case Unlock => (p.(pc := Over), Release(p.acct), probing)
    case Over => (p, Nothing, probing)
  }
}
