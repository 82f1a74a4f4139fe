/** Error counts and penalties over whole histories of pool notes. */
module Accounting {
  import opened Pool
  import opened Chat

  datatype Entry = Entry(op: Op, now: int)

  function Replay(cfg: Config, accts: Accounts, log: seq<Entry>): (r: Accounts)
    ensures |r| == |accts|
  {
    if log == [] then accts
    else
      var e := log[|log| - 1];
      Apply(cfg, e.now, Replay(cfg, accts, log[..|log| - 1]), e.op)
  }

  /** One past the last success noted for this name, or 0. */
  function LastSuccess(log: seq<Entry>, name: string): (n: nat)
    ensures n <= |log|
    ensures n > 0 ==> log[n - 1].op == NoteSuccess(name)
    ensures forall i | n <= i < |log| :: log[i].op != NoteSuccess(name)
  {
    if log == [] then 0
    else if log[|log| - 1].op == NoteSuccess(name) then |log|
    else LastSuccess(log[..|log| - 1], name)
  }

  function Errors(log: seq<Entry>, name: string): nat {
    if log == [] then 0 else Errors(log[..|log| - 1], name) + if log[|log| - 1].op == NoteError(name) then 1 else 0
  }

  /** Errors in a row: those since the last success, on top of the starting count if there was none. */
  function Streak(start: nat, log: seq<Entry>, name: string): nat {
    var n := LastSuccess(log, name);
    (if n == 0 then start else 0) + Errors(log[n..], name)
  }

  /** What one operation does to the error count of one account. */
  lemma ApplyErrCount(cfg: Config, now: int, accts: Accounts, op: Op, k: nat)
    requires k < |accts|
    ensures var a, b := accts[k], Apply(cfg, now, accts, op)[k];
      && b.name == a.name
      && b.errCount == if op == NoteSuccess(a.name) then 0 else a.errCount + if op == NoteError(a.name) then 1 else 0
  {
  }

  /**
   * Closed form: whatever else happened to the pool, an account's error count is the length of its uninterrupted
   * run of errors.
   */
  lemma {:induction false} ErrCountIsStreak(cfg: Config, accts: Accounts, log: seq<Entry>, k: nat)
    requires k < |accts|
    ensures Replay(cfg, accts, log)[k].name == accts[k].name
    ensures Replay(cfg, accts, log)[k].errCount == Streak(accts[k].errCount, log, accts[k].name)
    decreases |log|
  {
    if log != [] {
      var init, e, name := log[..|log| - 1], log[|log| - 1], accts[k].name;
      ErrCountIsStreak(cfg, accts, init, k);
      ApplyErrCount(cfg, e.now, Replay(cfg, accts, init), e.op, k);
      hide Apply;
      var n := LastSuccess(log, name);
      if e.op != NoteSuccess(name) {
        assert log[n..][..|log| - n - 1] == init[n..];
        assert log[n..][|log| - n - 1] == e;
      }
    }
  }

  /**
   * An error note cools the account exactly if it completes `errThreshold` errors in a row, and otherwise leaves the
   * cool-down alone; it never disables.
   */
  lemma ErrorCoolsAtThreshold(cfg: Config, accts: Accounts, log: seq<Entry>, k: nat, now: int)
    requires k < |accts|
    ensures var name := accts[k].name;
      var before, after := Replay(cfg, accts, log)[k], Apply(cfg, now, Replay(cfg, accts, log), NoteError(name))[k];
      && after.disabled == before.disabled
      && after.coolUntil ==
           if Streak(accts[k].errCount, log, name) + 1 >= cfg.errThreshold then now + cfg.errCooldown
             else before.coolUntil
  {
    ErrCountIsStreak(cfg, accts, log, k);
  }

  // ----- which failures punish an account -----

  /** The model is unavailable, or a client-side status: the session limit and every other 4xx but 401 and 429. */
  predicate Harmless(f: Failure) {
    f.ApiError? && (f.unavailable || (!IsUnauthorized(f) && f.status != 429 && f.status < 500))
  }

  datatype Event = Failed(name: string, failure: Failure, now: int) | Succeeded(name: string, now: int)

  function Noted(cfg: Config, e: Event): Entry {
    match e
    case Failed(name, failure, now) => Entry(Blame(cfg, name, failure), now)
    case Succeeded(name, now) => Entry(NoteSuccess(name), now)
  }

  function NotedAll(cfg: Config, events: seq<Event>): seq<Entry> {
    seq(|events|, i requires 0 <= i < |events| => Noted(cfg, events[i]))
  }

  /** A failure leaves every pool as it is exactly if it is harmless. */
  lemma HarmlessExactly(cfg: Config, name: string, f: Failure)
    ensures Harmless(f) <==> forall now: int, accts: Accounts :: Apply(cfg, now, accts, Blame(cfg, name, f)) == accts
  {
    if !Harmless(f) {
      var a := AccountState(name, 0, 0, 0, 0, false);
      var now := if cfg.softCooldown == 0 then 1 else 0;
      assert TouchAll(cfg, now, [a], Blame(cfg, name, f))[0] != [a][0];
      assert Apply(cfg, now, [a], Blame(cfg, name, f)) != [a];
    }
  }

  /** No run of harmless failures and successes, in any order and on any accounts, cools or disables anybody. */
  lemma {:induction false} HarmlessRunsPunishNobody(cfg: Config, accts: Accounts, events: seq<Event>, k: nat)
    requires k < |accts|
    requires forall i | 0 <= i < |events| :: events[i].Failed? ==> Harmless(events[i].failure)
    ensures var a := Replay(cfg, accts, NotedAll(cfg, events))[k];
      a.coolUntil == accts[k].coolUntil && a.disabled == accts[k].disabled
    decreases |events|
  {
    if events != [] {
      var init := events[..|events| - 1];
      var log := NotedAll(cfg, events);
      assert log[..|log| - 1] == NotedAll(cfg, init);
      HarmlessRunsPunishNobody(cfg, accts, init, k);
    }
  }
}
