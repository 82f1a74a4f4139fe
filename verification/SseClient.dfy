/** What the client has, event by event, against what the server holds: content, reasoning and tool calls. */
module SseClient {
  import opened Json
  import opened SseEvents
  import opened SsePartial
  import opened SseStream
  import opened SseAgreement
  import opened SseTextual
  import Utf8

  // ----- content and reasoning -----

  /** The content sent for one event, as it arrives. */
  function Told(a: Accum, b: Accum): string {
    if |b.content| > |a.content| then Utf8.Scrub(b.content[|a.content|..]) else ""
  }

  /** The content that reaches the client with an event; a chunk that it cannot read says nothing. */
  function HeardContent(payload: Object, a: Accum, b: Accum): string {
    if Shallow(payload) then Told(a, b) else ""
  }

  function HeardReason(payload: Object, a: Accum, b: Accum): string {
    if Shallow(payload) && |a.reason| <= |b.reason| then b.reason[|a.reason|..] else ""
  }

  /** The content of a client that started with `have` while the server was in state `a`. */
  function ClientContent(c: Codec, a: Accum, events: seq<Event>, have: string): string
    decreases |events|
  {
    if events == [] || IsDone(events[0]) || Step(c, a, events[0]).error.Some? then have
    else
      var b := Step(c, a, events[0]).accum;
      var now := have + HeardContent(Payload(c, events[0].data), a, b);
      if IsClosingName(events[0].name) then now else ClientContent(c, b, events[1..], now)
  }

  /** Likewise the reasoning. */
  function ClientReason(c: Codec, a: Accum, events: seq<Event>, have: string): string
    decreases |events|
  {
    if events == [] || IsDone(events[0]) || Step(c, a, events[0]).error.Some? then have
    else
      var b := Step(c, a, events[0]).accum;
      var now := have + HeardReason(Payload(c, events[0].data), a, b);
      if IsClosingName(events[0].name) then now else ClientReason(c, b, events[1..], now)
  }

  /** Client and server hold the same content now and after every event the server translates. */
  predicate AlwaysInSync(c: Codec, a: Accum, events: seq<Event>, have: string)
    decreases |events|
  {
    have == a.content &&
    (events == [] || IsDone(events[0]) || Step(c, a, events[0]).error.Some? ||
     var b := Step(c, a, events[0]).accum;
     var now := have + HeardContent(Payload(c, events[0].data), a, b);
     if IsClosingName(events[0].name) then now == b.content else AlwaysInSync(c, b, events[1..], now))
  }

  /**
   * Every snapshot or output array that replaces the content extends it, and no content comes with a chunk that cannot
   * be read.
   */
  predicate Extending(c: Codec, a: Accum, events: seq<Event>)
    decreases |events|
  {
    events == [] || IsDone(events[0]) || Step(c, a, events[0]).error.Some? ||
    (var b := Step(c, a, events[0]).accum;
     && (Replacement(c, events[0]).Some? ==> a.content <= Replacement(c, events[0]).value)
     && (Shallow(Payload(c, events[0].data)) || b.content == a.content)
     && (IsClosingName(events[0].name) || Extending(c, b, events[1..])))
  }

  /** No reasoning comes with a chunk that cannot be read. */
  predicate AllReasonHeard(c: Codec, a: Accum, events: seq<Event>)
    decreases |events|
  {
    events == [] || IsDone(events[0]) || Step(c, a, events[0]).error.Some? ||
    (var b := Step(c, a, events[0]).accum;
     && (Shallow(Payload(c, events[0].data)) || b.reason == a.reason)
     && (IsClosingName(events[0].name) || AllReasonHeard(c, b, events[1..])))
  }

  /** What lies beyond a UTF-8 prefix of UTF-8 text is UTF-8, so it arrives as it was sent. */
  lemma BeyondPrefix(s: string, t: string)
    requires Utf8.Valid(s) && Utf8.Valid(t) && s <= t
    ensures Utf8.Scrub(t[|s|..]) == t[|s|..] && s + t[|s|..] == t
  {
    hide Utf8.Valid, Utf8.Scrub;
    assert s + t[|s|..] == t;
    Utf8.ValidConcat(s, t[|s|..]);
    Utf8.ScrubValid(t[|s|..]);
  }

  lemma HeardExactly(payload: Object, a: Accum, b: Accum)
    requires Textual(a) && Textual(b)
    ensures a.content + HeardContent(payload, a, b) == b.content <==>
      a.content <= b.content && (Shallow(payload) || b.content == a.content)
  {
    hide Shallow;
    assert a.content + "" == a.content;
    if a.content <= b.content {
      BeyondPrefix(a.content, b.content);
    }
  }

  /**
   * The client stays in sync throughout exactly if every replacing frame extends the content so far and none with new
   * content is lost.
   */
  lemma {:induction false} InSyncExactly(c: Codec, a: Accum, events: seq<Event>)
    requires Faithful(c) && Textual(a)
    ensures AlwaysInSync(c, a, events, a.content) <==> Extending(c, a, events)
    decreases |events|
  {
    if events != [] && !IsDone(events[0]) && Step(c, a, events[0]).error.None? {
      var e, b := events[0], Step(c, a, events[0]).accum;
      StepKeepsTextual(c, a, e);
      HeardExactly(Payload(c, e.data), a, b);
      ContentReplacedOrExtended(c, a, e);
      hide Step, Replacement, HeardContent, Shallow, Textual, Faithful, Carried;
      if a.content + HeardContent(Payload(c, e.data), a, b) == b.content {
        InSyncExactly(c, b, events[1..]);
      }
    }
  }

  lemma {:induction false} InSyncEndsEqual(c: Codec, o: Options, a: Accum, events: seq<Event>, broken: bool)
    requires AlwaysInSync(c, a, events, a.content)
    ensures var run := Translate(c, o, a, events, broken);
      run.outcome.Finished? ==> ClientContent(c, a, events, a.content) == run.outcome.accum.content
    decreases |events|
  {
    hide Step, Closing, ChunksFor, HeardContent, IsDone, IsClosingName;
    if events != [] {
      TranslateHead(c, o, a, events, broken);
      hide Translate;
      if !IsDone(events[0]) && Step(c, a, events[0]).error.None? && !IsClosingName(events[0].name) {
        InSyncEndsEqual(c, o, Step(c, a, events[0]).accum, events[1..], broken);
      }
    }
  }

  /** A client that hears all reasoning holds what was added on the server; any other holds less. */
  ghost predicate Heard(all: bool, had: string, has: string, a: string, b: string) {
    a <= b && if all then has == had + b[|a|..] else |has| < |had| + |b| - |a|
  }

  lemma HeardOneMore(payload: Object, s: Accum, t: Accum, all: bool, had: string, has: string, end: string)
    requires s.reason <= t.reason && Heard(all, had + HeardReason(payload, s, t), has, t.reason, end)
    ensures Heard((Shallow(payload) || t.reason == s.reason) && all, had, has, s.reason, end)
  {
    hide Shallow;
    if all {
      assert (had + t.reason[|s.reason|..]) + end[|t.reason|..] == had + end[|s.reason|..];
    }
  }

  lemma {:induction false} ReasonHeardExactly(c: Codec, o: Options, a: Accum, events: seq<Event>, broken: bool,
      have: string)
    ensures var outcome := Translate(c, o, a, events, broken).outcome;
      outcome.Finished? ==>
        Heard(AllReasonHeard(c, a, events), have, ClientReason(c, a, events, have), a.reason, outcome.accum.reason)
    decreases |events|
  {
    hide Step, Closing, ChunksFor, HeardReason, Shallow, IsDone, IsClosingName, Heard;
    HeardNothing(have, a.reason);
    if events != [] {
      var e, s := events[0], Step(c, a, events[0]);
      TranslateHead(c, o, a, events, broken);
      hide Translate;
      ReasoningGrows(c, a, e);
      if !IsDone(e) && s.error.None? {
        var payload, b := Payload(c, e.data), s.accum;
        var now := have + HeardReason(payload, a, b);
        HeardNothing(now, b.reason);
        if IsClosingName(e.name) {
          HeardOneMore(payload, a, b, true, have, now, b.reason);
        } else {
          ReasonHeardExactly(c, o, b, events[1..], broken, now);
          var rest := Translate(c, o, b, events[1..], broken).outcome;
          if rest.Finished? {
            HeardOneMore(payload, a, b, AllReasonHeard(c, b, events[1..]), have,
                         ClientReason(c, b, events[1..], now), rest.accum.reason);
          }
        }
      }
    }
  }

  lemma HeardNothing(have: string, a: string)
    ensures Heard(true, have, have, a, a)
  {
    assert have + a[|a|..] == have;
  }

  // ----- tool calls: the payloads whose fragments reach the client -----

  function ReadableParts(c: Codec, events: seq<Event>): seq<Part> {
    if events == [] || IsDone(events[0]) then []
    else
      var payload := Payload(c, events[0].data);
      [Part(payload, Shallow(payload))] + ReadableParts(c, events[1..])
  }

  /** The fragments sent are those that the server captured. */
  lemma {:induction false} PartsSent(c: Codec, events: seq<Event>)
    requires c.decode("[DONE]") == UNREADABLE && forall e | e in events :: Trimmed(e)
    ensures var seen := UpToTerminal(c, events); AllPieces(ReadableParts(c, seen)) == AllPieces(WholeParts(c, seen))
    decreases |events|
  {
    if events != [] {
      var e, seen := events[0], UpToTerminal(c, events);
      assert seen[0] == e && e in events;
      hide Shallow, PiecesOf, IsDone, IsTerminal, Trimmed;
      NoPieces();
      if IsDone(e) {
        DoneSaysNothing(c, e);
        DoneIsTerminal(c, e);
        assert seen[1..] == [];
        assert WholeParts(c, seen)[1..] == [] && AllPieces([]) == [];
      } else {
        var tail := seen[1..];
        assert tail == if IsTerminal(c, e) then [] else UpToTerminal(c, events[1..]);
        assert AllPieces(ReadableParts(c, tail)) == AllPieces(WholeParts(c, tail)) by {
          if !IsTerminal(c, e) {
            PartsSent(c, events[1..]);
          }
        }
        assert WholeParts(c, seen)[1..] == WholeParts(c, tail);
        assert ReadableParts(c, seen)[1..] == ReadableParts(c, tail);
      }
    }
  }

  lemma DoneIsTerminal(c: Codec, e: Event)
    requires IsDone(e)
    ensures IsTerminal(c, e)
  {
  }

  lemma DoneSaysNothing(c: Codec, e: Event)
    requires c.decode("[DONE]") == UNREADABLE && Trimmed(e) && IsDone(e)
    ensures Payload(c, e.data) == map[]
  {
  }

  /** If every frame can be read, nothing is lost. */
  lemma {:induction false} ShallowPartsTaken(c: Codec, events: seq<Event>)
    requires AllShallow(c, events)
    ensures TakenPieces(ReadableParts(c, events)) == AllPieces(ReadableParts(c, events))
    decreases |events|
  {
    if events != [] && !IsDone(events[0]) {
      assert events == [events[0]] + events[1..];
      ShallowCons(c, events[0], events[1..]);
      hide Shallow, AllShallow, PiecesOf, IsDone;
      ShallowPartsTaken(c, events[1..]);
      assert ReadableParts(c, events)[1..] == ReadableParts(c, events[1..]);
    }
  }

  lemma ShallowHead(c: Codec, events: seq<Event>)
    requires events != [] && !IsDone(events[0]) && AllShallow(c, UpToTerminal(c, events))
    ensures Shallow(Payload(c, events[0].data))
    ensures !IsTerminal(c, events[0]) ==> AllShallow(c, UpToTerminal(c, events[1..]))
  {
    hide Shallow, AllShallow, IsDone, IsTerminal;
    ShallowCons(c, events[0], []);
    ShallowCons(c, events[0], UpToTerminal(c, events[1..]));
    assert [events[0]] + [] == [events[0]];
  }

  lemma {:induction false} ShallowReasonHeard(c: Codec, a: Accum, events: seq<Event>)
    requires AllShallow(c, UpToTerminal(c, events))
    ensures AllReasonHeard(c, a, events)
    decreases |events|
  {
    if events != [] && !IsDone(events[0]) {
      ErrorIsLocal(c, a, INITIAL, events[0]);
      ShallowHead(c, events);
      hide Shallow, AllShallow, Step, UpToTerminal;
      if !IsTerminal(c, events[0]) {
        ShallowReasonHeard(c, Step(c, a, events[0]).accum, events[1..]);
      }
    }
  }
}
