/**
 * What the client of the stream reassembles: the frames are rendered as server-sent events, read back by the
 * aggregator, and compared with the answer captured on the server.
 */
module SseRoundTrip {
  import opened Text
  import opened Json
  import opened ToolCalls
  import opened SseReader
  import opened SseEvents
  import opened SsePartial
  import opened SseAggregate
  import opened SseStream
  import opened SseAgreement
  import opened SseFrames
  import opened SseTextual
  import opened SseClient
  import Utf8

  // ----- the finish reason: what the client is told -----

  /** The finish reason that reaches the client with an event. */
  function TellsFinish(c: Codec, e: Event): Option<string> {
    var finish := DeltaOf(Payload(c, e.data)).1;
    if finish != "" then Some(finish) else if IsClosingName(e.name) then SetsFinish(c, e) else None
  }

  /** The last finish reason told before the end marker. */
  function LastTold(c: Codec, events: seq<Event>, finish: string): string {
    if events == [] || IsDone(events[0]) then finish
    else LastTold(c, events[1..], TellsFinish(c, events[0]).GetOr(finish))
  }

  lemma ClosingIsFinishing(name: string)
    requires IsClosingName(name)
    ensures KindOf(name) == Finishing
  {
    var low := Lower(name);
    assert low[0] == LowerChar(name[0]) && low[|low| - 1] == LowerChar(name[|name| - 1]);
    assert low[0] in {'d', 'e', 'f'} && low[|low| - 1] in {'e', 'd', 'h'} by {
      assert "done"[0] == 'd' && "end"[0] == 'e' && "finish"[0] == 'f';
      assert "done"[3] == 'e' && "end"[2] == 'd' && "finish"[5] == 'h';
    }
    assert !IsSpace(name[0]) && !IsSpace(name[|name| - 1]);
    assert TrimLeft(name) == name && TrimRight(name) == name;
    hide Lower, Trim;
    assert "done" != "" && "end" != "" && "finish" != "";
  }

  // ----- one event, then all of them -----

  lemma DifferenceReads(a: Accum, s: Accum, native: Object)
    requires a.reason <= s.reason
    ensures var delta := Difference(a, s, native);
      && Fragments(delta) == Fragments(native)
      && StrAt(delta, "content").GetOr("") == (if |s.content| > |a.content| then s.content[|a.content|..] else "")
      && StrAt(delta, "reasoning_content").GetOr("") == s.reason[|a.reason|..]
  {
    assert ArrAt(Difference(a, s, native), "tool_calls") == ArrAt(native, "tool_calls");
  }

  /** A chunk that can be read brings what it says and the fragments of the event. */
  lemma ReceiveChange(a: Accum, s: Accum, b: Accum, native: Object, finish: string)
    requires Textual(a) && Textual(s) && a.reason <= s.reason && Utf8.Valid(finish)
    requires Readable(Chunk(Difference(a, s, native), finish))
    ensures var delta := Difference(a, s, native);
      var told := b.(calls := ApplyAll(b.calls, Fragments(native)), finish := if finish != "" then finish else b.finish,
                     content := b.content + Told(a, s), reason := b.reason + s.reason[|a.reason|..]);
      && Received(b, Chunk(delta, finish)) == told
      && (delta == map[] && finish == "" ==> told == b)
  {
    hide Utf8.Valid, Utf8.Scrub, Fragments, ApplyAll, Difference, EncodableObject, Readable;
    var delta := Difference(a, s, native);
    DifferenceReads(a, s, native);
    BeyondPrefix(a.reason, s.reason);
    Utf8.ScrubValid(finish);
    Utf8.ScrubValid("");
    hide Textual;
    if delta == map[] && finish == "" {
      NothingChanged(a, s, native, b);
    }
  }

  lemma NothingChanged(a: Accum, s: Accum, native: Object, b: Accum)
    requires Difference(a, s, native) == map[] && a.reason <= s.reason
    ensures Told(a, s) == "" && s.reason[|a.reason|..] == "" && ApplyAll(b.calls, Fragments(native)) == b.calls
    ensures b.content + "" == b.content && b.reason + "" == b.reason
  {
    var delta := Difference(a, s, native);
    assert "content" !in delta && "reasoning_content" !in delta && "tool_calls" !in delta;
  }

  /** What the chunks of one event bring to a client in state `b`. */
  function Brought(payload: Object, a: Accum, s: Accum, b: Accum, finish: string): Accum {
    b.(calls := if Shallow(payload) then ApplyAll(b.calls, PiecesOf(payload)) else b.calls,
       content := b.content + HeardContent(payload, a, s), reason := b.reason + HeardReason(payload, a, s),
       finish := finish)
  }

  /** A chunk whose tool calls are too deep tells nothing, not even a finish reason. */
  lemma DeepTellsNothing(a: Accum, s: Accum, b: Accum, payload: Object)
    requires Carried(payload) && !Shallow(payload)
    ensures var (d, finish) := DeltaOf(payload);
      finish == "" && Received(b, Chunk(Difference(a, s, d.GetOr(map[])), finish)) == b
  {
    if ObjAt(payload, "delta").None? {
      ChoicesAreShallow(payload);
    }
    DeltaIsDecoded(payload);
    var native := DeltaOf(payload).0.value;
    hide EncodableObject, Nests, Utf8.Valid;
    DifferenceIsSendable(a, s, native, "");
    hide Readable, Difference;
  }

  lemma BroughtNothing(payload: Object, a: Accum, s: Accum, b: Accum)
    requires !Shallow(payload)
    ensures Brought(payload, a, s, b, b.finish) == b
  {
    hide Shallow;
    assert b.content + "" == b.content && b.reason + "" == b.reason;
  }

  lemma ShallowTells(a: Accum, s: Accum, b: Accum, payload: Object)
    requires Textual(a) && Textual(s) && a.reason <= s.reason && Carried(payload) && Shallow(payload)
    ensures var (d, finish) := DeltaOf(payload);
      var delta := Difference(a, s, d.GetOr(map[]));
      var brought := Brought(payload, a, s, b, if finish != "" then finish else b.finish);
      && Received(b, Chunk(delta, finish)) == brought
      && (delta == map[] && finish == "" ==> brought == b)
  {
    var (d, finish) := DeltaOf(payload);
    var native := d.GetOr(map[]);
    DeltaIsDecoded(payload);
    EncodableEmpty();
    hide EncodableObject, Nests, Utf8.Valid, Readable, Told, DeltaOf, Difference, Sendable, Textual, Fragments,
      ApplyAll;
    DifferenceIsSendable(a, s, native, finish);
    hide Shallow;
    ReceiveChange(a, s, b, native, finish);
    assert |a.reason| <= |s.reason|;
    hide Received;
  }

  /** The chunk that carries the difference between two states, if one is sent. */
  lemma ReceiveDelta(a: Accum, s: Accum, b: Accum, payload: Object)
    requires Textual(a) && Textual(s) && a.reason <= s.reason && Carried(payload)
    ensures var (d, finish) := DeltaOf(payload);
      var delta := Difference(a, s, d.GetOr(map[]));
      var change := if delta != map[] || finish != "" then [Chunk(delta, finish)] else [];
      ReceivedAll(b, change) == Brought(payload, a, s, b, if finish != "" then finish else b.finish)
  {
    hide Carried, Textual, Shallow, DeltaOf, Difference, Brought, Received;
    if Shallow(payload) {
      ShallowTells(a, s, b, payload);
    } else {
      DeepTellsNothing(a, s, b, payload);
      BroughtNothing(payload, a, s, b);
    }
    ReceiveOne(b, Chunk(Difference(a, s, DeltaOf(payload).0.GetOr(map[])), DeltaOf(payload).1));
    ReceiveNone(b);
  }

  lemma ReceiveDifference(a: Accum, s: Accum, b: Accum, e: Event, payload: Object)
    requires Textual(a) && Textual(s) && a.reason <= s.reason && s.finish != "" && Carried(payload)
    ensures var finish := DeltaOf(payload).1;
      ReceivedAll(b, ChunksFor(a, s, e, payload)) ==
        Brought(payload, a, s, b, if finish != "" then finish else if IsClosingName(e.name) then s.finish else b.finish)
  {
    hide Carried, DeltaOf, Difference, IsClosingName, HeardContent, HeardReason, Shallow, ReceivedAll, PiecesOf,
      ApplyAll;
    var (d, finish) := DeltaOf(payload);
    var delta := Difference(a, s, d.GetOr(map[]));
    var change := if delta != map[] || finish != "" then [Chunk(delta, finish)] else [];
    var last := if IsClosingName(e.name) && finish == "" then [Chunk(map[], s.finish)] else [];
    ReceiveDelta(a, s, b, payload);
    ReceivedAllConcat(b, change, last);
    var told := ReceivedAll(b, change);
    ReceiveOne(told, Chunk(map[], s.finish));
    ReceiveNone(told);
    ReceiveFinish(told, s.finish);
  }

  lemma ReceiveNone(b: Accum)
    ensures ReceivedAll(b, []) == b
  {
  }

  lemma ReceiveFinish(b: Accum, finish: string)
    requires Utf8.Valid(finish) && finish != ""
    ensures Received(b, Chunk(map[], finish)) == b.(finish := finish)
  {
    Utf8.ScrubValid(finish);
    Utf8.ScrubValid("");
    assert Fragments(map[]) == [];
    assert b.content + "" == b.content && b.reason + "" == b.reason;
    hide Utf8.Valid, Utf8.Scrub;
  }

  /** The chunks of one event carry its fragments, the new reasoning, the new content and the finish reason it tells. */
  lemma ReceiveEvent(c: Codec, a: Accum, b: Accum, e: Event)
    requires Faithful(c) && Textual(a) && ValidAccum(a) && Step(c, a, e).error.None?
    ensures var s, payload := Step(c, a, e).accum, Payload(c, e.data);
      ReceivedAll(b, ChunksFor(a, s, e, payload)) == Brought(payload, a, s, b, TellsFinish(c, e).GetOr(b.finish))
  {
    hide Step, Textual, Faithful, Carried, Brought, DeltaOf, SetsFinish, ReceivedAll, ChunksFor;
    var s, payload := Step(c, a, e).accum, Payload(c, e.data);
    ReasoningGrows(c, a, e);
    StepKeepsTextual(c, a, e);
    StepKeepsValid(c, a, e);
    if IsClosingName(e.name) {
      TellsItsFinish(c, a, e);
    }
    hide IsClosingName, Utf8.Valid;
    ReceiveDifference(a, s, b, e, payload);
  }

  /** A closing event tells the finish reason it sets. */
  lemma TellsItsFinish(c: Codec, a: Accum, e: Event)
    requires a.finish != "" && Step(c, a, e).error.None? && IsClosingName(e.name)
    ensures SetsFinish(c, e) == Some(Step(c, a, e).accum.finish)
  {
    ClosingIsFinishing(e.name);
    FinishIsLocal(c, a, e);
    hide IsStructuredQA, OutputText, KindOf, IsDoneText, DeltaOf, Fragments, ApplyAll, FirstStr;
  }

  /** The usage a client that asked for it ends up with: the upstream's own, else the estimate. */
  ghost function ReportedUsage(c: Codec, o: Options, a: Accum): Option<Object> {
    var u := if a.usage.Some? then a.usage else o.estimate(Snapshot(c, a));
    if u == Some(map[]) then None else u
  }

  lemma ReceiveClosing(c: Codec, o: Options, a: Accum, b: Accum)
    ensures ReceivedAll(b, Closing(c, o, a)) == if o.includeUsage && ReportedUsage(c, o, a).Some?
                                                then b.(usage := ReportedUsage(c, o, a)) else b
  {
    var usage := UsageChunk(UsageJson(if a.usage.Some? then a.usage else o.estimate(Snapshot(c, a))));
    ReceivedAllConcat(b, if o.includeUsage then [usage] else [], [Done]);
    ReceiveOne(b, usage);
    ReceiveOne(if o.includeUsage then Received(b, usage) else b, Done);
  }

  /** What a client that started in state `b` holds after a finished run from `a` to `end`. */
  ghost predicate Reads(c: Codec, o: Options, a: Accum, b: Accum, events: seq<Event>, end: Accum, r: Accum) {
    && r.reason == ClientReason(c, a, events, b.reason)
    && r.calls == ApplyAll(b.calls, TakenPieces(ReadableParts(c, UpToTerminal(c, events))))
    && r.content == ClientContent(c, a, events, b.content)
    && r.finish == LastTold(c, UpToTerminal(c, events), b.finish)
    && (r.usage == if o.includeUsage then ReportedUsage(c, o, end) else None)
  }

  lemma TakenOne(c: Codec, e: Event, tail: seq<Event>, calls: Calls)
    requires !IsDone(e)
    ensures var payload := Payload(c, e.data);
      ApplyAll(calls, TakenPieces(ReadableParts(c, [e] + tail))) ==
        ApplyAll(if Shallow(payload) then ApplyAll(calls, PiecesOf(payload)) else calls,
                 TakenPieces(ReadableParts(c, tail)))
  {
    hide Shallow, PiecesOf, IsDone, ApplyAll;
    assert ([e] + tail)[1..] == tail;
    assert ReadableParts(c, [e] + tail)[1..] == ReadableParts(c, tail);
    ApplyAllConcat(calls, PiecesOf(Payload(c, e.data)), TakenPieces(ReadableParts(c, tail)));
    assert [] + TakenPieces(ReadableParts(c, tail)) == TakenPieces(ReadableParts(c, tail));
  }

  /** A run that ends with the event at its head. */
  lemma ReadsLast(c: Codec, o: Options, a: Accum, b: Accum, events: seq<Event>)
    requires Faithful(c) && Textual(a) && ValidAccum(a) && b.usage == None
    requires events != [] && !IsDone(events[0]) && IsClosingName(events[0].name) && Step(c, a, events[0]).error.None?
    ensures var e, s := events[0], Step(c, a, events[0]).accum;
      var chunks := ChunksFor(a, s, e, Payload(c, e.data));
      Reads(c, o, a, b, events, s, ReceivedAll(b, chunks + Closing(c, o, s)))
  {
    hide Step, ChunksFor, Payload, Closing, Textual, Faithful, TellsFinish, HeardContent, HeardReason, Shallow,
      ReportedUsage, IsDone, IsClosingName, ValidAccum, PiecesOf, ApplyAll;
    var e, s := events[0], Step(c, a, events[0]).accum;
    var chunks := ChunksFor(a, s, e, Payload(c, e.data));
    ReceiveEvent(c, a, b, e);
    assert IsTerminal(c, e);
    assert UpToTerminal(c, events) == [e] + [] && [e] + [] == [e] && [e][1..] == [];
    hide UpToTerminal, IsTerminal;
    TakenOne(c, e, [], b.calls);
    NothingTaken(c, if Shallow(Payload(c, e.data)) then ApplyAll(b.calls, PiecesOf(Payload(c, e.data))) else b.calls);
    ReceivedAllConcat(b, chunks, Closing(c, o, s));
    ReceiveClosing(c, o, s, ReceivedAll(b, chunks));
    assert LastTold(c, [e], b.finish) == TellsFinish(c, e).GetOr(b.finish);
  }

  lemma NothingTaken(c: Codec, calls: Calls)
    ensures ApplyAll(calls, TakenPieces(ReadableParts(c, []))) == calls
  {
  }

  /** A run that goes on after the event at its head. */
  lemma ReadsOn(c: Codec, o: Options, a: Accum, b: Accum, events: seq<Event>, frames: seq<Frame>, end: Accum)
    requires Faithful(c) && Textual(a) && ValidAccum(a)
    requires events != [] && !IsTerminal(c, events[0]) && Step(c, a, events[0]).error.None?
    requires var e, s := events[0], Step(c, a, events[0]).accum;
      Reads(c, o, s, ReceivedAll(b, ChunksFor(a, s, e, Payload(c, e.data))), events[1..], end,
            ReceivedAll(ReceivedAll(b, ChunksFor(a, s, e, Payload(c, e.data))), frames))
    ensures var e, s := events[0], Step(c, a, events[0]).accum;
      Reads(c, o, a, b, events, end, ReceivedAll(b, ChunksFor(a, s, e, Payload(c, e.data)) + frames))
  {
    hide Step, ChunksFor, Payload, Textual, Faithful, Shallow, TellsFinish, HeardContent, HeardReason, ReportedUsage,
      IsDone, IsClosingName, ValidAccum, ReceivedAll, PiecesOf, ApplyAll;
    var e, s := events[0], Step(c, a, events[0]).accum;
    var chunks := ChunksFor(a, s, e, Payload(c, e.data));
    assert !IsDone(e) && !IsClosingName(e.name);
    ReceiveEvent(c, a, b, e);
    assert UpToTerminal(c, events) == [e] + UpToTerminal(c, events[1..]);
    hide UpToTerminal, IsTerminal;
    TakenOne(c, e, UpToTerminal(c, events[1..]), b.calls);
    assert ([e] + UpToTerminal(c, events[1..]))[1..] == UpToTerminal(c, events[1..]);
    hide ReadableParts, TakenPieces;
    ReceivedAllConcat(b, chunks, frames);
  }

  /** Receiving the frames of a finished run. */
  lemma {:induction false} ReceiveTranslation(c: Codec, o: Options, a: Accum, b: Accum, events: seq<Event>,
      broken: bool)
    requires Faithful(c) && Textual(a) && ValidAccum(a) && b.usage == None
    ensures var run := Translate(c, o, a, events, broken);
      run.outcome.Finished? ==> Reads(c, o, a, b, events, run.outcome.accum, ReceivedAll(b, run.frames))
    decreases |events|
  {
    hide Step, ChunksFor, Payload, Closing, Textual, Faithful, ValidAccum, Reads, ReceivedAll, IsClosingName, Shallow,
      PiecesOf, ApplyAll;
    if events == [] || IsDone(events[0]) {
      ReadsNothing(c, o, a, b, events);
    } else {
      var e, s := events[0], Step(c, a, events[0]);
      TranslateHead(c, o, a, events, broken);
      hide Translate;
      ErrorIsLocal(c, a, INITIAL, e);
      StepKeepsValid(c, a, e);
      StepKeepsTextual(c, a, e);
      if s.error.None? && IsClosingName(e.name) {
        ReadsLast(c, o, a, b, events);
      } else if s.error.None? {
        var r := ReceivedAll(b, ChunksFor(a, s.accum, e, Payload(c, e.data)));
        ReceiveEvent(c, a, b, e);
        ReceiveTranslation(c, o, s.accum, r, events[1..], broken);
        var rest := Translate(c, o, s.accum, events[1..], broken);
        if rest.outcome.Finished? {
          ReadsOn(c, o, a, b, events, rest.frames, rest.outcome.accum);
        }
      }
    }
  }

  lemma ReadsNothing(c: Codec, o: Options, a: Accum, b: Accum, events: seq<Event>)
    requires b.usage == None && (events == [] || IsDone(events[0]))
    ensures Reads(c, o, a, b, events, a, ReceivedAll(b, Closing(c, o, a)))
  {
    ReceiveClosing(c, o, a, b);
    hide Step, Closing, ReportedUsage, IsDone, ReceivedAll, TellsFinish;
  }

  /** A run that ends cleanly finishes and sends clean frames, all of them readable exactly if no calls are too deep. */
  lemma RunIsClean(c: Codec, o: Options, events: seq<Event>, broken: bool)
    requires Faithful(c) && EstimatesEncodable(o) && EndsCleanly(c, events, broken)
    ensures var run := Translate(c, o, INITIAL, events, broken);
      && run.outcome.Finished? && IsClean(run.frames)
      && (AllReadable(run.frames) <==> AllShallow(c, UpToTerminal(c, events)))
  {
    hide Faithful, EstimatesEncodable, Textual, IsClean, AllReadable, Translate, EndsCleanly, AllShallow;
    InitialIsTextual();
    OutcomeExactly(c, o, INITIAL, events, broken);
    FinishedRunIsClean(c, o, INITIAL, events, broken);
  }

  /** Clean frames, written and read back by the aggregator, are answered as received. */
  lemma ReadBack(c: Codec, v: Envelope, o: Options, frames: seq<Frame>)
    requires Faithful(c) && IsClean(frames)
    ensures AggregateLines(c, Lines(Render(c, v, o, 0, frames))) == Ok(Snapshot(c, ReceivedAll(INITIAL, frames)))
  {
    InitialIsValid();
    hide Faithful, ValidAccum, Events, Lines, Render, Fold, ClientEvents, IsClean, ReceivedAll, Snapshot;
    RenderedEvents(c, v, o, 0, frames);
    FoldIsReceivedAll(c, v, o, 0, INITIAL, frames);
  }

  /** What the aggregator reads out of the bytes sent for a finished run, against the answer captured on the server. */
  ghost predicate RoundTrips(c: Codec, o: Options, events: seq<Event>, end: Accum, answer: Completion) {
    var captured, seen := Snapshot(c, end), UpToTerminal(c, events);
    && (answer.reasoning == captured.reasoning <==> AllReasonHeard(c, INITIAL, events))
    && (answer.toolCalls == captured.toolCalls <==> LeftBringNothing(ReadableParts(c, seen)))
    && answer.content == c.unwrap(ClientContent(c, INITIAL, events, ""))
    && (Extending(c, INITIAL, events) ==> answer.content == captured.content)
    && answer.finish == LastTold(c, seen, "stop") && captured.finish == LastFinish(c, seen, "stop")
    && (answer.usage == if o.includeUsage then ReportedUsage(c, o, end) else None)
  }

  /** The reasoning and the tool calls read, against those captured. */
  lemma ReadsExactly(c: Codec, o: Options, events: seq<Event>, broken: bool, r: Accum)
    requires c.decode("[DONE]") == UNREADABLE && forall e | e in events :: Trimmed(e)
    requires Translate(c, o, INITIAL, events, broken).outcome.Finished?
    requires Reads(c, o, INITIAL, INITIAL, events, Translate(c, o, INITIAL, events, broken).outcome.accum, r)
    ensures var end := Translate(c, o, INITIAL, events, broken).outcome.accum;
      && (r.reason == end.reason <==> AllReasonHeard(c, INITIAL, events))
      && (Sorted(r.calls) == Sorted(end.calls) <==> LeftBringNothing(ReadableParts(c, UpToTerminal(c, events))))
  {
    hide Trimmed, Translate, UpToTerminal, AllReasonHeard, ClientReason, ClientContent, LastTold, ReportedUsage,
      LeftBringNothing, ReadableParts, WholeParts, TakenPieces, AllPieces, ApplyAll, Sorted;
    InitialIsValid();
    var end := Translate(c, o, INITIAL, events, broken).outcome.accum;
    var parts := ReadableParts(c, UpToTerminal(c, events));
    ReasonHeardExactly(c, o, INITIAL, events, broken, "");
    assert "" + end.reason[0..] == end.reason;
    RunCollects(c, o, INITIAL, events, broken);
    PartsSent(c, events);
    LeftMatterExactly(parts);
    AccumulationKeepsKeys(map[], AllPieces(parts));
    AccumulationKeepsKeys(map[], TakenPieces(parts));
    SortedTells(r.calls, end.calls);
  }

  /** If no tool calls are too deep, nothing is lost. */
  lemma ShallowIsHeard(c: Codec, events: seq<Event>)
    requires AllShallow(c, UpToTerminal(c, events))
    ensures AllReasonHeard(c, INITIAL, events) && LeftBringNothing(ReadableParts(c, UpToTerminal(c, events)))
  {
    hide AllShallow, UpToTerminal, AllReasonHeard, LeftBringNothing, ReadableParts, TakenPieces, AllPieces, ApplyAll;
    ShallowReasonHeard(c, INITIAL, events);
    ShallowPartsTaken(c, UpToTerminal(c, events));
    LeftMatterExactly(ReadableParts(c, UpToTerminal(c, events)));
  }

  /**
   * Round trip, for every list of lines whose body does not break before a terminal frame and whose first terminal
   * frame is not an error: what the aggregator reads out of the bytes sent to the client, against the answer captured
   * on the server. The content is what the client pieced together: the captured content whenever every replacing
   * snapshot or output array extended the content before it and no new content was lost, which is exactly when the
   * client was never out of sync. The finish reason read is the last one told, the one captured the last set; the usage
   * is the one asked for. A chunk whose tool calls nest too deep cannot be read and is lost as a whole: the reasoning
   * is the captured one exactly if none came with such a chunk, the tool calls exactly if such chunks bring none. If
   * there are none, every frame can be read and both are equal.
   */
  lemma RoundTrip(c: Codec, v: Envelope, o: Options, lines: seq<string>, broken: bool)
    requires Faithful(c) && EstimatesEncodable(o) && EndsCleanly(c, Events(lines, ""), broken)
    ensures var events := Events(lines, "");
      var run, shallow := Translate(c, o, INITIAL, events, broken), AllShallow(c, UpToTerminal(c, events));
      && run.outcome.Finished? && IsClean(run.frames) && (AllReadable(run.frames) <==> shallow)
      && (AlwaysInSync(c, INITIAL, events, "") <==> Extending(c, INITIAL, events))
      && (shallow ==>
            AllReasonHeard(c, INITIAL, events) && LeftBringNothing(ReadableParts(c, UpToTerminal(c, events))))
      && var read := AggregateLines(c, Lines(Render(c, v, o, 0, run.frames)));
         read.Ok? && RoundTrips(c, o, events, run.outcome.accum, read.value)
  {
    hide Faithful, EstimatesEncodable, Textual, ValidAccum, Trimmed, Events, Lines, Render, Fold, IsClean, AllReadable,
      Translate, Extending, AllShallow, AlwaysInSync, ClientContent, ReceivedAll, ReportedUsage, LastTold, LastFinish,
      EndsCleanly, UpToTerminal, AllReasonHeard, ClientReason, LeftBringNothing, ReadableParts, AggregateLines,
      TakenPieces, ApplyAll, Sorted;
    InitialIsTextual();
    InitialIsValid();
    var events := Events(lines, "");
    var run := Translate(c, o, INITIAL, events, broken);
    RunIsClean(c, o, events, broken);
    ReadBack(c, v, o, run.frames);
    ReceiveTranslation(c, o, INITIAL, INITIAL, events, broken);
    DoneIsUnreadable(c);
    TrimEnds("");
    EventsAreTrimmed(lines, "");
    ReadsExactly(c, o, events, broken, ReceivedAll(INITIAL, run.frames));
    FinishInForce(c, o, INITIAL, events, broken);
    InSyncExactly(c, INITIAL, events);
    if Extending(c, INITIAL, events) {
      InSyncEndsEqual(c, o, INITIAL, events, broken);
    }
    if AllShallow(c, UpToTerminal(c, events)) {
      ShallowIsHeard(c, events);
    }
  }

  lemma DoneIsUnreadable(c: Codec)
    requires Faithful(c)
    ensures c.decode("[DONE]") == UNREADABLE
  {
    hide Carried, EncodableObject, WrittenAs;
  }
}
