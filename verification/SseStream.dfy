/** The streaming interpreter: translate each event as it arrives and keep the answer on the side. */
module SseStream {
  import opened Text
  import opened Json
  import opened ToolCalls
  import opened SseReader
  import opened SseEvents

  /** What the client is sent: a delta chunk, the closing usage chunk, an error event, or `[DONE]`. */
  datatype Frame =
    | Chunk(delta: Object, finish: string)
    | UsageChunk(usage: Json)
    | ErrorEvent(error: UpstreamError)
    | Done

  /** `estimate` is consulted only when the upstream reported no usage; it may decline. */
  datatype Options = Options(includeUsage: bool, estimate: Completion -> Option<Object>)

  datatype Outcome =
    | Finished(accum: Accum)
    | UpstreamFailed(error: UpstreamError)
    | ReadFailed
    | WriteFailed

  datatype Run = Run(frames: seq<Frame>, outcome: Outcome)

  function UsageJson(u: Option<Object>): Json {
    if u.Some? then Obj(u.value) else Null
  }

  ghost function Closing(c: Codec, o: Options, a: Accum): seq<Frame> {
    (if o.includeUsage then [UsageChunk(UsageJson(if a.usage.Some? then a.usage else o.estimate(Snapshot(c, a))))]
      else [])
    + [Done]
  }

  predicate IsClosingName(name: string) {
    Lower(name) == "done" || Lower(name) == "end" || Lower(name) == "finish"
  }

  /** What the client is told about the difference between two states: whatever lies beyond the old length. */
  function Difference(a: Accum, b: Accum, native: Object): Object {
    var role := StrAt(native, "role").GetOr("");
    (if role != "" then map["role" := Str(role)] else map[])
    + (if |b.content| > |a.content| then map["content" := Str(b.content[|a.content|..])] else map[])
    + (if |b.reason| > |a.reason| then map["reasoning_content" := Str(b.reason[|a.reason|..])] else map[])
    + (if "tool_calls" in native then map["tool_calls" := native["tool_calls"]] else map[])
  }

  /** The chunks for one event that carried no error, before any closing frames. */
  function ChunksFor(a: Accum, b: Accum, e: Event, payload: Object): seq<Frame> {
    var (native, finish) := DeltaOf(payload);
    var delta := Difference(a, b, native.GetOr(map[]));
    (if delta != map[] || finish != "" then [Chunk(delta, finish)] else [])
    + (if IsClosingName(e.name) && finish == "" then [Chunk(map[], b.finish)] else [])
  }

  datatype Next = Continue(accum: Accum) | Stop(outcome: Outcome)

  /** The frames for an event that led from `a` to `s`, and the state to go on with or the end of the run. */
  ghost function Emitted(c: Codec, o: Options, a: Accum, s: Applied, e: Event, payload: Object): (seq<Frame>, Next) {
    var chunks := ChunksFor(a, s.accum, e, payload);
    if s.error.Some? then ([ErrorEvent(s.error.value), Done], Stop(UpstreamFailed(s.error.value)))
    else if IsClosingName(e.name) then (chunks + Closing(c, o, s.accum), Stop(Finished(s.accum)))
    else (chunks, Continue(s.accum))
  }

  ghost function TranslateEvent(c: Codec, o: Options, a: Accum, e: Event): (seq<Frame>, Next) {
    if Trim(e.data) == "[DONE]" then (Closing(c, o, a), Stop(Finished(a)))
    else Emitted(c, o, a, Step(c, a, e), e, Payload(c, e.data))
  }

  /** The whole translation of an event list whose body ends cleanly or in a read error. */
  ghost function Translate(c: Codec, o: Options, a: Accum, events: seq<Event>, broken: bool): Run
    decreases |events|
  {
    if events == [] then
      if broken then Run([], ReadFailed) else Run(Closing(c, o, a), Finished(a))
    else
      var (frames, next) := TranslateEvent(c, o, a, events[0]);
      match next
      case Stop(outcome) => Run(frames, outcome)
      case Continue(b) =>
        var rest := Translate(c, o, b, events[1..], broken);
        Run(frames + rest.frames, rest.outcome)
  }

  ghost function TranslateText(c: Codec, o: Options, text: string, broken: bool): Run {
    Translate(c, o, INITIAL, Ahead(text, broken, ""), broken)
  }

  /** The client connection: accepts frames until it breaks, if it ever does. */
  class Sink {
    var frames: seq<Frame>
    const capacity: Option<nat>

    constructor (capacity: Option<nat>)
      ensures frames == [] && this.capacity == capacity
    {
      frames := [];
      this.capacity := capacity;
    }

    predicate Accepts(n: nat) {
      capacity.None? || n <= capacity.value
    }

    method Write(f: Frame) returns (ok: bool)
      modifies this`frames
      ensures ok == Accepts(|old(frames)| + 1)
      ensures frames == if ok then old(frames) + [f] else old(frames)
    {
      ok := Accepts(|frames| + 1);
      if ok {
        frames := frames + [f];
      }
    }
  }

  /** `finishStream`: the usage chunk if asked for, then `[DONE]`. */
  method FinishStream(c: Codec, o: Options, a: Accum, sink: Sink) returns (ok: bool)
    requires ValidAccum(a)
    modifies sink`frames
    ensures var out := old(sink.frames) + Closing(c, o, a);
      if sink.Accepts(|out|) then ok && sink.frames == out
      else !ok && sink.frames <= out && !sink.Accepts(|sink.frames| + 1)
  {
    if o.includeUsage {
      var usage := a.usage;
      if usage.None? {
        var calls := SortedToolCalls(a.calls);
        usage := o.estimate(Completion(c.unwrap(a.content), a.reason, a.finish, calls, a.usage));
      }
      ok := sink.Write(UsageChunk(UsageJson(usage)));
      if !ok {
        return;
      }
    }
    ok := sink.Write(Done);
  }

  /** Sending `out` either succeeded as a whole or broke off at the connection's limit. */
  twostate predicate Sent(sink: Sink, out: seq<Frame>, ok: bool)
    reads sink
  {
    var all := old(sink.frames) + out;
    if sink.Accepts(|all|) then ok && sink.frames == all
    else !ok && sink.frames <= all && !sink.Accepts(|sink.frames| + 1)
  }

  /** Writes the chunks for what one event changed. */
  method EmitChunks(a: Accum, b: Accum, e: Event, payload: Object, sink: Sink) returns (ok: bool)
    requires sink.Accepts(|sink.frames|)
    modifies sink`frames
    ensures Sent(sink, ChunksFor(a, b, e, payload), ok)
  {
    var (native, nativeFinish) := DeltaOf(payload);
    var delta := Difference(a, b, native.GetOr(map[]));
    ok := true;
    if delta != map[] || nativeFinish != "" {
      ok := sink.Write(Chunk(delta, nativeFinish));
    }
    if ok && IsClosingName(e.name) && nativeFinish == "" {
      ok := sink.Write(Chunk(map[], b.finish));
    }
  }

  /** Writes what one event changed, then closes the stream if the event says so. */
  method Emit(c: Codec, o: Options, a: Accum, applied: Applied, e: Event, payload: Object, sink: Sink)
    returns (ok: bool, next: Next)
    requires ValidAccum(applied.accum) && sink.Accepts(|sink.frames|)
    modifies sink`frames
    ensures Sent(sink, Emitted(c, o, a, applied, e, payload).0, ok)
    ensures ok ==> next == Emitted(c, o, a, applied, e, payload).1
  {
    next := Stop(WriteFailed);
    if applied.error.Some? {
      ok := sink.Write(ErrorEvent(applied.error.value));
      if ok {
        ok := sink.Write(Done);
      }
      next := Stop(UpstreamFailed(applied.error.value));
      return;
    }
    var b := applied.accum;
    ghost var start := sink.frames;
    ok := EmitChunks(a, b, e, payload, sink);
    next := Continue(b);
    if ok && IsClosingName(e.name) {
      ghost var chunks := ChunksFor(a, b, e, payload);
      assert start + (chunks + Closing(c, o, b)) == start + chunks + Closing(c, o, b);
      ok := FinishStream(c, o, b, sink);
      next := Stop(Finished(b));
    } else if !ok {
      assert sink.frames <= start + Emitted(c, o, a, applied, e, payload).0;
    }
  }

  /** The loop body for one event. */
  method HandleEvent(c: Codec, o: Options, a: Accum, e: Event, sink: Sink) returns (ok: bool, next: Next)
    requires ValidAccum(a) && sink.Accepts(|sink.frames|)
    modifies sink`frames
    ensures Sent(sink, TranslateEvent(c, o, a, e).0, ok)
    ensures ok ==> next == TranslateEvent(c, o, a, e).1
    ensures ok && next.Continue? ==> ValidAccum(next.accum)
    ensures ok && next.Stop? && next.outcome.Finished? ==> ValidAccum(next.outcome.accum)
    ensures ok && next.Stop? ==> next.outcome.Finished? || next.outcome.UpstreamFailed?
  {
    if Trim(e.data) == "[DONE]" {
      ok := FinishStream(c, o, a, sink);
      next := Stop(Finished(a));
      return;
    }
    var payload := c.decode(e.data).fields;
    var (native, _) := DeltaOf(payload);
    var calls := ApplyToolCallDeltas(native, a.calls);
    var applied := ApplyEvent(a.(calls := calls, usage := Usage(payload, a.usage)), e, payload);
    assert applied == Step(c, a, e);
    StepKeepsValid(c, a, e);
    ok, next := Emit(c, o, a, applied, e, payload, sink);
  }

  /**
   * The live loop. With a client that keeps reading, exactly the translation is sent and the answer is captured
   * just when the run finished; with one that breaks, the translation is cut off where it broke.
   */
  method StreamWithCapture(c: Codec, o: Options, r: ByteReader, sink: Sink)
    returns (outcome: Outcome, captured: Option<Completion>)
    requires sink.frames == []
    modifies r`rest, sink`frames
    ensures var run := TranslateText(c, o, old(r.rest), r.broken);
      if sink.Accepts(|run.frames|) then
        && sink.frames == run.frames && outcome == run.outcome
        && captured == if run.outcome.Finished? then Some(Snapshot(c, run.outcome.accum)) else None
      else
        sink.frames <= run.frames && !sink.Accepts(|sink.frames| + 1) && outcome == WriteFailed && captured == None
  {
    var a := INITIAL;
    var pending := "";
    var ended, stopped := false, false;
    ghost var run := TranslateText(c, o, r.rest, r.broken);
    assert IsRest(run, [], run);
    hide TranslateEvent, Ahead;
    captured := None;
    outcome := ReadFailed;
    while !ended && !stopped
      invariant ValidAccum(a)
      invariant sink.Accepts(|sink.frames|)
      invariant ended && !stopped ==> !r.broken
      invariant stopped ==> outcome != ReadFailed && run == Run(sink.frames, outcome)
      invariant stopped && outcome.Finished? ==> outcome.accum == a
      invariant !stopped ==>
        IsRest(run, sink.frames, Translate(c, o, a, if ended then [] else Ahead(r.rest, r.broken, pending), r.broken))
      decreases !ended, |r.rest|
    {
      var event, status;
      event, pending, status := ReadEvent(r, pending);
      if status == Failed {
        return ReadFailed, None;
      }
      ended := status == Eof;
      if event.Some? {
        NextEvent(c, o, run, sink.frames, a, event.value,
                  if ended then [] else Ahead(r.rest, r.broken, pending), r.broken);
        var ok, next := HandleEvent(c, o, a, event.value, sink);
        if !ok {
          return WriteFailed, None;
        }
        match next {
          case Stop(end) =>
            stopped, outcome := true, end;
            if end.Finished? { a := end.accum; }
          case Continue(b) => a := b;
        }
      }
    }
    if !stopped {
      var ok := FinishStream(c, o, a, sink);
      if !ok {
        return WriteFailed, None;
      }
      outcome := Finished(a);
    }
    if outcome.Finished? {
      var calls := SortedToolCalls(a.calls);
      captured := Some(Completion(c.unwrap(a.content), a.reason, a.finish, calls, a.usage));
    }
  }

  ghost predicate IsRest(run: Run, sent: seq<Frame>, rest: Run) {
    run == Run(sent + rest.frames, rest.outcome)
  }

  /** Handling an event moves its frames from what is still to come to what has been sent. */
  lemma NextEvent(c: Codec, o: Options, run: Run, sent: seq<Frame>, a: Accum, e: Event, tail: seq<Event>, broken: bool)
    requires IsRest(run, sent, Translate(c, o, a, [e] + tail, broken))
    ensures TranslateEvent(c, o, a, e).1.Stop? ==>
      run == Run(sent + TranslateEvent(c, o, a, e).0, TranslateEvent(c, o, a, e).1.outcome)
    ensures TranslateEvent(c, o, a, e).1.Continue? ==>
      IsRest(run, sent + TranslateEvent(c, o, a, e).0,
        Translate(c, o, TranslateEvent(c, o, a, e).1.accum, tail, broken))
    ensures sent + TranslateEvent(c, o, a, e).0 <= run.frames
  {
    hide TranslateEvent;
    assert ([e] + tail)[0] == e && ([e] + tail)[1..] == tail;
    var (frames, next) := TranslateEvent(c, o, a, e);
    if next.Continue? {
      var rest := Translate(c, o, next.accum, tail, broken);
      assert sent + (frames + rest.frames) == sent + frames + rest.frames;
    }
  }
}
