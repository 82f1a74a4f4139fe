/** The non-streaming interpreter: read everything, then answer. */
module SseAggregate {
  import opened Text
  import opened Json
  import opened ToolCalls
  import opened SseReader
  import opened SseEvents

  datatype Failure = TransportFailure | Upstream(error: UpstreamError)

  /** All events in order; a later error frame overrides an earlier one and none stops the fold. */
  function Fold(c: Codec, a: Applied, events: seq<Event>): Applied
    decreases |events|
  {
    if events == [] then a
    else
      var s := AggregateStep(c, a.accum, events[0]);
      Fold(c, Applied(s.accum, if s.error.Some? then s.error else a.error), events[1..])
  }

  ghost function Answered(c: Codec, a: Applied): Result<Completion, Failure> {
    if a.error.Some? then Err(Upstream(a.error.value)) else Ok(Snapshot(c, a.accum))
  }

  /** The answer for a cleanly ended list of lines. */
  ghost function AggregateLines(c: Codec, lines: seq<string>): Result<Completion, Failure> {
    Answered(c, Fold(c, Applied(INITIAL, None), Events(lines, "")))
  }

  lemma {:induction false} FoldKeepsValid(c: Codec, a: Applied, events: seq<Event>)
    requires ValidAccum(a.accum)
    ensures ValidAccum(Fold(c, a, events).accum)
    decreases |events|
  {
    if events != [] {
      StepKeepsValid(c, a.accum, events[0]);
      var s := AggregateStep(c, a.accum, events[0]);
      FoldKeepsValid(c, Applied(s.accum, if s.error.Some? then s.error else a.error), events[1..]);
    }
  }

  lemma {:induction false} FoldConcat(c: Codec, a: Applied, xs: seq<Event>, ys: seq<Event>)
    ensures Fold(c, a, xs + ys) == Fold(c, Fold(c, a, xs), ys)
    decreases |xs|
  {
    if xs == [] {
      assert xs + ys == ys;
    } else {
      assert (xs + ys)[1..] == xs[1..] + ys;
      var s := AggregateStep(c, a.accum, xs[0]);
      FoldConcat(c, Applied(s.accum, if s.error.Some? then s.error else a.error), xs[1..], ys);
    }
  }

  lemma FoldNothing(c: Codec, a: Applied)
    ensures Fold(c, a, []) == a
  {
  }

  lemma FoldCons(c: Codec, a: Applied, e: Event, tail: seq<Event>)
    ensures var s := AggregateStep(c, a.accum, e);
      Fold(c, a, [e] + tail) == Fold(c, Applied(s.accum, if s.error.Some? then s.error else a.error), tail)
  {
    hide AggregateStep;
    assert ([e] + tail)[1..] == tail;
  }

  method AggregateRaw(c: Codec, r: ByteReader) returns (result: Result<Completion, Failure>)
    modifies r`rest
    ensures result == if r.broken then Err(TransportFailure) else AggregateLines(c, Lines(old(r.rest)))
  {
    var a := INITIAL;
    var upErr: Option<UpstreamError> := None;
    var pending := "";
    ghost var folded := Fold(c, Applied(INITIAL, None), Ahead(r.rest, r.broken, ""));
    var ended := false;
    hide Ahead, Fold, AggregateStep;
    while !ended
      invariant ValidAccum(a)
      invariant ended ==> !r.broken
      invariant Fold(c, Applied(a, upErr), if ended then [] else Ahead(r.rest, r.broken, pending)) == folded
      decreases !ended, |r.rest|
    {
      var event, status;
      event, pending, status := ReadEvent(r, pending);
      if status == Failed {
        return Err(TransportFailure);
      }
      ended := status == Eof;
      if event.Some? {
        FoldCons(c, Applied(a, upErr), event.value, if ended then [] else Ahead(r.rest, r.broken, pending));
        a, upErr := AggregateEvent(c, a, upErr, event.value);
      }
    }
    if upErr.Some? {
      return Err(Upstream(upErr.value));
    }
    var calls := SortedToolCalls(a.calls);
    return Ok(Completion(c.unwrap(a.content), a.reason, a.finish, calls, a.usage));
  }

  /** The loop body for one event. */
  method AggregateEvent(c: Codec, a0: Accum, upErr0: Option<UpstreamError>, e: Event)
    returns (a: Accum, upErr: Option<UpstreamError>)
    requires ValidAccum(a0)
    ensures var s := AggregateStep(c, a0, e); a == s.accum && upErr == if s.error.Some? then s.error else upErr0
    ensures ValidAccum(a)
  {
    a, upErr := a0, upErr0;
    StepKeepsValid(c, a, e);
    CollectNothing(a);
    var decoded := c.decode(e.data);
    var payload := decoded.fields;
    if decoded.whole {
      var (delta, _) := DeltaOf(payload);
      var calls := ApplyToolCallDeltas(delta, a.calls);
      a := a.(calls := calls);
      var usage := ObjAt(payload, "usage");
      if usage.Some? && usage.value != map[] {
        a := a.(usage := usage);
      }
    }
    var applied := ApplyEvent(a, e, payload);
    assert applied == AggregateStep(c, a0, e);
    a := applied.accum;
    if applied.error.Some? {
      upErr := applied.error;
    }
  }
}
