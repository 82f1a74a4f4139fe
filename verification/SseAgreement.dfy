/** The two interpreters tell the same story, and the streamed output always has the same shape. */
module SseAgreement {
  import opened Text
  import opened Json
  import opened ToolCalls
  import opened SseEvents
  import opened SsePartial
  import opened SseAggregate
  import opened SseStream

  predicate IsDone(e: Event) {
    Trim(e.data) == "[DONE]"
  }

  /** An event after which the live translation reads no further. */
  predicate IsTerminal(c: Codec, e: Event) {
    IsDone(e) || Step(c, INITIAL, e).error.Some? || IsClosingName(e.name)
  }

  /** Whether an event is an error does not depend on what came before it. */
  lemma ErrorIsLocal(c: Codec, a: Accum, b: Accum, e: Event)
    ensures Step(c, a, e).error == Step(c, b, e).error
  {
  }

  /** A run in terms of its first event. */
  lemma TranslateHead(c: Codec, o: Options, a: Accum, events: seq<Event>, broken: bool)
    requires events != []
    ensures var e, s := events[0], Step(c, a, events[0]); var run := Translate(c, o, a, events, broken);
      var chunks := ChunksFor(a, s.accum, e, Payload(c, e.data));
      if IsDone(e) then run == Run(Closing(c, o, a), Finished(a))
      else if s.error.Some? then !run.outcome.Finished?
      else if IsClosingName(e.name) then run == Run(chunks + Closing(c, o, s.accum), Finished(s.accum))
      else
        var rest := Translate(c, o, s.accum, events[1..], broken);
        run == Run(chunks + rest.frames, rest.outcome)
  {
    hide Step, Closing, ChunksFor, IsClosingName, Payload;
  }

  function UpToTerminal(c: Codec, events: seq<Event>): seq<Event> {
    if events == [] then []
    else if IsTerminal(c, events[0]) then [events[0]]
    else [events[0]] + UpToTerminal(c, events[1..])
  }

  /** How many lines the live translation looks at. */
  function TerminalLine(c: Codec, lines: seq<string>, pending: string): (n: nat)
    ensures n <= |lines|
  {
    if lines == [] then 0
    else
      var s := ScanLine(TrimEol(lines[0], true), pending);
      if s.event.Some? && IsTerminal(c, s.event.value) then 1 else 1 + TerminalLine(c, lines[1..], s.pending)
  }

  lemma {:induction false} LinesUpToTerminal(c: Codec, lines: seq<string>, pending: string)
    ensures Events(lines[..TerminalLine(c, lines, pending)], pending) == UpToTerminal(c, Events(lines, pending))
    decreases |lines|
  {
    hide IsTerminal, ScanLine;
    if lines != [] {
      var s := ScanLine(TrimEol(lines[0], true), pending);
      var cut := lines[..TerminalLine(c, lines, pending)];
      assert cut[0] == lines[0];
      if s.event.Some? && IsTerminal(c, s.event.value) {
        assert cut[1..] == [];
      } else {
        assert cut[1..] == lines[1..][..TerminalLine(c, lines[1..], s.pending)];
        LinesUpToTerminal(c, lines[1..], s.pending);
        if s.event.Some? {
          assert Events(lines, pending)[1..] == Events(lines[1..], s.pending);
        }
      }
    }
  }

  // ----- how a run ends, read off its events -----

  predicate HasTerminal(c: Codec, events: seq<Event>) {
    exists i | 0 <= i < |events| :: IsTerminal(c, events[i])
  }

  /** The first terminal event: with one, the last event looked at. */
  function FirstTerminal(c: Codec, events: seq<Event>): Event
    requires HasTerminal(c, events)
  {
    TerminalIsLast(c, events);
    var seen := UpToTerminal(c, events);
    seen[|seen| - 1]
  }

  lemma {:induction false} TerminalIsLast(c: Codec, events: seq<Event>)
    requires HasTerminal(c, events)
    ensures var seen := UpToTerminal(c, events);
      && seen != [] && seen <= events && IsTerminal(c, seen[|seen| - 1])
      && forall i | 0 <= i < |seen| - 1 :: !IsTerminal(c, events[i])
  {
    hide IsTerminal;
    if !IsTerminal(c, events[0]) {
      TerminalLater(c, events);
      TerminalIsLast(c, events[1..]);
      var seen, later := UpToTerminal(c, events), UpToTerminal(c, events[1..]);
      assert events == [events[0]] + events[1..] && seen == [events[0]] + later;
      assert forall i | 1 <= i < |seen| - 1 :: events[i] == events[1..][i - 1];
    }
  }

  lemma TerminalLater(c: Codec, events: seq<Event>)
    requires events != [] && !IsTerminal(c, events[0])
    ensures HasTerminal(c, events) <==> HasTerminal(c, events[1..])
  {
    hide IsTerminal;
    if HasTerminal(c, events) {
      var i :| 0 <= i < |events| && IsTerminal(c, events[i]);
      assert events[1..][i - 1] == events[i];
    }
  }

  /** The error of the first terminal event, if it is an error frame. */
  function FailsWith(c: Codec, events: seq<Event>): Option<UpstreamError> {
    if HasTerminal(c, events) && !IsDone(FirstTerminal(c, events)) then Step(c, INITIAL, FirstTerminal(c, events)).error
    else None
  }

  /** The body broke before any terminal event came. */
  predicate CutOff(c: Codec, events: seq<Event>, broken: bool) {
    broken && !HasTerminal(c, events)
  }

  predicate EndsCleanly(c: Codec, events: seq<Event>, broken: bool) {
    !CutOff(c, events, broken) && FailsWith(c, events).None?
  }

  /**
   * A run fails to read exactly if the body breaks before any terminal event, fails with the upstream's error exactly
   * if the first terminal event is an error frame, and finishes in every other case.
   */
  lemma {:induction false} OutcomeExactly(c: Codec, o: Options, a: Accum, events: seq<Event>, broken: bool)
    ensures var outcome := Translate(c, o, a, events, broken).outcome;
      && (outcome.ReadFailed? <==> CutOff(c, events, broken))
      && (outcome.UpstreamFailed? <==> FailsWith(c, events).Some?)
      && (outcome.UpstreamFailed? ==> FailsWith(c, events) == Some(outcome.error))
      && (outcome.Finished? <==> EndsCleanly(c, events, broken))
    decreases |events|
  {
    hide Step, Closing, ChunksFor, IsClosingName, IsDone;
    if events != [] {
      var e, s := events[0], Step(c, a, events[0]);
      TranslateHead(c, o, a, events, broken);
      hide Translate;
      ErrorIsLocal(c, a, INITIAL, e);
      if IsTerminal(c, e) {
        assert HasTerminal(c, events) && FirstTerminal(c, events) == e;
      } else {
        TerminalLater(c, events);
        OutcomeExactly(c, o, s.accum, events[1..], broken);
        if HasTerminal(c, events) {
          TerminalIsLast(c, events[1..]);
          assert FirstTerminal(c, events) == FirstTerminal(c, events[1..]);
        }
      }
    }
  }

  // ----- agreement -----

  ghost predicate Trimmed(e: Event) {
    Trim(e.data) == e.data && Trim(e.name) == e.name
  }

  lemma {:induction false} EventsAreTrimmed(lines: seq<string>, pending: string)
    requires Trim(pending) == pending
    ensures forall e | e in Events(lines, pending) :: Trimmed(e)
    decreases |lines|
  {
    if lines != [] {
      var line := TrimEol(TrimEol(lines[0], true), false);
      var s := ScanLine(TrimEol(lines[0], true), pending);
      if |line| >= 6 { TrimEnds(line[6..]); }
      if |line| >= 5 { TrimEnds(line[5..]); }
      assert Trim("") == "";
      EventsAreTrimmed(lines[1..], s.pending);
    }
  }

  /** To the aggregator `[DONE]` means nothing, except that under a finishing event name it means "stop". */
  lemma DoneStep(c: Codec, a: Accum, e: Event)
    requires c.decode("[DONE]") == UNREADABLE && ValidAccum(a) && Trimmed(e) && IsDone(e)
    ensures AggregateStep(c, a, e) == Applied(if KindOf(e.name) == Finishing then a.(finish := "stop") else a, None)
  {
    assert Payload(c, e.data) == map[] && WholePayload(c, e.data) == map[];
    CollectNothing(a);
  }

  /** `[DONE]` ends the list under a finishing event name: the one frame the two interpreters read differently. */
  predicate EndsInNamedDone(events: seq<Event>) {
    events != [] && IsDone(events[|events| - 1]) && KindOf(events[|events| - 1].name) == Finishing
  }

  /** The same text and errors on both sides, whatever calls and usage they hold. */
  lemma {:induction false} AgreeFrom(c: Codec, o: Options, a: Accum, b: Accum, events: seq<Event>, broken: bool)
    requires c.decode("[DONE]") == UNREADABLE && ValidAccum(a) && ValidAccum(b) && SaySame(a, b)
    requires forall e | e in events :: Trimmed(e)
    ensures var outcome := Translate(c, o, a, events, broken).outcome;
      var seen := UpToTerminal(c, events);
      var f := Fold(c, Applied(b, None), seen);
      && (outcome.UpstreamFailed? ==> f.error == Some(outcome.error))
      && (outcome.Finished? ==> ValidAccum(outcome.accum) && ValidAccum(f.accum) && f.error.None?)
      && (outcome.Finished? ==>
            SaySame(f.accum, if EndsInNamedDone(seen) then outcome.accum.(finish := "stop") else outcome.accum))
    decreases |events|
  {
    hide Step, AggregateStep, ValidAccum, IsDone, IsClosingName, Closing, ChunksFor, Fold, Trimmed;
    if events == [] {
      FoldNothing(c, Applied(b, None));
    } else {
      var e := events[0];
      var s, t := Step(c, a, e), AggregateStep(c, b, e);
      assert e in events;
      TranslateHead(c, o, a, events, broken);
      hide Translate;
      ErrorIsLocal(c, a, INITIAL, e);
      StepKeepsValid(c, a, e);
      StepKeepsValid(c, b, e);
      StepsSaySame(c, a, b, e);
      FoldCons(c, Applied(b, None), e, []);
      FoldNothing(c, Applied(t.accum, t.error));
      assert [e] + [] == [e];
      if IsDone(e) {
        DoneStep(c, b, e);
        FoldNothing(c, AggregateStep(c, b, e));
      } else if s.error.None? && !IsClosingName(e.name) {
        AgreeFrom(c, o, s.accum, t.accum, events[1..], broken);
        var rest := UpToTerminal(c, events[1..]);
        FoldCons(c, Applied(b, None), e, rest);
        assert rest != [] ==> ([e] + rest)[|rest|] == rest[|rest| - 1];
      }
    }
  }

  /** The calls and the usage after an event are those collected from its payload. */
  lemma StepCollects(c: Codec, a: Accum, e: Event)
    requires ValidAccum(a)
    ensures var s := Step(c, a, e).accum;
      && s.calls == ApplyAll(a.calls, PiecesOf(Payload(c, e.data))) && s.usage == Usage(Payload(c, e.data), a.usage)
    ensures var t := AggregateStep(c, a, e).accum;
      && t.calls == ApplyAll(a.calls, PiecesOf(WholePayload(c, e.data)))
      && t.usage == Usage(WholePayload(c, e.data), a.usage)
  {
    ApplyEventKeeps(Collect(a, Payload(c, e.data)), e, Payload(c, e.data));
    ApplyEventKeeps(Collect(a, WholePayload(c, e.data)), e, Payload(c, e.data));
    hide ApplyEvent, ApplyAll, Fragments, DeltaOf, Usage;
  }

  lemma {:induction false} FoldCollects(c: Codec, a: Applied, events: seq<Event>)
    requires ValidAccum(a.accum)
    ensures var f := Fold(c, a, events).accum;
      && f.calls == ApplyAll(a.accum.calls, TakenPieces(WholeParts(c, events)))
      && f.usage == LastWholeUsage(c, events, a.accum.usage)
    decreases |events|
  {
    if events != [] {
      var e := events[0];
      var s := AggregateStep(c, a.accum, e);
      StepKeepsValid(c, a.accum, e);
      StepCollects(c, a.accum, e);
      TakenAtHead(c, events);
      hide AggregateStep, ValidAccum, PiecesOf, TakenPieces, WholeParts;
      ApplyAllConcat(a.accum.calls, PiecesOf(WholePayload(c, e.data)), TakenPieces(WholeParts(c, events[1..])));
      FoldCollects(c, Applied(s.accum, if s.error.Some? then s.error else a.error), events[1..]);
    }
  }

  lemma {:induction false} RunCollects(c: Codec, o: Options, a: Accum, events: seq<Event>, broken: bool)
    requires c.decode("[DONE]") == UNREADABLE && ValidAccum(a)
    requires forall e | e in events :: Trimmed(e)
    ensures var outcome := Translate(c, o, a, events, broken).outcome; var seen := UpToTerminal(c, events);
      outcome.Finished? ==>
        && outcome.accum.calls == ApplyAll(a.calls, AllPieces(WholeParts(c, seen)))
        && outcome.accum.usage == LastUsage(c, seen, a.usage)
    decreases |events|
  {
    hide Closing, ChunksFor, IsClosingName, ValidAccum;
    if events != [] {
      var e, s, seen := events[0], Step(c, a, events[0]), UpToTerminal(c, events);
      TranslateHead(c, o, a, events, broken);
      hide Translate;
      ErrorIsLocal(c, a, INITIAL, e);
      assert seen[0] == e && [e][1..] == [];
      StepKeepsValid(c, a, e);
      StepCollects(c, a, e);
      CollectNothing(a);
      hide Step;
      ApplyAllConcat(a.calls, PiecesOf(Payload(c, e.data)), AllPieces(WholeParts(c, seen[1..])));
      if IsDone(e) {
        assert e in events && Payload(c, e.data) == map[];
      } else if !IsTerminal(c, e) {
        hide PiecesOf, IsDone;
        RunCollects(c, o, s.accum, events[1..], broken);
        assert seen[1..] == UpToTerminal(c, events[1..]);
      }
    }
  }

  /** The finish reason in force after these events: the last one set before the end marker. */
  function LastFinish(c: Codec, events: seq<Event>, finish: string): string {
    if events == [] || IsDone(events[0]) then finish
    else LastFinish(c, events[1..], SetsFinish(c, events[0]).GetOr(finish))
  }

  lemma {:induction false} FinishInForce(c: Codec, o: Options, a: Accum, events: seq<Event>, broken: bool)
    requires ValidAccum(a)
    ensures var outcome := Translate(c, o, a, events, broken).outcome;
      outcome.Finished? ==> outcome.accum.finish == LastFinish(c, UpToTerminal(c, events), a.finish)
    decreases |events|
  {
    if events != [] {
      var e := events[0];
      var s := Step(c, a, e);
      ErrorIsLocal(c, a, INITIAL, e);
      StepKeepsValid(c, a, e);
      FinishIsLocal(c, a, e);
      assert [e][1..] == [];
      hide Step, Closing, ChunksFor, SetsFinish;
      if !IsTerminal(c, e) {
        FinishInForce(c, o, s.accum, events[1..], broken);
        assert UpToTerminal(c, events)[1..] == UpToTerminal(c, events[1..]);
      }
    }
  }

  /** The answers differ: `[DONE]` came under a finishing event name while another finish reason was in force. */
  predicate ReadDifferently(c: Codec, seen: seq<Event>) {
    EndsInNamedDone(seen) && LastFinish(c, seen, "stop") != "stop"
  }

  /** Part by part, exactly when the two answers to a stream that ended cleanly are equal. */
  ghost predicate AgreeExactly(c: Codec, seen: seq<Event>, streamed: Completion, aggregated: Completion) {
    && aggregated.content == streamed.content && aggregated.reasoning == streamed.reasoning
    && (aggregated.finish == streamed.finish <==> !ReadDifferently(c, seen))
    && (aggregated.toolCalls == streamed.toolCalls <==> LeftBringNothing(WholeParts(c, seen)))
    && (aggregated.usage == streamed.usage <==> SameUsage(c, seen))
  }

  /**
   * For every list of lines, let `seen` be those up to and including the first terminal frame. If that frame is an
   * error, streaming and aggregating `seen` fail with that error. If the body did not break before it, or ended without
   * one, both give an answer with the same content and reasoning. The finish reasons agree exactly unless `seen` is
   * read differently, the tool calls exactly if the payloads that decode in part bring none, and the usage exactly if
   * the last one does not come from such a payload.
   */
  lemma InterpretersAgree(c: Codec, o: Options, lines: seq<string>, broken: bool)
    requires c.decode("[DONE]") == UNREADABLE
    ensures var events := Events(lines, "");
      var outcome := Translate(c, o, INITIAL, events, broken).outcome;
      var seen := lines[..TerminalLine(c, lines, "")];
      var aggregated := AggregateLines(c, seen);
      && (FailsWith(c, events).Some? ==>
            && outcome == UpstreamFailed(FailsWith(c, events).value)
            && aggregated == Err(Upstream(FailsWith(c, events).value)))
      && (EndsCleanly(c, events, broken) ==>
            && outcome.Finished? && aggregated.Ok?
            && AgreeExactly(c, Events(seen, ""), Snapshot(c, outcome.accum), aggregated.value))
      && (CutOff(c, events, broken) <==> outcome.ReadFailed?)
  {
    var events := Events(lines, "");
    assert Trim("") == "";
    EventsAreTrimmed(lines, "");
    AgreeFrom(c, o, INITIAL, INITIAL, events, broken);
    LinesUpToTerminal(c, lines, "");
    OutcomeExactly(c, o, INITIAL, events, broken);
    var outcome := Translate(c, o, INITIAL, events, broken).outcome;
    var seen := UpToTerminal(c, events);
    hide Translate, Events, UpToTerminal, EndsCleanly, CutOff, FailsWith;
    if outcome.Finished? {
      AnswersAgree(c, o, events, broken);
    }
  }

  lemma AnswersAgree(c: Codec, o: Options, events: seq<Event>, broken: bool)
    requires c.decode("[DONE]") == UNREADABLE && forall e | e in events :: Trimmed(e)
    requires Translate(c, o, INITIAL, events, broken).outcome.Finished?
    ensures var outcome := Translate(c, o, INITIAL, events, broken).outcome; var seen := UpToTerminal(c, events);
      var f := Fold(c, Applied(INITIAL, None), seen);
      f.error.None? && AgreeExactly(c, seen, Snapshot(c, outcome.accum), Snapshot(c, f.accum))
  {
    hide Translate, UpToTerminal, Fold, LastFinish, LeftBringNothing, LastUsage, LastWholeUsage, Sorted, Keyed,
      AllPieces, TakenPieces, ApplyAll;
    InitialIsValid();
    var outcome := Translate(c, o, INITIAL, events, broken).outcome;
    var seen := UpToTerminal(c, events);
    var f := Fold(c, Applied(INITIAL, None), seen);
    AgreeFrom(c, o, INITIAL, INITIAL, events, broken);
    FinishInForce(c, o, INITIAL, events, broken);
    RunCollects(c, o, INITIAL, events, broken);
    FoldCollects(c, Applied(INITIAL, None), seen);
    LeftMatterExactly(WholeParts(c, seen));
    SortedTells(outcome.accum.calls, f.accum.calls);
  }

  // ----- output grammar -----

  /** Chunks, then nothing, the closing frames, or one error event, depending on how the run ended. */
  ghost function Tail(c: Codec, o: Options, outcome: Outcome): seq<Frame> {
    match outcome
    case Finished(a) => Closing(c, o, a)
    case UpstreamFailed(error) => [ErrorEvent(error), Done]
    case _ => []
  }

  ghost predicate AllChunks(frames: seq<Frame>) {
    forall i | 0 <= i < |frames| :: frames[i].Chunk?
  }

  ghost predicate ChunksThen(frames: seq<Frame>, tail: seq<Frame>) {
    |tail| <= |frames| && AllChunks(frames[..|frames| - |tail|]) && frames[|frames| - |tail|..] == tail
  }

  /** On every input the output is chunks followed by the tail that belongs to the outcome. */
  lemma {:induction false} OutputGrammar(c: Codec, o: Options, a: Accum, events: seq<Event>, broken: bool)
    ensures var run := Translate(c, o, a, events, broken);
      && ChunksThen(run.frames, Tail(c, o, run.outcome))
      && !run.outcome.WriteFailed? && (run.outcome.ReadFailed? ==> broken)
    decreases |events|
  {
    if events != [] {
      EventGrammar(c, o, a, events[0]);
      hide TranslateEvent, Closing, ChunksThen, AllChunks;
      var (frames, next) := TranslateEvent(c, o, a, events[0]);
      if next.Continue? {
        var rest := Translate(c, o, next.accum, events[1..], broken);
        OutputGrammar(c, o, next.accum, events[1..], broken);
        ChunksBefore(frames, rest.frames, Tail(c, o, rest.outcome));
      }
    }
  }

  lemma ChunksBefore(chunks: seq<Frame>, frames: seq<Frame>, tail: seq<Frame>)
    requires AllChunks(chunks) && ChunksThen(frames, tail)
    ensures ChunksThen(chunks + frames, tail)
  {
    var n := |frames| - |tail|;
    var all := chunks + frames;
    assert all[..|chunks| + n] == chunks + frames[..n];
    assert all[|chunks| + n..] == frames[n..];
  }

  lemma EventGrammar(c: Codec, o: Options, a: Accum, e: Event)
    ensures var (frames, next) := TranslateEvent(c, o, a, e);
      if next.Continue? then AllChunks(frames)
      else ChunksThen(frames, Tail(c, o, next.outcome)) && (next.outcome.Finished? || next.outcome.UpstreamFailed?)
  {
    var s := Step(c, a, e);
    hide Step, Closing;
    var closing := Closing(c, o, s.accum);
    var chunks := ChunksFor(a, s.accum, e, Payload(c, e.data));
    assert (chunks + closing)[..|chunks|] == chunks;
  }

  /** Where in the tail of an outcome the closing frames stand. */
  lemma TailShape(c: Codec, o: Options, outcome: Outcome, j: nat)
    requires !outcome.WriteFailed?
    ensures var tail := Tail(c, o, outcome);
      && (tail == [] <==> outcome.ReadFailed?)
      && (j < |tail| ==>
            && !tail[j].Chunk? && (tail[j].Done? <==> j == |tail| - 1)
            && (tail[j].UsageChunk? <==> j + 2 == |tail| && o.includeUsage && outcome.Finished?)
            && (tail[j].ErrorEvent? <==> j + 2 == |tail| && outcome.UpstreamFailed?))
      && ((o.includeUsage && outcome.Finished?) || outcome.UpstreamFailed? ==> |tail| == 2)
  {
    hide Snapshot, UsageJson;
  }

  /**
   * Read off the grammar. If the body breaks before any terminal frame the output is chunks only. In every other case
   * the last frame is the only `[DONE]`; a usage chunk is sent exactly if asked for and no error frame came first, an
   * error event exactly if one did, and either stands immediately before `[DONE]`.
   */
  lemma OutputEnds(c: Codec, o: Options, events: seq<Event>, broken: bool, i: nat)
    ensures var frames := Translate(c, o, INITIAL, events, broken).frames;
      var n := |frames|;
      && (Done in frames <==> !CutOff(c, events, broken))
      && (CutOff(c, events, broken) ==> AllChunks(frames))
      && (i < n && !CutOff(c, events, broken) ==> (frames[i].Done? <==> i == n - 1))
      && (i < n ==> (frames[i].UsageChunk? <==> i == n - 2 && o.includeUsage && EndsCleanly(c, events, broken)))
      && (i < n ==> (frames[i].ErrorEvent? <==> i == n - 2 && FailsWith(c, events).Some?))
  {
    OutputGrammar(c, o, INITIAL, events, broken);
    OutcomeExactly(c, o, INITIAL, events, broken);
    var run := Translate(c, o, INITIAL, events, broken);
    var tail := Tail(c, o, run.outcome);
    hide Translate, Tail, EndsCleanly, CutOff, FailsWith;
    var n := |run.frames|;
    var k := n - |tail|;
    TailShape(c, o, run.outcome, 0);
    if i < k {
      assert run.frames[..k][i].Chunk?;
    } else if i < n {
      assert run.frames[i] == run.frames[k..][i - k] == tail[i - k];
      TailShape(c, o, run.outcome, i - k);
    }
    if tail == [] {
      assert run.frames[..k] == run.frames;
    } else {
      assert run.frames[n - 1] == run.frames[k..][|tail| - 1] == tail[|tail| - 1];
      TailShape(c, o, run.outcome, |tail| - 1);
      assert run.frames[n - 1] in run.frames;
    }
  }
}
