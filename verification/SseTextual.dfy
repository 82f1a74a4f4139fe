/** Everything the stream engine accumulates and sends is made of parts the JSON library can write faithfully. */
module SseTextual {
  import opened Text
  import opened Json
  import opened SseEvents
  import opened SseStream
  import opened SseAgreement
  import opened SseFrames
  import Utf8

  // ----- everything accumulated comes out of decoded payloads -----

  /** Content, reasoning and finish reason are UTF-8, and the usage is encodable. */
  ghost predicate Textual(a: Accum) {
    && Utf8.Valid(a.content) && Utf8.Valid(a.reason) && Utf8.Valid(a.finish)
    && (a.usage.Some? ==> Fits(Obj(a.usage.value), 1))
  }

  lemma StopIsUtf8()
    ensures Utf8.Valid("stop") && Utf8.Valid("")
  {
    hide Utf8.RuneLen;
    Utf8.AsciiIsValid("stop");
  }

  lemma InitialIsTextual()
    ensures Textual(INITIAL)
  {
    hide Utf8.Valid;
    StopIsUtf8();
  }

  lemma StrIsValid(o: Object, k: string)
    requires EncodableObject(o)
    ensures Utf8.Valid(StrAt(o, k).GetOr(""))
  {
    hide Utf8.RuneLen;
    assert k in o ==> Encodable(o[k]);
  }

  lemma {:induction false} FirstStrIsValid(o: Object, keys: seq<string>)
    requires EncodableObject(o)
    ensures Utf8.Valid(FirstStr(o, keys))
  {
    if keys != [] {
      StrIsValid(o, keys[0]);
      hide Utf8.Valid, EncodableObject;
      FirstStrIsValid(o, keys[1..]);
    }
  }

  lemma {:induction false} OutputTextIsValid(items: seq<Json>)
    requires forall i | 0 <= i < |items| :: Encodable(items[i])
    ensures Utf8.Valid(OutputText(items))
  {
    if items != [] {
      OutputTextIsValid(items[1..]);
      if items[0].Obj? {
        StrIsValid(items[0].fields, "text");
        Utf8.ValidConcat(StrAt(items[0].fields, "text").GetOr(""), OutputText(items[1..]));
      }
      hide Utf8.Valid, Encodable;
      assert "" + OutputText(items[1..]) == OutputText(items[1..]);
    }
  }

  lemma OutputIsValid(o: Object)
    requires EncodableObject(o)
    ensures Utf8.Valid(OutputText(ArrAt(o, "output").GetOr([])))
  {
    var items := ArrAt(o, "output").GetOr([]);
    if "output" in o && o["output"].Arr? {
      assert Encodable(o["output"]);
    }
    OutputTextIsValid(items);
  }

  lemma DeltaIsDecoded(o: Object)
    requires EncodableObject(o)
    ensures var (delta, finish) := DeltaOf(o); (delta.Some? ==> EncodableObject(delta.value)) && Utf8.Valid(finish)
  {
    hide Utf8.RuneLen;
    if ObjAt(o, "delta").Some? {
      assert Encodable(o["delta"]);
    } else if ArrAt(o, "choices").Some? {
      assert Encodable(o["choices"]);
      var choices := ArrAt(o, "choices").value;
      if choices != [] && choices[0].Obj? {
        var choice := choices[0].fields;
        assert Encodable(choices[0]);
        StrIsValid(choice, "finish_reason");
        assert ObjAt(choice, "delta").Some? ==> Encodable(choice["delta"]);
      }
    }
  }

  lemma UsageIsDecoded(o: Object, otherwise: Option<Object>)
    requires Carried(o) && (otherwise.Some? ==> Fits(Obj(otherwise.value), 1))
    ensures Usage(o, otherwise).Some? ==> Fits(Obj(Usage(o, otherwise).value), 1)
  {
    hide Utf8.Valid;
    assert ObjAt(o, "usage").Some? ==> Encodable(o["usage"]) && Nests(o["usage"], MAX_DEPTH - 1);
  }

  lemma DeltaKeepsTextual(a: Accum, delta: Object)
    requires Textual(a) && EncodableObject(delta)
    ensures Textual(ApplyDelta(a, delta))
  {
    StrIsValid(delta, "content");
    StrIsValid(delta, "reasoning_content");
    Utf8.ValidConcat(a.content, StrAt(delta, "content").GetOr(""));
    Utf8.ValidConcat(a.reason, StrAt(delta, "reasoning_content").GetOr(""));
  }

  lemma WithFinish(a: Accum, finish: string)
    requires Textual(a) && Utf8.Valid(finish)
    ensures Textual(a.(finish := finish))
  {
    hide Utf8.Valid;
  }

  lemma WithContent(a: Accum, content: string)
    requires Textual(a) && Utf8.Valid(content)
    ensures Textual(a.(content := content))
  {
    hide Utf8.Valid;
  }

  lemma TextKeepsTextual(a: Accum, t: string)
    requires Textual(a) && Utf8.Valid(t)
    ensures Textual(ApplyText(a, t))
  {
    hide Utf8.Valid, Textual, IsDoneText;
    StopIsUtf8();
    WithFinish(a, "stop");
    WithContent(a, t);
  }

  lemma FillKeepsTextual(a: Accum, payload: Object)
    requires Textual(a) && EncodableObject(payload)
    ensures Textual(FillAnswer(a, payload))
  {
    StrIsValid(payload, "answer");
    hide Utf8.Valid, EncodableObject, LooksLikeCode, Textual;
    if StrAt(payload, "answer").Some? {
      WithContent(a, StrAt(payload, "answer").value);
    }
  }

  lemma PlainKeepsTextual(a: Accum, payload: Object)
    requires Textual(a) && EncodableObject(payload)
    ensures Textual(ApplyPlain(a, payload))
  {
    hide Utf8.Valid, EncodableObject, Textual, DeltaOf, OutputText, FirstStr, FillAnswer, ApplyDelta, ApplyText;
    var (delta, finish) := DeltaOf(payload);
    var b := if finish != "" then a.(finish := finish) else a;
    DeltaIsDecoded(payload);
    WithFinish(a, finish);
    StopIsUtf8();
    if b.finish == "" { WithFinish(b, "stop"); }
    if delta.Some? { DeltaKeepsTextual(b, delta.value); }
    var t := FirstStr(payload, ["text", "content", "delta"]);
    FirstStrIsValid(payload, ["text", "content", "delta"]);
    TextKeepsTextual(b, t);
    OutputIsValid(payload);
    WithContent(b, OutputText(ArrAt(payload, "output").GetOr([])));
    FillKeepsTextual(b, payload);
  }

  lemma AnswerKeepsTextual(a: Accum, payload: Object)
    requires Textual(a) && EncodableObject(payload)
    ensures Textual(ApplyAnswer(a, payload))
  {
    hide Utf8.Valid, EncodableObject, Textual, DeltaOf, FirstStr, FillAnswer, ApplyDelta, ApplyText;
    var (delta, finish) := DeltaOf(payload);
    var b := if finish != "" then a.(finish := finish) else a;
    DeltaIsDecoded(payload);
    WithFinish(a, finish);
    if delta.Some? { DeltaKeepsTextual(b, delta.value); }
    FirstStrIsValid(payload, ["text", "content", "delta", "message"]);
    TextKeepsTextual(b, FirstStr(payload, ["text", "content", "delta", "message"]));
    FillKeepsTextual(b, payload);
  }

  lemma ReasonKeepsTextual(a: Accum, more: string)
    requires Textual(a) && Utf8.Valid(more)
    ensures Textual(a.(reason := a.reason + more))
  {
    hide Utf8.Valid;
    Utf8.ValidConcat(a.reason, more);
  }

  lemma FinishingKeepsTextual(a: Accum, payload: Object)
    requires Textual(a) && EncodableObject(payload)
    ensures Textual(ApplyFinishing(a, payload))
  {
    hide Utf8.Valid, EncodableObject, Textual, FirstStr;
    StopIsUtf8();
    WithFinish(a, "stop");
    FirstStrIsValid(payload, ["finish_reason", "finish", "reason"]);
    WithFinish(a, FirstStr(payload, ["finish_reason", "finish", "reason"]));
  }

  lemma ApplyKeepsTextual(a: Accum, e: Event, payload: Object)
    requires Textual(a) && EncodableObject(payload)
    ensures Textual(ApplyEvent(a, e, payload).accum)
  {
    hide Utf8.Valid, EncodableObject, Textual, FirstStr, ApplyPlain, ApplyAnswer, ApplyFinishing, KindOf, ErrorOf, Trim;
    StopIsUtf8();
    WithFinish(a, "stop");
    PlainKeepsTextual(a, payload);
    AnswerKeepsTextual(a, payload);
    FinishingKeepsTextual(a, payload);
    var more := FirstStr(payload, ["text", "reasoning", "content", "thinking"]);
    FirstStrIsValid(payload, ["text", "reasoning", "content", "thinking"]);
    ReasonKeepsTextual(a, more);
  }

  lemma StepKeepsTextual(c: Codec, a: Accum, e: Event)
    requires Faithful(c) && Textual(a)
    ensures Carried(Payload(c, e.data)) && Textual(Step(c, a, e).accum)
  {
    DecodedIsCarried(c, e.data);
    hide Faithful, EncodableObject, Nests, Utf8.Valid, ApplyEvent;
    var payload := Payload(c, e.data);
    UsageIsDecoded(payload, a.usage);
    ApplyKeepsTextual(Collect(a, payload), e, payload);
  }

  // ----- every frame of a finished run is one the library writes faithfully -----

  lemma DeltaKeysAreUtf8()
    ensures Utf8.Valid("role") && Utf8.Valid("content") && Utf8.Valid("reasoning_content") && Utf8.Valid("tool_calls")
  {
    hide Utf8.Valid;
    Utf8.AsciiIsValid("role");
    Utf8.AsciiIsValid("content");
    Utf8.AsciiIsValid("reasoning_content");
    Utf8.AsciiIsValid("tool_calls");
  }

  lemma DifferenceIsSendable(a: Accum, b: Accum, native: Object, finish: string)
    requires EncodableObject(native)
    ensures var chunk := Chunk(Difference(a, b, native), finish);
      && Sendable(chunk)
      && (Readable(chunk) <==> ("tool_calls" in native ==> Nests(native["tool_calls"], MAX_DEPTH - DELTA_DEPTH)))
  {
    DeltaKeysAreUtf8();
    hide Utf8.Valid, Nests;
    assert "tool_calls" in native ==> Encodable(native["tool_calls"]);
    hide EncodableObject;
    var delta := Difference(a, b, native);
    forall k | k in delta
      ensures Utf8.Valid(k) && (delta[k].Str? || (k == "tool_calls" && delta[k] == native["tool_calls"]))
    {
      assert k == "role" || k == "content" || k == "reasoning_content" || k == "tool_calls";
    }
  }

  /** The tool calls of the payload can be carried inside a chunk without going over the decoder's limit. */
  predicate Shallow(payload: Object) {
    var native := DeltaOf(payload).0.GetOr(map[]);
    "tool_calls" in native ==> Nests(native["tool_calls"], MAX_DEPTH - DELTA_DEPTH)
  }

  predicate AllShallow(c: Codec, events: seq<Event>) {
    forall i | 0 <= i < |events| :: IsDone(events[i]) || Shallow(Payload(c, events[i].data))
  }

  /** Only a `delta` at the top of the payload can be too deep; one inside `choices` never is. */
  lemma ChoicesAreShallow(payload: Object)
    requires Carried(payload) && ObjAt(payload, "delta").None?
    ensures Shallow(payload)
  {
    hide Encodable;
    if ArrAt(payload, "choices").Some? {
      assert Nests(payload["choices"], MAX_DEPTH - 1);
      var choices := ArrAt(payload, "choices").value;
      if choices != [] && choices[0].Obj? {
        assert Nests(choices[0], MAX_DEPTH - 2);
        var choice := choices[0].fields;
        assert ObjAt(choice, "delta").Some? ==> Nests(choice["delta"], MAX_DEPTH - 3);
      }
    }
  }

  lemma ChunksAreSendable(a: Accum, b: Accum, e: Event, payload: Object)
    requires EncodableObject(payload)
    ensures IsClean(ChunksFor(a, b, e, payload))
    ensures AllReadable(ChunksFor(a, b, e, payload)) <==> Shallow(payload)
  {
    var (native, finish) := DeltaOf(payload);
    DeltaIsDecoded(payload);
    EncodableEmpty();
    hide EncodableObject, DeltaOf, Utf8.Valid, Encodable, Nests, IsClosingName;
    DifferenceIsSendable(a, b, native.GetOr(map[]), finish);
    var delta := Difference(a, b, native.GetOr(map[]));
    assert "tool_calls" in native.GetOr(map[]) ==> "tool_calls" in delta;
    assert Sendable(Chunk(map[], b.finish)) && Readable(Chunk(map[], b.finish));
    hide Difference, Sendable, Readable;
    var change := if delta != map[] || finish != "" then [Chunk(delta, finish)] else [];
    var last := if IsClosingName(e.name) && finish == "" then [Chunk(map[], b.finish)] else [];
    assert IsClean(change) && IsClean(last) && AllReadable(last);
    assert change != [] ==> change[0] == Chunk(delta, finish);
    CleanConcat(change, last);
  }

  /** The estimate is a table of counts, which the library can write. */
  ghost predicate EstimatesEncodable(o: Options) {
    forall answer: Completion :: o.estimate(answer).Some? ==> Fits(Obj(o.estimate(answer).value), 1)
  }

  lemma ClosingIsSendable(c: Codec, o: Options, a: Accum)
    requires Textual(a) && EstimatesEncodable(o)
    ensures IsClean(Closing(c, o, a)) && AllReadable(Closing(c, o, a))
  {
    hide Utf8.Valid;
    var answer := Snapshot(c, a);
    assert o.estimate(answer).Some? ==> Fits(Obj(o.estimate(answer).value), 1);
  }

  lemma CleanConcat(xs: seq<Frame>, ys: seq<Frame>)
    ensures IsClean(xs + ys) <==> IsClean(xs) && IsClean(ys)
    ensures AllReadable(xs + ys) <==> AllReadable(xs) && AllReadable(ys)
  {
    hide Sendable, Readable;
    var all := xs + ys;
    assert forall i | 0 <= i < |xs| :: all[i] == xs[i];
    assert forall i | 0 <= i < |ys| :: all[|xs| + i] == ys[i];
  }

  lemma ShallowCons(c: Codec, e: Event, tail: seq<Event>)
    ensures AllShallow(c, [e] + tail) <==> (IsDone(e) || Shallow(Payload(c, e.data))) && AllShallow(c, tail)
  {
    hide IsDone, Shallow;
    var all := [e] + tail;
    assert all[0] == e && forall i | 0 <= i < |tail| :: all[i + 1] == tail[i];
  }

  ghost predicate CleanRun(run: Run, shallow: bool) {
    run.outcome.Finished? ==> IsClean(run.frames) && (AllReadable(run.frames) <==> shallow)
  }

  lemma CleanJoin(xs: seq<Frame>, run: Run, first: bool, rest: bool)
    requires IsClean(xs) && (AllReadable(xs) <==> first) && CleanRun(run, rest)
    ensures CleanRun(Run(xs + run.frames, run.outcome), first && rest)
  {
    hide IsClean, AllReadable;
    CleanConcat(xs, run.frames);
  }

  lemma ClosingIsClean(c: Codec, o: Options, a: Accum)
    requires Textual(a) && EstimatesEncodable(o)
    ensures CleanRun(Run(Closing(c, o, a), Finished(a)), true)
  {
    hide Textual, EstimatesEncodable, IsClean, AllReadable, Closing;
    ClosingIsSendable(c, o, a);
  }

  /**
   * A finished run sends only frames that the library writes faithfully, and only ones that can be read back exactly if
   * no tool calls up to the terminal event are too deep.
   */
  lemma {:induction false} FinishedRunIsClean(c: Codec, o: Options, a: Accum, events: seq<Event>, broken: bool)
    requires Faithful(c) && Textual(a) && EstimatesEncodable(o)
    ensures CleanRun(Translate(c, o, a, events, broken), AllShallow(c, UpToTerminal(c, events)))
    decreases |events|
  {
    hide Step, Closing, ChunksFor, Textual, IsClean, AllReadable, Faithful, EstimatesEncodable, Shallow, AllShallow,
      IsClosingName, IsDone, EncodableObject, Nests;
    NothingIsShallow(c);
    if events == [] {
      ClosingIsSendable(c, o, a);
    } else {
      var e, s := events[0], Step(c, a, events[0]);
      TranslateHead(c, o, a, events, broken);
      ErrorIsLocal(c, a, INITIAL, e);
      StepKeepsTextual(c, a, e);
      ChunksAreSendable(a, s.accum, e, Payload(c, e.data));
      ClosingIsClean(c, o, a);
      ClosingIsClean(c, o, s.accum);
      hide Translate, Payload, Carried;
      var chunks, shallow := ChunksFor(a, s.accum, e, Payload(c, e.data)), Shallow(Payload(c, e.data));
      if IsTerminal(c, e) {
        ShallowCons(c, e, []);
        assert [e] + [] == [e];
        CleanJoin(chunks, Run(Closing(c, o, s.accum), Finished(s.accum)), shallow, true);
      } else {
        FinishedRunIsClean(c, o, s.accum, events[1..], broken);
        ShallowCons(c, e, UpToTerminal(c, events[1..]));
        CleanJoin(chunks, Translate(c, o, s.accum, events[1..], broken), shallow,
                  AllShallow(c, UpToTerminal(c, events[1..])));
      }
    }
  }

  lemma NothingIsShallow(c: Codec)
    ensures AllShallow(c, [])
  {
  }
}
