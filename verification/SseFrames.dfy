/** The frames sent to a client as bytes, and what the aggregator makes of each when it reads them back. */
module SseFrames {
  import opened Text
  import opened Json
  import opened ToolCalls
  import opened SseReader
  import opened SseEvents
  import opened SseAggregate
  import opened SseStream
  import opened SseAgreement
  import Utf8

  /** Seconds since 1970, exact as a float64. */
  type Second = t: int | Abs(t) < Pow2(53)

  /** The fields every chunk carries; `created` is read from the clock once per frame. */
  datatype Envelope = Envelope(id: string, model: string, created: nat -> Second)

  function ChunkObject(v: Envelope, k: nat, choices: seq<Json>, usage: Option<Json>): Object {
    var chunk := map[
      "id" := Str(Utf8.Scrub(v.id)), "object" := Str("chat.completion.chunk"), "created" := IntNum(v.created(k)),
      "model" := Str(Utf8.Scrub(v.model)), "choices" := Arr(choices)];
    if usage.Some? then chunk["usage" := usage.value] else chunk
  }

  /** Marshalling replaces bytes that are not UTF-8; in a delta only the strings at its top can hold any. */
  function ScrubStrings(delta: Object): Object {
    map k | k in delta :: if delta[k].Str? then Str(Utf8.Scrub(delta[k].s)) else delta[k]
  }

  function Choice(delta: Object, finish: string): Json {
    var choice := map["index" := Num(0, 0), "delta" := Obj(ScrubStrings(delta))];
    Obj(if finish != "" then choice["finish_reason" := Str(Utf8.Scrub(finish))] else choice)
  }

  function FrameObject(v: Envelope, o: Options, k: nat, f: Frame): Object
    requires f.Chunk? || f.UsageChunk?
  {
    match f
    case Chunk(delta, finish) => ChunkObject(v, k, [Choice(delta, finish)], if o.includeUsage then Some(Null) else None)
    case UsageChunk(usage) => ChunkObject(v, k, [], Some(usage))
  }

  /** How deep a chunk carries what is in its delta. */
  const DELTA_DEPTH: nat := 4

  /** What the engine sends apart from error events: parts of decoded payloads, text, and usage. */
  predicate Sendable(f: Frame) {
    match f
    case Chunk(delta, _) => forall k | k in delta ::
      Utf8.Valid(k) && (delta[k].Str? || (k == "tool_calls" && Encodable(delta[k])))
    case UsageChunk(usage) => (usage.Obj? || usage.Null?) && Fits(usage, 1)
    case ErrorEvent(_) => false
    case Done => true
  }

  /** Its tool calls nest no deeper than the decoder goes once they are inside the chunk. */
  predicate Readable(f: Frame) {
    f.Chunk? && "tool_calls" in f.delta ==> Nests(f.delta["tool_calls"], MAX_DEPTH - DELTA_DEPTH)
  }

  predicate IsClean(frames: seq<Frame>) {
    forall i | 0 <= i < |frames| :: Sendable(frames[i])
  }

  predicate AllReadable(frames: seq<Frame>) {
    forall i | 0 <= i < |frames| :: Readable(frames[i])
  }

  /** The text after `data: `. */
  function FrameData(c: Codec, v: Envelope, o: Options, k: nat, f: Frame): string
    requires Sendable(f)
  {
    if f.Done? then "[DONE]" else c.encode(FrameObject(v, o, k, f))
  }

  /** One frame in front of the rest: a data line and an empty line. */
  function DataFrame(data: string, rest: string): string {
    "data: " + data + "\n" + "\n" + rest
  }

  function Render(c: Codec, v: Envelope, o: Options, k: nat, frames: seq<Frame>): string
    requires IsClean(frames)
    decreases |frames|
  {
    if frames == [] then ""
    else DataFrame(FrameData(c, v, o, k, frames[0]), Render(c, v, o, k + 1, frames[1..]))
  }

  function ClientEvents(c: Codec, v: Envelope, o: Options, k: nat, frames: seq<Frame>): seq<Event>
    requires IsClean(frames)
    decreases |frames|
  {
    if frames == [] then []
    else [Event("", FrameData(c, v, o, k, frames[0]))] + ClientEvents(c, v, o, k + 1, frames[1..])
  }

  // ----- every frame sent is one the library writes faithfully -----

  lemma KeysAreUtf8()
    ensures Utf8.Valid("id") && Utf8.Valid("object") && Utf8.Valid("created") && Utf8.Valid("model")
      && Utf8.Valid("choices")
    ensures Utf8.Valid("usage") && Utf8.Valid("index") && Utf8.Valid("delta") && Utf8.Valid("finish_reason")
    ensures Utf8.Valid("chat.completion.chunk")
  {
    hide Utf8.Valid;
    Utf8.AsciiIsValid("id");
    Utf8.AsciiIsValid("object");
    Utf8.AsciiIsValid("created");
    Utf8.AsciiIsValid("model");
    Utf8.AsciiIsValid("choices");
    Utf8.AsciiIsValid("usage");
    Utf8.AsciiIsValid("index");
    Utf8.AsciiIsValid("delta");
    Utf8.AsciiIsValid("finish_reason");
    Utf8.AsciiIsValid("chat.completion.chunk");
  }

  lemma DeltaIsEncodable(delta: Object)
    requires Sendable(Chunk(delta, ""))
    ensures EncodableObject(ScrubStrings(delta))
  {
    hide Utf8.Valid, Utf8.Scrub;
    var clean := ScrubStrings(delta);
    forall k | k in clean ensures Utf8.Valid(k) && Encodable(clean[k]) {
      if delta[k].Str? {
        Utf8.ScrubValid(delta[k].s);
      }
    }
  }

  lemma TextIsEncodable(s: string)
    ensures Encodable(Str(Utf8.Scrub(s))) && (Utf8.Valid(s) ==> Encodable(Str(s)))
  {
    hide Utf8.Valid, Utf8.Scrub;
    Utf8.ScrubValid(s);
  }

  lemma ChoiceIsEncodable(delta: Object, finish: string)
    requires Sendable(Chunk(delta, finish))
    ensures Encodable(Choice(delta, finish))
  {
    hide ScrubStrings, Utf8.Valid, Utf8.Scrub;
    DeltaIsEncodable(delta);
    TextIsEncodable(finish);
    KeysAreUtf8();
    assert Encodable(Num(0, 0));
    hide Sendable;
    EncodableEmpty();
    hide Encodable;
    EncodableWith(map[], "index", Num(0, 0));
    EncodableWith(map["index" := Num(0, 0)], "delta", Obj(ScrubStrings(delta)));
    var choice := map["index" := Num(0, 0), "delta" := Obj(ScrubStrings(delta))];
    EncodableWith(choice, "finish_reason", Str(Utf8.Scrub(finish)));
  }

  lemma IntIsEncodable(i: Second)
    ensures Encodable(IntNum(i))
  {
    IntNumIsFloat(i);
    hide IntNum, IsFloat;
  }

  lemma ChunkIsEncodable(v: Envelope, k: nat, choices: seq<Json>, usage: Option<Json>)
    requires Encodable(Arr(choices)) && (usage.Some? ==> Encodable(usage.value))
    ensures EncodableObject(ChunkObject(v, k, choices, usage))
  {
    hide Encodable, Utf8.Valid, Utf8.Scrub, IntNum;
    KeysAreUtf8();
    TextIsEncodable(v.id);
    TextIsEncodable(v.model);
    TextIsEncodable("chat.completion.chunk");
    IntIsEncodable(v.created(k));
    EncodableEmpty();
    hide EncodableObject;
    var id, kind, created, model :=
      Str(Utf8.Scrub(v.id)), Str("chat.completion.chunk"), IntNum(v.created(k)), Str(Utf8.Scrub(v.model));
    EncodableWith(map[], "id", id);
    EncodableWith(map["id" := id], "object", kind);
    EncodableWith(map["id" := id, "object" := kind], "created", created);
    EncodableWith(map["id" := id, "object" := kind, "created" := created], "model", model);
    var most := map["id" := id, "object" := kind, "created" := created, "model" := model];
    EncodableWith(most, "choices", Arr(choices));
    if usage.Some? {
      EncodableWith(most["choices" := Arr(choices)], "usage", usage.value);
    }
  }

  /** A chunk nests three levels deeper than its delta, and the delta one deeper than its tool calls. */
  lemma ChunkNests(v: Envelope, k: nat, choices: seq<Json>, usage: Option<Json>)
    requires usage.Some? ==> Nests(usage.value, MAX_DEPTH - 1)
    ensures Nests(Obj(ChunkObject(v, k, choices, usage)), MAX_DEPTH) <==> Nests(Arr(choices), MAX_DEPTH - 1)
  {
    hide Utf8.Scrub, IntNum;
    var x := ChunkObject(v, k, choices, usage);
    assert "choices" in x && x["choices"] == Arr(choices);
  }

  lemma ChoiceNests(delta: Object, finish: string)
    requires Sendable(Chunk(delta, finish))
    ensures Nests(Arr([Choice(delta, finish)]), MAX_DEPTH - 1) <==> Readable(Chunk(delta, finish))
  {
    hide Utf8.Scrub, Utf8.Valid, Encodable;
    DeltaNests(delta);
    hide ScrubStrings;
    var choice := Choice(delta, finish);
    assert "delta" in choice.fields && choice.fields["delta"] == Obj(ScrubStrings(delta));
    assert Nests(choice, MAX_DEPTH - 2) <==> Nests(Obj(ScrubStrings(delta)), MAX_DEPTH - 3);
    assert [choice][0] == choice;
  }

  lemma DeltaNests(delta: Object)
    requires Sendable(Chunk(delta, ""))
    ensures Nests(Obj(ScrubStrings(delta)), MAX_DEPTH - DELTA_DEPTH + 1) <==> Readable(Chunk(delta, ""))
  {
    hide Utf8.Scrub, Utf8.Valid, Encodable;
    var clean := ScrubStrings(delta);
    assert forall k | k in clean :: k != "tool_calls" ==> clean[k].Str?;
    assert "tool_calls" in delta && delta["tool_calls"].Str? ==> Nests(delta["tool_calls"], MAX_DEPTH - DELTA_DEPTH);
    assert "tool_calls" in delta && !delta["tool_calls"].Str? ==> clean["tool_calls"] == delta["tool_calls"];
  }

  /** The library writes every such frame faithfully, and reads it back exactly if its tool calls are not too deep. */
  lemma FrameIsEncodable(v: Envelope, o: Options, k: nat, f: Frame)
    requires Sendable(f) && !f.Done?
    ensures EncodableObject(FrameObject(v, o, k, f))
    ensures Carried(FrameObject(v, o, k, f)) <==> Readable(f)
  {
    hide Utf8.Valid, Choice, ChunkObject;
    assert Encodable(Null) && Encodable(Arr([])) && Nests(Null, MAX_DEPTH - 1) && Nests(Arr([]), MAX_DEPTH - 1);
    if f.Chunk? {
      var choices := [Choice(f.delta, f.finish)];
      var usage := if o.includeUsage then Some(Null) else None;
      ChoiceIsEncodable(f.delta, f.finish);
      ChoiceNests(f.delta, f.finish);
      assert Encodable(Arr(choices));
      hide Encodable, Nests, Readable;
      ChunkIsEncodable(v, k, choices, usage);
      ChunkNests(v, k, choices, usage);
    } else {
      hide Encodable, Nests;
      ChunkIsEncodable(v, k, [], Some(f.usage));
      ChunkNests(v, k, [], Some(f.usage));
    }
  }

  lemma FindSplits(head: string, rest: string)
    requires Free(head, '\n')
    ensures Lines(head + "\n" + rest) == [head] + Lines(rest)
  {
    var text := head + "\n" + rest;
    var n := Find(text, '\n');
    assert text[|head|] == '\n';
    assert forall i | 0 <= i < n :: text[..n][i] == text[i];
    assert forall i | 0 <= i < |head| :: text[i] == head[i];
    assert text[..|head|] == head && text[|head| + 1..] == rest;
  }

  lemma TrimPadded(data: string)
    requires |data| >= 1 && !IsSpace(data[0]) && !IsSpace(data[|data| - 1])
    ensures Trim(" " + data) == data
  {
    assert (" " + data)[1..] == data;
    assert TrimLeft(" " + data) == TrimLeft(data);
  }

  lemma DataPrefix(data: string)
    ensures var line := "data: " + data;
      "data:" <= line && line[5..] == " " + data && !("event:" <= line) && |line| == 6 + |data|
  {
    var line := "data: " + data;
    assert line[0] == 'd' && "event:"[0] == 'e';
    assert |"data: "| == 6 && "data: "[5] == ' ';
    forall i | 0 <= i < 5 ensures line[i] == "data:"[i] {
      assert line[i] == "data: "[i];
    }
    forall i | 0 <= i < |line| - 5 ensures line[5..][i] == (" " + data)[i] {
    }
  }

  lemma NoEol(line: string)
    requires line != "" && !IsSpace(line[|line| - 1])
    ensures TrimEol(line, true) == line && TrimEol(line, false) == line
  {
  }

  lemma DataLineScans(data: string, pending: string)
    requires |data| >= 2 && !IsSpace(data[0]) && !IsSpace(data[|data| - 1])
    ensures ScanLine(TrimEol("data: " + data, true), pending) == Scan(Some(Event(pending, data)), "")
  {
    hide TrimEol, Trim, IsSpace;
    DataPrefix(data);
    TrimPadded(data);
    var line := "data: " + data;
    assert line[|line| - 1] == data[|data| - 1];
    NoEol(line);
  }

  /** Fit for a data line. */
  predicate IsLine(data: string) {
    Free("data: " + data, '\n') && |data| >= 2 && !IsSpace(data[0]) && !IsSpace(data[|data| - 1])
  }

  lemma DataIsLine(c: Codec, v: Envelope, o: Options, k: nat, f: Frame)
    requires Faithful(c) && Sendable(f)
    ensures IsLine(FrameData(c, v, o, k, f))
  {
    hide Faithful, FrameObject, EncodableObject, Nests, Encodable, Utf8.Valid;
    var data := FrameData(c, v, o, k, f);
    if !f.Done? {
      FrameIsEncodable(v, o, k, f);
      WrittenFaithfully(c, FrameObject(v, o, k, f));
    }
    forall i | 0 <= i < |"data: " + data| ensures ("data: " + data)[i] != '\n' {
      if i >= 6 { assert ("data: " + data)[i] == data[i - 6]; }
    }
  }

  /** A data line and the empty line behind it give one event. */
  lemma ScanFrame(data: string, rest: string)
    requires IsLine(data)
    ensures Events(Lines(DataFrame(data, rest)), "") == [Event("", data)] + Events(Lines(rest), "")
  {
    var line := "data: " + data;
    assert line + "\n" + "\n" + rest == line + "\n" + ("" + "\n" + rest);
    FindSplits(line, "" + "\n" + rest);
    FindSplits("", rest);
    DataLineScans(data, "");
    assert ScanLine(TrimEol("", true), "") == Scan(None, "");
    hide ScanLine, TrimEol, Lines, IsSpace;
    var lines := [line] + ([""] + Lines(rest));
    assert lines[1..] == [""] + Lines(rest) && ([""] + Lines(rest))[1..] == Lines(rest);
  }

  lemma NothingScans()
    ensures Events(Lines(""), "") == []
  {
    assert Lines("") == [""];
    assert TrimEol("", true) == "";
    assert Events([""], "") == Events([""][1..], "");
  }

  /** The bytes written for clean frames, split into lines and scanned, are the frames' payloads as unnamed events. */
  lemma {:induction false} RenderedEvents(c: Codec, v: Envelope, o: Options, k: nat, frames: seq<Frame>)
    requires Faithful(c) && IsClean(frames)
    ensures Events(Lines(Render(c, v, o, k, frames)), "") == ClientEvents(c, v, o, k, frames)
    decreases |frames|
  {
    if frames == [] {
      NothingScans();
    } else {
      hide Faithful, Sendable, FrameData, Events, Lines, IsLine, DataFrame;
      var data := FrameData(c, v, o, k, frames[0]);
      DataIsLine(c, v, o, k, frames[0]);
      ScanFrame(data, Render(c, v, o, k + 1, frames[1..]));
      RenderedEvents(c, v, o, k + 1, frames[1..]);
    }
  }

  // ----- what the aggregator makes of one emitted frame -----

  lemma EncodedIsNotDone(c: Codec, x: Object)
    requires Faithful(c) && Carried(x)
    ensures Trim(c.encode(x)) != "[DONE]" && Payload(c, c.encode(x)) == x && WholePayload(c, c.encode(x)) == x
  {
    hide Faithful, EncodableObject, Nests;
    WrittenFaithfully(c, x);
    var t := c.encode(x);
    assert TrimLeft(t) == t && TrimRight(t) == t;
    assert "[DONE]"[0] == '[';
  }

  /** The client's state after one frame; one that it cannot read leaves the state alone. */
  function Received(b: Accum, f: Frame): Accum {
    if !Readable(f) then b else match f
    case Chunk(delta, finish) =>
      b.(calls := ApplyAll(b.calls, Fragments(delta)),
         finish := if finish != "" then Utf8.Scrub(finish) else b.finish,
         content := b.content + Utf8.Scrub(StrAt(delta, "content").GetOr("")),
         reason := b.reason + Utf8.Scrub(StrAt(delta, "reasoning_content").GetOr("")))
    case UsageChunk(usage) => if usage.Obj? && usage.fields != map[] then b.(usage := Some(usage.fields)) else b
    case _ => b
  }

  lemma ScrubbedDelta(delta: Object)
    ensures var clean := ScrubStrings(delta);
      && Fragments(clean) == Fragments(delta)
      && StrAt(clean, "content").GetOr("") == Utf8.Scrub(StrAt(delta, "content").GetOr(""))
      && StrAt(clean, "reasoning_content").GetOr("") == Utf8.Scrub(StrAt(delta, "reasoning_content").GetOr(""))
  {
    assert ArrAt(ScrubStrings(delta), "tool_calls") == ArrAt(delta, "tool_calls");
  }

  /** What the engine's readers find in a chunk. */
  lemma ChunkReads(v: Envelope, o: Options, k: nat, f: Frame, usage: Option<Object>)
    requires f.Chunk?
    ensures var x := FrameObject(v, o, k, f);
      && ErrorOf(x) == None && DeltaOf(x) == (Some(ScrubStrings(f.delta)), Utf8.Scrub(f.finish))
        && Usage(x, usage) == usage
  {
    hide ScrubStrings, Utf8.Scrub, IntNum;
    var x := FrameObject(v, o, k, f);
    FirstStrOfNone(x, ["error_code", "code"]);
    Utf8.ScrubValid(f.finish);
  }

  lemma ReceiveChunk(c: Codec, v: Envelope, o: Options, k: nat, b: Accum, f: Frame)
    requires Faithful(c) && ValidAccum(b) && f.Chunk? && Sendable(f) && Readable(f)
    ensures AggregateStep(c, b, Event("", FrameData(c, v, o, k, f))) == Applied(Received(b, f), None)
  {
    hide Faithful, Carried, Sendable, Readable, FrameObject, ScrubStrings, Utf8.Scrub;
    var x := FrameObject(v, o, k, f);
    FrameIsEncodable(v, o, k, f);
    EncodedIsNotDone(c, x);
    ChunkReads(v, o, k, f, b.usage);
    ScrubbedDelta(f.delta);
    Utf8.ScrubValid(f.finish);
    assert KindOf("") == Plain;
    hide ErrorOf, DeltaOf, Usage, Fragments, ApplyAll, KindOf, Trim, Utf8.Valid;
  }

  /** A chunk that the client cannot read is lost as a whole. */
  lemma ReceiveUnreadable(c: Codec, v: Envelope, o: Options, k: nat, b: Accum, f: Frame)
    requires Faithful(c) && f.Chunk? && Sendable(f) && !Readable(f)
    ensures AggregateStep(c, b, Event("", FrameData(c, v, o, k, f))) == Applied(b, None)
  {
    hide Faithful, EncodableObject, Nests, Sendable, Readable, FrameObject;
    var x := FrameObject(v, o, k, f);
    FrameIsEncodable(v, o, k, f);
    WrittenFaithfully(c, x);
    UnreadableSaysNothing(c, b, c.encode(x));
  }

  lemma UnreadableSaysNothing(c: Codec, b: Accum, data: string)
    requires c.decode(data) == UNREADABLE && data != "" && data[0] == '{'
    ensures AggregateStep(c, b, Event("", data)) == Applied(b, None)
  {
    CollectNothing(b);
    FirstStrOfNone(map[], ["error_code", "code"]);
    FirstStrOfNone(map[], ["text", "content", "delta"]);
    assert KindOf("") == Plain;
    assert TrimLeft(data) == data;
    TrimRightShape(data);
    assert "[DONE]"[0] == '[';
  }

  /** An object without the keys of an answer, and without choices to speak of. */
  predicate LacksAnswer(x: Object) {
    && "error_code" !in x && "code" !in x && "delta" !in x && "text" !in x && "content" !in x
    && "output" !in x && "question" !in x && "choices" in x && x["choices"] == Arr([])
  }

  lemma LacksMeaning(x: Object)
    requires LacksAnswer(x)
    ensures ErrorOf(x) == None && DeltaOf(x) == (None, "")
    ensures FirstStr(x, ["text", "content", "delta"]) == "" && ArrAt(x, "output") == None && !IsStructuredQA(x)
  {
    hide Lower, LooksLikeCode;
    FirstStrOfNone(x, ["error_code", "code"]);
    FirstStrOfNone(x, ["text", "content", "delta"]);
  }

  /** A usage chunk carries none of the keys that would make it an answer. */
  lemma UsageLacksAnswer(v: Envelope, k: nat, usage: Json)
    ensures var x := ChunkObject(v, k, [], Some(usage)); LacksAnswer(x) && "usage" in x && x["usage"] == usage
  {
    hide Utf8.Scrub, IntNum;
    var x := ChunkObject(v, k, [], Some(usage));
    assert x.Keys == {"id", "object", "created", "model", "choices", "usage"};
  }

  lemma ReceiveUsage(c: Codec, v: Envelope, o: Options, k: nat, b: Accum, f: Frame)
    requires Faithful(c) && ValidAccum(b) && f.UsageChunk? && Sendable(f)
    ensures AggregateStep(c, b, Event("", FrameData(c, v, o, k, f))) == Applied(Received(b, f), None)
  {
    var x := FrameObject(v, o, k, f);
    FrameIsEncodable(v, o, k, f);
    EncodedIsNotDone(c, x);
    UsageLacksAnswer(v, k, f.usage);
    LacksMeaning(x);
    hide ChunkObject, IsStructuredQA, ErrorOf, DeltaOf, FirstStr, Faithful, Carried, Fits;
    var b1 := b.(usage := Usage(x, b.usage));
    assert ApplyPlain(b1, x) == b1;
    assert Fragments(map[]) == [];
    assert KindOf("") == Plain;
  }

  function ReceivedAll(b: Accum, frames: seq<Frame>): Accum
    decreases |frames|
  {
    if frames == [] then b else ReceivedAll(Received(b, frames[0]), frames[1..])
  }

  lemma {:induction false} ReceivedAllConcat(b: Accum, xs: seq<Frame>, ys: seq<Frame>)
    ensures ReceivedAll(b, xs + ys) == ReceivedAll(ReceivedAll(b, xs), ys)
    decreases |xs|
  {
    if xs == [] {
      assert xs + ys == ys;
    } else {
      assert (xs + ys)[1..] == xs[1..] + ys;
      hide Received;
      ReceivedAllConcat(Received(b, xs[0]), xs[1..], ys);
    }
  }

  lemma ReceiveOne(b: Accum, f: Frame)
    ensures ReceivedAll(b, [f]) == Received(b, f)
  {
    assert [f][1..] == [];
  }

  /** Reading clean frames back is receiving them one after the other. */
  lemma {:induction false} FoldIsReceivedAll(c: Codec, v: Envelope, o: Options, k: nat, b: Accum, frames: seq<Frame>)
    requires Faithful(c) && ValidAccum(b) && IsClean(frames)
    ensures Fold(c, Applied(b, None), ClientEvents(c, v, o, k, frames)) == Applied(ReceivedAll(b, frames), None)
    decreases |frames|
  {
    if frames != [] {
      var f := frames[0];
      var e := Event("", FrameData(c, v, o, k, f));
      if f.Chunk? && Readable(f) {
        ReceiveChunk(c, v, o, k, b, f);
      } else if f.Chunk? {
        ReceiveUnreadable(c, v, o, k, b, f);
      } else if f.UsageChunk? {
        ReceiveUsage(c, v, o, k, b, f);
      } else {
        assert Trim("[DONE]") == "[DONE]" && Trim("") == "" && KindOf("") == Plain;
        DoneStep(c, b, e);
      }
      StepKeepsValid(c, b, e);
      hide AggregateStep, Received, FrameData, Sendable;
      FoldCons(c, Applied(b, None), e, ClientEvents(c, v, o, k + 1, frames[1..]));
      FoldIsReceivedAll(c, v, o, k + 1, Received(b, f), frames[1..]);
    }
  }
}
