/**
 * What one line and one event of the CodeArts stream mean. Both interpreters, the aggregator
 * and the live translator, are built on these.
 */
module SseEvents {
  import opened Text
  import opened Json
  import opened ToolCalls
  import opened SseReader

  // ----- lines to events -----

  datatype Event = Event(name: string, data: string)

  datatype Scan = Scan(event: Option<Event>, pending: string)

  function TrimEol(s: string, newlines: bool): string {
    if |s| > 0 && (s[|s| - 1] == '\r' || (newlines && s[|s| - 1] == '\n')) then TrimEol(s[..|s| - 1], newlines) else s
  }

  /** `event:` lines set the pending name, `data:` lines consume it, an empty line drops it. */
  function ScanLine(raw: string, pending: string): Scan {
    var line := TrimEol(raw, false);
    if "event:" <= line then Scan(None, Trim(line[6..]))
    else if "data:" <= line then
      var d := Trim(line[5..]);
      if d == "" then Scan(None, pending) else Scan(Some(Event(pending, d)), "")
    else if ":" <= line then Scan(None, pending)
    else if line == "" then Scan(None, "")
    else Scan(None, pending)
  }

  function Prepend(event: Option<Event>, tail: seq<Event>): seq<Event> {
    if event.Some? then [event.value] + tail else tail
  }

  function Events(lines: seq<string>, pending: string): seq<Event> {
    if lines == [] then []
    else
      var s := ScanLine(TrimEol(lines[0], true), pending);
      Prepend(s.event, Events(lines[1..], s.pending))
  }

  /** The events still to come: a broken body loses the partial line in front of the failure. */
  function Ahead(text: string, broken: bool, pending: string): seq<Event> {
    var lines := Lines(text);
    Events(if broken then lines[..|lines| - 1] else lines, pending)
  }

  /** Reads one line and scans it. */
  method ReadEvent(r: ByteReader, pending: string) returns (event: Option<Event>, next: string, status: Status)
    modifies r`rest
    ensures status == Failed ==> r.broken && Ahead(old(r.rest), r.broken, pending) == []
    ensures status == Eof ==> !r.broken && Ahead(old(r.rest), r.broken, pending) == Prepend(event, [])
    ensures status == More ==> |r.rest| < |old(r.rest)|
    ensures status == More ==> Ahead(old(r.rest), r.broken, pending) == Prepend(event, Ahead(r.rest, r.broken, next))
  {
    ghost var before := Lines(r.rest);
    var line;
    line, status := r.ReadString();
    var scan := ScanLine(TrimEol(line, true), pending);
    event, next := scan.event, scan.pending;
    if status == More {
      assert before[1..] == Lines(r.rest);
      assert TrimEol(line, true) == TrimEol(before[0], true);
      if r.broken {
        assert before[..|before| - 1] == [before[0]] + Lines(r.rest)[..|Lines(r.rest)| - 1];
      }
    } else if r.broken {
      assert before[..0] == [];
    } else {
      assert Events(before, pending) == Prepend(event, Events(before[1..], next));
      assert before[1..] == [];
    }
  }

  // ----- the state both interpreters keep -----

  datatype Accum = Accum(content: string, reason: string, finish: string, calls: Calls, usage: Option<Object>)

  const INITIAL := Accum("", "", "stop", map[], None)

  datatype UpstreamError = UpstreamError(code: string, message: string)

  datatype Applied = Applied(accum: Accum, error: Option<UpstreamError>)

  datatype Kind = Plain | Answer | Reasoning | Finishing | Other

  function KindOf(name: string): Kind {
    var n := Lower(Trim(name));
    if n == "" || n == "data" then Plain
    else if n == "onanswer" || n == "answer" || n == "delta" || n == "message" || n == "content" then Answer
    else if n == "reasoning" || n == "thinking" || n == "onreasoning" || n == "onthinking" then Reasoning
    else if n == "done" || n == "end" || n == "finish" then Finishing
    else Other
  }

  /** A top-level `delta` object, or the delta and finish reason of the first choice. */
  function DeltaOf(payload: Object): (Option<Object>, string) {
    if ObjAt(payload, "delta").Some? then (ObjAt(payload, "delta"), "")
    else match ArrAt(payload, "choices")
      case None => (None, "")
      case Some(choices) =>
        if choices == [] || !choices[0].Obj? then (None, "")
        else (ObjAt(choices[0].fields, "delta"), StrAt(choices[0].fields, "finish_reason").GetOr(""))
  }

  function ErrorOf(payload: Object): Option<UpstreamError> {
    var code := FirstStr(payload, ["error_code", "code"]);
    if code == "" || code == "0" then None
    else
      var message := Trim(FirstStr(payload, ["error_msg", "message", "msg"]));
      Some(UpstreamError(code, if message != "" then message else "request failed"))
  }

  predicate IsDoneText(t: string) {
    t == "[DONE]" || t == "[DONE] " || Lower(t) == "done"
  }

  predicate LooksLikeCode(low: string) {
    || Contains(low, "import ") || Contains(low, "def ") || Contains(low, "class ") || Contains(low, "func ")
    || Contains(low, "package ") || Contains(low, "module ") || Contains(low, "struct ") || Contains(low, "interface ")
  }

  /** A question/answer object of plausible size whose answer does not look like code. */
  predicate IsStructuredQA(o: Object) {
    && StrAt(o, "question").Some? && StrAt(o, "answer").Some?
    && 1 <= |o["question"].s| <= 500
    && 1 <= |o["answer"].s| <= 100
    && !LooksLikeCode(Lower(o["answer"].s))
    && ("options" in o ==> o["options"].Arr? && 2 <= |o["options"].items| <= 10)
  }

  function FillAnswer(a: Accum, payload: Object): Accum {
    if |a.content| > 0 || !IsStructuredQA(payload) then a else a.(content := payload["answer"].s)
  }

  /** Concatenated text of the `output_text` items. */
  function OutputText(items: seq<Json>): string {
    if items == [] then ""
    else
      (if items[0].Obj? && StrAt(items[0].fields, "type") == Some("output_text")
        then StrAt(items[0].fields, "text").GetOr("") else "")
      + OutputText(items[1..])
  }

  function ApplyDelta(a: Accum, delta: Object): Accum {
    a.(content := a.content + StrAt(delta, "content").GetOr(""),
       reason := a.reason + StrAt(delta, "reasoning_content").GetOr(""))
  }

  function ApplyText(a: Accum, t: string): Accum {
    if IsDoneText(t) then a.(finish := "stop") else a.(content := t)
  }

  function ApplyPlain(a0: Accum, payload: Object): Accum {
    var (delta, finish) := DeltaOf(payload);
    var a := if finish != "" then a0.(finish := finish) else a0;
    if delta.Some? then ApplyDelta(a, delta.value)
    else if ObjAt(payload, "usage").Some? then if a.finish == "" then a.(finish := "stop") else a
    else
      var t := FirstStr(payload, ["text", "content", "delta"]);
      if t != "" then ApplyText(a, t)
      else
        var output := ArrAt(payload, "output").GetOr([]);
        if output != [] then
          var o := OutputText(output);
          if o != "" then a.(content := o) else a
        else FillAnswer(a, payload)
  }

  function ApplyAnswer(a0: Accum, payload: Object): Accum {
    var (delta, finish) := DeltaOf(payload);
    var a := if finish != "" then a0.(finish := finish) else a0;
    if delta.Some? then ApplyDelta(a, delta.value)
    else
      var t := FirstStr(payload, ["text", "content", "delta", "message"]);
      if t != "" then ApplyText(a, t) else FillAnswer(a, payload)
  }

  function ApplyFinishing(a: Accum, payload: Object): Accum {
    var f := FirstStr(payload, ["finish_reason", "finish", "reason"]);
    a.(finish := if f != "" then f else "stop")
  }

  function ApplyEvent(a: Accum, e: Event, payload: Object): Applied {
    var kind := KindOf(e.name);
    if kind == Plain && Trim(e.data) == "[DONE]" then
      Applied(if a.finish == "" then a.(finish := "stop") else a, None)
    else if kind != Reasoning && kind != Other && ErrorOf(payload).Some? then
      Applied(a, ErrorOf(payload))
    else Applied(match kind
      case Plain => ApplyPlain(a, payload)
      case Answer => ApplyAnswer(a, payload)
      case Reasoning => a.(reason := a.reason + FirstStr(payload, ["text", "reasoning", "content", "thinking"]))
      case Finishing => ApplyFinishing(a, payload)
      case Other => a, None)
  }

  /** What decoding fills in, whether or not it reports an error. */
  function Payload(c: Codec, data: string): Object {
    c.decode(data).fields
  }

  /** What decoding fills in, unless it reports an error. */
  function WholePayload(c: Codec, data: string): Object {
    if c.decode(data).whole then c.decode(data).fields else map[]
  }

  function Usage(payload: Object, otherwise: Option<Object>): Option<Object> {
    var u := ObjAt(payload, "usage");
    if u.Some? && u.value != map[] then u else otherwise
  }

  /** The tool-call fragments and the native usage of a payload. */
  function Collect(a: Accum, payload: Object): Accum {
    a.(calls := ApplyAll(a.calls, Fragments(DeltaOf(payload).0.GetOr(map[]))), usage := Usage(payload, a.usage))
  }

  /** One event, as the live translator takes it: fragments and usage, then text, reasoning and finish. */
  function Step(c: Codec, a: Accum, e: Event): Applied {
    ApplyEvent(Collect(a, Payload(c, e.data)), e, Payload(c, e.data))
  }

  /** The aggregator takes fragments and usage only from a payload that decodes without an error. */
  function AggregateStep(c: Codec, a: Accum, e: Event): Applied {
    ApplyEvent(Collect(a, WholePayload(c, e.data)), e, Payload(c, e.data))
  }

  lemma CollectNothing(a: Accum)
    ensures Collect(a, map[]) == a
  {
    assert Fragments(map[]) == [];
  }

  /** The same content, reasoning and finish reason. */
  predicate SaySame(a: Accum, b: Accum) {
    a.content == b.content && a.reason == b.reason && a.finish == b.finish
  }

  lemma CollectSaysSame(a: Accum, payload: Object)
    ensures SaySame(a, Collect(a, payload))
  {
  }

  lemma PlainSaysSame(a: Accum, b: Accum, payload: Object)
    requires SaySame(a, b)
    ensures SaySame(ApplyPlain(a, payload), ApplyPlain(b, payload))
  {
    hide IsStructuredQA, OutputText, IsDoneText, DeltaOf, FirstStr;
  }

  lemma AnswerSaysSame(a: Accum, b: Accum, payload: Object)
    requires SaySame(a, b)
    ensures SaySame(ApplyAnswer(a, payload), ApplyAnswer(b, payload))
  {
    hide IsStructuredQA, IsDoneText, DeltaOf, FirstStr;
  }

  /** Calls and usage have no part in what an event does to the rest, so both interpreters read the same text. */
  lemma StepsSaySame(c: Codec, a: Accum, b: Accum, e: Event)
    requires SaySame(a, b)
    ensures var s, t := Step(c, a, e), AggregateStep(c, b, e);
      s.error == t.error && SaySame(s.accum, t.accum)
  {
    var payload := Payload(c, e.data);
    var a1, b1 := Collect(a, payload), Collect(b, WholePayload(c, e.data));
    PlainSaysSame(a1, b1, payload);
    AnswerSaysSame(a1, b1, payload);
    hide ApplyPlain, ApplyAnswer, KindOf, ErrorOf, Collect, FirstStr;
  }

  // ----- the aggregated answer -----

  datatype Completion = Completion(content: string, reasoning: string, finish: string, toolCalls: seq<ToolCall>,
      usage: Option<Object>)

  ghost function Snapshot(c: Codec, a: Accum): Completion {
    Completion(c.unwrap(a.content), a.reason, a.finish, Sorted(a.calls), a.usage)
  }

  ghost predicate ValidAccum(a: Accum) {
    a.finish != "" && Keyed(a.calls) && a.usage != Some(map[])
  }

  lemma InitialIsValid()
    ensures ValidAccum(INITIAL)
  {
  }

  /** The finish reason stays set, calls and usage stay as they are. */
  predicate Kept(a: Accum, b: Accum) {
    b.finish != "" && b.calls == a.calls && b.usage == a.usage
  }

  lemma PlainKeeps(a: Accum, payload: Object)
    requires a.finish != ""
    ensures Kept(a, ApplyPlain(a, payload))
  {
    hide IsStructuredQA, OutputText, IsDoneText, DeltaOf, FirstStr;
  }

  lemma AnswerKeeps(a: Accum, payload: Object)
    requires a.finish != ""
    ensures Kept(a, ApplyAnswer(a, payload))
  {
    hide IsStructuredQA, IsDoneText, DeltaOf, FirstStr;
  }

  lemma ApplyEventKeeps(a: Accum, e: Event, payload: Object)
    requires a.finish != ""
    ensures Kept(a, ApplyEvent(a, e, payload).accum)
  {
    PlainKeeps(a, payload);
    AnswerKeeps(a, payload);
    hide ApplyPlain, ApplyAnswer, KindOf, ErrorOf, FirstStr, Trim;
  }

  /** The finish reason and the recorded usage are never empty, and every call sits under its own index. */
  lemma StepKeepsValid(c: Codec, a: Accum, e: Event)
    requires ValidAccum(a)
    ensures ValidAccum(Step(c, a, e).accum) && ValidAccum(AggregateStep(c, a, e).accum)
  {
    hide ApplyEvent, Collect;
    CollectKeepsValid(a, Payload(c, e.data));
    CollectKeepsValid(a, WholePayload(c, e.data));
    ApplyEventKeeps(Collect(a, Payload(c, e.data)), e, Payload(c, e.data));
    ApplyEventKeeps(Collect(a, WholePayload(c, e.data)), e, Payload(c, e.data));
  }

  lemma CollectKeepsValid(a: Accum, payload: Object)
    requires ValidAccum(a)
    ensures ValidAccum(Collect(a, payload))
  {
    AccumulationKeepsKeys(a.calls, Fragments(DeltaOf(payload).0.GetOr(map[])));
  }

  lemma PlainGrows(a: Accum, payload: Object)
    ensures a.reason <= ApplyPlain(a, payload).reason
  {
    hide IsStructuredQA, OutputText, IsDoneText, DeltaOf, FirstStr;
  }

  lemma AnswerGrows(a: Accum, payload: Object)
    ensures a.reason <= ApplyAnswer(a, payload).reason
  {
    hide IsStructuredQA, IsDoneText, DeltaOf, FirstStr;
  }

  /** Reasoning only ever grows. */
  lemma ReasoningGrows(c: Codec, a: Accum, e: Event)
    ensures a.reason <= Step(c, a, e).accum.reason && a.reason <= AggregateStep(c, a, e).accum.reason
  {
    hide AggregateStep, ApplyPlain, ApplyAnswer, KindOf, ErrorOf, Collect, FirstStr, Payload, Trim;
    StepsSaySame(c, a, a, e);
    CollectSaysSame(a, Payload(c, e.data));
    PlainGrows(Collect(a, Payload(c, e.data)), Payload(c, e.data));
    AnswerGrows(Collect(a, Payload(c, e.data)), Payload(c, e.data));
  }

  /** The text that a plain or answer event carries outside a delta. */
  function SnapshotText(payload: Object, plain: bool): string {
    if plain then FirstStr(payload, ["text", "content", "delta"])
    else FirstStr(payload, ["text", "content", "delta", "message"])
  }

  /** The text that a plain or answer event puts in place of the content, if its payload carries one. */
  function ReplacingText(payload: Object, plain: bool): Option<string> {
    var t := SnapshotText(payload, plain);
    var output := OutputText(ArrAt(payload, "output").GetOr([]));
    if DeltaOf(payload).0.Some? || (plain && ObjAt(payload, "usage").Some?) then None
    else if t != "" then if IsDoneText(t) then None else Some(t)
    else if plain && output != "" then Some(output)
    else None
  }

  /** The text that a snapshot or an output array puts in place of the content, if this event carries one. */
  function Replacement(c: Codec, e: Event): Option<string> {
    var payload, kind := Payload(c, e.data), KindOf(e.name);
    if (kind != Plain && kind != Answer) || (kind == Plain && Trim(e.data) == "[DONE]") || ErrorOf(payload).Some?
      then None
    else ReplacingText(payload, kind == Plain)
  }

  /** The content is this text, or it is extended. */
  predicate PutInPlace(text: Option<string>, a: Accum, b: Accum) {
    if text.Some? then b.content == text.value else a.content <= b.content
  }

  lemma PlainReplaces(a: Accum, payload: Object)
    ensures PutInPlace(ReplacingText(payload, true), a, ApplyPlain(a, payload))
  {
    assert OutputText([]) == "";
    hide IsStructuredQA, OutputText, IsDoneText, FirstStr;
  }

  lemma AnswerReplaces(a: Accum, payload: Object)
    ensures PutInPlace(ReplacingText(payload, false), a, ApplyAnswer(a, payload))
  {
    hide IsStructuredQA, IsDoneText, FirstStr;
  }

  /** Content is replaced exactly by such a text, and by every other event at most extended. */
  lemma ContentReplacedOrExtended(c: Codec, a: Accum, e: Event)
    ensures Replacement(c, e).Some? ==> Step(c, a, e).accum.content == Replacement(c, e).value
    ensures Replacement(c, e).None? ==> a.content <= Step(c, a, e).accum.content
    ensures AggregateStep(c, a, e).accum.content == Step(c, a, e).accum.content
  {
    hide AggregateStep, ApplyPlain, ApplyAnswer, ReplacingText, KindOf, ErrorOf, Collect, FirstStr, Payload, Trim;
    StepsSaySame(c, a, a, e);
    CollectSaysSame(a, Payload(c, e.data));
    PlainReplaces(Collect(a, Payload(c, e.data)), Payload(c, e.data));
    AnswerReplaces(Collect(a, Payload(c, e.data)), Payload(c, e.data));
  }

  // ----- the finish reason -----

  /** The finish reason that the payload of a plain or answer event sets. */
  function TextSetsFinish(payload: Object, plain: bool): Option<string> {
    var (delta, finish) := DeltaOf(payload);
    var t := SnapshotText(payload, plain);
    if delta.None? && !(plain && ObjAt(payload, "usage").Some?) && t != "" && IsDoneText(t) then Some("stop")
    else if finish != "" then Some(finish)
    else None
  }

  /** The finish reason that an event sets, whatever state it meets; None if it leaves the reason alone. */
  function SetsFinish(c: Codec, e: Event): Option<string> {
    var payload, kind := Payload(c, e.data), KindOf(e.name);
    if kind == Reasoning || kind == Other || (kind == Plain && Trim(e.data) == "[DONE]") || ErrorOf(payload).Some?
      then None
    else if kind == Finishing then
      var f := FirstStr(payload, ["finish_reason", "finish", "reason"]);
      Some(if f != "" then f else "stop")
    else TextSetsFinish(payload, kind == Plain)
  }

  lemma PlainFinish(a: Accum, payload: Object)
    requires a.finish != ""
    ensures ApplyPlain(a, payload).finish == TextSetsFinish(payload, true).GetOr(a.finish)
  {
    hide IsStructuredQA, OutputText, IsDoneText, FirstStr;
  }

  lemma AnswerFinish(a: Accum, payload: Object)
    requires a.finish != ""
    ensures ApplyAnswer(a, payload).finish == TextSetsFinish(payload, false).GetOr(a.finish)
  {
    hide IsStructuredQA, IsDoneText, FirstStr;
  }

  /** Once a finish reason is in force, the next one depends on the event alone. */
  lemma FinishIsLocal(c: Codec, a: Accum, e: Event)
    requires a.finish != ""
    ensures Step(c, a, e).accum.finish == SetsFinish(c, e).GetOr(a.finish)
    ensures AggregateStep(c, a, e).accum.finish == SetsFinish(c, e).GetOr(a.finish)
  {
    hide AggregateStep, ApplyPlain, ApplyAnswer, TextSetsFinish, KindOf, ErrorOf, Collect, Payload, Trim;
    StepsSaySame(c, a, a, e);
    CollectSaysSame(a, Payload(c, e.data));
    PlainFinish(Collect(a, Payload(c, e.data)), Payload(c, e.data));
    AnswerFinish(Collect(a, Payload(c, e.data)), Payload(c, e.data));
  }
}
