/**
 * What each event says, by its name and the keys of its payload, and what a whole stream has said when it ends:
 * the captured reasoning and content in terms of the events alone.
 */
module SseText {
  import opened Text
  import opened Json
  import opened SseEvents
  import opened SsePartial
  import opened SseAggregate
  import opened SseStream
  import opened SseAgreement

  // ----- reading a payload -----

  predicate IsText(o: Object, k: string, s: string) {
    k in o && o[k] == Str(s)
  }

  predicate NoText(o: Object, k: string) {
    k !in o || !o[k].Str?
  }

  /** The string under the key, or "". */
  function TextAt(o: Object, k: string): string {
    if k in o && o[k].Str? then o[k].s else ""
  }

  /** `t` is the string under `keys[i]`, and none of the keys before holds a string. */
  predicate IsTextUnder(o: Object, keys: seq<string>, i: nat, t: string) {
    i < |keys| && IsText(o, keys[i], t) && forall j | 0 <= j < i :: NoText(o, keys[j])
  }

  /** `t` is the string under the first of these keys that holds one, or "" if none does. */
  ghost predicate IsFirstText(o: Object, keys: seq<string>, t: string) {
    (t == "" && forall i | 0 <= i < |keys| :: NoText(o, keys[i])) || exists i: nat :: IsTextUnder(o, keys, i, t)
  }

  /** `delta` is what the payload adds: an object at its top, or in its first choice. */
  predicate IsDelta(payload: Object, delta: Object) {
    if "delta" in payload && payload["delta"].Obj? then payload["delta"].fields == delta
    else
      && "choices" in payload && payload["choices"].Arr? && payload["choices"].items != []
      && payload["choices"].items[0].Obj?
      && var choice := payload["choices"].items[0].fields; "delta" in choice && choice["delta"] == Obj(delta)
  }

  /** An error frame: the first of the code keys that holds a string holds neither "" nor "0". */
  ghost predicate IsError(payload: Object) {
    exists code :: IsFirstText(payload, ["error_code", "code"], code) && code != "" && code != "0"
  }

  lemma {:induction false} FirstIsFirst(o: Object, keys: seq<string>)
    ensures IsFirstText(o, keys, FirstStr(o, keys))
  {
    if keys != [] {
      var t, tail := FirstStr(o, keys), keys[1..];
      if NoText(o, keys[0]) {
        FirstIsFirst(o, tail);
        if exists i: nat :: IsTextUnder(o, tail, i, t) {
          var i: nat :| IsTextUnder(o, tail, i, t);
          assert keys[i + 1] == tail[i] && forall j | 0 < j < i + 1 :: keys[j] == tail[j - 1];
          assert IsTextUnder(o, keys, i + 1, t);
        } else {
          assert forall j | 0 < j < |keys| :: keys[j] == tail[j - 1];
        }
      } else {
        assert IsTextUnder(o, keys, 0, t);
      }
    }
  }

  lemma FirstUnique(o: Object, keys: seq<string>, t: string)
    requires IsFirstText(o, keys, t)
    ensures t == FirstStr(o, keys)
  {
    FirstIsFirst(o, keys);
    hide FirstStr;
    var u := FirstStr(o, keys);
    if i: nat, j: nat :| IsTextUnder(o, keys, i, t) && IsTextUnder(o, keys, j, u) {
      assert i == j;
    }
  }

  // ----- the readers of the engine, told by keys -----

  lemma DeltaIsDelta(payload: Object)
    ensures forall delta :: IsDelta(payload, delta) <==> DeltaOf(payload).0 == Some(delta)
  {
  }

  /** The finish reason of a chunk stands beside the delta of the first choice; a delta at the top has none. */
  lemma FinishOfChunk(payload: Object)
    ensures DeltaOf(payload).1 ==
      if "delta" in payload && payload["delta"].Obj? then ""
      else if "choices" in payload && payload["choices"].Arr? && payload["choices"].items != []
        && payload["choices"].items[0].Obj? then TextAt(payload["choices"].items[0].fields, "finish_reason")
      else ""
  {
  }

  lemma ErrorIsError(payload: Object)
    ensures IsError(payload) <==> ErrorOf(payload).Some?
    ensures ErrorOf(payload).Some? ==>
      && IsFirstText(payload, ["error_code", "code"], ErrorOf(payload).value.code)
      && var text := Trim(FirstStr(payload, ["error_msg", "message", "msg"]));
         ErrorOf(payload).value.message == if text == "" then "request failed" else text
  {
    var keys := ["error_code", "code"];
    FirstIsFirst(payload, keys);
    forall code | IsFirstText(payload, keys, code) ensures code == FirstStr(payload, keys) {
      FirstUnique(payload, keys, code);
    }
    hide FirstStr, IsFirstText;
  }

  /** An item of an output array that counts. */
  predicate IsOutputText(item: Json) {
    item.Obj? && IsText(item.fields, "type", "output_text")
  }

  /** The texts of the items that count, joined. */
  function Joined(items: seq<Json>): string {
    if items == [] then ""
    else
      var last := items[|items| - 1];
      Joined(items[..|items| - 1]) + if IsOutputText(last) then TextAt(last.fields, "text") else ""
  }

  lemma {:induction false} OutputSnoc(items: seq<Json>, item: Json)
    ensures OutputText(items + [item]) ==
      OutputText(items) + if IsOutputText(item) then TextAt(item.fields, "text") else ""
    decreases |items|
  {
    if items == [] {
      assert ([] + [item])[1..] == [];
      var text := if IsOutputText(item) then TextAt(item.fields, "text") else "";
      assert text + "" == text && "" + text == text;
    } else {
      assert (items + [item])[0] == items[0] && (items + [item])[1..] == items[1..] + [item];
      OutputSnoc(items[1..], item);
      var head := if IsOutputText(items[0]) then TextAt(items[0].fields, "text") else "";
      Regroup(head, OutputText(items[1..]), if IsOutputText(item) then TextAt(item.fields, "text") else "");
    }
  }

  lemma {:induction false} OutputIsJoined(items: seq<Json>)
    ensures OutputText(items) == Joined(items)
    decreases |items|
  {
    if items != [] {
      var init, last := items[..|items| - 1], items[|items| - 1];
      assert items == init + [last];
      OutputSnoc(init, last);
      OutputIsJoined(init);
    }
  }

  /** Words that make an answer look like code. */
  const CODE_WORDS: set<string> :=
    {"import ", "def ", "class ", "func ", "package ", "module ", "struct ", "interface "}

  /**
   * A question of at most 500 bytes, with an answer of at most 100 that holds no such word, and 2 to 10 options if it
   * has any.
   */
  ghost predicate IsQuiz(o: Object, answer: string) {
    && IsText(o, "answer", answer) && 1 <= |answer| <= 100
    && (forall word | word in CODE_WORDS :: !Contains(Lower(answer), word))
    && (exists question: string :: IsText(o, "question", question) && 1 <= |question| <= 500)
    && ("options" in o ==> o["options"].Arr? && 2 <= |o["options"].items| <= 10)
  }

  lemma QuizIsQuiz(o: Object)
    ensures IsStructuredQA(o) <==> exists answer :: IsQuiz(o, answer)
    ensures forall answer :: IsQuiz(o, answer) ==> StrAt(o, "answer") == Some(answer)
  {
    hide Contains, Lower;
    if IsStructuredQA(o) {
      var answer := o["answer"].s;
      assert IsText(o, "question", o["question"].s);
      forall word | word in CODE_WORDS ensures !Contains(Lower(answer), word) {
      }
      assert IsQuiz(o, answer);
    }
    if answer :| IsQuiz(o, answer) {
      assert o["answer"].s == answer;
      var question: string :| IsText(o, "question", question) && 1 <= |question| <= 500;
      NotCode(answer);
    }
  }

  lemma NotCode(answer: string)
    requires forall word | word in CODE_WORDS :: !Contains(Lower(answer), word)
    ensures !LooksLikeCode(Lower(answer))
  {
    hide Contains, Lower;
    assert "import " in CODE_WORDS && "def " in CODE_WORDS && "class " in CODE_WORDS && "func " in CODE_WORDS;
    assert "package " in CODE_WORDS && "module " in CODE_WORDS && "struct " in CODE_WORDS && "interface " in CODE_WORDS;
  }

  // ----- event names -----

  const PLAIN_NAMES: set<string> := {"", "data"}
  const ANSWER_NAMES: set<string> := {"onanswer", "answer", "delta", "message", "content"}
  const REASONING_NAMES: set<string> := {"reasoning", "thinking", "onreasoning", "onthinking"}
  const FINISHING_NAMES: set<string> := {"done", "end", "finish"}

  /** Event names count in any case and with space around them. */
  function NameOf(e: Event): string {
    Lower(Trim(e.name))
  }

  lemma NamesAreKinds(e: Event)
    ensures KindOf(e.name) == Plain <==> NameOf(e) in PLAIN_NAMES
    ensures KindOf(e.name) == Answer <==> NameOf(e) in ANSWER_NAMES
    ensures KindOf(e.name) == Reasoning <==> NameOf(e) in REASONING_NAMES
    ensures KindOf(e.name) == Finishing <==> NameOf(e) in FINISHING_NAMES
  {
    hide Lower, Trim;
  }

  // ----- what one event says -----

  /** An event that may carry content: unnamed or named an answer, and not the end marker of unnamed events. */
  predicate MayAnswer(e: Event) {
    (NameOf(e) in PLAIN_NAMES && Trim(e.data) != "[DONE]") || NameOf(e) in ANSWER_NAMES
  }

  /** The keys under which such an event may hold the whole text so far. */
  function TextKeys(e: Event): seq<string> {
    if NameOf(e) in PLAIN_NAMES then ["text", "content", "delta"] else ["text", "content", "delta", "message"]
  }

  /** In both interpreters the event leads from this content and reasoning to these, and is no error. */
  ghost predicate Says(c: Codec, a: Accum, e: Event, content: string, reason: string) {
    && Step(c, a, e).error.None? && AggregateStep(c, a, e).error.None?
    && Step(c, a, e).accum.content == AggregateStep(c, a, e).accum.content == content
    && Step(c, a, e).accum.reason == AggregateStep(c, a, e).accum.reason == reason
  }

  /** A reasoning event adds its first text to the reasoning, and leaves the content alone. */
  lemma ReasoningSays(c: Codec, a: Accum, e: Event, t: string)
    requires NameOf(e) in REASONING_NAMES
    requires IsFirstText(Payload(c, e.data), ["text", "reasoning", "content", "thinking"], t)
    ensures Says(c, a, e, a.content, a.reason + t)
  {
    FirstUnique(Payload(c, e.data), ["text", "reasoning", "content", "thinking"], t);
    NamesAreKinds(e);
    CollectSaysSame(a, Payload(c, e.data));
    StepsSaySame(c, a, a, e);
    hide KindOf, FirstStr, IsFirstText, NameOf, ErrorOf, DeltaOf, Collect, AggregateStep;
  }

  /** A delta adds its `content` and its `reasoning_content`. */
  lemma DeltaSays(c: Codec, a: Accum, e: Event, delta: Object)
    requires MayAnswer(e) && !IsError(Payload(c, e.data)) && IsDelta(Payload(c, e.data), delta)
    ensures Says(c, a, e, a.content + TextAt(delta, "content"), a.reason + TextAt(delta, "reasoning_content"))
  {
    var payload := Payload(c, e.data);
    DeltaIsDelta(payload);
    ErrorIsError(payload);
    NamesAreKinds(e);
    CollectSaysSame(a, Payload(c, e.data));
    StepsSaySame(c, a, a, e);
    hide KindOf, FirstStr, IsError, IsDelta, NameOf, ErrorOf, DeltaOf, Collect, AggregateStep;
  }

  /** Neither an error nor a delta, and not a frame with usage alone. */
  ghost predicate IsWhole(e: Event, payload: Object) {
    && MayAnswer(e) && !IsError(payload) && (forall delta :: !IsDelta(payload, delta))
    && !(NameOf(e) in PLAIN_NAMES && "usage" in payload && payload["usage"].Obj?)
  }

  /** Otherwise its first text takes the place of the content, unless it is an end marker. */
  lemma TextSays(c: Codec, a: Accum, e: Event, t: string)
    requires IsWhole(e, Payload(c, e.data)) && IsFirstText(Payload(c, e.data), TextKeys(e), t) && t != ""
    ensures Says(c, a, e, if t == "[DONE]" || t == "[DONE] " || Lower(t) == "done" then a.content else t, a.reason)
  {
    var payload := Payload(c, e.data);
    WholeHasNoDelta(e, payload);
    FirstUnique(payload, TextKeys(e), t);
    NamesAreKinds(e);
    CollectSaysSame(a, Payload(c, e.data));
    StepsSaySame(c, a, a, e);
    hide KindOf, FirstStr, IsFirstText, IsWhole, NameOf, ErrorOf, DeltaOf, Collect, AggregateStep, Lower;
  }

  lemma WholeHasNoDelta(e: Event, payload: Object)
    requires IsWhole(e, payload)
    ensures DeltaOf(payload).0 == None && ErrorOf(payload) == None && MayAnswer(e)
    ensures NameOf(e) in PLAIN_NAMES ==> ObjAt(payload, "usage") == None
  {
    DeltaIsDelta(payload);
    ErrorIsError(payload);
    hide IsDelta, IsError, NameOf;
  }

  /** Without a text, an unnamed event's output array takes the place of the content, if it holds any text. */
  lemma OutputSays(c: Codec, a: Accum, e: Event, items: seq<Json>)
    requires IsWhole(e, Payload(c, e.data)) && IsFirstText(Payload(c, e.data), TextKeys(e), "")
    requires NameOf(e) in PLAIN_NAMES && items != []
      && "output" in Payload(c, e.data) && Payload(c, e.data)["output"] == Arr(items)
    ensures Says(c, a, e, if Joined(items) != "" then Joined(items) else a.content, a.reason)
  {
    var payload := Payload(c, e.data);
    WholeHasNoDelta(e, payload);
    FirstUnique(payload, TextKeys(e), "");
    NamesAreKinds(e);
    CollectSaysSame(a, Payload(c, e.data));
    StepsSaySame(c, a, a, e);
    OutputIsJoined(items);
    hide KindOf, FirstStr, IsFirstText, IsWhole, NameOf, ErrorOf, DeltaOf, Collect, AggregateStep, OutputText, Joined;
  }

  /** Without either, a question/answer frame fills empty content with its answer; nothing else says anything. */
  lemma QuizSays(c: Codec, a: Accum, e: Event, content: string)
    requires IsWhole(e, Payload(c, e.data)) && IsFirstText(Payload(c, e.data), TextKeys(e), "")
    requires NameOf(e) in PLAIN_NAMES ==>
      !("output" in Payload(c, e.data) && Payload(c, e.data)["output"].Arr? && Payload(c, e.data)["output"].items != [])
    requires if a.content == "" && exists answer :: IsQuiz(Payload(c, e.data), answer)
      then IsQuiz(Payload(c, e.data), content) else content == a.content
    ensures Says(c, a, e, content, a.reason)
  {
    var payload := Payload(c, e.data);
    WholeHasNoDelta(e, payload);
    FirstUnique(payload, TextKeys(e), "");
    NamesAreKinds(e);
    CollectSaysSame(a, Payload(c, e.data));
    StepsSaySame(c, a, a, e);
    QuizIsQuiz(payload);
    hide KindOf, FirstStr, IsFirstText, IsWhole, NameOf, ErrorOf, DeltaOf, Collect, AggregateStep, IsQuiz,
      IsStructuredQA;
  }

  /** Finishing events, frames with usage alone, end markers and events of other names say nothing. */
  lemma SilentSays(c: Codec, a: Accum, e: Event)
    requires if MayAnswer(e) then
        && NameOf(e) in PLAIN_NAMES && !IsError(Payload(c, e.data))
        && (forall delta :: !IsDelta(Payload(c, e.data), delta))
        && "usage" in Payload(c, e.data) && Payload(c, e.data)["usage"].Obj?
      else NameOf(e) !in REASONING_NAMES && (NameOf(e) in FINISHING_NAMES ==> !IsError(Payload(c, e.data)))
    ensures Says(c, a, e, a.content, a.reason)
  {
    var payload := Payload(c, e.data);
    DeltaIsDelta(payload);
    ErrorIsError(payload);
    NamesAreKinds(e);
    CollectSaysSame(a, Payload(c, e.data));
    StepsSaySame(c, a, a, e);
    hide KindOf, FirstStr, IsError, IsDelta, NameOf, ErrorOf, DeltaOf, Collect, AggregateStep;
  }

  /** An error frame reports its code and message and changes neither content nor reasoning. */
  lemma ErrorSays(c: Codec, a: Accum, e: Event, code: string, text: string)
    requires MayAnswer(e) || NameOf(e) in FINISHING_NAMES
    requires IsFirstText(Payload(c, e.data), ["error_code", "code"], code) && code != "" && code != "0"
    requires IsFirstText(Payload(c, e.data), ["error_msg", "message", "msg"], text)
    ensures var s, t := Step(c, a, e), AggregateStep(c, a, e);
      && s.error == t.error == Some(UpstreamError(code, if Trim(text) != "" then Trim(text) else "request failed"))
      && SaySame(s.accum, a) && SaySame(t.accum, a)
  {
    var payload := Payload(c, e.data);
    ErrorIsError(payload);
    FirstUnique(payload, ["error_code", "code"], code);
    FirstUnique(payload, ["error_code", "code"], ErrorOf(payload).value.code);
    FirstUnique(payload, ["error_msg", "message", "msg"], text);
    NamesAreKinds(e);
    CollectSaysSame(a, Payload(c, e.data));
    StepsSaySame(c, a, a, e);
    hide KindOf, FirstStr, IsFirstText, NameOf, ErrorOf, DeltaOf, Collect, AggregateStep;
  }

  /** In both interpreters the event leaves this finish reason in force. */
  ghost predicate Finishes(c: Codec, a: Accum, e: Event, finish: string) {
    Step(c, a, e).accum.finish == AggregateStep(c, a, e).accum.finish == finish
  }

  /** A finishing event sets the first of its reasons, or "stop". */
  lemma FinishingSays(c: Codec, a: Accum, e: Event, t: string)
    requires a.finish != "" && NameOf(e) in FINISHING_NAMES && !IsError(Payload(c, e.data))
    requires IsFirstText(Payload(c, e.data), ["finish_reason", "finish", "reason"], t)
    ensures Finishes(c, a, e, if t != "" then t else "stop")
  {
    FirstUnique(Payload(c, e.data), ["finish_reason", "finish", "reason"], t);
    ErrorIsError(Payload(c, e.data));
    NamesAreKinds(e);
    FinishIsLocal(c, a, e);
    hide KindOf, FirstStr, IsFirstText, IsError, NameOf, ErrorOf, DeltaOf, Step, AggregateStep, TextSetsFinish, Trim;
  }

  /** The live translation stops at an end marker, at an error frame, and at a finishing event, and nowhere else. */
  lemma TerminalExactly(c: Codec, e: Event)
    requires Trimmed(e)
    ensures IsTerminal(c, e) <==>
      || e.data == "[DONE]"
      || NameOf(e) in FINISHING_NAMES
      || (MayAnswer(e) && IsError(Payload(c, e.data)))
  {
    ErrorIsError(Payload(c, e.data));
    NamesAreKinds(e);
    hide FirstStr, IsError, ErrorOf, DeltaOf, Collect, Trim;
  }

  /** The finish reason beside the delta of the first choice. */
  function ChunkFinish(payload: Object): string {
    if "delta" in payload && payload["delta"].Obj? then ""
    else if "choices" in payload && payload["choices"].Arr? && payload["choices"].items != []
      && payload["choices"].items[0].Obj? then TextAt(payload["choices"].items[0].fields, "finish_reason")
    else ""
  }

  /** A text that marks the end sets "stop"; any other answer sets the reason of its chunk, if that gives one. */
  lemma ChunkSays(c: Codec, a: Accum, e: Event, t: string)
    requires a.finish != "" && MayAnswer(e) && !IsError(Payload(c, e.data))
    requires IsFirstText(Payload(c, e.data), TextKeys(e), t)
    ensures var payload := Payload(c, e.data);
      Finishes(c, a, e,
        if IsWhole(e, payload) && (t == "[DONE]" || t == "[DONE] " || Lower(t) == "done") then "stop"
        else if ChunkFinish(payload) != "" then ChunkFinish(payload) else a.finish)
  {
    var payload := Payload(c, e.data);
    FirstUnique(payload, TextKeys(e), t);
    ErrorIsError(payload);
    DeltaIsDelta(payload);
    FinishOfChunk(payload);
    NamesAreKinds(e);
    FinishIsLocal(c, a, e);
    DoneIsNoText();
    hide KindOf, FirstStr, IsFirstText, IsError, IsDelta, NameOf, ErrorOf, DeltaOf, Step, AggregateStep, Lower, Trim;
  }

  lemma DoneIsNoText()
    ensures Lower("") != "done"
  {
  }

  /** Any other event leaves the reason as it is. */
  lemma NoFinishSays(c: Codec, a: Accum, e: Event)
    requires a.finish != ""
    requires (!MayAnswer(e) && NameOf(e) !in FINISHING_NAMES)
      || (NameOf(e) !in REASONING_NAMES && IsError(Payload(c, e.data)))
    ensures Finishes(c, a, e, a.finish)
  {
    ErrorIsError(Payload(c, e.data));
    NamesAreKinds(e);
    FinishIsLocal(c, a, e);
    hide KindOf, FirstStr, IsError, NameOf, ErrorOf, DeltaOf, Step, AggregateStep, TextSetsFinish;
  }

  // ----- what a stream says -----

  /** What an event does to the content. */
  datatype Voice =
    | Silence
    | Adds(text: string)
    | Replaces(text: string)
    | Fills(text: string)

  function Voiced(content: string, voice: Voice): string {
    match voice
    case Silence => content
    case Adds(text) => content + text
    case Replaces(text) => text
    case Fills(text) => if content == "" then text else content
  }

  /** What the payload of an unnamed or answer event does to the content. */
  function PayloadVoice(payload: Object, plain: bool): Voice {
    var text := SnapshotText(payload, plain);
    if DeltaOf(payload).0.Some? then Adds(TextAt(DeltaOf(payload).0.value, "content"))
    else if plain && ObjAt(payload, "usage").Some? then Silence
    else if text != "" then if IsDoneText(text) then Silence else Replaces(text)
    else if plain && ArrAt(payload, "output").GetOr([]) != [] then
      var joined := Joined(payload["output"].items);
      if joined != "" then Replaces(joined) else Silence
    else if IsStructuredQA(payload) then Fills(payload["answer"].s)
    else Silence
  }

  function VoiceOf(c: Codec, e: Event): Voice {
    var payload := Payload(c, e.data);
    if MayAnswer(e) && ErrorOf(payload).None? then PayloadVoice(payload, NameOf(e) in PLAIN_NAMES) else Silence
  }

  /** What a delta adds to the reasoning. */
  function DeltaReason(payload: Object): string {
    if DeltaOf(payload).0.Some? then TextAt(DeltaOf(payload).0.value, "reasoning_content") else ""
  }

  /** What an event adds to the reasoning. */
  function ReasonOf(c: Codec, e: Event): string {
    var payload := Payload(c, e.data);
    if NameOf(e) in REASONING_NAMES then FirstStr(payload, ["text", "reasoning", "content", "thinking"])
    else if MayAnswer(e) && ErrorOf(payload).None? then DeltaReason(payload)
    else ""
  }

  lemma PlainVoiced(a: Accum, payload: Object)
    ensures ApplyPlain(a, payload).content == Voiced(a.content, PayloadVoice(payload, true))
  {
    OutputIsJoined(ArrAt(payload, "output").GetOr([]));
    assert SnapshotText(payload, true) == FirstStr(payload, ["text", "content", "delta"]);
    hide FirstStr, OutputText, Joined, IsStructuredQA, IsDoneText, SnapshotText;
  }

  lemma PlainReasoned(a: Accum, payload: Object)
    ensures ApplyPlain(a, payload).reason == a.reason + DeltaReason(payload)
  {
    assert a.reason + "" == a.reason;
    hide FirstStr, OutputText, IsStructuredQA, IsDoneText;
  }

  lemma AnswerVoiced(a: Accum, payload: Object)
    ensures ApplyAnswer(a, payload).content == Voiced(a.content, PayloadVoice(payload, false))
    ensures ApplyAnswer(a, payload).reason == a.reason + DeltaReason(payload)
  {
    assert a.reason + "" == a.reason;
    hide FirstStr, IsStructuredQA, IsDoneText;
  }

  /** One event, summed up. */
  lemma EventSays(c: Codec, a: Accum, e: Event)
    ensures var s := AggregateStep(c, a, e).accum;
      s.content == Voiced(a.content, VoiceOf(c, e)) && s.reason == a.reason + ReasonOf(c, e)
  {
    var payload := Payload(c, e.data);
    NamesAreKinds(e);
    CollectSaysSame(a, WholePayload(c, e.data));
    PlainVoiced(Collect(a, WholePayload(c, e.data)), payload);
    PlainReasoned(Collect(a, WholePayload(c, e.data)), payload);
    AnswerVoiced(Collect(a, WholePayload(c, e.data)), payload);
    assert a.reason + "" == a.reason;
    hide KindOf, FirstStr, NameOf, ErrorOf, Collect, ApplyPlain, ApplyAnswer, PayloadVoice, DeltaReason, Trim;
  }

  function Reasons(c: Codec, events: seq<Event>): string {
    if events == [] then "" else ReasonOf(c, events[0]) + Reasons(c, events[1..])
  }

  function Spoken(c: Codec, events: seq<Event>, content: string): string {
    if events == [] then content else Spoken(c, events[1..], Voiced(content, VoiceOf(c, events[0])))
  }

  /** All that is added by deltas. */
  function AllAdded(c: Codec, events: seq<Event>): string {
    if events == [] then ""
    else (if VoiceOf(c, events[0]).Adds? then VoiceOf(c, events[0]).text else "") + AllAdded(c, events[1..])
  }

  lemma {:induction false} FoldSays(c: Codec, a: Applied, events: seq<Event>)
    ensures var f := Fold(c, a, events).accum;
      f.content == Spoken(c, events, a.accum.content) && f.reason == a.accum.reason + Reasons(c, events)
    decreases |events|
  {
    hide AggregateStep, VoiceOf, Voiced, ReasonOf;
    if events == [] {
      assert a.accum.reason + "" == a.accum.reason;
    } else {
      EventSays(c, a.accum, events[0]);
      var s := AggregateStep(c, a.accum, events[0]);
      FoldSays(c, Applied(s.accum, if s.error.Some? then s.error else a.error), events[1..]);
      Regroup(a.accum.reason, ReasonOf(c, events[0]), Reasons(c, events[1..]));
    }
  }

  /**
   * Whenever a stream ends cleanly, the captured reasoning is what its events up to the terminal one add to the
   * reasoning, joined, and the captured content what they have said in the end. The same is true of the aggregator
   * for all events of its body.
   */
  lemma CapturedText(c: Codec, o: Options, lines: seq<string>, broken: bool)
    requires c.decode("[DONE]") == UNREADABLE
    ensures var events := Events(lines, "");
      var seen := UpToTerminal(c, events);
      var outcome := Translate(c, o, INITIAL, events, broken).outcome;
      EndsCleanly(c, events, broken) ==>
        && outcome.Finished? && outcome.accum.reason == Reasons(c, seen)
        && outcome.accum.content == Spoken(c, seen, "")
    ensures AggregateLines(c, lines).Ok? ==>
      && AggregateLines(c, lines).value.reasoning == Reasons(c, Events(lines, ""))
      && AggregateLines(c, lines).value.content == c.unwrap(Spoken(c, Events(lines, ""), ""))
  {
    hide Translate, Events, UpToTerminal, EndsCleanly, Fold, Reasons, Spoken, Trimmed;
    var events := Events(lines, "");
    TrimEnds("");
    EventsAreTrimmed(lines, "");
    InitialIsValid();
    OutcomeExactly(c, o, INITIAL, events, broken);
    AgreeFrom(c, o, INITIAL, INITIAL, events, broken);
    FoldSays(c, Applied(INITIAL, None), UpToTerminal(c, events));
    FoldSays(c, Applied(INITIAL, None), events);
    assert "" + Reasons(c, events) == Reasons(c, events);
    assert "" + Reasons(c, UpToTerminal(c, events)) == Reasons(c, UpToTerminal(c, events));
  }

  /** No event replaces the content, and what is already there keeps answers of question frames out. */
  lemma {:induction false} OnlyAdded(c: Codec, events: seq<Event>, content: string)
    requires content != "" && forall i | 0 <= i < |events| :: !VoiceOf(c, events[i]).Replaces?
    ensures Spoken(c, events, content) == content + AllAdded(c, events)
    decreases |events|
  {
    hide VoiceOf;
    if events == [] {
      assert content + "" == content;
    } else {
      var voice := VoiceOf(c, events[0]);
      var added := if voice.Adds? then voice.text else "";
      assert Voiced(content, voice) == content + added;
      OnlyAdded(c, events[1..], content + added);
      Regroup(content, added, AllAdded(c, events[1..]));
    }
  }

  lemma {:induction false} SpokenConcat(c: Codec, xs: seq<Event>, ys: seq<Event>, content: string)
    ensures Spoken(c, xs + ys, content) == Spoken(c, ys, Spoken(c, xs, content))
    decreases |xs|
  {
    hide VoiceOf, Voiced;
    if xs == [] {
      assert xs + ys == ys;
    } else {
      assert (xs + ys)[0] == xs[0] && (xs + ys)[1..] == xs[1..] + ys;
      SpokenConcat(c, xs[1..], ys, Voiced(content, VoiceOf(c, xs[0])));
    }
  }

  /** The content is the last replacing text, followed by what was added after it. */
  lemma LastReplacementCounts(c: Codec, events: seq<Event>, n: nat, content: string)
    requires n < |events| && VoiceOf(c, events[n]).Replaces?
    requires forall i | n < i < |events| :: !VoiceOf(c, events[i]).Replaces?
    ensures Spoken(c, events, content) == VoiceOf(c, events[n]).text + AllAdded(c, events[n + 1..])
  {
    var text := VoiceOf(c, events[n]).text;
    assert text != "";
    hide VoiceOf;
    var before, after := events[..n], events[n + 1..];
    assert events == before + ([events[n]] + after);
    SpokenConcat(c, before, [events[n]] + after, content);
    assert ([events[n]] + after)[1..] == after;
    OnlyAdded(c, after, text);
  }

  /** If nothing replaces it, content that starts empty is the first text said, followed by what was added after it. */
  lemma {:induction false} FirstVoiceCounts(c: Codec, events: seq<Event>, n: nat)
    requires n < |events| && forall i | 0 <= i < |events| :: !VoiceOf(c, events[i]).Replaces?
    requires !VoiceOf(c, events[n]).Silence? && VoiceOf(c, events[n]).text != ""
    requires forall i | 0 <= i < n :: IsSilent(VoiceOf(c, events[i]))
    ensures Spoken(c, events, "") == VoiceOf(c, events[n]).text + AllAdded(c, events[n + 1..])
    decreases n
  {
    hide VoiceOf;
    assert forall i | 0 <= i < |events| - 1 :: events[1..][i] == events[i + 1];
    if n == 0 {
      OnlyAdded(c, events[1..], VoiceOf(c, events[0]).text);
      assert "" + VoiceOf(c, events[0]).text == VoiceOf(c, events[0]).text;
    } else {
      assert Voiced("", VoiceOf(c, events[0])) == "";
      FirstVoiceCounts(c, events[1..], n - 1);
      assert events[1..][n..] == events[n + 1..];
    }
  }

  /** Nothing said, or nothing but "". */
  predicate IsSilent(voice: Voice) {
    voice.Silence? || (!voice.Replaces? && voice.text == "")
  }

  /** If no event says anything the content stays as it was. */
  lemma {:induction false} SilenceCounts(c: Codec, events: seq<Event>, content: string)
    requires forall i | 0 <= i < |events| :: IsSilent(VoiceOf(c, events[i]))
    ensures Spoken(c, events, content) == content
    decreases |events|
  {
    hide VoiceOf;
    if events != [] {
      assert forall i | 0 <= i < |events| - 1 :: events[1..][i] == events[i + 1];
      assert content + "" == content;
      SilenceCounts(c, events[1..], content);
    }
  }

  // ----- lines -----

  /** An `event:` line names the next event. */
  lemma NameLine(rest: string, pending: string)
    requires rest == "" || rest[|rest| - 1] != '\r'
    ensures ScanLine("event:" + rest, pending) == Scan(None, Trim(rest))
  {
    var line := "event:" + rest;
    assert line[|line| - 1] == if rest == "" then ':' else rest[|rest| - 1];
    assert "event:"[5] == ':' && TrimEol(line, false) == line;
    assert line[..6] == "event:" && line[6..] == rest;
  }

  /** A `data:` line is an event under the pending name, which it uses up; without data it is nothing. */
  lemma DataLine(rest: string, pending: string)
    requires rest == "" || rest[|rest| - 1] != '\r'
    ensures ScanLine("data:" + rest, pending) ==
      if Trim(rest) == "" then Scan(None, pending) else Scan(Some(Event(pending, Trim(rest))), "")
  {
    var line := "data:" + rest;
    assert line[|line| - 1] == if rest == "" then ':' else rest[|rest| - 1];
    assert "data:"[4] == ':' && TrimEol(line, false) == line;
    assert line[0] == 'd' && "event:"[0] == 'e' && line[..5] == "data:" && line[5..] == rest;
  }

  /** An empty line drops the pending name; every other line, a comment among them, leaves it. */
  lemma OtherLine(line: string, pending: string)
    requires line == "" || line[|line| - 1] != '\r'
    requires !("event:" <= line) && !("data:" <= line)
    ensures ScanLine(line, pending) == Scan(None, if line == "" then "" else pending)
  {
    assert TrimEol(line, false) == line;
  }

  /** Carriage returns at the end of a line do not count. */
  lemma ReturnsDoNotCount(line: string, pending: string)
    ensures ScanLine(line + "\r", pending) == ScanLine(line, pending)
  {
    assert (line + "\r")[..|line|] == line;
  }

  // ----- errors -----

  /** The event at `i` is an error frame with this error, and no later one is an error. */
  ghost predicate IsLastError(c: Codec, events: seq<Event>, i: nat, error: UpstreamError) {
    && i < |events| && Step(c, INITIAL, events[i]).error == Some(error)
    && forall j | i < j < |events| :: Step(c, INITIAL, events[j]).error.None?
  }

  ghost predicate NoErrors(c: Codec, events: seq<Event>) {
    forall i | 0 <= i < |events| :: Step(c, INITIAL, events[i]).error.None?
  }

  lemma {:induction false} FoldErrors(c: Codec, a: Applied, events: seq<Event>)
    ensures NoErrors(c, events) ==> Fold(c, a, events).error == a.error
    ensures forall i: nat, error :: IsLastError(c, events, i, error) ==> Fold(c, a, events).error == Some(error)
    decreases |events|
  {
    if events != [] {
      var e, tail := events[0], events[1..];
      var s := AggregateStep(c, a.accum, e);
      var b := Applied(s.accum, if s.error.Some? then s.error else a.error);
      ErrorIsLocal(c, a.accum, INITIAL, e);
      StepsSaySame(c, a.accum, a.accum, e);
      hide Step, AggregateStep;
      FoldErrors(c, b, tail);
      assert forall j | 0 <= j < |tail| :: tail[j] == events[j + 1];
      assert NoErrors(c, events) ==> NoErrors(c, tail);
      forall i: nat, error | IsLastError(c, events, i, error) ensures Fold(c, a, events).error == Some(error) {
        if i == 0 {
          assert NoErrors(c, tail);
        } else {
          assert IsLastError(c, tail, i - 1, error);
        }
      }
    }
  }

  /** The aggregator fails exactly if some event is an error frame, and then with the error of the last one. */
  lemma LastErrorCounts(c: Codec, lines: seq<string>)
    ensures AggregateLines(c, lines).Ok? <==> NoErrors(c, Events(lines, ""))
    ensures forall i: nat, error :: IsLastError(c, Events(lines, ""), i, error) ==>
      AggregateLines(c, lines) == Err(Upstream(error))
  {
    var events := Events(lines, "");
    FoldErrors(c, Applied(INITIAL, None), events);
    hide Events, Fold, Step;
    if !NoErrors(c, events) {
      var i, error := SomeLastError(c, events);
    }
  }

  lemma {:induction false} SomeLastError(c: Codec, events: seq<Event>) returns (i: nat, error: UpstreamError)
    requires !NoErrors(c, events)
    ensures IsLastError(c, events, i, error)
    decreases |events|
  {
    hide Step;
    var init, n := events[..|events| - 1], |events| - 1;
    if Step(c, INITIAL, events[n]).error.Some? {
      i, error := n, Step(c, INITIAL, events[n]).error.value;
    } else {
      assert forall j | 0 <= j < n :: init[j] == events[j];
      i, error := SomeLastError(c, init);
    }
  }

  // ----- what is sent for one event -----

  /** A delta sent says its role, what is new in text, its tool calls as they came, and nothing else. */
  lemma SentDelta(a: Accum, b: Accum, native: Object)
    ensures var sent := Difference(a, b, native);
      && (forall role :: IsText(sent, "role", role) <==> role != "" && IsText(native, "role", role))
      && (forall s :: IsText(sent, "content", s) <==> s != "" && IsBeyond(a.content, b.content, s))
      && (forall s :: IsText(sent, "reasoning_content", s) <==> s != "" && IsBeyond(a.reason, b.reason, s))
      && ("tool_calls" in sent <==> "tool_calls" in native)
      && ("tool_calls" in sent ==> sent["tool_calls"] == native["tool_calls"])
      && forall k :: k in sent && k != "tool_calls" ==> k in {"role", "content", "reasoning_content"} && sent[k].Str?
  {
    assert |a.content| < |b.content| ==> b.content[|a.content|..] != "";
    assert |a.reason| < |b.reason| ==> b.reason[|a.reason|..] != "";
  }

  /** What the text after has beyond the length of the text before. */
  predicate IsBeyond(before: string, after: string, more: string) {
    |before| <= |after| && more == after[|before|..]
  }
}
