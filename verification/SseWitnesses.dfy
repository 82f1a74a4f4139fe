/** Concrete streams on which a promise of the stream engine fails. */
module SseWitnesses {
  import opened Text
  import opened Json
  import opened ToolCalls
  import opened SseReader
  import opened SseEvents
  import opened SsePartial
  import opened SseAggregate
  import opened SseStream
  import opened SseAgreement
  import opened SseFrames
  import opened SseTextual
  import opened SseClient
  import opened SseRoundTrip
  import Utf8

  // ----- a full-text snapshot -----

  function SnapshotEvent(c: Codec, t: string): Event {
    Event("", c.encode(map["text" := Str(t)]))
  }

  lemma SnapshotObject(t: string)
    requires Utf8.Valid(t)
    ensures Carried(map["text" := Str(t)])
  {
    hide Utf8.Valid;
    TextKeyIsUtf8();
    FitsEmpty(0);
    assert Fits(Str(t), 1);
    FitsWith(map[], "text", Str(t), 0);
  }

  lemma TextKeyIsUtf8()
    ensures Utf8.Valid("text")
  {
    hide Utf8.Valid;
    Utf8.AsciiIsValid("text");
  }

  lemma SnapshotStep(c: Codec, a: Accum, t: string)
    requires Faithful(c) && Utf8.Valid(t) && t != "" && !IsDoneText(t) && a.finish != ""
    ensures Step(c, a, SnapshotEvent(c, t)) == Applied(a.(content := t), None)
    ensures !IsDone(SnapshotEvent(c, t)) && Payload(c, SnapshotEvent(c, t).data) == map["text" := Str(t)]
    ensures DeltaOf(map["text" := Str(t)]) == (None, "")
  {
    hide Faithful, Carried, Utf8.Valid, IsDoneText;
    var x := map["text" := Str(t)];
    SnapshotObject(t);
    EncodedIsNotDone(c, x);
    FirstStrOfNone(x, ["error_code", "code"]);
    UnnamedIsPlain();
    CollectNothing(a);
    assert Fragments(map[]) == [];
    assert FirstStr(x, ["text", "content", "delta"]) == t;
    assert ObjAt(x, "usage") == None && DeltaOf(x) == (None, "") && ErrorOf(x) == None;
    hide KindOf, Trim, FirstStr, DeltaOf, ErrorOf, Fragments, ApplyAll;
  }

  /** A body that breaks after a snapshot: the client gets the text and no `[DONE]`. */
  lemma ReadErrorEndsWithoutDone(c: Codec, o: Options, t: string)
    requires Faithful(c) && Utf8.Valid(t) && t != "" && !IsDoneText(t)
    ensures var events := [SnapshotEvent(c, t)];
      && CutOff(c, events, true)
      && Translate(c, o, INITIAL, events, true) == Run([Chunk(map["content" := Str(t)], "")], ReadFailed)
  {
    hide Faithful, Utf8.Valid, IsDoneText;
    var e := SnapshotEvent(c, t);
    SnapshotStep(c, INITIAL, t);
    assert !IsTerminal(c, e) && !HasTerminal(c, [e]) && [e][1..] == [];
    hide Step, SnapshotEvent, IsTerminal;
    SnapshotChunk(e, map["text" := Str(t)], t);
    assert [Chunk(map["content" := Str(t)], "")] + [] == [Chunk(map["content" := Str(t)], "")];
  }

  lemma SnapshotChunk(e: Event, payload: Object, t: string)
    requires e.name == "" && DeltaOf(payload) == (None, "") && t != ""
    ensures ChunksFor(INITIAL, INITIAL.(content := t), e, payload) == [Chunk(map["content" := Str(t)], "")]
  {
    var delta := Difference(INITIAL, INITIAL.(content := t), map[]);
    assert t[0..] == t;
    assert "content" in delta && delta == map["content" := Str(t)];
    assert Lower("") == "" && !IsClosingName("");
  }

  lemma LettersAreUtf8()
    ensures Utf8.Valid("ab") && Utf8.Valid("xyz") && Utf8.Scrub("ab") == "ab" && Utf8.Scrub("z") == "z"
  {
    hide Utf8.Valid, Utf8.Scrub;
    Utf8.AsciiIsValid("ab");
    Utf8.AsciiIsValid("xyz");
    Utf8.AsciiIsValid("z");
    Utf8.ScrubValid("ab");
    Utf8.ScrubValid("z");
  }

  lemma LettersAreNotDone()
    ensures !IsDoneText("ab") && !IsDoneText("xyz")
  {
    assert |Lower("ab")| == 2 && |Lower("xyz")| == 3;
  }

  /** After the snapshots "ab" and "xyz" and the end of the body, the client holds "abz" and the server "xyz". */
  lemma ShrinkingSnapshotDiverges(c: Codec, o: Options)
    requires Faithful(c)
    ensures var events := [SnapshotEvent(c, "ab"), SnapshotEvent(c, "xyz")];
      var outcome := Translate(c, o, INITIAL, events, false).outcome;
      && outcome.Finished? && outcome.accum.content == "xyz"
      && ClientContent(c, INITIAL, events, "") == "abz"
      && !Extending(c, INITIAL, events)
  {
    hide Faithful;
    LettersAreUtf8();
    LettersAreNotDone();
    var e, f := SnapshotEvent(c, "ab"), SnapshotEvent(c, "xyz");
    var a, b := INITIAL.(content := "ab"), INITIAL.(content := "xyz");
    SnapshotStep(c, INITIAL, "ab");
    SnapshotStep(c, a, "xyz");
    assert [e, f][1..] == [f] && [f][1..] == [];
    assert Lower("") == "" && !IsClosingName("");
    hide Step, IsDone, Utf8.Valid, Utf8.Scrub, Closing, ChunksFor, IsClosingName, IsDoneText, Replacement;
    assert Told(INITIAL, a) == "ab" && Told(a, b) == "z" by {
      assert a.content[0..] == "ab" && b.content[2..] == "z";
    }
    assert "" + "ab" == "ab" && "ab" + "z" == "abz";
    assert ClientContent(c, b, [], "abz") == "abz";
    assert ClientContent(c, a, [f], "ab") == "abz";
    assert Translate(c, o, b, [], false).outcome == Finished(b);
    assert Translate(c, o, a, [f], false).outcome == Finished(b);
    assert Translate(c, o, INITIAL, [e, f], false).outcome == Finished(b);
    if Extending(c, INITIAL, [e, f]) {
      InitialIsTextual();
      InSyncExactly(c, INITIAL, [e, f]);
      InSyncEndsEqual(c, o, INITIAL, [e, f], false);
      assert false;
    }
  }

  // ----- `[DONE]` under a finishing event name -----

  /** A chunk that sets the finish reason to "length". */
  function LengthObject(): Object {
    map["choices" := Arr([Obj(map["delta" := Obj(map[]), "finish_reason" := Str("length")])])]
  }

  lemma LengthKeysAreUtf8()
    ensures Utf8.Valid("choices") && Utf8.Valid("delta") && Utf8.Valid("finish_reason") && Utf8.Valid("length")
  {
    hide Utf8.Valid;
    Utf8.AsciiIsValid("choices");
    Utf8.AsciiIsValid("delta");
    Utf8.AsciiIsValid("finish_reason");
    Utf8.AsciiIsValid("length");
  }

  lemma LengthIsEncodable()
    ensures Carried(LengthObject())
  {
    hide Utf8.Valid;
    LengthKeysAreUtf8();
    FitsEmpty(0);
    FitsEmpty(2);
    FitsEmpty(3);
    assert Fits(Str("length"), 3);
    FitsWith(map[], "delta", Obj(map[]), 2);
    FitsWith(map["delta" := Obj(map[])], "finish_reason", Str("length"), 2);
    var choice := Obj(map["delta" := Obj(map[]), "finish_reason" := Str("length")]);
    assert Fits(Arr([choice]), 1);
    FitsWith(map[], "choices", Arr([choice]), 0);
    hide Encodable, Nests;
  }

  function LengthLines(c: Codec): seq<string> {
    ["data: " + c.encode(LengthObject()), "event: done", "data: [DONE]"]
  }

  function LengthEvents(c: Codec): seq<Event> {
    [Event("", c.encode(LengthObject())), Event("done", "[DONE]")]
  }

  lemma NameScans()
    ensures ScanLine(TrimEol("event: done", true), "") == Scan(None, "done")
  {
    var line := "event: done";
    assert line[|line| - 1] == 'e' && TrimEol(line, true) == line && TrimEol(line, false) == line;
    assert line[6..] == " done" && " done"[1..] == "done";
    assert TrimLeft(" done") == TrimLeft("done") == "done" && TrimRight("done") == "done";
    assert "event:" <= line by {
      assert line[..6] == "event:";
    }
  }

  /** A line that gives an event, one that only names the next, and one that gives that. */
  lemma ThreeLines(c: Codec, x: string, y: string, z: string, e: Event, name: string, d: Event)
    requires ScanLine(TrimEol(x, true), "") == Scan(Some(e), "") && ScanLine(TrimEol(y, true), "") == Scan(None, name)
    requires ScanLine(TrimEol(z, true), name) == Scan(Some(d), "")
    ensures Events([x, y, z], "") == [e, d]
    ensures !IsTerminal(c, e) && IsTerminal(c, d) ==> TerminalLine(c, [x, y, z], "") == 3
  {
    hide ScanLine, TrimEol, IsTerminal;
    assert [x, y, z][1..] == [y, z] && [y, z][1..] == [z] && [z][1..] == [];
    assert Events([z], name) == [d] && Events([y, z], "") == [d];
    if !IsTerminal(c, e) && IsTerminal(c, d) {
      assert TerminalLine(c, [z], name) == 1 && TerminalLine(c, [y, z], "") == 2;
    }
  }

  lemma LengthScans(c: Codec)
    requires Faithful(c)
    ensures Events(LengthLines(c), "") == LengthEvents(c)
    ensures !IsTerminal(c, LengthEvents(c)[0]) && IsTerminal(c, LengthEvents(c)[1]) ==>
      TerminalLine(c, LengthLines(c), "") == 3
  {
    hide Faithful, Utf8.Valid, EncodableObject, Nests, LengthObject, IsTerminal, ScanLine, TrimEol;
    LengthIsEncodable();
    var data := c.encode(LengthObject());
    WrittenFaithfully(c, LengthObject());
    DataLineScans(data, "");
    NameScans();
    assert "[DONE]"[0] == '[' && "[DONE]"[5] == ']' && "data: " + "[DONE]" == "data: [DONE]";
    DataLineScans("[DONE]", "done");
    ThreeLines(c, "data: " + data, "event: done", "data: [DONE]", Event("", data), "done", Event("done", "[DONE]"));
  }

  lemma LengthStep(c: Codec)
    requires Faithful(c)
    ensures var e := Event("", c.encode(LengthObject()));
      && !IsDone(e) && !IsTerminal(c, e) && SetsFinish(c, e) == Some("length")
  {
    hide Faithful, Utf8.Valid, Carried;
    var x := LengthObject();
    LengthIsEncodable();
    EncodedIsNotDone(c, x);
    FirstStrOfNone(x, ["error_code", "code"]);
    assert KindOf("") == Plain && Lower("") == "" && !IsClosingName("");
    assert DeltaOf(x) == (Some(map[]), "length");
    hide IsStructuredQA, OutputText, KindOf, IsDoneText, DeltaOf, Fragments, ApplyAll, LengthObject, FirstStr;
  }

  lemma DoneIsNamed()
    ensures KindOf("done") == Finishing && Trim("[DONE]") == "[DONE]"
  {
    assert TrimLeft("done") == "done" && TrimRight("done") == "done" && Lower("done") == "done";
    assert TrimLeft("[DONE]") == "[DONE]" && TrimRight("[DONE]") == "[DONE]";
  }

  lemma NamedDone(c: Codec)
    ensures var d := Event("done", "[DONE]"); IsDone(d) && IsTerminal(c, d) && KindOf(d.name) == Finishing
  {
    DoneIsNamed();
  }

  /** A clean end by a named `[DONE]` while another finish reason was set. */
  lemma EndsInNamedDoneAfter(c: Codec, e: Event, d: Event, finish: string)
    requires !IsDone(e) && !IsTerminal(c, e) && SetsFinish(c, e) == Some(finish) && finish != "stop"
    requires IsDone(d) && KindOf(d.name) == Finishing
    ensures UpToTerminal(c, [e, d]) == [e, d] && EndsCleanly(c, [e, d], false) && ReadDifferently(c, [e, d])
    ensures LastFinish(c, [e, d], "stop") == finish
  {
    assert IsTerminal(c, d);
    hide IsTerminal, IsDone, KindOf, SetsFinish;
    assert [e, d][1..] == [d];
    assert UpToTerminal(c, [d]) == [d] && UpToTerminal(c, [e, d]) == [e, d];
    assert LastFinish(c, [d], finish) == finish;
    assert HasTerminal(c, [e, d]) by { assert IsTerminal(c, [e, d][1]); }
    assert FirstTerminal(c, [e, d]) == d;
  }

  /** Told "length" and then `[DONE]` named "done", the live interpreter keeps "length", the aggregator says "stop". */
  lemma NamedDoneDiverges(c: Codec, o: Options)
    requires Faithful(c)
    ensures var lines := LengthLines(c); var events := Events(lines, "");
      var outcome := Translate(c, o, INITIAL, events, false).outcome;
      && lines[..TerminalLine(c, lines, "")] == lines && ReadDifferently(c, events)
      && outcome.Finished? && outcome.accum.finish == "length"
      && AggregateLines(c, lines) != Ok(Snapshot(c, outcome.accum))
  {
    hide Faithful, KindOf, Trim, SetsFinish, IsTerminal, IsDone, Translate, AggregateLines, Events, EndsCleanly,
      ReadDifferently, UpToTerminal, LengthObject, TerminalLine, LeftBringNothing, SameUsage;
    LengthScans(c);
    LengthStep(c);
    NamedDone(c);
    var lines, e, d := LengthLines(c), LengthEvents(c)[0], LengthEvents(c)[1];
    EndsInNamedDoneAfter(c, e, d, "length");
    assert lines[..3] == lines;
    DoneIsUnreadable(c);
    InterpretersAgree(c, o, lines, false);
    InitialIsValid();
    FinishInForce(c, o, INITIAL, [e, d], false);
  }

  // ----- a payload that decodes in part -----

  /** A tool call in a payload with a number outside float64, and the end of the stream. */
  function OverflowingLines(): seq<string> {
    ["data: " + OVERFLOWING, "data: [DONE]"]
  }

  /** Two lines that give an event each. */
  lemma TwoLines(c: Codec, x: string, z: string, e: Event, d: Event)
    requires ScanLine(TrimEol(x, true), "") == Scan(Some(e), "") && ScanLine(TrimEol(z, true), "") == Scan(Some(d), "")
    ensures Events([x, z], "") == [e, d]
    ensures !IsTerminal(c, e) && IsTerminal(c, d) ==> TerminalLine(c, [x, z], "") == 2
  {
    hide ScanLine, TrimEol, IsTerminal;
    assert [x, z][1..] == [z] && [z][1..] == [];
    assert Events([z], "") == [d];
    if !IsTerminal(c, e) && IsTerminal(c, d) {
      assert TerminalLine(c, [z], "") == 1;
    }
  }

  lemma OverflowingScans(c: Codec)
    ensures var e, d := Event("", OVERFLOWING), Event("", "[DONE]");
      && Events(OverflowingLines(), "") == [e, d]
      && (!IsTerminal(c, e) && IsTerminal(c, d) ==> TerminalLine(c, OverflowingLines(), "") == 2)
  {
    assert OVERFLOWING[0] == '{' && OVERFLOWING[|OVERFLOWING| - 1] == '}';
    assert "[DONE]"[0] == '[' && "[DONE]"[5] == ']' && "data: " + "[DONE]" == "data: [DONE]";
    hide ScanLine, TrimEol, IsTerminal, Events, TerminalLine;
    DataLineScans(OVERFLOWING, "");
    DataLineScans("[DONE]", "");
    TwoLines(c, "data: " + OVERFLOWING, "data: [DONE]", Event("", OVERFLOWING), Event("", "[DONE]"));
  }

  const OVERFLOWING_CALL := ToolCall(0, "a", "function", "", "")

  lemma OverflowingMeaning()
    ensures ErrorOf(OverflowingFields()) == None && DeltaOf(OverflowingFields()) == (Some(OverflowingDelta()), "")
  {
    FirstStrOfNone(OverflowingFields(), ["error_code", "code"]);
    hide FirstStr, OverflowingDelta;
  }

  lemma OverflowingPieces()
    ensures Fragments(OverflowingDelta()) == [Fragment(0, "a", "", "", "")]
  {
    var items := OverflowingDelta()["tool_calls"].items;
    var item := items[0].fields;
    assert FragmentsFrom(items, 1) == [];
    assert FragmentOf(item, 0) == Fragment(0, "a", "", "", "") by {
      assert Truncate(0, 0) == 0;
    }
    hide FragmentOf;
    assert FragmentsFrom(items, 0) == [FragmentOf(item, 0)] + [];
  }

  lemma OverflowingIsNotDone()
    ensures Trim(OVERFLOWING) != "[DONE]"
  {
    assert OVERFLOWING[0] == '{' && "[DONE]"[0] == '[';
    assert TrimLeft(OVERFLOWING) == OVERFLOWING;
    TrimRightShape(OVERFLOWING);
    hide TrimLeft, TrimRight;
  }

  lemma UnnamedIsPlain()
    ensures KindOf("") == Plain && !IsClosingName("")
  {
    assert Lower("") == "";
  }

  lemma OverflowingStep(c: Codec)
    requires c.decode(OVERFLOWING) == Decoded(OverflowingFields(), false)
    ensures var e := Event("", OVERFLOWING);
      && !IsDone(e) && !IsTerminal(c, e) && SetsFinish(c, e) == None
      && PiecesOf(Payload(c, e.data)) == [Fragment(0, "a", "", "", "")]
  {
    OverflowingIsNotDone();
    OverflowingMeaning();
    OverflowingPieces();
    UnnamedIsPlain();
    hide OverflowingFields, OverflowingDelta, DeltaOf, ErrorOf, Fragments, Trim, ApplyPlain, Collect, KindOf,
      IsClosingName, FirstStr;
  }

  lemma OverflowingEvents(c: Codec)
    requires c.decode("[DONE]") == UNREADABLE && c.decode(OVERFLOWING) == Decoded(OverflowingFields(), false)
    ensures var events := [Event("", OVERFLOWING), Event("", "[DONE]")];
      AllPieces(WholeParts(c, events)) == [Fragment(0, "a", "", "", "")] && TakenPieces(WholeParts(c, events)) == []
  {
    hide OverflowingFields, IsTerminal, IsDone, SetsFinish, Fragments;
    NoPieces();
    OverflowingStep(c);
    hide PiecesOf;
    PiecesOfTwo(c, Event("", OVERFLOWING), Event("", "[DONE]"));
  }

  lemma PiecesOfTwo(c: Codec, e: Event, d: Event)
    ensures var parts := WholeParts(c, [e, d]); var x, y := PiecesOf(Payload(c, e.data)), PiecesOf(Payload(c, d.data));
      && AllPieces(parts) == x + y
      && TakenPieces(parts) == (if c.decode(e.data).whole then x else []) + if c.decode(d.data).whole then y else []
  {
    hide PiecesOf, Payload;
    assert [e, d][1..] == [d] && [d][1..] == [];
    var p, q := Part(Payload(c, e.data), c.decode(e.data).whole), Part(Payload(c, d.data), c.decode(d.data).whole);
    assert WholeParts(c, [d]) == [q] && WholeParts(c, [e, d]) == [p, q];
    assert [p, q][1..] == [q] && [q][1..] == [];
    assert AllPieces([q]) == PiecesOf(q.payload) + [];
    assert TakenPieces([q]) == (if q.taken then PiecesOf(q.payload) else []) + [];
  }

  lemma OneCall()
    ensures ApplyAll(map[], [Fragment(0, "a", "", "", "")]) == map[0 := OVERFLOWING_CALL]
    ensures ApplyAll(map[], []) == map[]
    ensures Sorted(map[0 := OVERFLOWING_CALL]) == [OVERFLOWING_CALL] && Sorted(map[]) == []
  {
    assert [Fragment(0, "a", "", "", "")][1..] == [];
    assert "" + "" == "";
    var one: Calls, none: Calls := map[0 := OVERFLOWING_CALL], map[];
    SortedIsSortedList(one);
    assert Indexes([OVERFLOWING_CALL]) == [0];
    SortedListUnique(one, Sorted(one), [OVERFLOWING_CALL]);
    SortedIsSortedList(none);
    assert Indexes([]) == [];
    SortedListUnique(none, Sorted(none), []);
  }

  lemma UnnamedDone(c: Codec)
    ensures var d := Event("", "[DONE]");
      IsDone(d) && IsTerminal(c, d) && KindOf(d.name) != Finishing && Trim(d.name) == d.name
  {
    DoneIsNamed();
    UnnamedIsPlain();
  }

  /** A clean end by an unnamed `[DONE]` while no finish reason was set. */
  lemma EndsInDone(c: Codec, e: Event, d: Event)
    requires !IsTerminal(c, e) && SetsFinish(c, e) == None && IsDone(d) && KindOf(d.name) != Finishing
    ensures UpToTerminal(c, [e, d]) == [e, d] && EndsCleanly(c, [e, d], false) && !ReadDifferently(c, [e, d])
  {
    assert IsTerminal(c, d) && !IsDone(e);
    hide IsTerminal, IsDone, KindOf, SetsFinish;
    assert [e, d][1..] == [d];
    assert UpToTerminal(c, [d]) == [d] && UpToTerminal(c, [e, d]) == [e, d];
    assert HasTerminal(c, [e, d]) by { assert IsTerminal(c, [e, d][1]); }
    assert FirstTerminal(c, [e, d]) == d;
  }

  lemma OverflowingAnswers(c: Codec, o: Options, e: Event, d: Event)
    requires c.decode("[DONE]") == UNREADABLE && Trimmed(e) && Trimmed(d)
    requires UpToTerminal(c, [e, d]) == [e, d] && EndsCleanly(c, [e, d], false)
    requires AllPieces(WholeParts(c, [e, d])) == [Fragment(0, "a", "", "", "")]
    requires TakenPieces(WholeParts(c, [e, d])) == []
    ensures var outcome := Translate(c, o, INITIAL, [e, d], false).outcome;
      var f := Fold(c, Applied(INITIAL, None), [e, d]);
      && outcome.Finished? && outcome.accum.calls == map[0 := OVERFLOWING_CALL]
      && f.error.None? && f.accum.calls == map[]
  {
    OneCall();
    InitialIsValid();
    hide Trimmed, Translate, UpToTerminal, EndsCleanly, AllPieces, TakenPieces, Fold, ApplyAll, ValidAccum;
    OutcomeExactly(c, o, INITIAL, [e, d], false);
    AgreeFrom(c, o, INITIAL, INITIAL, [e, d], false);
    RunCollects(c, o, INITIAL, [e, d], false);
    FoldCollects(c, Applied(INITIAL, None), [e, d]);
  }

  /**
   * The live translator captures a tool call from a payload that decodes in part, the aggregator does not; the
   * finish reason is read alike.
   */
  lemma PartialPayloadDiverges(c: Codec, o: Options)
    requires c.decode("[DONE]") == UNREADABLE && c.decode(OVERFLOWING) == Decoded(OverflowingFields(), false)
    ensures var lines := OverflowingLines(); var events := Events(lines, "");
      var outcome := Translate(c, o, INITIAL, events, false).outcome; var answer := AggregateLines(c, lines);
      && lines[..TerminalLine(c, lines, "")] == lines && !ReadDifferently(c, events)
      && outcome.Finished? && Snapshot(c, outcome.accum).toolCalls == [OVERFLOWING_CALL]
      && answer.Ok? && answer.value.toolCalls == []
  {
    hide KindOf, Trim, SetsFinish, IsTerminal, IsDone, Translate, AllPieces, TakenPieces, Sorted, Fold, EndsCleanly,
      OverflowingFields, Events, ReadDifferently, UpToTerminal, TerminalLine, Trimmed, OVERFLOWING;
    var lines, e, d := OverflowingLines(), Event("", OVERFLOWING), Event("", "[DONE]");
    UnnamedDone(c);
    OverflowingScans(c);
    OverflowingStep(c);
    OverflowingEvents(c);
    EndsInDone(c, e, d);
    EventsAreTrimmed(lines, "");
    assert e in Events(lines, "") && d in Events(lines, "");
    OverflowingAnswers(c, o, e, d);
    OneCall();
    assert lines[..2] == lines;
  }

  // ----- tool calls that nest too deep for a chunk -----

  /** So many arrays around nothing. */
  function Deep(n: nat): Json {
    if n == 0 then Null else Arr([Deep(n - 1)])
  }

  lemma {:induction false} DeepNests(n: nat, depth: nat)
    ensures Encodable(Deep(n)) && (Nests(Deep(n), depth) <==> n <= depth)
  {
    if n > 0 {
      var items := [Deep(n - 1)];
      assert items[0] == Deep(n - 1);
      DeepNests(n - 1, if depth > 0 then depth - 1 else 0);
    }
  }

  function DeepDelta(n: nat): Object {
    map["reasoning_content" := Str("x"), "tool_calls" := Deep(n)]
  }

  function DeepPayload(n: nat): Object {
    map["delta" := Obj(DeepDelta(n))]
  }

  lemma DeepDeltaFits(n: nat)
    requires n <= MAX_DEPTH - 2
    ensures Fits(Obj(DeepDelta(n)), 1)
  {
    hide Utf8.Valid;
    DeepNests(n, MAX_DEPTH - 2);
    DeltaKeysAreUtf8();
    Utf8.AsciiIsValid("x");
    TextIsEncodable("x");
    assert Fits(Str("x"), 2) && Fits(Deep(n), 2);
    hide Fits, Deep, Encodable, Nests;
    FitsField("reasoning_content", Str("x"), 1);
    FitsWith(map["reasoning_content" := Str("x")], "tool_calls", Deep(n), 1);
  }

  lemma DeepIsCarried(n: nat)
    requires n <= MAX_DEPTH - 2
    ensures Carried(DeepPayload(n))
  {
    hide Utf8.Valid, Encodable, Nests, DeepDelta;
    DeepDeltaFits(n);
    Utf8.AsciiIsValid("delta");
    FitsField("delta", Obj(DeepDelta(n)), 0);
  }

  lemma DeepMeaning(n: nat)
    requires n > 1
    ensures ErrorOf(DeepPayload(n)) == None && DeltaOf(DeepPayload(n)) == (Some(DeepDelta(n)), "")
    ensures Fragments(DeepDelta(n)) == []
  {
    FirstStrOfNone(DeepPayload(n), ["error_code", "code"]);
    assert DeepDelta(n)["tool_calls"] == Arr([Deep(n - 1)]) && Deep(n - 1).Arr?;
    assert FragmentsFrom([Deep(n - 1)], 1) == [];
  }

  lemma DeepStep(c: Codec, n: nat)
    requires Faithful(c) && 1 < n <= MAX_DEPTH - 2
    ensures var e := Event("", c.encode(DeepPayload(n)));
      && !IsDone(e) && Payload(c, e.data) == DeepPayload(n)
      && Step(c, INITIAL, e) == Applied(INITIAL.(reason := "x"), None)
  {
    hide Faithful, Carried;
    DeepIsCarried(n);
    DeepMeaning(n);
    UnnamedIsPlain();
    EncodedIsNotDone(c, DeepPayload(n));
    assert StrAt(DeepDelta(n), "content") == None && StrAt(DeepDelta(n), "reasoning_content") == Some("x");
    assert ObjAt(DeepPayload(n), "usage") == None;
    hide DeepPayload, DeepDelta, KindOf, ErrorOf, DeltaOf, Fragments, Trim;
    assert "" + "x" == "x";
  }

  lemma DeepChunk(e: Event, n: nat)
    requires e.name == "" && MAX_DEPTH - DELTA_DEPTH < n
    ensures var chunks := ChunksFor(INITIAL, INITIAL.(reason := "x"), e, DeepPayload(n));
      |chunks| == 1 && !Readable(chunks[0])
  {
    DeepMeaning(n);
    DeepNests(n, MAX_DEPTH - DELTA_DEPTH);
    UnnamedIsPlain();
    hide IsClosingName, DeltaOf, Nests, Deep;
    var delta := Difference(INITIAL, INITIAL.(reason := "x"), DeepDelta(n));
    assert "tool_calls" in delta && delta["tool_calls"] == Deep(n);
  }

  /**
   * Reasoning that comes with tool calls too deep for a chunk is captured, but the client cannot read the chunk and so
   * loses it.
   */
  lemma DeepCallsAreLost(c: Codec, v: Envelope, o: Options, n: nat)
    requires Faithful(c) && EstimatesEncodable(o) && MAX_DEPTH - DELTA_DEPTH < n <= MAX_DEPTH - 2
    ensures var events := [Event("", c.encode(DeepPayload(n)))];
      var run := Translate(c, o, INITIAL, events, false);
      && run.outcome.Finished? && run.outcome.accum.reason == "x" && IsClean(run.frames)
      && var read := AggregateLines(c, Lines(Render(c, v, o, 0, run.frames)));
         read.Ok? && read.value.reasoning == ""
  {
    var e, s := Event("", c.encode(DeepPayload(n))), INITIAL.(reason := "x");
    DeepStep(c, n);
    DeepChunk(e, n);
    UnnamedIsPlain();
    hide Faithful, EstimatesEncodable, DeepPayload, Step, IsDone, IsClosingName, Closing, ChunksFor, IsClean, Readable,
      EndsCleanly, Render, AggregateLines, Payload, AllShallow;
    assert [e][1..] == [];
    TranslateHead(c, o, INITIAL, [e], false);
    var run := Translate(c, o, INITIAL, [e], false);
    var chunks := ChunksFor(INITIAL, s, e, Payload(c, e.data));
    assert run == Run(chunks + Closing(c, o, s), Finished(s)) by {
      assert Translate(c, o, s, [], false) == Run(Closing(c, o, s), Finished(s));
    }
    OutcomeExactly(c, o, INITIAL, [e], false);
    RunIsClean(c, o, [e], false);
    ReadBack(c, v, o, run.frames);
    ReceivedAllConcat(INITIAL, chunks, Closing(c, o, s));
    ReceiveOne(INITIAL, chunks[0]);
    assert chunks == [chunks[0]];
    ReceiveClosing(c, o, s, INITIAL);
  }
}
