/**
 * Payloads whose tool calls or usage one reader takes and another leaves out, and exactly when that shows. The
 * aggregator leaves out those of a payload that decodes in part, which the live translator takes.
 */
module SsePartial {
  import opened Text
  import opened Json
  import opened ToolCalls
  import opened SseEvents

  /** A payload, and whether its fragments are taken. */
  datatype Part = Part(payload: Object, taken: bool)

  function PiecesOf(payload: Object): seq<Fragment> {
    Fragments(DeltaOf(payload).0.GetOr(map[]))
  }

  function AllPieces(parts: seq<Part>): seq<Fragment> {
    if parts == [] then [] else PiecesOf(parts[0].payload) + AllPieces(parts[1..])
  }

  function TakenPieces(parts: seq<Part>): seq<Fragment> {
    if parts == [] then []
    else (if parts[0].taken then PiecesOf(parts[0].payload) else []) + TakenPieces(parts[1..])
  }

  function LeftPieces(parts: seq<Part>): seq<Fragment> {
    if parts == [] then []
    else (if parts[0].taken then [] else PiecesOf(parts[0].payload)) + LeftPieces(parts[1..])
  }

  /**
   * For every index, the payloads left out open no call, add nothing to a name or to arguments, and do not have the
   * last word on id or type.
   */
  ghost predicate LeftBringNothing(parts: seq<Part>) {
    forall k: int :: BringNothing(Of(AllPieces(parts), k), Of(TakenPieces(parts), k), Of(LeftPieces(parts), k))
  }

  predicate BringNothing(all: seq<Fragment>, taken: seq<Fragment>, left: seq<Fragment>) {
    && (left != [] ==> taken != [])
    && Names(left) == "" && Arguments(left) == ""
    && LastId(all, "") == LastId(taken, "") && LastType(all, "function") == LastType(taken, "function")
  }

  // ----- payloads that decode in part -----

  function WholeParts(c: Codec, events: seq<Event>): seq<Part> {
    if events == [] then []
    else [Part(Payload(c, events[0].data), c.decode(events[0].data).whole)] + WholeParts(c, events[1..])
  }

  lemma NoPieces()
    ensures PiecesOf(map[]) == []
  {
  }

  lemma TakenAtHead(c: Codec, events: seq<Event>)
    requires events != []
    ensures var e := events[0];
      TakenPieces(WholeParts(c, events)) == PiecesOf(WholePayload(c, e.data)) + TakenPieces(WholeParts(c, events[1..]))
  {
    NoPieces();
    hide PiecesOf;
    assert WholeParts(c, events)[1..] == WholeParts(c, events[1..]);
  }

  /** The usage in force after these events, for one that takes it from every payload. */
  function LastUsage(c: Codec, events: seq<Event>, otherwise: Option<Object>): Option<Object> {
    if events == [] then otherwise else LastUsage(c, events[1..], Usage(Payload(c, events[0].data), otherwise))
  }

  /** The same for one that takes it only from payloads that decode without an error. */
  function LastWholeUsage(c: Codec, events: seq<Event>, otherwise: Option<Object>): Option<Object> {
    if events == [] then otherwise
    else LastWholeUsage(c, events[1..], Usage(WholePayload(c, events[0].data), otherwise))
  }

  predicate SameUsage(c: Codec, events: seq<Event>) {
    LastUsage(c, events, None) == LastWholeUsage(c, events, None)
  }

  // ----- what the two kinds of fragments make together -----

  lemma {:induction false} OfConcat(fs: seq<Fragment>, gs: seq<Fragment>, k: int)
    ensures Of(fs + gs, k) == Of(fs, k) + Of(gs, k)
    decreases |fs|
  {
    if fs == [] {
      assert fs + gs == gs;
    } else {
      assert (fs + gs)[0] == fs[0] && (fs + gs)[1..] == fs[1..] + gs;
      OfConcat(fs[1..], gs, k);
      var head := if fs[0].index == k then [fs[0]] else [];
      assert head + (Of(fs[1..], k) + Of(gs, k)) == (head + Of(fs[1..], k)) + Of(gs, k);
    }
  }

  lemma {:induction false} TextConcat(fs: seq<Fragment>, gs: seq<Fragment>)
    ensures Names(fs + gs) == Names(fs) + Names(gs) && Arguments(fs + gs) == Arguments(fs) + Arguments(gs)
    decreases |fs|
  {
    if fs == [] {
      assert fs + gs == gs;
    } else {
      assert (fs + gs)[0] == fs[0] && (fs + gs)[1..] == fs[1..] + gs;
      TextConcat(fs[1..], gs);
    }
  }

  /** All that there is comes from the one kind or the other. */
  predicate AddUp(all: seq<Fragment>, taken: seq<Fragment>, left: seq<Fragment>) {
    && (all == [] <==> taken == [] && left == [])
    && |Names(all)| == |Names(taken)| + |Names(left)|
    && |Arguments(all)| == |Arguments(taken)| + |Arguments(left)|
    && (Names(left) == "" ==> Names(all) == Names(taken))
    && (Arguments(left) == "" ==> Arguments(all) == Arguments(taken))
  }

  lemma AddUpStep(head: seq<Fragment>, all: seq<Fragment>, taken: seq<Fragment>, left: seq<Fragment>)
    requires AddUp(all, taken, left)
    ensures AddUp(head + all, head + taken, left) && AddUp(head + all, taken, head + left)
  {
    TextConcat(head, all);
    TextConcat(head, taken);
    TextConcat(head, left);
  }

  lemma {:induction false} PiecesAddUp(parts: seq<Part>, k: int)
    ensures AddUp(Of(AllPieces(parts), k), Of(TakenPieces(parts), k), Of(LeftPieces(parts), k))
    decreases |parts|
  {
    if parts != [] {
      var pieces, tail := PiecesOf(parts[0].payload), parts[1..];
      PiecesAddUp(tail, k);
      hide AddUp, PiecesOf;
      AddUpStep(Of(pieces, k), Of(AllPieces(tail), k), Of(TakenPieces(tail), k), Of(LeftPieces(tail), k));
      OfConcat(pieces, AllPieces(tail), k);
      OfConcat(pieces, TakenPieces(tail), k);
      OfConcat(pieces, LeftPieces(tail), k);
      assert [] + TakenPieces(tail) == TakenPieces(tail) && [] + LeftPieces(tail) == LeftPieces(tail);
    }
  }

  /** All fragments reassemble to the same calls as those taken exactly if those left out bring nothing. */
  lemma LeftMatterExactly(parts: seq<Part>)
    ensures ApplyAll(map[], AllPieces(parts)) == ApplyAll(map[], TakenPieces(parts)) <==> LeftBringNothing(parts)
  {
    var all, taken := ApplyAll(map[], AllPieces(parts)), ApplyAll(map[], TakenPieces(parts));
    forall k: int
      ensures BringNothing(Of(AllPieces(parts), k), Of(TakenPieces(parts), k), Of(LeftPieces(parts), k))
        <==> SameAt(all, taken, k)
    {
      CallMattersExactly(parts, k);
    }
    hide BringNothing, AllPieces, TakenPieces, LeftPieces;
    if LeftBringNothing(parts) {
      forall k: int ensures SameAt(all, taken, k) {
        assert BringNothing(Of(AllPieces(parts), k), Of(TakenPieces(parts), k), Of(LeftPieces(parts), k));
      }
      SameEverywhere(all, taken);
    }
  }

  predicate SameAt(xs: Calls, ys: Calls, k: int) {
    (k in xs <==> k in ys) && (k in xs && k in ys ==> xs[k] == ys[k])
  }

  lemma SameEverywhere(xs: Calls, ys: Calls)
    requires forall k: int :: SameAt(xs, ys, k)
    ensures xs == ys
  {
    forall k: int
      ensures k in xs <==> k in ys
      ensures k in xs && k in ys ==> xs[k] == ys[k]
    {
      assert SameAt(xs, ys, k);
    }
  }

  lemma CallMattersExactly(parts: seq<Part>, k: int)
    ensures BringNothing(Of(AllPieces(parts), k), Of(TakenPieces(parts), k), Of(LeftPieces(parts), k))
      <==> SameAt(ApplyAll(map[], AllPieces(parts)), ApplyAll(map[], TakenPieces(parts)), k)
  {
    ReassemblyClosedForm(map[], AllPieces(parts), k);
    ReassemblyClosedForm(map[], TakenPieces(parts), k);
    PiecesAddUp(parts, k);
    hide AllPieces, TakenPieces, LeftPieces, ApplyAll, Of;
    var all, taken := Of(AllPieces(parts), k), Of(TakenPieces(parts), k);
    assert "" + Names(all) == Names(all) && "" + Names(taken) == Names(taken);
    assert "" + Arguments(all) == Arguments(all) && "" + Arguments(taken) == Arguments(taken);
  }

  /** With nothing left out, nothing is missing. */
  lemma {:induction false} AllTaken(parts: seq<Part>)
    requires forall i | 0 <= i < |parts| :: parts[i].taken || PiecesOf(parts[i].payload) == []
    ensures TakenPieces(parts) == AllPieces(parts)
    decreases |parts|
  {
    if parts != [] {
      assert forall i | 0 <= i < |parts| - 1 :: parts[1..][i] == parts[i + 1];
      hide PiecesOf;
      AllTaken(parts[1..]);
    }
  }
}
