/** What the mapping of a chat history guarantees: calls and results are paired, the talk is kept, twice is once. */
module HistoryPairing {
  import opened Messages
  import opened Text
  import opened ToolHistory

  predicate Result(w: Wire, id: string) {
    w.role == TOOL && w.toolCallID == id
  }

  /** Exactly one message of `ws` is the result for `id`. */
  ghost predicate OneResult(ws: seq<Wire>, id: string) {
    exists j :: 0 <= j < |ws| && Result(ws[j], id) && forall k :: 0 <= k < |ws| && Result(ws[k], id) ==> k == j
  }

  predicate Called(ws: seq<Wire>, id: string) {
    exists k, c :: 0 <= k < |ws| && c in ws[k].calls && c.id == id
  }

  /** Every call has exactly one result, and every result is for a call. */
  ghost predicate Paired(ws: seq<Wire>) {
    && (forall k, c :: 0 <= k < |ws| && c in ws[k].calls ==> c.id != "" && OneResult(ws, c.id))
    && (forall j :: 0 <= j < |ws| && ws[j].role == TOOL ==> Called(ws, ws[j].toolCallID))
  }

  // ----- positions -----

  lemma {:induction false} KeptIncreasing(ms: seq<Message>, n: nat)
    requires n <= |ms|
    ensures forall k, l :: 0 <= k < l < |Kept(ms, n)| ==> Kept(ms, n)[k] < Kept(ms, n)[l]
  {
    if n > 0 {
      KeptIncreasing(ms, n - 1);
    }
  }

  lemma {:induction false} Position(ms: seq<Message>, n: nat, i: nat) returns (k: nat)
    requires i < n <= |ms| && Survives(ms, i)
    ensures k < |Kept(ms, n)| && Kept(ms, n)[k] == i
  {
    if i == n - 1 {
      k := |Kept(ms, n)| - 1;
    } else {
      k := Position(ms, n - 1, i);
    }
  }

  // ----- pairing -----

  lemma CallHasOneResult(ms: seq<Message>, k: nat, c: Call)
    requires k < |Build(ms)| && c in Build(ms)[k].calls
    ensures c.id != "" && OneResult(Build(ms), c.id)
  {
    var kept, ws := Kept(ms, |ms|), Build(ms);
    var i := kept[k];
    assert Complete(ms, i) && c in ms[i].calls;
    assert Answered(ms, c.id);
    var last := LastExists(ms, c.id, |ms|);
    assert Needed(ms, last);
    var j := Position(ms, |ms|, last);
    assert Result(ws[j], c.id);
    forall l | 0 <= l < |ws| && Result(ws[l], c.id) ensures l == j {
      assert Needed(ms, kept[l]) && Answers(ms[kept[l]], c.id);
      assert kept[l] == last;
      KeptIncreasing(ms, |ms|);
    }
  }

  lemma ResultIsCalled(ms: seq<Message>, j: nat)
    requires j < |Build(ms)| && Build(ms)[j].role == TOOL
    ensures Called(Build(ms), Build(ms)[j].toolCallID)
  {
    var kept, ws := Kept(ms, |ms|), Build(ms);
    assert Needed(ms, kept[j]);
    var i: nat, c :| Complete(ms, i) && c in ms[i].calls && c.id == ms[kept[j]].toolCallID;
    var k := Position(ms, |ms|, i);
    assert c in ws[k].calls;
  }

  /** Whatever the history, the upstream sees every call with exactly one result and no result without a call. */
  lemma HistoryIsPaired(ms: seq<Message>)
    ensures Paired(Build(ms))
  {
    var ws := Build(ms);
    forall k, c | 0 <= k < |ws| && c in ws[k].calls ensures c.id != "" && OneResult(ws, c.id) {
      CallHasOneResult(ms, k, c);
    }
    forall j | 0 <= j < |ws| && ws[j].role == TOOL ensures Called(ws, ws[j].toolCallID) {
      ResultIsCalled(ms, j);
    }
  }

  /** An assistant loses its calls only if one of them has an empty ID or one that no tool message bears. */
  lemma CallsDroppedOnlyIfUnanswered(ms: seq<Message>, i: nat) returns (k: nat)
    requires i < |ms| && ms[i].role == ASSISTANT
    ensures k < |Build(ms)| && Kept(ms, |ms|)[k] == i && Build(ms)[k].role == ASSISTANT
    ensures Build(ms)[k].calls == [] || Build(ms)[k].calls == ms[i].calls
    ensures Build(ms)[k].calls == [] ==>
      ms[i].calls == [] || exists c ::
        c in ms[i].calls && (c.id == "" || forall j :: 0 <= j < |ms| ==> ms[j].role != TOOL || ms[j].toolCallID != c.id)
  {
    k := Position(ms, |ms|, i);
    if Build(ms)[k].calls == [] && ms[i].calls != [] {
      var c :| c in ms[i].calls && !Answered(ms, c.id);
      assert forall j :: 0 <= j < |ms| ==> !Answers(ms[j], c.id);
    }
  }

  // ----- order -----

  /** Every result stands behind every call it answers. */
  ghost predicate ResultsFollow(ws: seq<Wire>) {
    forall k, j, c :: 0 <= k < |ws| && c in ws[k].calls && 0 <= j < |ws| && Result(ws[j], c.id) ==> k < j
  }

  predicate AnsweredAfter(ms: seq<Message>, i: nat, id: string) {
    exists j :: i < j < |ms| && Answers(ms[j], id)
  }

  /** Where a call and its result end up, and that they keep their order. */
  lemma PairKeepsOrder(ms: seq<Message>, i: nat, c: Call) returns (k: nat, j: nat)
    requires Complete(ms, i) && c in ms[i].calls
    ensures k < |Build(ms)| && Kept(ms, |ms|)[k] == i && c in Build(ms)[k].calls
    ensures j < |Build(ms)| && Result(Build(ms)[j], c.id)
    ensures k < j <==> AnsweredAfter(ms, i, c.id)
  {
    RolesDiffer();
    assert Answered(ms, c.id);
    var last := LastExists(ms, c.id, |ms|);
    assert Needed(ms, last);
    k := Position(ms, |ms|, i);
    j := Position(ms, |ms|, last);
    KeptIncreasing(ms, |ms|);
    assert i != last && (AnsweredAfter(ms, i, c.id) <==> i < last);
  }

  /**
   * Results follow their calls exactly if in the history every call that is passed on has an answer behind it; the
   * mapping itself reorders nothing.
   */
  lemma ResultsFollowExactly(ms: seq<Message>)
    ensures ResultsFollow(Build(ms)) <==>
      forall i: nat, c :: Complete(ms, i) && c in ms[i].calls ==> AnsweredAfter(ms, i, c.id)
  {
    var ws := Build(ms);
    forall i: nat, c | Complete(ms, i) && c in ms[i].calls && ResultsFollow(ws) ensures AnsweredAfter(ms, i, c.id) {
      var k, j := PairKeepsOrder(ms, i, c);
    }
    if forall i: nat, c :: Complete(ms, i) && c in ms[i].calls ==> AnsweredAfter(ms, i, c.id) {
      forall k, j, c | 0 <= k < |ws| && c in ws[k].calls && 0 <= j < |ws| && Result(ws[j], c.id) ensures k < j {
        var i := Kept(ms, |ms|)[k];
        var k', j' := PairKeepsOrder(ms, i, c);
        KeptIncreasing(ms, |ms|);
        CallHasOneResult(ms, k, c);
        assert k' == k && j' == j;
      }
    }
  }

  /** A result that stands in front of its call stays there. */
  lemma ResultMayPrecede(id: string) returns (ms: seq<Message>)
    requires id != ""
    ensures |Build(ms)| == 2 && Result(Build(ms)[0], id) && Build(ms)[1].calls == [Call(id, "", "")]
      && !ResultsFollow(Build(ms))
  {
    RolesDiffer();
    var c := Call(id, "", "");
    ms := [Message(TOOL, "", "", [], id, ""), Message(ASSISTANT, "", "", [c], "", "")];
    assert Answers(ms[0], id) && Answered(ms, id) && Complete(ms, 1) && c in ms[1].calls;
    assert IsLast(ms, id, 0) && Needed(ms, 0) && Survives(ms, 0) && Survives(ms, 1);
    assert Kept(ms, 0) == [] && Kept(ms, 1) == [0] && Kept(ms, 2) == [0, 1];
    assert !AnsweredAfter(ms, 1, id);
    ResultsFollowExactly(ms);
  }

  // ----- the talk is kept -----

  function AsMessage(w: Wire): Message {
    Message(w.role, w.content.GetOr(""), w.reasoning.GetOr(""), w.calls, w.toolCallID, w.name)
  }

  function AsMessages(ws: seq<Wire>): seq<Message> {
    seq(|ws|, i requires 0 <= i < |ws| => AsMessage(ws[i]))
  }

  /** What one message adds to the talk; an assistant's reasoning is part of it. */
  function Said(m: Message): seq<(string, string, string)> {
    if Speaks(m) then [(m.role, m.text, if m.role == ASSISTANT then m.reasoning else "")] else []
  }

  /** What system, user and assistant say, in order. */
  function Talk(ms: seq<Message>): seq<(string, string, string)> {
    if ms == [] then [] else Talk(ms[..|ms| - 1]) + Said(ms[|ms| - 1])
  }

  ghost function Sent(ms: seq<Message>, n: nat): (r: seq<Message>)
    requires n <= |ms|
  {
    seq(|Kept(ms, n)|, k requires 0 <= k < |Kept(ms, n)| => AsMessage(ToWire(ms, Kept(ms, n)[k])))
  }

  lemma TalkAppend(ms: seq<Message>, m: Message)
    ensures Talk(ms + [m]) == Talk(ms) + Said(m)
  {
    assert (ms + [m])[..|ms|] == ms;
  }

  lemma SentStep(ms: seq<Message>, n: nat)
    requires 0 < n <= |ms|
    ensures Survives(ms, n - 1) ==> Sent(ms, n) == Sent(ms, n - 1) + [AsMessage(ToWire(ms, n - 1))]
    ensures !Survives(ms, n - 1) ==> Sent(ms, n) == Sent(ms, n - 1)
  {
    hide Survives, ToWire, AsMessage;
  }

  /** A message says the same on the wire, and only messages that say nothing are dropped. */
  lemma SaidTheSame(ms: seq<Message>, i: nat)
    requires i < |ms|
    ensures if Survives(ms, i) then Said(AsMessage(ToWire(ms, i))) == Said(ms[i]) else Said(ms[i]) == []
  {
    RolesDiffer();
    hide Needed, Complete;
  }

  lemma TalkOfNone(ms: seq<Message>)
    ensures Talk(Sent(ms, 0)) == Talk(ms[..0])
  {
    assert Sent(ms, 0) == [] == ms[..0];
  }

  /** One message more says the same in the history and on the wire. */
  lemma TalkStep(ms: seq<Message>, n: nat)
    requires 0 < n <= |ms| && Talk(Sent(ms, n - 1)) == Talk(ms[..n - 1])
    ensures Talk(Sent(ms, n)) == Talk(ms[..n])
  {
    hide *;
    assert ms[..n] == ms[..n - 1] + [ms[n - 1]];
    TalkAppend(ms[..n - 1], ms[n - 1]);
    SentStep(ms, n);
    SaidTheSame(ms, n - 1);
    if Survives(ms, n - 1) {
      TalkAppend(Sent(ms, n - 1), AsMessage(ToWire(ms, n - 1)));
    } else {
      assert Talk(ms[..n - 1]) + [] == Talk(ms[..n - 1]);
    }
  }

  lemma {:induction false} TalkUpTo(ms: seq<Message>, n: nat)
    requires n <= |ms|
    ensures Talk(Sent(ms, n)) == Talk(ms[..n])
  {
    hide *;
    if n > 0 {
      TalkUpTo(ms, n - 1);
      TalkStep(ms, n);
    } else {
      TalkOfNone(ms);
    }
  }

  /** What system, user and assistant say reaches the upstream in full and in order. */
  lemma TalkIsKept(ms: seq<Message>)
    ensures Talk(AsMessages(Build(ms))) == Talk(ms)
  {
    TalkUpTo(ms, |ms|);
    assert ms[..|ms|] == ms;
    assert Sent(ms, |ms|) == AsMessages(Build(ms));
  }

  // ----- twice is once -----

  /** The form each kind of message takes on the wire. */
  predicate WellShaped(w: Wire) {
    if w.role == ASSISTANT then
      && w.reasoning.Some? && w.toolCallID == "" && w.name == ""
      && if w.content == None then w.calls != [] else w.content != Some("") || w.calls == []
    else if w.role == TOOL then w.content.Some? && w.content != Some("") && w.reasoning == None && w.calls == []
    else
      && (w.role == SYSTEM || w.role == USER)
      && w.content.Some? && w.reasoning == None && w.calls == [] && w.toolCallID == "" && w.name == ""
  }

  lemma BuildIsWellShaped(ms: seq<Message>)
    ensures forall k :: 0 <= k < |Build(ms)| ==> WellShaped(Build(ms)[k])
  {
    RolesDiffer();
  }

  lemma AllSurvive(ws: seq<Wire>, i: nat)
    requires Paired(ws) && (forall k :: 0 <= k < |ws| ==> WellShaped(ws[k])) && i < |ws|
    ensures Survives(AsMessages(ws), i) && ToWire(AsMessages(ws), i) == ws[i]
  {
    var ms := AsMessages(ws);
    RolesDiffer();
    forall k: nat, c | k < |ws| && c in ws[k].calls ensures Complete(ms, k) {
      forall d | d in ms[k].calls ensures Answered(ms, d.id) {
        assert OneResult(ws, d.id);
        var j :| 0 <= j < |ws| && Result(ws[j], d.id);
        assert Answers(ms[j], d.id);
      }
    }
    if ws[i].role == TOOL {
      var id := ws[i].toolCallID;
      assert Called(ws, id);
      var k, c :| 0 <= k < |ws| && c in ws[k].calls && c.id == id;
      assert Complete(ms, k) && c in ms[k].calls;
      assert OneResult(ws, id) && Result(ws[i], id);
      assert IsLast(ms, id, i) by {
        forall l | i < l < |ms| ensures !Answers(ms[l], id) {
          assert Result(ws[l], id) ==> l == i;
        }
      }
    }
    assert ws[i].calls != [] ==> ws[i].calls[0] in ws[i].calls;
  }

  lemma {:induction false} KeptAllOf(ms: seq<Message>, n: nat)
    requires n <= |ms| && forall i :: 0 <= i < |ms| ==> Survives(ms, i)
    ensures |Kept(ms, n)| == n && forall k :: 0 <= k < n ==> Kept(ms, n)[k] == k
  {
    if n > 0 {
      KeptAllOf(ms, n - 1);
    }
  }

  /** Exactly the paired, well-shaped lists come through unchanged. */
  lemma UnchangedExactly(ws: seq<Wire>)
    ensures Build(AsMessages(ws)) == ws <==> Paired(ws) && forall k :: 0 <= k < |ws| ==> WellShaped(ws[k])
  {
    var ms := AsMessages(ws);
    if Build(ms) == ws {
      HistoryIsPaired(ms);
      BuildIsWellShaped(ms);
    }
    if Paired(ws) && forall k :: 0 <= k < |ws| ==> WellShaped(ws[k]) {
      forall i | 0 <= i < |ws| ensures Survives(ms, i) && ToWire(ms, i) == ws[i] {
        AllSurvive(ws, i);
      }
      KeptAllOf(ms, |ms|);
    }
  }

  /** Mapping the result again changes nothing. */
  lemma BuildIdempotent(ms: seq<Message>)
    ensures Build(AsMessages(Build(ms))) == Build(ms)
  {
    HistoryIsPaired(ms);
    BuildIsWellShaped(ms);
    UnchangedExactly(Build(ms));
  }
}
