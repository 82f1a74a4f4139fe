/** Mapping a chat history to the upstream's messages, with tool calls and tool results kept only in pairs. */
module ToolHistory {
  import opened Messages
  import opened Text

  /** `content` and `reasoning` may be absent on the wire. */
  datatype Wire = Wire(role: string, content: Option<string>, reasoning: Option<string>, calls: seq<Call>,
      toolCallID: string, name: string)

  // ----- which messages survive -----

  predicate Answers(m: Message, id: string) {
    m.role == TOOL && m.toolCallID == id && id != ""
  }

  predicate IsLast(ms: seq<Message>, id: string, j: nat) {
    j < |ms| && Answers(ms[j], id) && forall k :: j < k < |ms| ==> !Answers(ms[k], id)
  }

  predicate Answered(ms: seq<Message>, id: string) {
    exists j :: 0 <= j < |ms| && Answers(ms[j], id)
  }

  /** The calls of message `i` are passed on: it has some, and each has an ID that some tool message answers. */
  predicate Complete(ms: seq<Message>, i: nat) {
    && i < |ms| && ms[i].role == ASSISTANT && ms[i].calls != []
    && forall c :: c in ms[i].calls ==> Answered(ms, c.id)
  }

  /** Message `j` is the last answer to a call that is passed on. */
  ghost predicate Needed(ms: seq<Message>, j: nat) {
    j < |ms| && IsLast(ms, ms[j].toolCallID, j)
    && exists i: nat, c :: Complete(ms, i) && c in ms[i].calls && c.id == ms[j].toolCallID
  }

  predicate Speaks(m: Message) {
    m.role == SYSTEM || m.role == USER || m.role == ASSISTANT
  }

  ghost predicate Survives(ms: seq<Message>, i: nat) {
    i < |ms| && (Speaks(ms[i]) || (ms[i].role == TOOL && Needed(ms, i)))
  }

  function ToWire(ms: seq<Message>, i: nat): Wire
    requires i < |ms|
  {
    var m := ms[i];
    if m.role == ASSISTANT then
      if Complete(ms, i) then
        Wire(ASSISTANT, if m.text == "" then None else Some(m.text), Some(m.reasoning), m.calls, "", "")
      else Wire(ASSISTANT, Some(m.text), Some(m.reasoning), [], "", "")
    else if m.role == TOOL then
      Wire(TOOL, Some(if m.text == "" then "(no output)" else m.text), None, [], m.toolCallID, m.name)
    else Wire(m.role, Some(m.text), None, [], "", "")
  }

  /** The indices below `n` that survive, in order. */
  ghost function Kept(ms: seq<Message>, n: nat): (r: seq<nat>)
    requires n <= |ms|
    ensures forall k :: 0 <= k < |r| ==> r[k] < n && Survives(ms, r[k])
  {
    if n == 0 then [] else Kept(ms, n - 1) + if Survives(ms, n - 1) then [n - 1] else []
  }

  ghost function Build(ms: seq<Message>): (r: seq<Wire>)
    ensures |r| == |Kept(ms, |ms|)|
    ensures forall k :: 0 <= k < |r| ==> r[k] == ToWire(ms, Kept(ms, |ms|)[k])
  {
    seq(|Kept(ms, |ms|)|, k requires 0 <= k < |Kept(ms, |ms|)| => ToWire(ms, Kept(ms, |ms|)[k]))
  }

  // ----- the methods -----

  lemma {:induction false} LastExists(ms: seq<Message>, id: string, n: nat) returns (j: nat)
    requires n <= |ms| && (forall k :: n <= k < |ms| ==> !Answers(ms[k], id)) && Answered(ms, id)
    ensures IsLast(ms, id, j)
    decreases n
  {
    if Answers(ms[n - 1], id) {
      j := n - 1;
    } else {
      j := LastExists(ms, id, n - 1);
    }
  }

  /** Where each ID is answered last. */
  method IndexResults(ms: seq<Message>) returns (resultIndex: map<string, nat>)
    ensures forall id :: id in resultIndex <==> Answered(ms, id)
    ensures forall id :: id in resultIndex ==> IsLast(ms, id, resultIndex[id])
  {
    resultIndex := map[];
    for i := 0 to |ms|
      invariant forall id :: id in resultIndex ==> resultIndex[id] < i && Answers(ms[resultIndex[id]], id)
      invariant forall id, k :: 0 <= k < i && Answers(ms[k], id) ==> id in resultIndex && k <= resultIndex[id]
    {
      if ms[i].role == TOOL && ms[i].toolCallID != "" {
        resultIndex := resultIndex[ms[i].toolCallID := i];
      }
    }
  }

  method CallsAreComplete(resultIndex: map<string, nat>, calls: seq<Call>) returns (complete: bool)
    ensures complete <==> forall c :: c in calls ==> c.id != "" && c.id in resultIndex
  {
    for k := 0 to |calls|
      invariant forall j :: 0 <= j < k ==> calls[j].id != "" && calls[j].id in resultIndex
    {
      if calls[k].id == "" || calls[k].id !in resultIndex {
        return false;
      }
    }
    return true;
  }

  method PairedToolMessages(ms: seq<Message>) returns (keepCalls: set<nat>, keepResults: set<nat>)
    ensures forall i: nat :: i in keepCalls <==> Complete(ms, i)
    ensures forall j: nat :: j in keepResults <==> Needed(ms, j)
  {
    var resultIndex := IndexResults(ms);
    keepCalls, keepResults := {}, {};
    for i := 0 to |ms|
      invariant forall k: nat :: k in keepCalls <==> k < i && Complete(ms, k)
      invariant forall j: nat :: j in keepResults <==>
        exists k: nat, c :: k < i && Complete(ms, k) && c in ms[k].calls && resultIndex[c.id] == j
    {
      if ms[i].role != ASSISTANT || |ms[i].calls| == 0 {
        continue;
      }
      var complete := CallsAreComplete(resultIndex, ms[i].calls);
      assert complete == Complete(ms, i);
      if !complete {
        continue;
      }
      keepCalls := keepCalls + {i};
      ghost var before := keepResults;
      for k := 0 to |ms[i].calls|
        invariant forall j: nat :: j in keepResults <==>
          j in before || exists l :: 0 <= l < k && resultIndex[ms[i].calls[l].id] == j
      {
        keepResults := keepResults + {resultIndex[ms[i].calls[k].id]};
      }
    }
  }

  method BuildUpstreamMessages(ms: seq<Message>) returns (out: seq<Wire>)
    ensures out == Build(ms)
  {
    RolesDiffer();
    var keepCalls, keepResults := PairedToolMessages(ms);
    out := [];
    for i := 0 to |ms|
      invariant |out| == |Kept(ms, i)| && forall k :: 0 <= k < |out| ==> out[k] == ToWire(ms, Kept(ms, i)[k])
    {
      var m := ms[i];
      if m.role == SYSTEM || m.role == USER {
        out := out + [Wire(m.role, Some(m.text), None, [], "", "")];
      } else if m.role == ASSISTANT {
        var wire := Wire(ASSISTANT, Some(m.text), Some(m.reasoning), [], "", "");
        if i in keepCalls {
          for k := 0 to |m.calls|
            invariant wire == Wire(ASSISTANT, Some(m.text), Some(m.reasoning), m.calls[..k], "", "")
          {
            wire := wire.(calls := wire.calls + [m.calls[k]]);
          }
          if m.text == "" {
            wire := wire.(content := None);
          }
        }
        out := out + [wire];
      } else if m.role == TOOL {
        if i in keepResults {
          var content := m.text;
          if content == "" {
            content := "(no output)";
          }
          out := out + [Wire(TOOL, Some(content), None, [], m.toolCallID, m.name)];
        }
      }
    }
  }
}
