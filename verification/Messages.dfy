/** The messages of an OpenAI chat request. */
module Messages {
  const SYSTEM: string := "system"
  const USER: string := "user"
  const ASSISTANT: string := "assistant"
  const TOOL: string := "tool"

  datatype Call = Call(id: string, name: string, args: string)

  datatype Message = Message(role: string, text: string, reasoning: string, calls: seq<Call>, toolCallID: string,
      name: string)

  lemma RolesDiffer()
    ensures SYSTEM != USER && SYSTEM != ASSISTANT && SYSTEM != TOOL && USER != ASSISTANT && USER != TOOL
      && ASSISTANT != TOOL
  {
    assert USER[0] == 'u' && TOOL[0] == 't';
  }
}
