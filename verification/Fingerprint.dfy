/** Recognising a conversation that a stateless client sends back: canonical messages and the hash chain over them. */
module Fingerprint {
  import opened Messages
  import opened Text

  const NUL: char := '\0'

  /** What the fingerprint looks at: neither reasoning nor name, and arguments as `normalizeArgs` leaves them. */
  function Normal(norm: string -> string, m: Message): Message {
    Message(m.role, m.text, "",
            seq(|m.calls|, i requires 0 <= i < |m.calls| => m.calls[i].(args := norm(m.calls[i].args))),
            m.toolCallID, "")
  }

  /** The same role, text, tool call ID and calls, but for the spelling of arguments. */
  predicate SameMessage(norm: string -> string, m: Message, m': Message) {
    && m.role == m'.role && m.text == m'.text && m.toolCallID == m'.toolCallID && |m.calls| == |m'.calls|
    && forall i | 0 <= i < |m.calls| ::
      && m.calls[i].id == m'.calls[i].id && m.calls[i].name == m'.calls[i].name
      && norm(m.calls[i].args) == norm(m'.calls[i].args)
  }

  lemma NormalExactly(norm: string -> string, m: Message, m': Message)
    ensures Normal(norm, m) == Normal(norm, m') <==> SameMessage(norm, m, m')
  {
    var calls, calls' := Normal(norm, m).calls, Normal(norm, m').calls;
    assert |calls| == |m.calls| && |calls'| == |m'.calls|;
    if calls == calls' {
      forall i | 0 <= i < |m.calls| ensures m.calls[i].(args := norm(m.calls[i].args)) ==
          m'.calls[i].(args := norm(m'.calls[i].args)) {
        assert calls[i] == calls'[i];
      }
    }
  }

  // ----- fields -----

  /** `fields` with a NUL between each two. */
  function Join(fields: seq<string>): string {
    if fields == [] then ""
    else if |fields| == 1 then fields[0]
    else Join(fields[..|fields| - 1]) + [NUL] + fields[|fields| - 1]
  }

  /** The last stretch of `s` without a NUL. */
  function LastField(s: string): (r: string)
    ensures |r| <= |s| && s[|s| - |r|..] == r && Free(r, NUL)
    ensures |r| < |s| ==> s[|s| - |r| - 1] == NUL
  {
    if s == "" || s[|s| - 1] == NUL then "" else LastField(s[..|s| - 1]) + [s[|s| - 1]]
  }

  function BeforeLast(s: string): (r: string)
    requires |LastField(s)| < |s|
    ensures |r| < |s|
  {
    s[..|s| - |LastField(s)| - 1]
  }

  function Split(s: string): (r: seq<string>)
    ensures r != [] && forall i :: 0 <= i < |r| ==> Free(r[i], NUL)
    decreases |s|
  {
    if |LastField(s)| == |s| then [s] else Split(BeforeLast(s)) + [LastField(s)]
  }

  function CallFields(calls: seq<Call>): (r: seq<string>)
    ensures |r| == 3 * |calls|
  {
    if calls == [] then []
    else
      var c := calls[|calls| - 1];
      CallFields(calls[..|calls| - 1]) + [c.id, c.name, c.args]
  }

  const TOOL_MARK: string := "tool:"

  /** The fields that `canonical` writes for a message whose arguments are normal. */
  function Fields(m: Message): seq<string> {
    [m.role, m.text] + CallFields(m.calls) + if m.toolCallID == "" then [] else [TOOL_MARK + m.toolCallID]
  }

  function Canonical(norm: string -> string, m: Message): string {
    Join(Fields(Normal(norm, m)))
  }

  method WriteCanonical(norm: string -> string, m: Message) returns (sb: string)
    ensures sb == Canonical(norm, m)
  {
    sb := m.role;
    sb := sb + [NUL];
    sb := sb + m.text;
    ghost var calls := Normal(norm, m).calls;
    ghost var fields := [m.role, m.text];
    assert fields[..1] == [m.role];
    for i := 0 to |m.calls|
      invariant fields == [m.role, m.text] + CallFields(calls[..i]) && sb == Join(fields)
    {
      var c := m.calls[i];
      JoinOneMore(fields, c.id);
      JoinOneMore(fields + [c.id], c.name);
      JoinOneMore(fields + [c.id] + [c.name], norm(c.args));
      sb := sb + [NUL];
      sb := sb + c.id;
      sb := sb + [NUL];
      sb := sb + c.name;
      sb := sb + [NUL];
      sb := sb + norm(c.args);
      assert calls[..i + 1][..i] == calls[..i];
      fields := fields + [c.id] + [c.name] + [norm(c.args)];
      assert fields == [m.role, m.text] + (CallFields(calls[..i]) + [c.id, c.name, norm(c.args)]);
    }
    assert calls[..|m.calls|] == calls;
    if m.toolCallID != "" {
      JoinOneMore(fields, TOOL_MARK + m.toolCallID);
      sb := sb + [NUL] + TOOL_MARK;
      sb := sb + m.toolCallID;
    } else {
      assert fields + [] == fields;
    }
  }

  lemma JoinOneMore(fields: seq<string>, field: string)
    requires fields != []
    ensures Join(fields + [field]) == Join(fields) + [NUL] + field
  {
    assert (fields + [field])[..|fields|] == fields;
  }

  // ----- decoding -----

  lemma {:induction false} LastFieldOf(s: string, field: string)
    requires Free(field, NUL)
    ensures LastField(s + [NUL] + field) == field
    decreases |field|
  {
    var t := s + [NUL] + field;
    if field == "" {
      assert t[|t| - 1] == NUL;
    } else {
      var init, c := field[..|field| - 1], field[|field| - 1];
      assert field == init + [c] && t[|t| - 1] == c && t[..|t| - 1] == s + [NUL] + init;
      LastFieldOf(s, init);
    }
  }

  lemma {:induction false} LastFieldOfField(field: string)
    requires Free(field, NUL)
    ensures LastField(field) == field
  {
    if field != "" {
      LastFieldOfField(field[..|field| - 1]);
    }
  }

  lemma BeforeLastOf(s: string, field: string)
    requires Free(field, NUL)
    ensures LastField(s + [NUL] + field) == field && BeforeLast(s + [NUL] + field) == s
  {
    LastFieldOf(s, field);
    hide LastField, Free;
    var t := s + [NUL] + field;
    assert t[..|t| - |field| - 1] == s;
  }

  lemma SplitOneMore(s: string, field: string)
    requires Free(field, NUL)
    ensures Split(field) == [field] && Split(s + [NUL] + field) == Split(s) + [field]
  {
    hide LastField, BeforeLast, Free;
    LastFieldOfField(field);
    BeforeLastOf(s, field);
  }

  /** Fields without a NUL are read back from the joined text. */
  lemma {:induction false} SplitJoin(fields: seq<string>)
    requires fields != [] && forall f :: f in fields ==> Free(f, NUL)
    ensures Split(Join(fields)) == fields
  {
    var init, last := fields[..|fields| - 1], fields[|fields| - 1];
    assert fields == init + [last];
    hide Free, Split;
    SplitOneMore(Join(init), last);
    if init != [] {
      JoinOneMore(init, last);
      SplitJoin(init);
    }
  }

  function DecodeCalls(fields: seq<string>): seq<Call>
    requires |fields| % 3 == 0
  {
    if fields == [] then []
    else DecodeCalls(fields[..|fields| - 3]) + [Call(fields[|fields| - 3], fields[|fields| - 2], fields[|fields| - 1])]
  }

  /** Reads a canonical text: the number of fields tells whether the last one is a tool call ID. */
  function Decode(s: string): Option<Message> {
    var fields := Split(s);
    if |fields| < 2 then None
    else if (|fields| - 2) % 3 == 0 then Some(Message(fields[0], fields[1], "", DecodeCalls(fields[2..]), "", ""))
    else
      var last := fields[|fields| - 1];
      if (|fields| - 2) % 3 == 1 && |last| > |TOOL_MARK| && last[..|TOOL_MARK|] == TOOL_MARK then
        Some(Message(fields[0], fields[1], "", DecodeCalls(fields[2..|fields| - 1]), last[|TOOL_MARK|..], ""))
      else None
  }

  /** Nothing that `canonical` writes for the message contains a NUL. */
  ghost predicate NulFree(norm: string -> string, m: Message) {
    && Free(m.role, NUL) && Free(m.text, NUL) && Free(m.toolCallID, NUL)
    && forall c :: c in m.calls ==> Free(c.id, NUL) && Free(c.name, NUL) && Free(norm(c.args), NUL)
  }

  lemma {:induction false} CallFieldsDecode(calls: seq<Call>)
    ensures DecodeCalls(CallFields(calls)) == calls
  {
    if calls != [] {
      var init, c := calls[..|calls| - 1], calls[|calls| - 1];
      CallFieldsDecode(init);
      var fields := CallFields(calls);
      assert fields[..|fields| - 3] == CallFields(init);
      assert calls == init + [c];
    }
  }

  lemma {:induction false} CallFieldsAreFree(calls: seq<Call>)
    requires forall c :: c in calls ==> Free(c.id, NUL) && Free(c.name, NUL) && Free(c.args, NUL)
    ensures forall f :: f in CallFields(calls) ==> Free(f, NUL)
  {
    hide Free;
    if calls != [] {
      CallFieldsAreFree(calls[..|calls| - 1]);
      assert calls[|calls| - 1] in calls;
    }
  }

  lemma {:induction false} DecodedCallsAreFree(fields: seq<string>)
    requires |fields| % 3 == 0 && forall f :: f in fields ==> Free(f, NUL)
    ensures forall c :: c in DecodeCalls(fields) ==> Free(c.id, NUL) && Free(c.name, NUL) && Free(c.args, NUL)
  {
    if fields != [] {
      DecodedCallsAreFree(fields[..|fields| - 3]);
    }
  }

  lemma FieldsSliced(m: Message)
    ensures var fields := Fields(m); var n := 2 + 3 * |m.calls|;
      && |fields| == n + (if m.toolCallID == "" then 0 else 1) && fields[0] == m.role && fields[1] == m.text
      && fields[2..n] == CallFields(m.calls) && (m.toolCallID != "" ==> fields[n] == TOOL_MARK + m.toolCallID)
  {
  }

  lemma FieldsAreFree(m: Message)
    requires Free(m.role, NUL) && Free(m.text, NUL) && Free(m.toolCallID, NUL)
    requires forall c :: c in m.calls ==> Free(c.id, NUL) && Free(c.name, NUL) && Free(c.args, NUL)
    ensures forall f :: f in Fields(m) ==> Free(f, NUL)
  {
    CallFieldsAreFree(m.calls);
    assert Free(TOOL_MARK + m.toolCallID, NUL);
    hide Free;
  }

  lemma DecodeFields(m: Message, s: string)
    requires Split(s) == Fields(m) && m.reasoning == "" && m.name == ""
    ensures Decode(s) == Some(m)
  {
    FieldsSliced(m);
    CallFieldsDecode(m.calls);
    hide Split, Fields, CallFields, DecodeCalls;
    var fields := Split(s);
    if m.toolCallID != "" {
      assert (TOOL_MARK + m.toolCallID)[..|TOOL_MARK|] == TOOL_MARK
        && (TOOL_MARK + m.toolCallID)[|TOOL_MARK|..] == m.toolCallID;
    } else {
      assert fields[2..] == fields[2..|fields|];
    }
  }

  lemma DecodedIsFree(s: string)
    ensures Decode(s).Some? ==> var m := Decode(s).value;
      && Free(m.role, NUL) && Free(m.text, NUL) && Free(m.toolCallID, NUL)
      && forall c :: c in m.calls ==> Free(c.id, NUL) && Free(c.name, NUL) && Free(c.args, NUL)
  {
    var fields := Split(s);
    hide Split;
    if |fields| >= 2 && (|fields| - 2) % 3 == 0 {
      DecodedCallsAreFree(fields[2..]);
    } else if |fields| >= 2 && (|fields| - 2) % 3 == 1 {
      DecodedCallsAreFree(fields[2..|fields| - 1]);
      var last := fields[|fields| - 1];
      assert Free(last, NUL);
      assert |last| > |TOOL_MARK| ==> Free(last[|TOOL_MARK|..], NUL);
    }
  }

  lemma NormalIsFree(norm: string -> string, m: Message)
    ensures NulFree(norm, m) <==>
      && Free(m.role, NUL) && Free(m.text, NUL) && Free(m.toolCallID, NUL)
      && forall c :: c in Normal(norm, m).calls ==> Free(c.id, NUL) && Free(c.name, NUL) && Free(c.args, NUL)
  {
    var n := Normal(norm, m);
    hide Free;
    assert forall i :: 0 <= i < |m.calls| ==> n.calls[i] == m.calls[i].(args := norm(m.calls[i].args));
    forall c | c in n.calls ensures exists d :: d in m.calls && c == d.(args := norm(d.args)) {
      var i :| 0 <= i < |n.calls| && n.calls[i] == c;
      assert m.calls[i] in m.calls;
    }
    forall d | d in m.calls ensures d.(args := norm(d.args)) in n.calls {
      var i :| 0 <= i < |m.calls| && m.calls[i] == d;
      assert n.calls[i] in n.calls;
    }
  }

  /**
   * A canonical text gives back the message, up to normalising its arguments, exactly when nothing written into
   * it contains a NUL.
   */
  lemma CanonicalDecodesExactly(norm: string -> string, m: Message)
    ensures Decode(Canonical(norm, m)) == Some(Normal(norm, m)) <==> NulFree(norm, m)
  {
    var n := Normal(norm, m);
    NormalIsFree(norm, m);
    DecodedIsFree(Canonical(norm, m));
    if NulFree(norm, m) {
      FieldsAreFree(n);
      SplitJoin(Fields(n));
      DecodeFields(n, Canonical(norm, m));
    }
  }

  /** Without NULs, canonical texts are equal exactly if the messages are the same but for spelling of arguments. */
  lemma CanonicalUnique(norm: string -> string, m: Message, m': Message)
    requires NulFree(norm, m) && NulFree(norm, m')
    ensures Canonical(norm, m) == Canonical(norm, m') <==> SameMessage(norm, m, m')
  {
    CanonicalDecodesExactly(norm, m);
    CanonicalDecodesExactly(norm, m');
    NormalExactly(norm, m, m');
  }

  /** With a NUL in the text the same canonical text also stands for another message. */
  lemma NulCollides(norm: string -> string, role: string, text: string, c: Call) returns (m: Message, m': Message)
    ensures Canonical(norm, m) == Canonical(norm, m') && !SameMessage(norm, m, m')
    ensures m == Message(role, text, "", [c], "", "") && m'.role == role && m'.calls == [] && m'.toolCallID == ""
  {
    m := Message(role, text, "", [c], "", "");
    var n := c.(args := norm(c.args));
    m' := Message(role, text + [NUL] + n.id + [NUL] + n.name + [NUL] + n.args, "", [], "", "");
    assert Normal(norm, m).calls == [n];
    assert [n][..0] == [];
    assert CallFields([n]) == [n.id, n.name, n.args];
    assert Fields(Normal(norm, m)) == [role] + [text] + [n.id] + [n.name] + [n.args];
    JoinOneMore([role], text);
    JoinOneMore([role] + [text], n.id);
    JoinOneMore([role] + [text] + [n.id], n.name);
    JoinOneMore([role] + [text] + [n.id] + [n.name], n.args);
    assert Fields(Normal(norm, m')) == [role] + [m'.text];
    JoinOneMore([role], m'.text);
  }

  // ----- the chain -----

  const SEPARATOR: char := '\U{1}'

  predicate IsHex(c: char) {
    '0' <= c <= '9' || 'a' <= c <= 'f'
  }

  /** The hash cut to 16 bytes, in hex. */
  ghost predicate Hex(hash: string -> string) {
    forall s :: |hash(s)| == 32 && forall i :: 0 <= i < 32 ==> IsHex(hash(s)[i])
  }

  /** What is hashed for `m` behind the fingerprint `prev`. */
  function Input(norm: string -> string, prev: string, m: Message): string {
    prev + [SEPARATOR] + Canonical(norm, m)
  }

  function FingerprintOf(norm: string -> string, hash: string -> string, ms: seq<Message>): string {
    if ms == [] then "" else hash(Input(norm, FingerprintOf(norm, hash, ms[..|ms| - 1]), ms[|ms| - 1]))
  }

  function ChainFingerprint(norm: string -> string, hash: string -> string, prev: string, m: Message): string {
    hash(Input(norm, prev, m))
  }

  method ComputeFingerprint(norm: string -> string, hash: string -> string, ms: seq<Message>) returns (fp: string)
    ensures fp == FingerprintOf(norm, hash, ms)
  {
    fp := "";
    for i := 0 to |ms|
      invariant fp == FingerprintOf(norm, hash, ms[..i])
    {
      assert ms[..i + 1][..i] == ms[..i];
      fp := ChainFingerprint(norm, hash, fp, ms[i]);
    }
    assert ms[..|ms|] == ms;
  }

  /** Everything hashed on the way to the fingerprint of `ms`. */
  function Inputs(norm: string -> string, hash: string -> string, ms: seq<Message>): seq<string> {
    if ms == [] then []
    else
      var init := ms[..|ms| - 1];
      Inputs(norm, hash, init) + [Input(norm, FingerprintOf(norm, hash, init), ms[|ms| - 1])]
  }

  function Canonicals(norm: string -> string, ms: seq<Message>): seq<string> {
    seq(|ms|, i requires 0 <= i < |ms| => Canonical(norm, ms[i]))
  }

  /** Two different texts hashed on the way to the two fingerprints have the same hash. */
  ghost predicate Collision(norm: string -> string, hash: string -> string, ms: seq<Message>, ms': seq<Message>) {
    exists a, b :: a in Inputs(norm, hash, ms) && b in Inputs(norm, hash, ms') && a != b && hash(a) == hash(b)
  }

  /** No fingerprint begins like the separator, so what is hashed tells where the fingerprint ends. */
  lemma InputUnique(norm: string -> string, hash: string -> string, ms: seq<Message>, m: Message, ms': seq<Message>,
      m': Message)
    requires Hex(hash)
    requires Input(norm, FingerprintOf(norm, hash, ms), m) == Input(norm, FingerprintOf(norm, hash, ms'), m')
    ensures FingerprintOf(norm, hash, ms) == FingerprintOf(norm, hash, ms') && Canonical(norm, m) == Canonical(norm, m')
  {
    var fp, fp' := FingerprintOf(norm, hash, ms), FingerprintOf(norm, hash, ms');
    var c, c' := Canonical(norm, m), Canonical(norm, m');
    assert (|fp| == 0 || (|fp| == 32 && IsHex(fp[0]))) && (|fp'| == 0 || (|fp'| == 32 && IsHex(fp'[0])));
    hide FingerprintOf, Canonical;
    var input := Input(norm, fp, m);
    assert input[|fp|] == SEPARATOR && input[|fp'|] == SEPARATOR;
    assert |fp| == |fp'| by {
      assert |fp| > 0 ==> input[0] == fp[0];
      assert |fp'| > 0 ==> input[0] == fp'[0];
    }
    assert fp == input[..|fp|] == fp' && c == input[|fp| + 1..] == c';
  }

  lemma CollisionBefore(norm: string -> string, hash: string -> string, ms: seq<Message>, ms': seq<Message>)
    requires ms != [] && ms' != [] && Collision(norm, hash, ms[..|ms| - 1], ms'[..|ms'| - 1])
    ensures Collision(norm, hash, ms, ms')
  {
    hide FingerprintOf, Input;
    var a, b :| a in Inputs(norm, hash, ms[..|ms| - 1]) && b in Inputs(norm, hash, ms'[..|ms'| - 1]) && a != b
      && hash(a) == hash(b);
    assert a in Inputs(norm, hash, ms) && b in Inputs(norm, hash, ms');
  }

  lemma CollisionHere(norm: string -> string, hash: string -> string, ms: seq<Message>, ms': seq<Message>)
    requires ms != [] && ms' != [] && FingerprintOf(norm, hash, ms) == FingerprintOf(norm, hash, ms')
    requires LastInput(norm, hash, ms) != LastInput(norm, hash, ms')
    ensures Collision(norm, hash, ms, ms')
  {
    hide Input;
    assert LastInput(norm, hash, ms) in Inputs(norm, hash, ms) && LastInput(norm, hash, ms') in Inputs(norm, hash, ms');
  }

  function LastInput(norm: string -> string, hash: string -> string, ms: seq<Message>): string
    requires ms != []
  {
    Input(norm, FingerprintOf(norm, hash, ms[..|ms| - 1]), ms[|ms| - 1])
  }

  lemma CanonicalsStep(norm: string -> string, ms: seq<Message>)
    requires ms != []
    ensures Canonicals(norm, ms) == Canonicals(norm, ms[..|ms| - 1]) + [Canonical(norm, ms[|ms| - 1])]
  {
    hide Canonical;
  }

  /** Equal fingerprints mean equal canonical messages, or show two texts on which the hash collides. */
  lemma {:induction false} FingerprintUnique(norm: string -> string, hash: string -> string, ms: seq<Message>,
      ms': seq<Message>)
    requires Hex(hash) && FingerprintOf(norm, hash, ms) == FingerprintOf(norm, hash, ms')
    ensures Canonicals(norm, ms) == Canonicals(norm, ms') || Collision(norm, hash, ms, ms')
  {
    if ms != [] && ms' != [] {
      hide FingerprintOf, Canonicals, Canonical, Collision, Inputs, Input;
      if LastInput(norm, hash, ms) == LastInput(norm, hash, ms') {
        var init, init' := ms[..|ms| - 1], ms'[..|ms'| - 1];
        InputUnique(norm, hash, init, ms[|ms| - 1], init', ms'[|ms'| - 1]);
        FingerprintUnique(norm, hash, init, init');
        if Collision(norm, hash, init, init') {
          CollisionBefore(norm, hash, ms, ms');
        }
        CanonicalsStep(norm, ms);
        CanonicalsStep(norm, ms');
      } else {
        CollisionHere(norm, hash, ms, ms');
      }
    } else {
      assert |hash("")| == 32;
    }
  }

  /** Two histories without NULs that get the same fingerprint agree message by message, unless the hash collides. */
  lemma SameFingerprintSameHistory(norm: string -> string, hash: string -> string, ms: seq<Message>, ms': seq<Message>)
    requires Hex(hash) && FingerprintOf(norm, hash, ms) == FingerprintOf(norm, hash, ms')
    requires forall m :: m in ms || m in ms' ==> NulFree(norm, m)
    ensures (|ms| == |ms'| && forall i :: 0 <= i < |ms| ==> SameMessage(norm, ms[i], ms'[i]))
      || Collision(norm, hash, ms, ms')
  {
    FingerprintUnique(norm, hash, ms, ms');
    if !Collision(norm, hash, ms, ms') {
      assert |Canonicals(norm, ms)| == |ms| && |Canonicals(norm, ms')| == |ms'|;
      forall i | 0 <= i < |ms| ensures SameMessage(norm, ms[i], ms'[i]) {
        assert Canonicals(norm, ms)[i] == Canonicals(norm, ms')[i];
        CanonicalUnique(norm, ms[i], ms'[i]);
      }
    }
  }

  /** Histories that are the same message by message get the same fingerprint, whatever the hash. */
  lemma {:induction false} SameHistorySameFingerprint(norm: string -> string, hash: string -> string,
      ms: seq<Message>, ms': seq<Message>)
    requires |ms| == |ms'| && forall i :: 0 <= i < |ms| ==> SameMessage(norm, ms[i], ms'[i])
    ensures FingerprintOf(norm, hash, ms) == FingerprintOf(norm, hash, ms')
    decreases |ms|
  {
    if ms != [] {
      var n := |ms| - 1;
      SameHistorySameFingerprint(norm, hash, ms[..n], ms'[..n]);
      NormalExactly(norm, ms[n], ms'[n]);
    }
  }
}
