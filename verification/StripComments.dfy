/** Stripping `//` and block comments from the configuration file before it is parsed as JSON. */
module StripComments {
  import opened Literals
  import opened Text

  /** `text` is what the token covers; a line comment covers the newline that ends it, if one does. */
  datatype Token =
    | Plain(c: char)
    | Literal(text: string)
    | LineComment(text: string, ended: bool)
    | BlockComment(text: string)

  function TextOf(t: Token): string {
    if t.Plain? then [t.c] else t.text
  }

  /** How far a line comment goes, its newline included. */
  function LineLen(s: string): (n: nat)
    ensures n <= |s| && (s != "" ==> n > 0)
  {
    if s == "" then 0 else if s[0] == '\n' then 1 else 1 + LineLen(s[1..])
  }

  /** How far a block comment goes after its opener. */
  function BlockLen(s: string): (n: nat)
    ensures n <= |s|
  {
    if |s| < 2 then |s| else if s[..2] == "*/" then 2 else 1 + BlockLen(s[1..])
  }

  function FirstToken(s: string): (t: Token)
    requires s != ""
    ensures TextOf(t) != "" && TextOf(t) <= s
  {
    if s[0] == '"' then Literal(s[..1 + BodyLen(s[1..])])
    else if s[0] == '/' && |s| > 1 && s[1] == '/' then LineComment(s[..LineLen(s)], s[LineLen(s) - 1] == '\n')
    else if s[0] == '/' && |s| > 1 && s[1] == '*' then BlockComment(s[..2 + BlockLen(s[2..])])
    else Plain(s[0])
  }

  function AfterFirst(s: string): (r: string)
    requires s != ""
    ensures |r| < |s| && TextOf(FirstToken(s)) + r == s
  {
    s[|TextOf(FirstToken(s))|..]
  }

  function Lex(s: string): seq<Token> {
    if s == "" then [] else [FirstToken(s)] + Lex(AfterFirst(s))
  }

  /** What stripping writes for a token: a line comment leaves the newline that ends it. */
  function Erase(t: Token): string {
    match t
    case Plain(c) => [c]
    case Literal(text) => text
    case LineComment(_, ended) => if ended then "\n" else ""
    case BlockComment(_) => ""
  }

  function Strip(s: string): string {
    if s == "" then "" else Erase(FirstToken(s)) + Strip(AfterFirst(s))
  }

  // ----- the scanner -----

  function Rest(s: string, i: nat): string {
    if i <= |s| then s[i..] else ""
  }

  /** What is still to be written when the scanner stands before `s`. */
  function Pending(s: string, inString: bool): string {
    if inString then s[..BodyLen(s)] + Strip(s[BodyLen(s)..]) else Strip(s)
  }

  /** The whole output, if the scanner has written `out` and stands before byte `i`. */
  function Total(raw: string, i: nat, inString: bool, out: string): string {
    out + Pending(Rest(raw, i), inString)
  }

  lemma SplitFirst(s: string, k: nat, n: nat)
    requires k + n <= |s|
    ensures s[..k + n] == s[..k] + s[k..][..n] && s[k + n..] == s[k..][n..]
  {
  }

  lemma AfterToken(s: string)
    requires s != ""
    ensures Strip(s) == Erase(FirstToken(s)) + Strip(s[|TextOf(FirstToken(s))|..])
  {
  }

  lemma OpenLiteral(raw: string, i: nat, out: string)
    requires i < |raw| && raw[i] == '"'
    ensures Total(raw, i, false, out) == Total(raw, i + 1, true, out + ['"'])
  {
    var s := raw[i..];
    var n := BodyLen(s[1..]);
    AfterToken(s);
    hide Strip, BodyLen;
    SplitFirst(s, 1, n);
    assert raw[i + 1..] == s[1..] && s[..1] == ['"'];
    var rest := Strip(s[1 + n..]);
    Regroup(['"'], s[1..][..n], rest);
    Regroup(out, ['"'], s[1..][..n] + rest);
  }

  lemma CloseLiteral(raw: string, i: nat, out: string)
    requires i < |raw| && raw[i] == '"'
    ensures Total(raw, i, true, out) == Total(raw, i + 1, false, out + ['"'])
  {
    var s := raw[i..];
    assert BodyLen(s) == 1;
    hide Strip, BodyLen;
    assert raw[i + 1..] == s[1..] && s[..1] == ['"'];
    Regroup(out, ['"'], Strip(s[1..]));
  }

  lemma InsideLiteral(raw: string, i: nat, out: string)
    requires i < |raw| && raw[i] != '"'
    ensures raw[i] == '\\' && i + 1 < |raw| ==>
      Total(raw, i, true, out) == Total(raw, i + 2, true, out + [raw[i]] + [raw[i + 1]])
    ensures raw[i] != '\\' || i + 1 == |raw| ==> Total(raw, i, true, out) == Total(raw, i + 1, true, out + [raw[i]])
  {
    var s := raw[i..];
    var k := if raw[i] == '\\' && i + 1 < |raw| then 2 else 1;
    var n := BodyLen(s[k..]);
    assert BodyLen(s) == k + n;
    hide Strip, BodyLen;
    SplitFirst(s, k, n);
    assert raw[i + k..] == s[k..];
    assert k == 1 ==> s[..k] == [raw[i]];
    assert k == 2 ==> s[..k] == [raw[i]] + [raw[i + 1]];
    var rest := Strip(s[k + n..]);
    Regroup(s[..k], s[k..][..n], rest);
    Regroup(out, s[..k], s[k..][..n] + rest);
    assert k == 2 ==> out + s[..k] == out + [raw[i]] + [raw[i + 1]];
  }

  lemma AtStart(raw: string)
    ensures Total(raw, 0, false, "") == Strip(raw)
  {
  }

  lemma AtEnd(raw: string, i: nat, inString: bool, out: string)
    requires i >= |raw|
    ensures Total(raw, i, inString, out) == out == Total(raw, |raw|, inString, out)
  {
    assert Rest(raw, i) == "" == Rest(raw, |raw|);
  }

  lemma PlainByte(raw: string, i: nat, out: string)
    requires i < |raw| && raw[i] != '"' && (raw[i] != '/' || i + 1 == |raw| || (raw[i + 1] != '/' && raw[i + 1] != '*'))
    ensures Total(raw, i, false, out) == Total(raw, i + 1, false, out + [raw[i]])
  {
    var s := raw[i..];
    AfterToken(s);
    assert FirstToken(s) == Plain(raw[i]);
    hide Strip, FirstToken;
    assert raw[i + 1..] == s[1..];
    Regroup(out, [raw[i]], Strip(s[1..]));
  }

  lemma StripLine(s: string)
    requires |s| > 1 && s[0] == '/' && s[1] == '/'
    ensures Strip(s) == (if s[LineLen(s) - 1] == '\n' then ['\n'] else []) + Strip(s[LineLen(s)..])
  {
    AfterToken(s);
    hide Strip, LineLen;
    assert TextOf(FirstToken(s)) == s[..LineLen(s)];
  }

  lemma Outside(raw: string, i: nat, out: string)
    requires i <= |raw|
    ensures Total(raw, i, false, out) == out + Strip(raw[i..])
  {
    hide Strip;
  }

  lemma LineGone(raw: string, i: nat, out: string)
    requires i + 1 < |raw| && raw[i] == '/' && raw[i + 1] == '/'
    ensures var n := LineLen(raw[i..]);
      Total(raw, i, false, out) == Total(raw, i + n, false, out + if raw[i + n - 1] == '\n' then ['\n'] else [])
  {
    hide *;
    var n := LineLen(raw[i..]);
    var left := if raw[i + n - 1] == '\n' then ['\n'] else [];
    Outside(raw, i, out);
    StripLine(raw[i..]);
    SliceSlice(raw, i, n, n);
    Outside(raw, i + n, out + left);
    Regroup(out, left, Strip(raw[i + n..]));
  }

  lemma StripBlock(s: string)
    requires |s| > 1 && s[0] == '/' && s[1] == '*'
    ensures Strip(s) == Strip(s[2 + BlockLen(s[2..])..])
  {
    AfterToken(s);
    hide Strip, BlockLen;
    assert TextOf(FirstToken(s)) == s[..2 + BlockLen(s[2..])];
  }

  lemma BlockGone(raw: string, i: nat, out: string)
    requires i + 1 < |raw| && raw[i] == '/' && raw[i + 1] == '*'
    ensures Total(raw, i, false, out) == Total(raw, i + 2 + BlockLen(raw[i + 2..]), false, out)
  {
    hide *;
    var n := 2 + BlockLen(raw[i + 2..]);
    SliceSlice(raw, i, 2, 2);
    Outside(raw, i, out);
    StripBlock(raw[i..]);
    SliceSlice(raw, i, n, n);
    Outside(raw, i + n, out);
  }

  /** `i` is the newline that ends the line comment at `start`, or the end. */
  predicate EndsLine(raw: string, start: nat, i: nat) {
    start < i <= |raw| && if i < |raw| then LineLen(raw[start..]) == i + 1 - start && raw[i] == '\n'
                          else LineLen(raw[start..]) == i - start && raw[i - 1] != '\n'
  }

  lemma LineDone(raw: string, start: nat, i: nat, out: string)
    requires start + 1 < |raw| && raw[start] == '/' && raw[start + 1] == '/' && EndsLine(raw, start, i)
    ensures Total(raw, start, false, out) == Total(raw, i + 1, false, if i < |raw| then out + ['\n'] else out)
  {
    hide Total, LineLen;
    LineGone(raw, start, out);
    assert out + [] == out;
    AtEnd(raw, |raw| + 1, false, out);
  }

  method SkipLine(raw: string, start: nat) returns (i: nat)
    requires start < |raw| && raw[start] != '\n'
    ensures EndsLine(raw, start, i)
  {
    i := start;
    while i < |raw| && raw[i] != '\n'
      invariant start <= i <= |raw| && LineLen(raw[start..]) == i - start + LineLen(raw[i..])
      invariant i > start ==> raw[i - 1] != '\n'
    {
      assert raw[i..][1..] == raw[i + 1..];
      i := i + 1;
    }
  }

  /** `i` is the last byte of the block comment opened just before `start`, or at the end or past it. */
  predicate EndsBlock(raw: string, start: nat, i: nat) {
    start <= |raw| && (i + 1 == start + BlockLen(raw[start..]) || (i >= |raw|
      && BlockLen(raw[start..]) == |raw| - start))
  }

  lemma BlockDone(raw: string, start: nat, i: nat, out: string)
    requires start + 1 < |raw| && raw[start] == '/' && raw[start + 1] == '*' && EndsBlock(raw, start + 2, i)
    ensures Total(raw, start, false, out) == Total(raw, i + 1, false, out)
  {
    hide Total, BlockLen;
    BlockGone(raw, start, out);
    if i >= |raw| {
      AtEnd(raw, i + 1, false, out);
      AtEnd(raw, |raw|, false, out);
    }
  }

  method SkipBlock(raw: string, start: nat) returns (i: nat)
    requires start <= |raw|
    ensures i + 1 >= start && EndsBlock(raw, start, i)
  {
    i := start;
    while i + 1 < |raw| && !(raw[i] == '*' && raw[i + 1] == '/')
      invariant start <= i <= |raw| && BlockLen(raw[start..]) == i - start + BlockLen(raw[i..])
    {
      assert raw[i..][..2] == [raw[i], raw[i + 1]];
      assert raw[i..][1..] == raw[i + 1..];
      i := i + 1;
    }
    assert i + 1 < |raw| ==> raw[i..][..2] == [raw[i], raw[i + 1]];
    i := i + 1;
  }

  method StripJSONComments(raw: string) returns (out: string)
    ensures out == Strip(raw)
  {
    hide *;
    AtStart(raw);
    out := "";
    var inString := false;
    var i := 0;
    while i < |raw|
      invariant 0 <= i
      invariant Total(raw, i, inString, out) == Strip(raw)
    {
      var ch := raw[i];
      if inString {
        if ch == '"' {
          CloseLiteral(raw, i, out);
        } else {
          InsideLiteral(raw, i, out);
        }
        out := out + [ch];
        if ch == '\\' {
          if i + 1 < |raw| {
            i := i + 1;
            out := out + [raw[i]];
          }
        } else if ch == '"' {
          inString := false;
        }
      } else if ch == '"' {
        OpenLiteral(raw, i, out);
        inString := true;
        out := out + [ch];
      } else if ch == '/' && i + 1 < |raw| && raw[i + 1] == '/' {
        var end := SkipLine(raw, i);
        LineDone(raw, i, end, out);
        i := end;
        if i < |raw| {
          out := out + ['\n'];
        }
      } else if ch == '/' && i + 1 < |raw| && raw[i + 1] == '*' {
        var end := SkipBlock(raw, i + 2);
        BlockDone(raw, i, end, out);
        i := end;
      } else {
        PlainByte(raw, i, out);
        out := out + [ch];
      }
      i := i + 1;
    }
    AtEnd(raw, i, inString, out);
  }
}
