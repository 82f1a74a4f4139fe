/** Which texts are comments and literals, and what stripping does to each, told without the lexer. */
module StripShape {
  import opened Literals
  import opened StripComments
  import opened Text

  /** A block comment runs to the first closer, or to the end of the text. */
  ghost predicate IsBlock(text: string, closed: bool) {
    exists body :: !Contains(body, "*/") && text == "/*" + body + if closed then "*/" else ""
  }

  /** A line comment runs to the first newline, or to the end of the text. */
  ghost predicate IsLine(text: string, ended: bool) {
    exists body :: Free(body, '\n') && text == "//" + body + if ended then "\n" else ""
  }

  /** No quote in the text is free of an odd run of backslashes in front of it. */
  ghost predicate HoldsNoQuote(body: string) {
    forall i: nat :: !Closes(body, i)
  }

  /** A quote right after this text is not protected. */
  predicate ReadyToClose(body: string) {
    Backslashes(body, |body|) % 2 == 0
  }

  /** A literal runs to the first quote that no backslash protects, or to the end of the text. */
  ghost predicate IsLiteral(text: string, closed: bool) {
    exists body :: HoldsNoQuote(body) && (closed ==> ReadyToClose(body))
      && text == "\"" + body + if closed then "\"" else ""
  }

  // ----- how far each goes -----

  /** `s` is free of closers up to byte `n`, where one stands unless the text ends there. */
  predicate ClosesAt(s: string, n: nat) {
    n <= |s| && !Contains(s[..n], "*/") && (n == |s| || At(s, "*/", n))
  }

  lemma NotClosedYet(s: string, n: nat)
    requires ClosesAt(s, n) && n > 0 && |s| >= 2
    ensures s[..2] != "*/"
  {
    if n >= 2 {
      assert !At(s[..n], "*/", 0) && s[..n][..2] == s[..2];
    } else {
      assert s[1] == s[1..3][0] == '*' && s[..2][1] == s[1];
      assert "*/"[1] == '/';
    }
  }

  lemma ClosesLater(s: string, n: nat)
    requires ClosesAt(s, n) && n > 0
    ensures ClosesAt(s[1..], n - 1)
  {
    NotInRest(s[..n], "*/");
    hide Contains;
    assert s[1..][..n - 1] == s[1..n] == s[..n][1..];
    if n < |s| {
      assert s[1..][n - 1..n + 1] == s[n..n + 2];
    }
  }

  lemma {:induction false} BlockEndsAt(s: string, n: nat)
    requires ClosesAt(s, n)
    ensures BlockLen(s) == if n == |s| then n else n + 2
    decreases n
  {
    if n > 0 && |s| >= 2 {
      NotClosedYet(s, n);
      ClosesLater(s, n);
      hide ClosesAt;
      BlockEndsAt(s[1..], n - 1);
    }
  }

  lemma NotInRest(s: string, p: string)
    requires s != "" && !Contains(s, p)
    ensures !Contains(s[1..], p)
  {
    var rest := s[1..];
    if Contains(rest, p) {
      var i :| 0 <= i <= |rest| && At(rest, p, i);
      assert s[i + 1..i + 1 + |p|] == rest[i..i + |p|];
      assert At(s, p, i + 1);
    }
  }

  lemma {:induction false} LineEndsAt(s: string, n: nat)
    requires n <= |s| && Free(s[..n], '\n') && (n == |s| || s[n] == '\n')
    ensures LineLen(s) == if n == |s| then n else n + 1
    decreases n
  {
    if n > 0 {
      var head, rest := s[..n], s[1..][..n - 1];
      assert head[0] == s[0];
      assert forall i | 0 <= i < n - 1 :: rest[i] == head[i + 1];
      LineEndsAt(s[1..], n - 1);
    }
  }

  /** The first closing quote ends the body. */
  lemma LiteralEndsAt(body: string, rest: string)
    requires HoldsNoQuote(body) && (rest != "" ==> ReadyToClose(body) && rest[0] == '"')
    ensures BodyLen(body + rest) == if rest == "" then |body| else |body| + 1
  {
    var s := body + rest;
    BodyEndsAt(s);
    forall i: nat | i <= |body| ensures Backslashes(s, i) == Backslashes(body, i) {
      BackslashesOfPrefix(body, rest, i);
    }
    hide Backslashes, BodyLen, Closed;
    assert forall i: nat | i < |body| :: Closes(s, i) <==> Closes(body, i);
    if rest != "" {
      assert Closes(s, |body|);
    }
  }

  lemma {:induction false} BackslashesOfPrefix(s: string, t: string, i: nat)
    requires i <= |s|
    ensures Backslashes(s + t, i) == Backslashes(s, i)
  {
    if i > 0 && s[i - 1] == '\\' {
      BackslashesOfPrefix(s, t, i - 1);
    }
  }

  // ----- what stripping does to each -----

  lemma Prefixed(a: string, b: string, rest: string)
    ensures (a + b + rest)[|a|..] == b + rest && (a + b + rest)[|a + b|..] == rest && (a + b + rest)[..|a + b|] == a + b
  {
  }

  /** A block comment leaves nothing, and what stands behind its closer is stripped on its own. */
  lemma BlockIsGone(body: string, rest: string)
    requires !Contains(body, "*/")
    ensures Strip("/*" + body + "*/" + rest) == Strip(rest)
  {
    hide Strip, BlockLen, Contains;
    var inner, s := body + "*/" + rest, "/*" + body + "*/" + rest;
    assert inner[..|body|] == body && inner[|body|..|body| + 2] == "*/";
    BlockEndsAt(inner, |body|);
    assert s[2..] == inner && s[2 + |body| + 2..] == rest;
    StripBlock(s);
  }

  lemma LastBlockIsGone(body: string)
    requires !Contains(body, "*/")
    ensures Strip("/*" + body) == ""
  {
    assert Strip("") == "";
    hide Strip, BlockLen, Contains;
    var s := "/*" + body;
    assert s[2..] == body && body[..|body|] == body && s[2 + |body|..] == "";
    BlockEndsAt(body, |body|);
    StripBlock(s);
  }

  lemma CommentHeadFree(body: string)
    requires Free(body, '\n')
    ensures Free("//" + body, '\n')
  {
    forall i | 0 <= i < |body| + 2 ensures ("//" + body)[i] != '\n' {
      assert i >= 2 ==> ("//" + body)[i] == body[i - 2];
    }
  }

  /** A line comment leaves the newline that ends it. */
  lemma LineIsGone(body: string, rest: string)
    requires Free(body, '\n')
    ensures Strip("//" + body + "\n" + rest) == "\n" + Strip(rest)
  {
    CommentHeadFree(body);
    hide Strip, LineLen, Free;
    var head := "//" + body;
    var s := head + "\n" + rest;
    Prefixed(head, "\n", rest);
    assert s[..|head|] == head;
    LineEndsAt(s, |head|);
    StripLine(s);
  }

  lemma LastLineIsGone(body: string)
    requires Free(body, '\n')
    ensures Strip("//" + body) == ""
  {
    CommentHeadFree(body);
    var s := "//" + body;
    assert Strip("") == "" && s[|s| - 1] != '\n';
    hide Strip, LineLen, Free;
    assert s[..|s|] == s && s[|s|..] == "";
    LineEndsAt(s, |s|);
    StripLine(s);
  }

  /** A literal is written as it stands, whatever is in it. */
  lemma LiteralIsKept(body: string, rest: string)
    requires HoldsNoQuote(body)
    ensures ReadyToClose(body) ==> Strip("\"" + body + "\"" + rest) == "\"" + body + "\"" + Strip(rest)
    ensures Strip("\"" + body) == "\"" + body
  {
    var s, open := "\"" + body + "\"" + rest, "\"" + body;
    if ReadyToClose(body) {
      LiteralEndsAt(body, "\"" + rest);
      assert s[1..] == body + ("\"" + rest);
      assert s[..|body| + 2] == "\"" + body + "\"" && s[|body| + 2..] == rest;
      AfterToken(s);
    }
    LiteralEndsAt(body, "");
    assert open[1..] == body + "" && open[..|body| + 1] == open && open[|body| + 1..] == "";
    AfterToken(open);
  }

  /** Any other byte is written as it stands. */
  lemma ByteIsKept(c: char, rest: string)
    requires c != '"' && !(c == '/' && rest != "" && (rest[0] == '/' || rest[0] == '*'))
    ensures Strip([c] + rest) == [c] + Strip(rest)
  {
    var s := [c] + rest;
    assert s[1..] == rest;
    AfterToken(s);
  }

  lemma NothingIsNothing()
    ensures Strip("") == ""
  {
  }

  // ----- the tokens -----

  ghost predicate HasShape(t: Token, last: bool) {
    match t
    case Plain(c) => c != '"'
    case Literal(text) => IsLiteral(text, true) || (last && IsLiteral(text, false))
    case LineComment(text, ended) => IsLine(text, ended) && (ended || last)
    case BlockComment(text) => IsBlock(text, true) || (last && IsBlock(text, false))
  }

  /** The first occurrence, or the length if there is none. */
  lemma FirstOccurrence(s: string, p: string) returns (n: nat)
    requires p != ""
    ensures n <= |s| && !Contains(s[..n], p) && (n == |s| || At(s, p, n))
  {
    n := 0;
    while n < |s| && !At(s, p, n)
      invariant n <= |s| && forall i | 0 <= i < n :: !At(s, p, i)
    {
      n := n + 1;
    }
    forall i | 0 <= i <= n ensures !At(s[..n], p, i) {
      if i + |p| <= n {
        assert s[..n][i..i + |p|] == s[i..i + |p|] && !At(s, p, i);
      }
    }
  }

  lemma BlockHasShape(s: string)
    requires |s| > 1 && s[0] == '/' && s[1] == '*'
    ensures HasShape(FirstToken(s), AfterFirst(s) == "")
  {
    var inner := s[2..];
    var n := FirstOccurrence(inner, "*/");
    BlockEndsAt(inner, n);
    hide BlockLen;
    var body, text := inner[..n], s[..2 + BlockLen(inner)];
    assert s[..2] == "/*";
    if n < |inner| {
      assert text == "/*" + body + "*/";
      assert IsBlock(text, true);
    } else {
      assert text == "/*" + body + "" && s[2 + BlockLen(inner)..] == "";
      assert IsBlock(text, false);
    }
    assert FirstToken(s) == BlockComment(text);
  }

  lemma LineHasShape(s: string)
    requires |s| > 1 && s[0] == '/' && s[1] == '/'
    ensures HasShape(FirstToken(s), AfterFirst(s) == "")
  {
    var inner := s[2..];
    var n := FirstOccurrence(inner, "\n");
    var body, text := inner[..n], s[..LineLen(s)];
    NoNewline(body);
    CommentHeadFree(body);
    assert s[..2 + n] == "//" + body;
    hide LineLen, Free;
    if n < |inner| {
      assert inner[n..n + 1] == [s[2 + n]];
      LineEndsAt(s, 2 + n);
      assert text == "//" + body + "\n";
      assert IsLine(text, true);
    } else {
      LineEndsAt(s, 2 + n);
      assert text == "//" + body + "" && s[LineLen(s)..] == "";
      assert IsLine(text, false) && text[|text| - 1] != '\n' by { NotEnded(body); }
    }
  }

  lemma NotEnded(body: string)
    requires Free(body, '\n')
    ensures ("//" + body)[|body| + 1] != '\n'
  {
    CommentHeadFree(body);
  }

  lemma NoNewline(s: string)
    requires !Contains(s, "\n")
    ensures Free(s, '\n')
  {
    forall i | 0 <= i < |s| ensures s[i] != '\n' {
      assert s[i..i + 1] == [s[i]];
      assert !At(s, "\n", i);
    }
  }

  /** What stands in front of the closing quote, or all of an open literal. */
  lemma BodyHoldsNoQuote(s: string, n: nat)
    requires n == if Closed(s) then BodyLen(s) - 1 else BodyLen(s)
    ensures n <= |s| && HoldsNoQuote(s[..n]) && (Closed(s) ==> ReadyToClose(s[..n]) && n < |s| && s[n] == '"')
  {
    BodyEndsAt(s);
    hide BodyLen, Closed;
    var body := s[..n];
    assert s == body + s[n..];
    forall i: nat | i <= n ensures Backslashes(body, i) == Backslashes(s, i) {
      BackslashesOfPrefix(body, s[n..], i);
    }
    hide Backslashes;
    assert forall i: nat | i < n :: Closes(body, i) ==> Closes(s, i);
  }

  lemma LiteralHasShape(s: string)
    requires s != "" && s[0] == '"'
    ensures HasShape(FirstToken(s), AfterFirst(s) == "")
  {
    var inner := s[1..];
    BodyEndsAt(inner);
    var n := if Closed(inner) then BodyLen(inner) - 1 else BodyLen(inner);
    BodyHoldsNoQuote(inner, n);
    hide BodyLen, HoldsNoQuote, ReadyToClose, Closes;
    var body, text := inner[..n], s[..1 + BodyLen(inner)];
    if Closed(inner) {
      hide Closed;
      assert text == "\"" + body + "\"";
      assert IsLiteral(text, true);
    } else {
      hide Closed;
      assert text == "\"" + body + "" && s[1 + n..] == "";
      assert IsLiteral(text, false);
    }
  }

  /** The first token ends where its kind says, and goes to the end of the text only if nothing ends it before. */
  lemma FirstHasShape(s: string)
    requires s != ""
    ensures HasShape(FirstToken(s), AfterFirst(s) == "")
  {
    var t := FirstToken(s);
    match t
    case Literal(_) => LiteralHasShape(s);
    case LineComment(_, _) => LineHasShape(s);
    case BlockComment(_) => BlockHasShape(s);
    case Plain(_) =>
  }

  /** Every token of a text has the shape of its kind. */
  lemma {:induction false} TokensHaveShape(s: string, i: nat)
    requires i < |Lex(s)|
    ensures HasShape(Lex(s)[i], i == |Lex(s)| - 1)
    decreases |s|
  {
    hide HasShape, FirstToken, AfterFirst;
    FirstHasShape(s);
    if i > 0 {
      TokensHaveShape(AfterFirst(s), i - 1);
    }
  }
}
