/** What stripping comments does to a text, told in its tokens. */
module StripMeaning {
  import opened Literals
  import opened StripComments

  predicate IsComment(t: Token) {
    t.LineComment? || t.BlockComment?
  }

  predicate CommentFree(s: string) {
    forall t :: t in Lex(s) ==> !IsComment(t)
  }

  function Kept(t: Token): seq<Token> {
    match t
    case LineComment(_, ended) => if ended then [Plain('\n')] else []
    case BlockComment(_) => []
    case _ => [t]
  }

  function KeptAll(ts: seq<Token>): seq<Token> {
    if ts == [] then [] else Kept(ts[0]) + KeptAll(ts[1..])
  }

  function LiteralsOf(ts: seq<Token>): seq<string> {
    if ts == [] then [] else (if ts[0].Literal? then [ts[0].text] else []) + LiteralsOf(ts[1..])
  }

  function Render(ts: seq<Token>): string {
    if ts == [] then "" else TextOf(ts[0]) + Render(ts[1..])
  }

  /** The tokens cover the text, byte for byte. */
  lemma {:induction false} LexLossless(s: string)
    ensures Render(Lex(s)) == s
    decreases |s|
  {
    if s != "" {
      hide FirstToken, AfterFirst;
      LexLossless(AfterFirst(s));
      assert Lex(s)[1..] == Lex(AfterFirst(s));
    }
  }

  /** A slash that opens no comment is still followed by neither `/` nor `*` once what follows is stripped. */
  lemma NoNewOpener(s: string)
    requires s != "" && FirstToken(s) == Plain('/')
    ensures Strip(s[1..]) == "" || Strip(s[1..])[0] !in {'/', '*'}
  {
    var rest := s[1..];
    if rest != "" {
      assert rest[0] == s[1] && rest[0] != '/' && rest[0] != '*';
      assert Strip(rest) == Erase(FirstToken(rest)) + Strip(AfterFirst(rest));
      hide Strip;
      if rest[0] == '"' {
        assert Erase(FirstToken(rest))[0] == '"';
      } else {
        assert FirstToken(rest) == Plain(rest[0]);
      }
    }
  }

  /** A literal keeps its extent in front of any other continuation, unless it was open to the end. */
  lemma LiteralAgain(s: string, t: string)
    requires s != "" && s[0] == '"' && (AfterFirst(s) == "" ==> t == "")
    ensures FirstToken(TextOf(FirstToken(s)) + t) == FirstToken(s)
  {
    var n := BodyLen(s[1..]);
    var text := s[..1 + n];
    assert FirstToken(s) == Literal(text);
    var again := text + t;
    assert again[1..] == s[1..][..n] + t;
    if Closed(s[1..]) {
      ClosedEndsThere(s[1..], t);
    } else {
      OpenTakesAll(s[1..]);
      assert text == s && again == s;
    }
    assert BodyLen(again[1..]) == n;
    assert again[..1 + n] == text;
  }

  /** The first token of the output when the first token of the input is kept. */
  lemma KeptFirst(s: string, out: string)
    requires s != "" && !FirstToken(s).BlockComment? && (FirstToken(s).LineComment? ==> FirstToken(s).ended)
    requires FirstToken(s).Literal? && AfterFirst(s) == "" ==> out == ""
    requires FirstToken(s) == Plain('/') ==> out == "" || out[0] !in {'/', '*'}
    ensures var again := Erase(FirstToken(s)) + out;
      again != "" && [FirstToken(again)] == Kept(FirstToken(s)) && AfterFirst(again) == out
  {
    var t := FirstToken(s);
    var again := Erase(t) + out;
    if t.Literal? {
      LiteralAgain(s, out);
    } else {
      assert |again| > 1 ==> again[1] == out[0];
    }
    assert |TextOf(FirstToken(again))| == |Erase(t)|;
    hide Erase, FirstToken;
    assert again[|Erase(t)|..] == out;
  }

  /**
   * Stripping and then splitting into tokens gives the tokens of the input without its comments, a newline
   * standing for each line comment that had one: no two pieces run together into something new.
   */
  lemma {:induction false} LexOfStrip(s: string)
    ensures Lex(Strip(s)) == KeptAll(Lex(s))
    decreases |s|
  {
    if s != "" {
      var t, rest := FirstToken(s), AfterFirst(s);
      LexOfStrip(rest);
      assert Lex(s)[1..] == Lex(rest);
      assert KeptAll(Lex(s)) == Kept(t) + KeptAll(Lex(rest));
      assert Strip(s) == Erase(t) + Strip(rest);
      if t == Plain('/') {
        NoNewOpener(s);
      }
      assert rest == "" ==> Strip(rest) == "";
      hide Strip, KeptAll, AfterFirst;
      if Kept(t) != [] {
        KeptFirst(s, Strip(rest));
        assert Lex(Strip(s)) == [FirstToken(Strip(s))] + Lex(AfterFirst(Strip(s)));
      } else {
        assert Strip(s) == Strip(rest);
      }
    }
  }

  /** No comment is left. */
  lemma StrippedIsCommentFree(s: string)
    ensures CommentFree(Strip(s))
  {
    LexOfStrip(s);
    KeptHasNoComments(Lex(s));
  }

  lemma {:induction false} KeptHasNoComments(ts: seq<Token>)
    ensures forall t :: t in KeptAll(ts) ==> !IsComment(t)
  {
    if ts != [] {
      KeptHasNoComments(ts[1..]);
    }
  }

  /** String literals survive byte for byte and in order, and no text turns into a new one. */
  lemma LiteralsSurvive(s: string)
    ensures LiteralsOf(Lex(Strip(s))) == LiteralsOf(Lex(s))
  {
    LexOfStrip(s);
    KeptLiterals(Lex(s));
  }

  lemma {:induction false} KeptLiterals(ts: seq<Token>)
    ensures LiteralsOf(KeptAll(ts)) == LiteralsOf(ts)
  {
    if ts != [] {
      KeptLiterals(ts[1..]);
      if Kept(ts[0]) != [] {
        assert KeptAll(ts)[1..] == KeptAll(ts[1..]);
      } else {
        assert KeptAll(ts) == KeptAll(ts[1..]);
      }
    }
  }

  lemma CommentsShrink(s: string)
    requires s != ""
    ensures var t := FirstToken(s); if IsComment(t) then |Erase(t)| < |TextOf(t)| else Erase(t) == TextOf(t)
  {
  }

  lemma {:induction false} StripLength(s: string)
    ensures |Strip(s)| <= |s|
    ensures |Strip(s)| == |s| ==> CommentFree(s)
    ensures CommentFree(s) ==> Strip(s) == s
    decreases |s|
  {
    if s != "" {
      var t, rest := FirstToken(s), AfterFirst(s);
      CommentsShrink(s);
      hide FirstToken, Erase, AfterFirst;
      StripLength(rest);
      assert Lex(s) == [t] + Lex(rest);
      assert Strip(s) == Erase(t) + Strip(rest);
      hide Strip, Lex;
      if CommentFree(s) {
        assert t in Lex(s);
        assert forall u :: u in Lex(rest) ==> u in Lex(s);
      }
      if |Strip(s)| == |s| {
        assert CommentFree(rest) && !IsComment(t);
      }
    }
  }

  /** A text comes through unchanged exactly when it holds no comment. */
  lemma UnchangedExactly(s: string)
    ensures Strip(s) == s <==> CommentFree(s)
  {
    StripLength(s);
  }

  /** Stripping twice is stripping once, also when a string or a comment is never closed. */
  lemma StripIdempotent(s: string)
    ensures Strip(Strip(s)) == Strip(s)
  {
    StrippedIsCommentFree(s);
    UnchangedExactly(Strip(s));
  }
}
