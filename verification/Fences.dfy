/** Tool calls that a model writes as fenced blocks in its answer. */
module Fences {
  import opened Text

  function Opener(): (p: string)
    ensures |p| == 12
  {
    "```tool_call"
  }

  function Closer(): (p: string)
    ensures |p| == 3
  {
    "```"
  }

  /** `strings.Index` from position `from`; the length of `s` stands for "not found". */
  function Index(s: string, p: string, from: nat): (i: nat)
    requires from <= |s|
    ensures from <= i <= |s|
    decreases |s| - from
  {
    if At(s, p, from) || from == |s| then from else Index(s, p, from + 1)
  }

  /** The text before a fence, and what the fence encloses. */
  datatype Piece = Piece(before: string, block: string)

  /** A text taken apart: its fences in order, and what follows the last one. */
  datatype Split = Split(pieces: seq<Piece>, tail: string) {
    function Blocks(): seq<string> {
      seq(|pieces|, i requires 0 <= i < |pieces| => pieces[i].block)
    }

    /** The text with a space for each fence. */
    function Outside(): string
      decreases |pieces|
    {
      if pieces == [] then tail else pieces[0].before + " " + Split(pieces[1..], tail).Outside()
    }

    function Whole(): string
      decreases |pieces|
    {
      if pieces == [] then tail
      else pieces[0].before + Opener() + pieces[0].block + Closer() + Split(pieces[1..], tail).Whole()
    }
  }

  predicate HasFence(s: string) {
    var start := Index(s, Opener(), 0);
    At(s, Opener(), start) && At(s, Closer(), Index(s, Closer(), start + |Opener()|))
  }

  /** Where the body of the first fence ends. */
  function CloseOf(s: string): (i: nat)
    requires HasFence(s)
    ensures Index(s, Opener(), 0) + |Opener()| <= i && i + |Closer()| <= |s|
  {
    Index(s, Closer(), Index(s, Opener(), 0) + |Opener()|)
  }

  function BeforeFence(s: string): string
    requires HasFence(s)
  {
    s[..Index(s, Opener(), 0)]
  }

  function Enclosed(s: string): string
    requires HasFence(s)
  {
    s[Index(s, Opener(), 0) + |Opener()|..CloseOf(s)]
  }

  function AfterFence(s: string): (r: string)
    requires HasFence(s)
    ensures |BeforeFence(s)| + 1 + |r| < |s|
  {
    s[CloseOf(s) + |Closer()|..]
  }

  /** One pass over a text, left to right. */
  function Pass(s: string): Split {
    if !HasFence(s) then Split([], s)
    else
      var later := Pass(AfterFence(s));
      Split([Piece(BeforeFence(s), Enclosed(s))] + later.pieces, later.tail)
  }

  /** One round of the loop: cut the first fence, trim. */
  function Cut(s: string): (r: string)
    requires HasFence(s)
  {
    Trim(BeforeFence(s) + " " + AfterFence(s))
  }

  // ----- Index -----

  lemma {:induction false} IndexFirst(s: string, p: string, from: nat)
    requires from <= |s| && p != ""
    ensures var i := Index(s, p, from);
      (forall k :: from <= k < i ==> !At(s, p, k)) && (At(s, p, i) || i == |s|)
    decreases |s| - from
  {
    if !At(s, p, from) && from < |s| {
      IndexFirst(s, p, from + 1);
    }
  }

  lemma {:induction false} IndexIs(s: string, p: string, from: nat, i: nat)
    requires from <= i <= |s| && (At(s, p, i) || i == |s|) && forall k :: from <= k < i ==> !At(s, p, k)
    ensures Index(s, p, from) == i
    decreases |s| - from
  {
    if from < i {
      IndexIs(s, p, from + 1, i);
    }
  }

  /** Searching in a text put behind another one that holds no occurrence reaching into it. */
  lemma IndexShift(x: string, y: string, p: string, from: nat, from': nat)
    requires p != "" && from <= |x + y| && from' <= |y| && (from == |x| + from' || (from <= |x| && from' == 0))
    requires forall k :: from <= k < |x| ==> !At(x + y, p, k)
    ensures Index(x + y, p, from) == |x| + Index(y, p, from')
  {
    var i := Index(y, p, from');
    IndexFirst(y, p, from');
    forall k | |x| <= k <= |x + y| ensures At(x + y, p, k) == At(y, p, k - |x|) {
      if k + |p| <= |x + y| {
        assert (x + y)[k..k + |p|] == y[k - |x|..k - |x| + |p|];
      }
    }
    IndexIs(x + y, p, from, |x| + i);
  }

  // ----- what a pass finds -----

  /** `p` first occurs in `before + p` at the end of `before`. */
  ghost predicate FirstAfter(before: string, p: string) {
    forall k :: 0 <= k < |before| ==> !At(before + p, p, k)
  }

  /** `x` takes `s` apart at its first fence, then at the first one after it, and so on. */
  ghost predicate TakesApart(x: Split, s: string) {
    && x.Whole() == s && !HasFence(x.tail)
    && forall i :: 0 <= i < |x.pieces| ==>
      FirstAfter(x.pieces[i].before, Opener()) && FirstAfter(x.pieces[i].block, Closer())
  }

  /** No fence means none anywhere, not only none behind the first opener. */
  lemma NoFenceAnywhere(s: string, i: nat, j: nat)
    requires !HasFence(s) && At(s, Opener(), i)
    ensures j < i + |Opener()| || !At(s, Closer(), j)
  {
    var start := Index(s, Opener(), 0);
    IndexFirst(s, Opener(), 0);
    IndexFirst(s, Closer(), start + |Opener()|);
  }

  /** Occurrences that end inside a prefix are occurrences of the prefix. */
  lemma AtPrefix(x: string, y: string, p: string, k: nat)
    requires k + |p| <= |x|
    ensures At(x + y, p, k) == At(x, p, k)
  {
    assert (x + y)[k..k + |p|] == x[k..k + |p|];
  }

  /** The text cut at an occurrence found by `Index`. */
  lemma CutAt(s: string, p: string)
    requires p != "" && At(s, p, Index(s, p, 0))
    ensures var i := Index(s, p, 0); s == s[..i] + p + s[i + |p|..] && FirstAfter(s[..i], p)
  {
    var i := Index(s, p, 0);
    IndexFirst(s, p, 0);
    assert s == s[..i] + p + s[i + |p|..];
    forall k | 0 <= k < i ensures !At(s[..i] + p, p, k) {
      assert s == (s[..i] + p) + s[i + |p|..];
      AtPrefix(s[..i] + p, s[i + |p|..], p, k);
    }
  }

  lemma IndexFrom(s: string, p: string, from: nat)
    requires from <= |s| && p != ""
    ensures Index(s, p, from) == from + Index(s[from..], p, 0)
  {
    assert s == s[..from] + s[from..];
    IndexShift(s[..from], s[from..], p, from, 0);
  }

  lemma AtFits(s: string, p: string, i: nat)
    requires At(s, p, i)
    ensures i + |p| <= |s|
  {
  }

  /** The closer of the first fence, looked for in what follows the opener. */
  lemma CloserInside(s: string)
    requires HasFence(s)
    ensures var from := Index(s, Opener(), 0) + |Opener()|; var inner := s[from..]; var n := Index(inner, Closer(), 0);
      At(inner, Closer(), n) && CloseOf(s) == from + n
  {
    hide Opener, Closer;
    var from := Index(s, Opener(), 0) + |Opener()|;
    IndexFrom(s, Closer(), from);
    assert s == s[..from] + s[from..];
    AtSuffix(s[..from], s[from..], Closer(), Index(s[from..], Closer(), 0));
  }

  lemma FenceParts(s: string)
    requires HasFence(s)
    ensures var inner := s[Index(s, Opener(), 0) + |Opener()|..]; var n := Index(inner, Closer(), 0);
      && At(inner, Closer(), n) && n + |Closer()| <= |inner|
      && Enclosed(s) == inner[..n] && AfterFence(s) == inner[n + |Closer()|..]
  {
    var from := Index(s, Opener(), 0) + |Opener()|;
    var inner := s[from..];
    var n := Index(inner, Closer(), 0);
    CloserInside(s);
    AtFits(inner, Closer(), n);
    hide Opener, Closer, At, Index, HasFence, CloseOf;
    SliceSlice(s, from, n, n + |Closer()|);
  }

  lemma FirstFence(s: string)
    requires HasFence(s)
    ensures s == BeforeFence(s) + Opener() + Enclosed(s) + Closer() + AfterFence(s)
    ensures FirstAfter(BeforeFence(s), Opener()) && FirstAfter(Enclosed(s), Closer())
  {
    FenceParts(s);
    assert At(s, Opener(), Index(s, Opener(), 0));
    hide Opener, Closer, Enclosed, AfterFence, At, Index, FirstAfter, CloseOf, HasFence;
    CutAt(s, Opener());
    CutAt(s[Index(s, Opener(), 0) + |Opener()|..], Closer());
    hide BeforeFence;
    Reassociate(BeforeFence(s) + Opener(), Enclosed(s), Closer(), AfterFence(s));
  }

  lemma Reassociate(a: string, b: string, c: string, d: string)
    ensures a + (b + c + d) == a + b + c + d
  {
  }

  lemma WithPiece(x: Split, p: Piece, s: string, after: string)
    requires TakesApart(x, after) && s == p.before + Opener() + p.block + Closer() + after
    requires FirstAfter(p.before, Opener()) && FirstAfter(p.block, Closer())
    ensures TakesApart(Split([p] + x.pieces, x.tail), s)
  {
    hide Opener, Closer, FirstAfter, HasFence;
    var y := Split([p] + x.pieces, x.tail);
    assert Split(y.pieces[1..], y.tail) == x;
  }

  /** A pass loses nothing and takes the text apart at its first fences. */
  lemma {:induction false} PassTakesApart(s: string)
    ensures TakesApart(Pass(s), s)
    decreases |s|
  {
    hide Opener, Closer, FirstAfter, HasFence, BeforeFence, Enclosed, AfterFence;
    if HasFence(s) {
      FirstFence(s);
      PassTakesApart(AfterFence(s));
      hide TakesApart;
      WithPiece(Pass(AfterFence(s)), Piece(BeforeFence(s), Enclosed(s)), s, AfterFence(s));
    }
  }

  lemma IndexAfter(before: string, p: string, after: string)
    requires FirstAfter(before, p) && p != ""
    ensures Index(before + p + after, p, 0) == |before| && At(before + p + after, p, |before|)
  {
    var s := before + p + after;
    forall k | 0 <= k < |before| ensures !At(s, p, k) {
      if k + |p| <= |before + p| {
        AtPrefix(before + p, after, p, k);
      }
    }
    assert At(s, p, |before|);
    IndexIs(s, p, 0, |before|);
  }

  lemma FenceOf(before: string, block: string, after: string)
    requires FirstAfter(before, Opener()) && FirstAfter(block, Closer())
    ensures var s := before + Opener() + block + Closer() + after;
      HasFence(s) && BeforeFence(s) == before && Enclosed(s) == block && AfterFence(s) == after
  {
    hide Opener, Closer, FirstAfter, Index, At;
    var inner := block + Closer() + after;
    var s := before + Opener() + block + Closer() + after;
    Reassociate(before + Opener(), block, Closer(), after);
    IndexAfter(before, Opener(), inner);
    IndexAfter(block, Closer(), after);
    var from := |before| + |Opener()|;
    assert s[from..] == inner && s[..from] == before + Opener();
    IndexFrom(s, Closer(), from);
    assert s == s[..from] + inner;
    AtSuffix(s[..from], inner, Closer(), |block|);
    FenceParts(s);
    assert s[..|before|] == before && inner[..|block|] == block && inner[|block| + |Closer()|..] == after;
  }

  /** There is no other way to take a text apart at its first fences. */
  lemma {:induction false} PassUnique(x: Split, s: string)
    requires TakesApart(x, s)
    ensures x == Pass(s)
    decreases |s|
  {
    hide HasFence, BeforeFence, Enclosed, AfterFence, FirstAfter, Opener, Closer;
    if x.pieces == [] {
      assert x == Split([], s);
    } else {
      var p, y := x.pieces[0], Split(x.pieces[1..], x.tail);
      var after := y.Whole();
      FenceOf(p.before, p.block, after);
      assert s == p.before + Opener() + p.block + Closer() + after;
      PassUnique(y, after);
      assert x.pieces == [p] + y.pieces;
    }
  }

  // ----- the loop follows the pass -----

  predicate Similar(x: Split, y: Split) {
    x.Blocks() == y.Blocks() && Trim(x.Outside()) == Trim(y.Outside())
  }

  predicate IsMark(p: string) {
    p == Opener() || p == Closer()
  }

  /** Marks hold no space, so an occurrence never reaches across one. */
  lemma MarksHoldNoSpace(p: string, i: nat)
    requires IsMark(p) && i < |p|
    ensures !IsSpace(p[i])
  {
    assert Opener() == ['`', '`', '`', 't', 'o', 'o', 'l', '_', 'c', 'a', 'l', 'l'];
    assert Closer() == ['`', '`', '`'];
  }

  lemma NoneAcross(s: string, p: string, k: nat, i: nat)
    requires IsMark(p) && k <= i < k + |p| && i < |s| && IsSpace(s[i])
    ensures !At(s, p, k)
  {
    if At(s, p, k) {
      assert p[i - k] == s[k..k + |p|][i - k] == s[i];
      MarksHoldNoSpace(p, i - k);
    }
  }

  lemma PassStep(s: string)
    ensures HasFence(s) ==>
      && Pass(s).Blocks() == [Enclosed(s)] + Pass(AfterFence(s)).Blocks()
      && Pass(s).Outside() == BeforeFence(s) + " " + Pass(AfterFence(s)).Outside()
    ensures !HasFence(s) ==> Pass(s).Blocks() == [] && Pass(s).Outside() == s
  {
    hide HasFence, BeforeFence, Enclosed, AfterFence;
    if HasFence(s) {
      var x := Pass(s);
      assert Split(x.pieces[1..], x.tail) == Pass(AfterFence(s));
    }
  }

  lemma AtSuffix(x: string, y: string, p: string, k: nat)
    ensures At(x + y, p, |x| + k) == At(y, p, k)
  {
    if k + |p| <= |y| {
      assert (x + y)[|x| + k..|x| + k + |p|] == y[k..k + |p|];
    }
  }

  lemma MarkBehind(x: string, y: string, p: string, from: nat, from': nat)
    requires p != "" && from <= |x + y| && from' <= |y| && (from == |x| + from' || (from <= |x| && from' == 0))
    requires forall k :: from <= k < |x| ==> !At(x + y, p, k)
    ensures var i := Index(y, p, from'); Index(x + y, p, from) == |x| + i && At(x + y, p, |x| + i) == At(y, p, i)
  {
    IndexShift(x, y, p, from, from');
    AtSuffix(x, y, p, Index(y, p, from'));
  }

  lemma IndexBehind(head: string, y: string)
    requires forall k :: 0 <= k < |head| ==> !At(head + y, Opener(), k)
    ensures HasFence(head + y) == HasFence(y)
    ensures HasFence(y) ==>
      Index(head + y, Opener(), 0) == |head| + Index(y, Opener(), 0) && CloseOf(head + y) == |head| + CloseOf(y)
  {
    hide Opener, Closer, At, Index;
    MarkBehind(head, y, Opener(), 0, 0);
    var start := Index(y, Opener(), 0);
    if At(y, Opener(), start) {
      AtFits(y, Opener(), start);
      var from := start + |Opener()|;
      MarkBehind(head, y, Closer(), |head| + from, from);
    }
  }

  /** With no opener starting in `head`, the first fence of `head + y` is that of `y`. */
  lemma FenceBehind(head: string, y: string)
    requires forall k :: 0 <= k < |head| ==> !At(head + y, Opener(), k)
    ensures HasFence(head + y) == HasFence(y)
    ensures HasFence(y) ==>
      && BeforeFence(head + y) == head + BeforeFence(y)
      && Enclosed(head + y) == Enclosed(y) && AfterFence(head + y) == AfterFence(y)
  {
    hide Opener, Closer, Index, At, HasFence, CloseOf;
    IndexBehind(head, y);
    if HasFence(y) {
      var start, close := Index(y, Opener(), 0), CloseOf(y);
      SliceBehind(head, y, start + |Opener()|, close, close + |Closer()|, start);
    }
  }

  lemma SliceBehind(head: string, y: string, i: nat, j: nat, from: nat, to: nat)
    requires i <= j <= |y| && from <= |y| && to <= |y|
    ensures (head + y)[|head| + i..|head| + j] == y[i..j]
    ensures (head + y)[|head| + from..] == y[from..] && (head + y)[..|head| + to] == head + y[..to]
  {
  }

  lemma RegroupSpaced(a: string, b: string, c: string)
    ensures (a + b) + " " + c == a + (b + " " + c)
  {
  }

  lemma PassBehind(head: string, y: string)
    requires forall k :: 0 <= k < |head| ==> !At(head + y, Opener(), k)
    ensures Pass(head + y).Blocks() == Pass(y).Blocks()
    ensures Pass(head + y).Outside() == head + Pass(y).Outside()
  {
    hide *;
    FenceBehind(head, y);
    PassStep(y);
    PassStep(head + y);
    if HasFence(y) {
      RegroupSpaced(head, BeforeFence(y), Pass(AfterFence(y)).Outside());
    }
  }

  /** Text without an opener, closed off by a space, only adds to what is outside the fences. */
  lemma PassBehindSpace(x: string, sp: char, y: string)
    requires IsSpace(sp) && forall k :: 0 <= k && k + |Opener()| <= |x| ==> !At(x, Opener(), k)
    ensures Pass(x + [sp] + y).Blocks() == Pass(y).Blocks()
    ensures Pass(x + [sp] + y).Outside() == x + [sp] + Pass(y).Outside()
  {
    var head := x + [sp];
    var s := head + y;
    hide Pass, Split.Blocks, Split.Outside;
    forall k | 0 <= k < |head| ensures !At(s, Opener(), k) {
      if k + |Opener()| <= |x| {
        assert s == x + ([sp] + y);
        AtPrefix(x, [sp] + y, Opener(), k);
      } else {
        assert s[|x|] == sp;
        NoneAcross(s, Opener(), k, |x|);
      }
    }
    PassBehind(head, y);
  }

  // ----- trimming changes nothing a pass finds -----

  lemma MarkBefore(y: string, sp: char, p: string, from: nat)
    requires IsMark(p) && p != "" && IsSpace(sp) && from <= |y|
    ensures var i, j := Index(y, p, from), Index(y + [sp], p, from);
      At(y + [sp], p, j) == At(y, p, i) && (At(y, p, i) ==> j == i)
  {
    var i, t := Index(y, p, from), y + [sp];
    IndexFirst(y, p, from);
    forall k | from <= k <= |t| ensures At(t, p, k) == At(y, p, k) {
      if k + |p| <= |y| {
        AtPrefix(y, [sp], p, k);
      } else if k <= |y| {
        NoneAcross(t, p, k, |y|);
      }
    }
    hide IsMark, IsSpace;
    IndexIs(t, p, from, if At(y, p, i) then i else |t|);
  }

  lemma FenceBefore(y: string, sp: char)
    requires IsSpace(sp)
    ensures HasFence(y + [sp]) == HasFence(y)
    ensures HasFence(y) ==>
      && BeforeFence(y + [sp]) == BeforeFence(y) && Enclosed(y + [sp]) == Enclosed(y)
      && AfterFence(y + [sp]) == AfterFence(y) + [sp]
  {
    hide Opener, Closer, At, Index, IsSpace;
    MarkBefore(y, sp, Opener(), 0);
    var start := Index(y, Opener(), 0);
    if At(y, Opener(), start) {
      AtFits(y, Opener(), start);
      var from := start + |Opener()|;
      MarkBefore(y, sp, Closer(), from);
      if At(y, Closer(), Index(y, Closer(), from)) {
        AtFits(y, Closer(), Index(y, Closer(), from));
      }
    }
  }

  lemma {:induction false} PassBefore(y: string, sp: char)
    requires IsSpace(sp)
    ensures Pass(y + [sp]).Blocks() == Pass(y).Blocks() && Pass(y + [sp]).Outside() == Pass(y).Outside() + [sp]
    decreases |y|
  {
    hide *;
    FenceBefore(y, sp);
    PassStep(y);
    PassStep(y + [sp]);
    if HasFence(y) {
      PassBefore(AfterFence(y), sp);
      var before, later := BeforeFence(y), Pass(AfterFence(y)).Outside();
      assert before + " " + (later + [sp]) == before + " " + later + [sp];
    }
  }

  lemma {:induction false} TrimLeftConcat(s: string, sp: char)
    requires IsSpace(sp)
    ensures TrimLeft(s + [sp]) == if TrimLeft(s) == "" then "" else TrimLeft(s) + [sp]
    decreases |s|
  {
    if s == "" {
      assert s + [sp] == [sp];
      assert TrimLeft([sp]) == TrimLeft([sp][1..]);
    } else {
      assert (s + [sp])[1..] == s[1..] + [sp];
      TrimLeftConcat(s[1..], sp);
    }
  }

  /** A space at either end does not survive trimming. */
  lemma TrimAbsorbs(s: string, sp: char)
    requires IsSpace(sp)
    ensures Trim([sp] + s) == Trim(s) && Trim(s + [sp]) == Trim(s)
  {
    assert ([sp] + s)[1..] == s;
    TrimLeftConcat(s, sp);
    var t := TrimLeft(s);
    assert (t + [sp])[..|t|] == t;
  }

  lemma SimilarBehind(sp: char, y: string)
    requires IsSpace(sp)
    ensures Similar(Pass(y), Pass([sp] + y))
  {
    hide Pass, Split.Blocks, Split.Outside, Trim, IsSpace, Opener, At;
    NoneAcross([sp] + y, Opener(), 0, 0);
    PassBehind([sp], y);
    TrimAbsorbs(Pass(y).Outside(), sp);
  }

  lemma SimilarBefore(y: string, sp: char)
    requires IsSpace(sp)
    ensures Similar(Pass(y), Pass(y + [sp]))
  {
    hide Pass, Split.Blocks, Split.Outside, Trim, IsSpace;
    PassBefore(y, sp);
    TrimAbsorbs(Pass(y).Outside(), sp);
  }

  lemma SimilarTransitive(x: Split, y: Split, z: Split)
    requires Similar(x, y) && Similar(y, z)
    ensures Similar(x, z)
  {
  }

  lemma {:induction false} PassTrimLeft(s: string)
    ensures Similar(Pass(TrimLeft(s)), Pass(s))
    decreases |s|
  {
    hide Pass, Similar;
    if s != "" && IsSpace(s[0]) {
      PassTrimLeft(s[1..]);
      SimilarBehind(s[0], s[1..]);
      assert s == [s[0]] + s[1..];
      SimilarTransitive(Pass(TrimLeft(s)), Pass(s[1..]), Pass(s));
    } else {
      Itself(Pass(s));
    }
  }

  lemma Itself(x: Split)
    ensures Similar(x, x)
  {
  }

  lemma {:induction false} PassTrimRight(s: string)
    ensures Similar(Pass(TrimRight(s)), Pass(s))
    decreases |s|
  {
    hide Pass, Similar;
    if s != "" && IsSpace(s[|s| - 1]) {
      var init, sp := s[..|s| - 1], s[|s| - 1];
      PassTrimRight(init);
      SimilarBefore(init, sp);
      assert s == init + [sp];
      SimilarTransitive(Pass(TrimRight(s)), Pass(init), Pass(s));
    } else {
      Itself(Pass(s));
    }
  }

  /** Cutting the first fence and trimming leaves a text on which a pass finds the remaining fences. */
  lemma CutStep(s: string)
    requires HasFence(s)
    ensures [Enclosed(s)] + Pass(Cut(s)).Blocks() == Pass(s).Blocks()
    ensures Trim(Pass(Cut(s)).Outside()) == Trim(Pass(s).Outside())
    ensures |Cut(s)| < |s| && Trim(Cut(s)) == Cut(s)
  {
    var before, after := BeforeFence(s), AfterFence(s);
    var joined := before + " " + after;
    IndexFirst(s, Opener(), 0);
    forall k | 0 <= k && k + |Opener()| <= |before| ensures !At(before, Opener(), k) {
      assert s == before + s[|before|..];
      AtPrefix(before, s[|before|..], Opener(), k);
    }
    PassBehindSpace(before, ' ', after);
    PassStep(s);
    PassTrimLeft(joined);
    PassTrimRight(TrimLeft(joined));
    TrimEnds(joined);
    TrimLeftShape(joined);
    TrimRightShape(TrimLeft(joined));
  }

  // ----- the method -----

  /** The calls of all blocks in order; a block that does not parse yields none. */
  function Calls<C>(parse: string -> Option<seq<C>>, blocks: seq<string>): seq<C> {
    if blocks == [] then [] else Calls(parse, blocks[..|blocks| - 1]) + parse(blocks[|blocks| - 1]).GetOr([])
  }

  /** A block yields what it parses to, and calls come in the order of their blocks. */
  lemma {:induction false} CallsInOrder<C>(parse: string -> Option<seq<C>>, xs: seq<string>, ys: seq<string>)
    ensures Calls(parse, xs + ys) == Calls(parse, xs) + Calls(parse, ys)
    ensures |ys| == 1 ==> Calls(parse, ys) == if parse(ys[0]).Some? then parse(ys[0]).value else []
    decreases |ys|
  {
    if ys == [] {
      assert xs + ys == xs;
    } else {
      var init := ys[..|ys| - 1];
      assert (xs + ys)[..|xs + ys| - 1] == xs + init;
      CallsInOrder(parse, xs, init);
    }
  }

  /** After some rounds: `seen` are the blocks cut so far, and a pass over `rest` would find the others. */
  ghost predicate Follows(text: string, seen: seq<string>, rest: string) {
    && seen + Pass(rest).Blocks() == Pass(text).Blocks()
    && Trim(Pass(rest).Outside()) == Trim(Pass(text).Outside())
    && if rest == text then seen == [] else HasFence(text) && Trim(rest) == rest && |rest| < |text|
  }

  lemma FollowsCut(text: string, seen: seq<string>, rest: string)
    requires Follows(text, seen, rest) && HasFence(rest)
    ensures Follows(text, seen + [Enclosed(rest)], Cut(rest)) && |Cut(rest)| < |rest|
  {
    hide Pass, Split.Blocks, Split.Outside, Trim, Cut, HasFence, Enclosed;
    CutStep(rest);
    var later := Pass(Cut(rest)).Blocks();
    assert seen + ([Enclosed(rest)] + later) == seen + [Enclosed(rest)] + later;
  }

  lemma FollowsEnd(text: string, seen: seq<string>, rest: string)
    requires Follows(text, seen, rest) && !HasFence(rest)
    ensures seen == Pass(text).Blocks()
    ensures rest == if HasFence(text) then Trim(Pass(text).Outside()) else text
  {
    hide Pass, Split.Blocks, Split.Outside, Trim, HasFence;
    PassStep(rest);
    assert seen + [] == seen;
  }

  lemma FollowsStart<C>(parse: string -> Option<seq<C>>, text: string)
    ensures Follows(text, [], text) && Calls(parse, []) == []
  {
    hide Pass, Split.Blocks, Split.Outside, Trim;
    assert [] + Pass(text).Blocks() == Pass(text).Blocks();
  }

  lemma NoFence(s: string)
    ensures var start := Index(s, Opener(), 0); !At(s, Opener(), start) ==> !HasFence(s)
    ensures var start := Index(s, Opener(), 0);
      start + |Opener()| <= |s| && !At(s, Closer(), Index(s, Closer(), start + |Opener()|)) ==> !HasFence(s)
  {
  }

  lemma Found(s: string)
    requires var start := Index(s, Opener(), 0);
      start + |Opener()| <= |s| && At(s, Opener(), start) && At(s, Closer(), Index(s, Closer(), start + |Opener()|))
    ensures HasFence(s) && CloseOf(s) == Index(s, Closer(), Index(s, Opener(), 0) + |Opener()|)
    ensures Enclosed(s) == s[Index(s, Opener(), 0) + |Opener()|..CloseOf(s)]
    ensures Cut(s) == Trim(s[..Index(s, Opener(), 0)] + " " + s[CloseOf(s) + |Closer()|..])
  {
    hide Index, Trim, At, Opener, Closer;
  }

  lemma CallsStep<C>(parse: string -> Option<seq<C>>, seen: seq<string>, block: string)
    ensures Calls(parse, seen + [block]) ==
      if parse(block).Some? then Calls(parse, seen) + parse(block).value else Calls(parse, seen)
  {
    assert (seen + [block])[..|seen|] == seen;
  }

  /**
   * The fence loop of `extractToolCalls`: the calls are those of the fences one pass over the text finds, in
   * text order; what remains is the text outside them, trimmed, and holds no complete fence.
   */
  method ExtractFenced<C>(parse: string -> Option<seq<C>>, text: string) returns (calls: seq<C>, rest: string)
    ensures calls == Calls(parse, Pass(text).Blocks())
    ensures rest == if HasFence(text) then Trim(Pass(text).Outside()) else text
    ensures !HasFence(rest)
  {
    rest, calls := text, [];
    ghost var seen: seq<string> := [];
    hide *;
    FollowsStart(parse, text);
    while true
      invariant Follows(text, seen, rest) && calls == Calls(parse, seen)
      decreases |rest|
    {
      var start := Index(rest, Opener(), 0);
      if !At(rest, Opener(), start) {
        NoFence(rest);
        break;
      }
      AtFits(rest, Opener(), start);
      var bodyStart := start + |Opener()|;
      var end := Index(rest, Closer(), bodyStart);
      if !At(rest, Closer(), end) {
        NoFence(rest);
        break;
      }
      Found(rest);
      var block := rest[bodyStart..end];
      var parsed := parse(block);
      if parsed.Some? {
        calls := calls + parsed.value;
      }
      FollowsCut(text, seen, rest);
      CallsStep(parse, seen, block);
      seen := seen + [block];
      rest := Trim(rest[..start] + " " + rest[end + |Closer()|..]);
    }
    FollowsEnd(text, seen, rest);
  }
}
