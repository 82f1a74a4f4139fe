/** JSON string literals: a backslash protects the byte after it, the first unprotected quote closes. */
module Literals {
  /** `s` starts inside a literal; how many bytes still belong to it, its closing quote included. */
  function BodyLen(s: string): (n: nat)
    ensures n <= |s|
  {
    if s == "" then 0
    else if s[0] == '"' then 1
    else if s[0] == '\\' && |s| > 1 then 2 + BodyLen(s[2..])
    else 1 + BodyLen(s[1..])
  }

  /** Does the literal close within `s`? */
  predicate Closed(s: string) {
    s != "" && (s[0] == '"' || if s[0] == '\\' && |s| > 1 then Closed(s[2..]) else Closed(s[1..]))
  }

  /** Does `s` end in an open literal, right after a backslash that protects what comes next? */
  predicate Dangling(s: string) {
    s != "" && s[0] != '"' && if s[0] == '\\' then |s| == 1 || Dangling(s[2..]) else Dangling(s[1..])
  }

  lemma {:induction false} OpenTakesAll(s: string)
    ensures !Closed(s) ==> BodyLen(s) == |s|
  {
    if s != "" && s[0] != '"' {
      OpenTakesAll(if s[0] == '\\' && |s| > 1 then s[2..] else s[1..]);
    }
  }

  /** A closed literal ends at the same byte whatever follows it. */
  lemma {:induction false} ClosedEndsThere(s: string, t: string)
    requires Closed(s)
    ensures Closed(s[..BodyLen(s)] + t) && BodyLen(s[..BodyLen(s)] + t) == BodyLen(s)
    decreases |s|
  {
    var r := s[..BodyLen(s)] + t;
    if s[0] != '"' {
      var skip := if s[0] == '\\' && |s| > 1 then 2 else 1;
      ClosedEndsThere(s[skip..], t);
      assert BodyLen(s) == skip + BodyLen(s[skip..]);
      assert r[skip..] == s[skip..][..BodyLen(s[skip..])] + t;
    }
  }

  /** One more byte on an open literal. */
  lemma {:induction false} OneMoreByte(s: string, c: char)
    requires !Closed(s)
    ensures Closed(s + [c]) == (c == '"' && !Dangling(s))
    ensures Dangling(s + [c]) == (c == '\\' && !Dangling(s))
    decreases |s|
  {
    var t := s + [c];
    if s == "" {
      assert t[1..] == "";
    } else if s == "\\" {
      assert t[2..] == "";
    } else {
      var skip := if s[0] == '\\' then 2 else 1;
      assert t[skip..] == s[skip..] + [c];
      OneMoreByte(s[skip..], c);
    }
  }

  // ----- where a literal ends, read off the text -----

  /** How many backslashes stand immediately in front of byte `i`. */
  function Backslashes(s: string, i: nat): nat
    requires i <= |s|
  {
    if i > 0 && s[i - 1] == '\\' then 1 + Backslashes(s, i - 1) else 0
  }

  /** Byte `i` is a quote, and the backslashes in front of it protect only each other. */
  predicate Closes(s: string, i: nat) {
    i < |s| && s[i] == '"' && Backslashes(s, i) % 2 == 0
  }

  /** Two bytes that belong together, or one that is no backslash, do not matter to what comes after. */
  lemma {:induction false} BackslashesAfter(s: string, skip: nat, i: nat)
    requires skip <= i <= |s| && s != "" && skip == if s[0] == '\\' then 2 else 1
    ensures Backslashes(s, i) % 2 == Backslashes(s[skip..], i - skip) % 2
    decreases i
  {
    if i == skip {
      assert s[0] == '\\' && s[1] == '\\' ==> Backslashes(s, 2) == 1 + Backslashes(s, 1) == 2 + Backslashes(s, 0);
    } else {
      assert s[skip..][i - skip - 1] == s[i - 1];
      if s[i - 1] == '\\' {
        BackslashesAfter(s, skip, i - 1);
      }
    }
  }

  /** A literal ends with the first quote that is not protected, or not at all. */
  lemma {:induction false} BodyEndsAt(s: string)
    ensures Closed(s) <==> exists i :: Closes(s, i)
    ensures Closed(s) ==> BodyLen(s) > 0 && Closes(s, BodyLen(s) - 1)
    ensures forall i :: 0 <= i < BodyLen(s) - 1 ==> !Closes(s, i)
    ensures !Closed(s) ==> BodyLen(s) == |s| && forall i :: !Closes(s, i)
    decreases |s|
  {
    if s == "" {
    } else if s[0] == '"' {
      assert Closes(s, 0);
    } else if s == "\\" {
      assert BodyLen(s) == 1 && !Closed(s[1..]);
    } else {
      var skip := if s[0] == '\\' then 2 else 1;
      BodyEndsAt(s[skip..]);
      forall i: nat | i < |s| ensures Closes(s, i) <==> i >= skip && Closes(s[skip..], i - skip) {
        if i >= skip {
          BackslashesAfter(s, skip, i);
        } else if i == 1 {
          assert Backslashes(s, 1) == 1 + Backslashes(s, 0);
        }
      }
      hide Backslashes;
      assert BodyLen(s) == skip + BodyLen(s[skip..]);
      if Closed(s) {
        assert Closes(s, skip + BodyLen(s[skip..]) - 1);
      }
    }
  }
}
