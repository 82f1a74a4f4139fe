/** Finding the end of a JSON object inside free text. */
module ScanObject {
  import opened Literals

  function Brace(c: char): int {
    if c == '{' then 1 else if c == '}' then -1 else 0
  }

  /** Opening minus closing braces of `s` outside string literals. */
  function Net(s: string): int {
    if s == "" then 0 else if s[0] == '"' then Net(s[1 + BodyLen(s[1..])..]) else Brace(s[0]) + Net(s[1..])
  }

  /** Does `s` end inside a literal? */
  predicate Open(s: string) {
    s != "" && if s[0] == '"' then !Closed(s[1..]) || Open(s[1 + BodyLen(s[1..])..]) else Open(s[1..])
  }

  /** Does `s` end right after a backslash inside a literal? */
  predicate Protecting(s: string) {
    s != "" && if s[0] == '"' then (if Closed(s[1..]) then Protecting(s[1 + BodyLen(s[1..])..]) else Dangling(s[1..]))
               else Protecting(s[1..])
  }

  /** `s[start..end]` is the shortest nonempty piece from `start` whose braces outside literals balance. */
  ghost predicate Balances(s: string, start: nat, end: nat) {
    && start < end <= |s| && Net(s[start..end]) == 0
    && forall k :: start < k < end ==> Net(s[start..k]) > 0
  }

  /** One more byte: the state machine of the scanner, read off the text instead of remembered. */
  lemma {:induction false} NextByte(s: string, c: char)
    ensures Net(s + [c]) == Net(s) + (if Open(s) then 0 else if c == '{' then 1 else if c == '}' then -1 else 0)
    ensures Open(s + [c]) == (if Open(s) then c != '"' || Protecting(s) else c == '"')
    ensures Protecting(s + [c]) == (Open(s) && c == '\\' && !Protecting(s))
    decreases |s|
  {
    var t := s + [c];
    if s == "" {
      assert t[1..] == "";
      assert Net(t) == Brace(c);
    } else if s[0] != '"' {
      assert t[1..] == s[1..] + [c];
      NextByte(s[1..], c);
    } else if Closed(s[1..]) {
      var n := BodyLen(s[1..]);
      ClosedEndsThere(s[1..], s[1..][n..] + [c]);
      assert s[1..][..n] + (s[1..][n..] + [c]) == t[1..];
      assert t[1 + n..] == s[1 + n..] + [c];
      NextByte(s[1 + n..], c);
    } else {
      OpenTakesAll(s[1..]);
      assert t[1..] == s[1..] + [c];
      OneMoreByte(s[1..], c);
      OpenByte(s, c);
    }
  }

  lemma OpenByte(s: string, c: char)
    requires s != "" && s[0] == '"' && !Closed(s[1..])
    ensures BodyLen((s + [c])[1..]) == |s| && Net(s) == 0 && Net(s + [c]) == 0
  {
    var t := s + [c];
    OpenTakesAll(s[1..]);
    OpenTakesAll(t[1..]);
    assert t[1..] == s[1..] + [c];
    if Closed(t[1..]) {
      ClosedNeedsLast(s[1..], c);
    }
    assert t[1 + |s|..] == "" && s[|s|..] == "";
  }

  lemma {:induction false} ClosedNeedsLast(b: string, c: char)
    requires !Closed(b) && Closed(b + [c])
    ensures BodyLen(b + [c]) == |b| + 1
    decreases |b|
  {
    var t := b + [c];
    assert t[|t|..] == "";
    if b != "" && b != "\\" {
      var skip := if b[0] == '\\' then 2 else 1;
      assert t[skip..] == b[skip..] + [c];
      ClosedNeedsLast(b[skip..], c);
    }
  }

  /**
   * Returns the shortest balanced object from `start` and the index after it; gives up only when `start` is no
   * opening brace or no piece from there balances.
   */
  method ScanJSONObject(s: string, start: int) returns (text: string, end: int)
    ensures text != "" ==> 0 <= start <= end && Balances(s, start, end) && text == s[start..end]
    ensures text == "" ==> end == start
    ensures text == "" <==>
      start < 0 || start >= |s| || s[start] != '{' || forall k :: start < k <= |s| ==> Net(s[start..k]) != 0
  {
    if start < 0 || start >= |s| || s[start] != '{' {
      return "", start;
    }
    var depth := 0;
    var inStr, esc := false, false;
    var i := start;
    assert s[start..start] == "";
    while i < |s|
      invariant start <= i <= |s|
      invariant depth == Net(s[start..i]) && inStr == Open(s[start..i]) && esc == Protecting(s[start..i])
      invariant esc ==> inStr
      invariant forall k :: start < k <= i ==> Net(s[start..k]) > 0
    {
      var c := s[i];
      assert s[start..i] + [c] == s[start..i + 1];
      NextByte(s[start..i], c);
      hide Net, Open, Protecting;
      if esc {
        esc := false;
      } else if c == '\\' && inStr {
        esc := true;
      } else if c == '"' {
        inStr := !inStr;
      } else if inStr {
      } else if c == '{' {
        depth := depth + 1;
      } else if c == '}' {
        depth := depth - 1;
        if depth == 0 {
          return s[start..i + 1], i + 1;
        }
      }
      i := i + 1;
    }
    return "", start;
  }

  /** The object found does not depend on what follows it, and there is no other. */
  lemma BalancesOnce(s: string, start: nat, end: nat, t: string, end': nat)
    requires Balances(s, start, end) && end <= |t| && t[..end] == s[..end] && Balances(t, start, end')
    ensures end' == end
  {
    forall k | start < k <= end ensures t[start..k] == s[start..k] {
      assert t[start..k] == t[..end][start..k];
      assert s[start..k] == s[..end][start..k];
    }
  }
}
