/**
 * Byte strings and the handful of Go string helpers the gateway relies on.
 *
 * A Go string is a sequence of bytes, so each `char` below stands for one byte and
 * `|s|` is Go's `len(s)`. Case folding and trimming act on ASCII.
 */
module Text {
  datatype Option<+T> = None | Some(value: T) {
    function GetOr(default: T): T {
      match this
      case Some(v) => v
      case None => default
    }
  }

  datatype Result<+T, +E> = Ok(value: T) | Err(error: E)

  predicate IsSpace(c: char) {
    c == ' ' || c == '\t' || c == '\n' || c == '\r' || c == '\U{B}' || c == '\U{C}'
  }

  function TrimLeft(s: string): (r: string) {
    if |s| > 0 && IsSpace(s[0]) then TrimLeft(s[1..]) else s
  }

  function TrimRight(s: string): (r: string) {
    if |s| > 0 && IsSpace(s[|s| - 1]) then TrimRight(s[..|s| - 1]) else s
  }

  function Trim(s: string): (r: string) {
    TrimRight(TrimLeft(s))
  }

  function LowerChar(c: char): (r: char) {
    if 'A' <= c <= 'Z' then (c as int + 32) as char else c
  }

  function Lower(s: string): (r: string)
    ensures |r| == |s|
  {
    seq(|s|, i requires 0 <= i < |s| => LowerChar(s[i]))
  }

  /** Does `p` occur in `s` at offset `i`? */
  predicate At(s: string, p: string, i: int) {
    0 <= i && i + |p| <= |s| && s[i..i + |p|] == p
  }

  predicate Contains(s: string, p: string) {
    exists i | 0 <= i <= |s| :: At(s, p, i)
  }

  predicate Free(s: string, c: char) {
    forall i | 0 <= i < |s| :: s[i] != c
  }

  /** Byte-wise lexicographic order, Go's `<` on strings. */
  predicate Before(a: string, b: string) {
    |b| > 0 && (|a| == 0 || a[0] < b[0] || (a[0] == b[0] && Before(a[1..], b[1..])))
  }

  lemma {:induction false} BeforeTrichotomy(a: string, b: string)
    ensures a != b ==> Before(a, b) || Before(b, a)
    ensures !(Before(a, b) && Before(b, a))
    decreases |a| + |b|
  {
    if |a| > 0 && |b| > 0 {
      BeforeTrichotomy(a[1..], b[1..]);
      if a[0] == b[0] && a[1..] == b[1..] {
        assert a == [a[0]] + a[1..] == [b[0]] + b[1..] == b;
      }
    }
  }

  /** The first `n` bytes agree, and there `a` ends or has the smaller byte. */
  predicate DiffersAt(a: string, b: string, n: nat) {
    n <= |a| && n < |b| && a[..n] == b[..n] && (n == |a| || a[n] < b[n])
  }

  /** Before another text stands its proper prefixes, and whatever has the smaller byte where the two first differ. */
  lemma {:induction false} BeforeExactly(a: string, b: string)
    ensures Before(a, b) <==> exists n: nat :: DiffersAt(a, b, n)
  {
    if |b| > 0 && |a| > 0 {
      if a[0] == b[0] {
        BeforeExactly(a[1..], b[1..]);
        if exists n: nat :: DiffersAt(a[1..], b[1..], n) {
          var n: nat :| DiffersAt(a[1..], b[1..], n);
          assert a[..n + 1] == [a[0]] + a[1..][..n] && b[..n + 1] == [b[0]] + b[1..][..n];
          assert DiffersAt(a, b, n + 1);
        }
        if exists n: nat :: DiffersAt(a, b, n) {
          var n: nat :| DiffersAt(a, b, n);
          assert a[1..][..n - 1] == a[..n][1..] && b[1..][..n - 1] == b[..n][1..];
          assert DiffersAt(a[1..], b[1..], n - 1);
        }
      } else {
        assert DiffersAt(a, b, 0) <==> a[0] < b[0];
        forall n: nat | n > 0 ensures !DiffersAt(a, b, n) {
          assert n <= |a| && n <= |b| ==> a[..n][0] != b[..n][0];
        }
      }
    } else if |b| > 0 {
      assert DiffersAt(a, b, 0);
    }
  }

  lemma {:induction false} BeforeTransitive(a: string, b: string, c: string)
    requires Before(a, b) && Before(b, c)
    ensures Before(a, c)
  {
    if |a| > 0 && a[0] == b[0] && b[0] == c[0] {
      BeforeTransitive(a[1..], b[1..], c[1..]);
    }
  }

  lemma {:induction false} TrimRightShape(s: string)
    ensures TrimRight(s) <= s
    ensures forall i | |TrimRight(s)| <= i < |s| :: IsSpace(s[i])
    ensures TrimRight(s) == "" || !IsSpace(TrimRight(s)[|TrimRight(s)| - 1])
  {
    if |s| > 0 && IsSpace(s[|s| - 1]) {
      TrimRightShape(s[..|s| - 1]);
    }
  }

  lemma {:induction false} TrimLeftShape(s: string)
    ensures |TrimLeft(s)| <= |s| && TrimLeft(s) == s[|s| - |TrimLeft(s)|..]
    ensures forall i | 0 <= i < |s| - |TrimLeft(s)| :: IsSpace(s[i])
    ensures TrimLeft(s) == "" || !IsSpace(TrimLeft(s)[0])
  {
    if |s| > 0 && IsSpace(s[0]) {
      TrimLeftShape(s[1..]);
    }
  }

  /** Trimming leaves a text with no space at either end, so trimming twice is trimming once. */
  lemma TrimEnds(s: string)
    ensures Trim(s) == "" || (!IsSpace(Trim(s)[0]) && !IsSpace(Trim(s)[|Trim(s)| - 1]))
    ensures Trim(Trim(s)) == Trim(s)
  {
    TrimLeftShape(s);
    TrimRightShape(TrimLeft(s));
  }

  /** What trimming leaves, and what it takes away: spaces at both ends and nothing else. */
  lemma TrimExactly(s: string) returns (i: nat, j: nat)
    ensures i <= j <= |s| && Trim(s) == s[i..j]
    ensures AllSpace(s[..i]) && AllSpace(s[j..]) && (i < j ==> !IsSpace(s[i]) && !IsSpace(s[j - 1]))
  {
    TrimLeftShape(s);
    TrimRightShape(TrimLeft(s));
    i := |s| - |TrimLeft(s)|;
    j := i + |Trim(s)|;
    assert forall k | j <= k < |s| :: s[k] == TrimLeft(s)[k - i];
  }

  predicate AllSpace(s: string) {
    forall i | 0 <= i < |s| :: IsSpace(s[i])
  }

  /** Spaces around a text do not show once it is trimmed. */
  lemma {:induction false} TrimAround(before: string, s: string, after: string)
    requires AllSpace(before) && AllSpace(after)
    ensures Trim(before + s + after) == Trim(s)
    decreases |before| + |after|
  {
    var t := before + s + after;
    if before != "" {
      assert IsSpace(t[0]) && t[1..] == before[1..] + s + after;
      TrimAround(before[1..], s, after);
    } else if after != "" {
      var init := s + after[..|after| - 1];
      assert t == init + [after[|after| - 1]];
      TrimOneBehind(init, after[|after| - 1]);
      assert before + s + after[..|after| - 1] == init;
      TrimAround(before, s, after[..|after| - 1]);
    } else {
      assert t == s;
    }
  }

  lemma {:induction false} TrimOneBehind(s: string, c: char)
    requires IsSpace(c)
    ensures Trim(s + [c]) == Trim(s)
  {
    if s == "" {
      assert (s + [c])[1..] == "";
    } else if IsSpace(s[0]) {
      assert (s + [c])[1..] == s[1..] + [c];
      TrimOneBehind(s[1..], c);
    } else {
      assert (s + [c])[..|s|] == s;
    }
  }

  /** Equal but for the case of letters. */
  predicate SameButCase(a: string, b: string) {
    |a| == |b| && forall i | 0 <= i < |a| ::
      || a[i] == b[i]
      || ('A' <= a[i] <= 'Z' && b[i] as int == a[i] as int + 32)
      || ('A' <= b[i] <= 'Z' && a[i] as int == b[i] as int + 32)
  }

  /** Lower-casing identifies exactly what differs in case only, and leaves no capital. */
  lemma LowerExactly(a: string, b: string)
    ensures Lower(a) == Lower(b) <==> SameButCase(a, b)
    ensures SameButCase(a, Lower(a)) && forall i | 0 <= i < |a| :: !('A' <= Lower(a)[i] <= 'Z')
  {
    if Lower(a) == Lower(b) {
      assert |Lower(a)| == |Lower(b)|;
      forall i | 0 <= i < |a| ensures LowerChar(a[i]) == LowerChar(b[i]) {
        assert Lower(a)[i] == Lower(b)[i];
      }
    }
  }

  // ----- pieces of strings -----

  lemma SliceSlice(s: string, from: nat, i: nat, j: nat)
    requires i <= j && from + j <= |s|
    ensures s[from..][i..j] == s[from + i..from + j] && s[from..][..i] == s[from..from + i]
      && s[from..][j..] == s[from + j..]
  {
  }

  lemma Regroup(a: string, b: string, c: string)
    ensures a + (b + c) == (a + b) + c
  {
  }
}
