/**
 * The byte stream of an upstream response: line reading, and the read-ahead that looks for
 * an error embedded in an HTTP 200 before any byte reaches the client.
 */
module SseReader {
  import opened Text
  import opened Json

  datatype Status = More | Eof | Failed

  /** The offset of the first `c` in `s`, or `|s|`. */
  function Find(s: string, c: char): (n: nat)
    ensures n <= |s| && Free(s[..n], c)
    ensures n < |s| ==> s[n] == c
  {
    if s == "" || s[0] == c then 0
    else
      var n := Find(s[1..], c);
      assert forall i | 0 < i < n + 1 :: s[i] == s[1..][i - 1];
      n + 1
  }

  /** The lines of a text without their newlines; the last one is whatever follows the last newline. */
  function Lines(text: string): (r: seq<string>)
    ensures |r| >= 1
  {
    var n := Find(text, '\n');
    if n == |text| then [text] else [text[..n]] + Lines(text[n + 1..])
  }

  /** A buffered reader over a body that ends cleanly or, if `broken`, in a read error. */
  class ByteReader {
    var rest: string
    const broken: bool

    constructor (text: string, broken: bool)
      ensures rest == text && this.broken == broken
    {
      rest := text;
      this.broken := broken;
    }

    /** `ReadString('\n')`: a whole line with its newline, or what is left together with the end of the body. */
    method ReadString() returns (line: string, status: Status)
      modifies this`rest
      ensures status == More ==>
        line != "" && line[|line| - 1] == '\n' && Lines(old(rest)) == [line[..|line| - 1]] + Lines(rest)
      ensures status != More ==> Lines(old(rest)) == [line] && rest == "" && status == (if broken then Failed else Eof)
      ensures old(rest) == line + rest
      ensures status == More ==> |rest| < |old(rest)|
      ensures line == old(rest)[..if status == More then Find(old(rest), '\n') + 1 else |old(rest)|]
      ensures status == More <==> Find(old(rest), '\n') < |old(rest)|
    {
      var n := Find(rest, '\n');
      if n < |rest| {
        line, rest, status := rest[..n + 1], rest[n + 1..], More;
        assert line[..n] == old(rest)[..n];
      } else {
        line, rest, status := rest, "", if broken then Failed else Eof;
      }
    }
  }

  // ----- read-ahead -----

  datatype Rejection = Transport | Embedded(status: int, message: string)

  const PREFLIGHT_LIMIT: nat := 0x20_0000

  /** UTF-8 of the phrase CodeArts uses for its limit on concurrent sessions. */
  const CONCURRENT_SESSIONS: string := "\U{E5}\U{B9}\U{B6}\U{E5}\U{8F}\U{91}\U{E4}\U{BC}\U{9A}\U{E8}\U{AF}\U{9D}"

  /** The account cannot use the model: the phrases of a 400, and those of `upstreamUnavailableReason`. */
  predicate SaysUnavailable(message: string) {
    var low := Lower(message);
    Contains(low, "002002009") || Contains(low, "not registered") || Contains(low, "4004.200")
    || Contains(low, "benefit not found")
  }

  /** The phrases by which the read-ahead calls an error a 429. */
  predicate SaysBusy(text: string) {
    var low := Lower(text);
    Contains(low, "429") || Contains(low, "tm.00001041") || Contains(low, "tpm") || Contains(low, CONCURRENT_SESSIONS)
  }

  /** The code and the message of an embedded error, as one text. */
  function ErrorText(c: Codec, data: string): string {
    var payload := c.decode(data).fields;
    Trim(StrAt(payload, "error_code").GetOr("") + " " + StrAt(payload, "error_msg").GetOr(""))
  }

  /** How much of the text is passed on. */
  const MESSAGE_LIMIT: nat := 300

  function Cut(s: string, n: nat): string {
    if |s| > n then s[..n] else s
  }

  /** `embeddedSSEError`. */
  function EmbeddedError(c: Codec, data: string): Option<Rejection> {
    if data == "" || data == "[DONE]" || !c.decode(data).whole then None
    else
      var code := StrAt(c.decode(data).fields, "error_code").GetOr("");
      if code == "" || code == "0" then None
      else
        var text := ErrorText(c, data);
        var status := if SaysBusy(text) then 429 else if SaysUnavailable(text) then 400 else 502;
        Some(Embedded(status, Cut(text, MESSAGE_LIMIT)))
  }

  /** What the read-ahead decides: reject on an error in the first data line, or on a failure before it. */
  function Verdict(c: Codec, text: string, broken: bool, taken: nat): Option<Rejection>
    decreases |text|
  {
    if taken >= PREFLIGHT_LIMIT then None
    else
      var n := Find(text, '\n');
      var line := text[..if n < |text| then n + 1 else n];
      var trimmed := Trim(line);
      if "data:" <= trimmed then EmbeddedError(c, Trim(trimmed[5..]))
      else if n == |text| then if broken then Some(Transport) else None
      else Verdict(c, text[n + 1..], broken, taken + |line|)
  }

  /** The verdict, one line at a time, in terms of the line that `ReadString` returns. */
  lemma VerdictStep(c: Codec, text: string, broken: bool, taken: nat)
    ensures var n := Find(text, '\n'); var line := text[..if n < |text| then n + 1 else n];
      Verdict(c, text, broken, taken) ==
        if taken >= PREFLIGHT_LIMIT then None
        else if "data:" <= Trim(line) then EmbeddedError(c, Trim(Trim(line)[5..]))
        else if n == |text| then if broken then Some(Transport) else None
        else Verdict(c, text[n + 1..], broken, taken + |line|)
  {
    hide EmbeddedError, Trim, Find;
  }

  // ----- the verdict, told by the lines -----

  /** How many bytes the first `k` lines take, newlines included. */
  function Taken(lines: seq<string>, k: nat): nat
    requires k <= |lines|
  {
    if k == 0 then 0 else Taken(lines, k - 1) + |lines[k - 1]| + 1
  }

  predicate IsData(line: string) {
    "data:" <= Trim(line)
  }

  /** Line `k` is looked at: it begins within the limit, and no line before it carries data. */
  predicate Reached(lines: seq<string>, taken: nat, k: nat) {
    k < |lines| && taken + Taken(lines, k) < PREFLIGHT_LIMIT && forall i | 0 <= i < k :: !IsData(lines[i])
  }

  /** What line `k` leads to, if it is reached: the error in its data, or the failure of the body behind it. */
  function Ground(c: Codec, lines: seq<string>, broken: bool, k: nat): Option<Rejection>
    requires k < |lines|
  {
    if IsData(lines[k]) then EmbeddedError(c, Trim(Trim(lines[k])[5..]))
    else if k == |lines| - 1 && broken then Some(Transport)
    else None
  }

  /** A newline at the end does not show once a line is trimmed. */
  lemma NewlineDoesNotShow(line: string)
    ensures Trim(line + "\n") == Trim(line)
  {
    TrimAround("", line, "\n");
    assert "" + line + "\n" == line + "\n";
  }

  lemma {:induction false} TakenBehind(lines: seq<string>, k: nat)
    requires 0 < k <= |lines|
    ensures Taken(lines, k) == |lines[0]| + 1 + Taken(lines[1..], k - 1)
  {
    if k > 1 {
      TakenBehind(lines, k - 1);
    }
  }

  lemma ReachedBehind(lines: seq<string>, taken: nat, k: nat)
    requires 0 < k && lines != [] && !IsData(lines[0])
    ensures Reached(lines, taken, k) <==> Reached(lines[1..], taken + |lines[0]| + 1, k - 1)
  {
    hide IsData;
    if k <= |lines| {
      TakenBehind(lines, k);
    }
    assert forall i | 0 < i < |lines| :: lines[i] == lines[1..][i - 1];
    if Reached(lines[1..], taken + |lines[0]| + 1, k - 1) {
      forall i | 0 <= i < k ensures !IsData(lines[i]) {
        assert i > 0 ==> lines[i] == lines[1..][i - 1];
      }
    }
  }

  /** Some line in reach is a ground to reject with this. */
  ghost predicate Grounded(c: Codec, lines: seq<string>, broken: bool, taken: nat, r: Rejection) {
    exists k: nat :: Reached(lines, taken, k) && Ground(c, lines, broken, k) == Some(r)
  }

  /** The first line is the only one in reach: it carries data, or there is no other. */
  lemma FirstIsGround(c: Codec, lines: seq<string>, broken: bool, taken: nat, r: Rejection)
    requires lines != [] && (IsData(lines[0]) || |lines| == 1) && taken < PREFLIGHT_LIMIT
    ensures Grounded(c, lines, broken, taken, r) <==> Ground(c, lines, broken, 0) == Some(r)
  {
    hide IsData, Ground;
    assert Reached(lines, taken, 0);
    assert forall k: nat | Reached(lines, taken, k) :: k == 0;
  }

  lemma NothingPastLimit(c: Codec, text: string, broken: bool, taken: nat)
    requires taken >= PREFLIGHT_LIMIT
    ensures Verdict(c, text, broken, taken).None?
  {
  }

  lemma NoneInReach(c: Codec, lines: seq<string>, broken: bool, taken: nat, r: Rejection)
    requires taken >= PREFLIGHT_LIMIT
    ensures !Grounded(c, lines, broken, taken, r)
  {
    hide Ground;
  }

  /** The verdict on the first line, in terms of the lines. */
  lemma VerdictOfLines(c: Codec, text: string, broken: bool, taken: nat)
    requires taken < PREFLIGHT_LIMIT
    ensures var lines := Lines(text); var n := Find(text, '\n');
      && (n == |text| <==> |lines| == 1)
      && (IsData(lines[0]) || |lines| == 1 ==> Verdict(c, text, broken, taken) == Ground(c, lines, broken, 0))
      && (!IsData(lines[0]) && |lines| > 1 ==>
            && lines[1..] == Lines(text[n + 1..]) && |lines[0]| == n
            && Verdict(c, text, broken, taken) == Verdict(c, text[n + 1..], broken, taken + n + 1))
  {
    var n, lines := Find(text, '\n'), Lines(text);
    VerdictStep(c, text, broken, taken);
    hide EmbeddedError, Trim, Find, Verdict;
    if n < |text| {
      assert text[..n + 1] == lines[0] + "\n";
      NewlineDoesNotShow(lines[0]);
    } else {
      assert text[..n] == text == lines[0];
    }
  }

  /** Nothing is rejected without a ground, and the first ground within reach is the one given. */
  lemma {:induction false} VerdictExactly(c: Codec, text: string, broken: bool, taken: nat, r: Rejection)
    ensures Verdict(c, text, broken, taken) == Some(r) <==> Grounded(c, Lines(text), broken, taken, r)
    decreases |text|
  {
    hide *;
    var n, lines := Find(text, '\n'), Lines(text);
    if taken >= PREFLIGHT_LIMIT {
      NothingPastLimit(c, text, broken, taken);
      NoneInReach(c, lines, broken, taken, r);
    } else {
      VerdictOfLines(c, text, broken, taken);
      if IsData(lines[0]) || |lines| == 1 {
        FirstIsGround(c, lines, broken, taken, r);
      } else {
        VerdictExactly(c, text[n + 1..], broken, taken + n + 1, r);
        VerdictBehind(c, lines, broken, taken, r);
      }
    }
  }

  lemma VerdictBehind(c: Codec, lines: seq<string>, broken: bool, taken: nat, r: Rejection)
    requires |lines| > 1 && !IsData(lines[0])
    ensures Grounded(c, lines, broken, taken, r) <==>
      Grounded(c, lines[1..], broken, taken + |lines[0]| + 1, r)
  {
    var later, after := lines[1..], taken + |lines[0]| + 1;
    forall k: nat | k > 0
      ensures Reached(lines, taken, k) <==> Reached(later, after, k - 1)
      ensures k < |lines| ==> Ground(c, lines, broken, k) == Ground(c, later, broken, k - 1)
    {
      ReachedBehind(lines, taken, k);
    }
    hide EmbeddedError, IsData;
    if Grounded(c, lines, broken, taken, r) {
      var k: nat :| Reached(lines, taken, k) && Ground(c, lines, broken, k) == Some(r);
      assert Reached(later, after, k - 1) && Ground(c, later, broken, k - 1) == Some(r);
    }
    if Grounded(c, later, broken, after, r) {
      var k: nat :| Reached(later, after, k) && Ground(c, later, broken, k) == Some(r);
      assert Reached(lines, taken, k + 1) <==> Reached(later, after, k);
    }
  }

  /**
   * Reads up to the first data line and then replays exactly what it took, so a reader that passes
   * is indistinguishable from the one that came in.
   */
  method PreflightSse(c: Codec, body: ByteReader) returns (r: Result<ByteReader, Rejection>)
    modifies body`rest
    ensures r.Err? <==> Verdict(c, old(body.rest), body.broken, 0).Some?
    ensures r.Err? ==> r.error == Verdict(c, old(body.rest), body.broken, 0).value
    ensures r.Ok? ==> fresh(r.value) && r.value.rest == old(body.rest) && r.value.broken == body.broken
  {
    hide EmbeddedError, Lines, Trim, Verdict, Find;
    var prefix := "";
    while |prefix| < PREFLIGHT_LIMIT
      invariant prefix + body.rest == old(body.rest)
      invariant Verdict(c, body.rest, body.broken, |prefix|) == Verdict(c, old(body.rest), body.broken, 0)
      decreases |body.rest|
    {
      ghost var before := body.rest;
      VerdictStep(c, before, body.broken, |prefix|);
      var line, status := body.ReadString();
      assert body.rest == before[|line|..];
      prefix := prefix + line;
      var trimmed := Trim(line);
      if "data:" <= trimmed {
        var rejected := EmbeddedError(c, Trim(trimmed[5..]));
        if rejected.Some? {
          return Err(rejected.value);
        }
        var replay := new ByteReader(prefix + body.rest, body.broken);
        return Ok(replay);
      }
      if status != More {
        if status == Failed {
          return Err(Transport);
        }
        var replay := new ByteReader(prefix, body.broken);
        return Ok(replay);
      }
    }
    VerdictStep(c, body.rest, body.broken, |prefix|);
    var replay := new ByteReader(prefix + body.rest, body.broken);
    return Ok(replay);
  }
}
