/** UTF-8 (RFC 3629) over byte strings, and what the JSON library does to bytes that are not UTF-8. */
module Utf8 {
  predicate Continues(c: char) {
    '\U{80}' <= c <= '\U{BF}'
  }

  /** The second byte that may follow a lead byte of three or four. */
  predicate Follows(lead: char, c: char) {
    && Continues(c)
    && (lead == '\U{E0}' ==> c >= '\U{A0}') && (lead == '\U{ED}' ==> c <= '\U{9F}')
    && (lead == '\U{F0}' ==> c >= '\U{90}') && (lead == '\U{F4}' ==> c <= '\U{8F}')
  }

  /** How many bytes the character at the front takes; 0 if the bytes there encode none. */
  function RuneLen(s: string): (n: nat)
    ensures n <= |s|
  {
    if s == "" then 0
    else if s[0] < '\U{80}' then 1
    else if '\U{C2}' <= s[0] <= '\U{DF}' then if |s| > 1 && Continues(s[1]) then 2 else 0
    else if '\U{E0}' <= s[0] <= '\U{EF}' then
      if |s| > 2 && Follows(s[0], s[1]) && Continues(s[2]) then 3 else 0
    else if '\U{F0}' <= s[0] <= '\U{F4}' then
      if |s| > 3 && Follows(s[0], s[1]) && Continues(s[2]) && Continues(s[3]) then 4 else 0
    else 0
  }

  predicate Valid(s: string) {
    s == "" || (RuneLen(s) > 0 && Valid(s[RuneLen(s)..]))
  }

  /** `json.Marshal` on a string: every byte that belongs to no character becomes U+FFFD. */
  function Scrub(s: string): string {
    if s == "" then ""
    else if RuneLen(s) > 0 then s[..RuneLen(s)] + Scrub(s[RuneLen(s)..])
    else "\U{EF}\U{BF}\U{BD}" + Scrub(s[1..])
  }

  /** A character at the front does not depend on what follows it. */
  lemma RuneLenPrefix(s: string, t: string)
    requires RuneLen(s) > 0
    ensures RuneLen(s + t) == RuneLen(s)
  {
  }

  /** Text after valid text is valid exactly if the whole is. */
  lemma {:induction false} ValidConcat(s: string, t: string)
    requires Valid(s)
    ensures Valid(s + t) <==> Valid(t)
    decreases |s|
  {
    if s == "" {
      assert s + t == t;
    } else {
      var n := RuneLen(s);
      RuneLenPrefix(s, t);
      assert (s + t)[n..] == s[n..] + t;
      hide RuneLen;
      ValidConcat(s[n..], t);
    }
  }

  lemma {:induction false} AsciiIsValid(s: string)
    requires forall i | 0 <= i < |s| :: s[i] < '\U{80}'
    ensures Valid(s)
  {
    if s != "" {
      AsciiIsValid(s[1..]);
    }
  }

  lemma RuneAlone(s: string)
    requires RuneLen(s) > 0
    ensures Valid(s[..RuneLen(s)])
  {
    var head := s[..RuneLen(s)];
    assert RuneLen(head) == |head| && head[|head|..] == "";
  }

  lemma ReplacementIsValid()
    ensures Valid("\U{EF}\U{BF}\U{BD}")
  {
    var r := "\U{EF}\U{BF}\U{BD}";
    assert RuneLen(r) == 3 && r[3..] == "";
  }

  /** Scrubbing gives valid text, leaves valid text alone, and makes nothing out of something never. */
  lemma {:induction false} ScrubValid(s: string)
    ensures Valid(Scrub(s))
    ensures Valid(s) ==> Scrub(s) == s
    ensures Scrub(s) == "" <==> s == ""
    decreases |s|
  {
    if s != "" {
      hide RuneLen;
      var n := RuneLen(s);
      var head := if n > 0 then s[..n] else "\U{EF}\U{BF}\U{BD}";
      var rest := s[if n > 0 then n else 1..];
      if n > 0 {
        RuneAlone(s);
      } else {
        ReplacementIsValid();
      }
      ScrubValid(rest);
      ValidConcat(head, Scrub(rest));
    }
  }
}
