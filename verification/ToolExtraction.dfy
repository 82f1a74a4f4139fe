/** The whole extraction of tool calls from a text: fences first, then a JSON object around a telling key. */
module ToolExtraction {
  import opened Text
  import opened Fences
  import opened ScanObject

  const WRAPPED_KEY: string := "\"tool_calls\""
  const SINGLE_KEY: string := "\"arguments\""

  /** The last opening brace among the first `n` bytes. */
  predicate IsLastBrace(s: string, n: nat, i: nat) {
    i < n <= |s| && s[i] == '{' && forall j :: i < j < n ==> s[j] != '{'
  }

  /** `start` is the last opening brace before the first `key` of `s`, and the object there ends before `end`. */
  ghost predicate IsCandidate(s: string, key: string, start: nat, end: nat) {
    At(s, key, Index(s, key, 0)) && IsLastBrace(s, Index(s, key, 0), start) && Balances(s, start, end)
  }

  /** The candidate for `key`, if there is one, does not parse. */
  ghost predicate NothingAt<C>(parse: string -> Option<seq<C>>, s: string, key: string) {
    forall start: nat, end: nat :: IsCandidate(s, key, start, end) ==> parse(s[start..end]).None?
  }

  /** `calls` come from the candidate for `key`, and `rest` is the text around it. */
  ghost predicate TakenFrom<C>(parse: string -> Option<seq<C>>, s: string, key: string, calls: seq<C>, rest: string) {
    exists start: nat, end: nat :: IsCandidate(s, key, start, end) && parse(s[start..end]) == Some(calls)
      && rest == s[..start] + " " + s[end..]
  }

  lemma CandidateUnique(s: string, key: string, start: nat, end: nat, start': nat, end': nat)
    requires IsCandidate(s, key, start, end) && IsCandidate(s, key, start', end')
    ensures start == start' && end == end'
  {
    hide Net, Index, At;
    assert start == start';
    BalancesOnce(s, start, end, s, end');
  }

  /** `strings.LastIndex` for a brace in the first `n` bytes; `n` stands for "not found". */
  method LastBrace(s: string, n: nat) returns (i: nat)
    requires n <= |s|
    ensures i < n ==> IsLastBrace(s, n, i)
    ensures i >= n ==> forall j :: !IsLastBrace(s, n, j)
  {
    var k := n;
    while k > 0 && s[k - 1] != '{'
      invariant 0 <= k <= n && forall j :: k <= j < n ==> s[j] != '{'
    {
      k := k - 1;
    }
    i := if k > 0 then k - 1 else n;
  }

  /** One fallback: find the key, scan the object around it, parse it. */
  method TryObject<C>(parse: string -> Option<seq<C>>, s: string, key: string)
    returns (calls: Option<seq<C>>, rest: string)
    requires key != ""
    ensures calls.Some? ==> TakenFrom(parse, s, key, calls.value, rest)
    ensures calls.None? ==> NothingAt(parse, s, key)
  {
    calls, rest := None, "";
    var idx := Index(s, key, 0);
    if !At(s, key, idx) {
      return;
    }
    var start := LastBrace(s, idx);
    if start < idx {
      var text, end := ScanJSONObject(s, start);
      if text != "" {
        assert IsCandidate(s, key, start, end);
        calls := parse(text);
        rest := s[..start] + " " + s[end..];
      }
      forall start': nat, end': nat | IsCandidate(s, key, start', end') ensures start' == start && text != ""
        && end' == end {
        assert start' == start;
        if text != "" {
          CandidateUnique(s, key, start, end, start', end');
        } else {
          NotGivenUp(s, start, end');
        }
      }
    }
  }

  lemma NotGivenUp(s: string, start: nat, end: nat)
    requires Balances(s, start, end)
    ensures exists k :: start < k <= |s| && Net(s[start..k]) == 0
  {
  }

  /**
   * `extractToolCalls`. Fences that yield calls win; otherwise the object around the wrapper key, then the one around
   * the arguments key, in what the fences left; and only if none of them parses is the text given back as it came.
   */
  method ExtractToolCalls<C>(parseBlock: string -> Option<seq<C>>, parseWrapped: string -> Option<seq<C>>,
      strip: string -> string, text: string)
    returns (calls: seq<C>, rest: string, found: bool)
    ensures var fenced := Calls(parseBlock, Pass(text).Blocks());
      var left := if HasFence(text) then Trim(Pass(text).Outside()) else text;
      if fenced != [] then found && calls == fenced && rest == strip(left)
      else if !NothingAt(parseWrapped, left, WRAPPED_KEY) then
        found && exists around :: TakenFrom(parseWrapped, left, WRAPPED_KEY, calls, around) && rest == strip(around)
      else if !NothingAt(parseBlock, left, SINGLE_KEY) then
        found && exists around :: TakenFrom(parseBlock, left, SINGLE_KEY, calls, around) && rest == strip(around)
      else !found && calls == [] && rest == text
  {
    calls, rest := ExtractFenced(parseBlock, text);
    if calls != [] {
      return calls, strip(rest), true;
    }
    hide Pass, HasFence, Calls, Trim, Split.Blocks, Split.Outside;
    var wrapped, around := TryObject(parseWrapped, rest, WRAPPED_KEY);
    if wrapped.Some? {
      TakenIsSomething(parseWrapped, rest, WRAPPED_KEY, wrapped.value, around);
      return wrapped.value, strip(around), true;
    }
    var single;
    single, around := TryObject(parseBlock, rest, SINGLE_KEY);
    if single.Some? {
      TakenIsSomething(parseBlock, rest, SINGLE_KEY, single.value, around);
      return single.value, strip(around), true;
    }
    return [], text, false;
  }

  lemma TakenIsSomething<C>(parse: string -> Option<seq<C>>, s: string, key: string, calls: seq<C>, rest: string)
    requires TakenFrom(parse, s, key, calls, rest)
    ensures !NothingAt(parse, s, key)
  {
    var start: nat, end: nat :| IsCandidate(s, key, start, end) && parse(s[start..end]) == Some(calls)
      && rest == s[..start] + " " + s[end..];
  }

  /** What is taken from a candidate is determined: the two fallbacks have one answer each. */
  lemma TakenOnce<C>(parse: string -> Option<seq<C>>, s: string, key: string, calls: seq<C>, rest: string,
      calls': seq<C>, rest': string)
    requires TakenFrom(parse, s, key, calls, rest) && TakenFrom(parse, s, key, calls', rest')
    ensures calls == calls' && rest == rest'
  {
    var start: nat, end: nat :| IsCandidate(s, key, start, end) && parse(s[start..end]) == Some(calls)
      && rest == s[..start] + " " + s[end..];
    var start': nat, end': nat :| IsCandidate(s, key, start', end') && parse(s[start'..end']) == Some(calls')
      && rest' == s[..start'] + " " + s[end'..];
    CandidateUnique(s, key, start, end, start', end');
  }
}
