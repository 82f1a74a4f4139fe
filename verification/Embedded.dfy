/** An error embedded in an HTTP 200 stream, from the read-ahead that finds it to what it does to the pool. */
module Embedded {
  import opened Text
  import opened Json
  import opened SseReader
  import opened Pool
  import opened Chat

  /** `isConcurrentLimitError`. */
  predicate SaysSessions(message: string) {
    var low := Lower(message);
    Contains(low, "tm.00001041") || Contains(low, CONCURRENT_SESSIONS)
  }

  predicate SaysThrottled(message: string) {
    var low := Lower(message);
    Contains(low, "inferhub.modelarts.81111.429") || Contains(low, "tpm limit")
  }

  /** The rejection as the request handler sees it: code and HTTP status are the same number. */
  function FailureOf(r: Rejection): Failure {
    match r
    case Transport => OtherError
    case Embedded(status, message) =>
      ApiError(status, status, SaysUnavailable(message), SaysSessions(message), SaysThrottled(message))
  }

  /** Does `p` occur in `s`, whatever its case, and end within the first `n` bytes? */
  predicate Within(s: string, n: nat, p: string) {
    exists i | 0 <= i <= |s| :: i + |p| <= n && At(Lower(s), p, i)
  }

  /** A phrase for an unusable model ends within the first `n` bytes. */
  predicate UnavailableWithin(s: string, n: nat) {
    Within(s, n, "002002009") || Within(s, n, "not registered") || Within(s, n, "4004.200")
    || Within(s, n, "benefit not found")
  }

  lemma ContainsInCut(s: string, n: nat, p: string)
    ensures Contains(Lower(Cut(s, n)), p) <==> Within(s, n, p)
    ensures Within(s, n, p) ==> Contains(Lower(s), p)
  {
    var cut := Cut(s, n);
    assert forall j | 0 <= j < |cut| :: Lower(s)[j] == Lower(cut)[j];
    if Contains(Lower(cut), p) {
      var i :| 0 <= i <= |cut| && At(Lower(cut), p, i);
      assert Lower(s)[i..i + |p|] == Lower(cut)[i..i + |p|];
      assert At(Lower(s), p, i);
    }
    if Within(s, n, p) {
      var i :| 0 <= i <= |s| && i + |p| <= n && At(Lower(s), p, i);
      assert Lower(s)[i..i + |p|] == Lower(cut)[i..i + |p|];
      assert At(Lower(cut), p, i);
    }
  }

  lemma ContainsPart(s: string, p: string, q: string, k: nat)
    requires Contains(s, p) && k + |q| <= |p| && p[k..k + |q|] == q
    ensures Contains(s, q)
  {
    var i :| 0 <= i <= |s| && At(s, p, i);
    forall j | 0 <= j < |q| ensures s[i + k + j] == q[j] {
      assert s[i..i + |p|][k + j] == p[k + j] == p[k..k + |q|][j];
    }
    assert s[i + k..i + k + |q|] == q;
    assert At(s, q, i + k);
  }

  /** What is left of a message that is cut says of the model what its first part says. */
  lemma UnavailableInCut(s: string, n: nat)
    ensures SaysUnavailable(Cut(s, n)) <==> UnavailableWithin(s, n)
    ensures UnavailableWithin(s, n) ==> SaysUnavailable(s)
  {
    hide Contains, Lower, Cut, Within;
    ContainsInCut(s, n, "002002009");
    ContainsInCut(s, n, "not registered");
    ContainsInCut(s, n, "4004.200");
    ContainsInCut(s, n, "benefit not found");
  }

  /** Cutting can only lose phrases, and a throttling phrase contains one of those of a 429. */
  lemma BusyInCut(s: string, n: nat)
    ensures SaysSessions(Cut(s, n)) || SaysThrottled(Cut(s, n)) ==> SaysBusy(s)
  {
    hide Contains, Lower, Cut, Within;
    ContainsInCut(s, n, "tm.00001041");
    ContainsInCut(s, n, CONCURRENT_SESSIONS);
    ContainsInCut(s, n, "inferhub.modelarts.81111.429");
    ContainsInCut(s, n, "tpm limit");
    if Contains(Lower(s), "inferhub.modelarts.81111.429") {
      assert "inferhub.modelarts.81111.429"[25..28] == "429";
      ContainsPart(Lower(s), "inferhub.modelarts.81111.429", "429", 25);
    }
    if Contains(Lower(s), "tpm limit") {
      assert "tpm limit"[0..3] == "tpm";
      ContainsPart(Lower(s), "tpm limit", "tpm", 0);
    }
  }

  /** The text mentions throttling or sessions. */
  predicate MentionsBusy(s: string) {
    var n := |s|;
    Within(s, n, "429") || Within(s, n, "tm.00001041") || Within(s, n, "tpm") || Within(s, n, CONCURRENT_SESSIONS)
  }

  lemma WholeSays(s: string)
    ensures (SaysBusy(s) <==> MentionsBusy(s)) && (SaysUnavailable(s) <==> UnavailableWithin(s, |s|))
  {
    hide Contains, Lower, Within;
    ContainsInCut(s, |s|, "429");
    ContainsInCut(s, |s|, "tm.00001041");
    ContainsInCut(s, |s|, "tpm");
    ContainsInCut(s, |s|, CONCURRENT_SESSIONS);
    UnavailableInCut(s, |s|);
  }

  /** The field holds this text; one that is missing or no text counts as empty. */
  predicate Holds(o: Object, k: string, s: string) {
    if k in o && o[k].Str? then s == o[k].s else s == ""
  }

  /**
   * Data is an error exactly if it is an object that decodes without an error and whose `error_code` is a text other
   * than "" and "0". The status is 429 if code or message speak of throttling or sessions, else 400 if they speak of an
   * unusable model, else 502, and the first 300 bytes of both are passed on.
   */
  lemma EmbeddedExactly(c: Codec, data: string, code: string, message: string)
    requires var o := c.decode(data).fields; Holds(o, "error_code", code) && Holds(o, "error_msg", message)
    ensures EmbeddedError(c, data).Some? <==>
      data != "" && data != "[DONE]" && c.decode(data).whole && code != "" && code != "0"
    ensures EmbeddedError(c, data).Some? ==>
      var r, text := EmbeddedError(c, data).value, Trim(code + " " + message);
      && text == ErrorText(c, data) && r.Embedded? && r.message <= text
      && |r.message| == (if |text| <= 300 then |text| else 300)
      && (r.status == 429 <==> MentionsBusy(text))
      && (r.status == 400 <==> !MentionsBusy(text) && UnavailableWithin(text, |text|))
      && (r.status == 502 <==> !MentionsBusy(text) && !UnavailableWithin(text, |text|))
  {
    var text := ErrorText(c, data);
    WholeSays(text);
    hide Trim, SaysBusy, SaysUnavailable, MentionsBusy, UnavailableWithin;
  }

  /** What the message passed on says, against the status that the whole text got. */
  lemma StatusSays(c: Codec, data: string)
    requires EmbeddedError(c, data).Some?
    ensures var r := EmbeddedError(c, data).value;
      && r.Embedded? && r.status in {429, 400, 502}
      && (SaysUnavailable(r.message) <==> UnavailableWithin(ErrorText(c, data), MESSAGE_LIMIT))
      && (SaysUnavailable(r.message) ==> r.status != 502)
      && (SaysSessions(r.message) || SaysThrottled(r.message) ==> r.status == 429)
  {
    var text := ErrorText(c, data);
    UnavailableInCut(text, MESSAGE_LIMIT);
    BusyInCut(text, MESSAGE_LIMIT);
    hide Contains, Lower, Trim, UnavailableWithin, SaysSessions, SaysThrottled;
  }

  /**
   * An error embedded in the stream never disables an account and never earns a token refresh. It is waited out on the
   * same account exactly if its text speaks of throttling or sessions, and it ends the rotation exactly if a phrase for
   * an unusable model ends within the first 300 bytes of the text. What it does to the pool in the end is an error note
   * if the text says neither anywhere, a cool-down if it speaks of throttling and not of the model so early, and
   * nothing otherwise.
   */
  lemma EmbeddedErrorHandled(cfg: Config, c: Codec, data: string, name: string)
    requires EmbeddedError(c, data).Some?
    ensures var f := FailureOf(EmbeddedError(c, data).value); var text := ErrorText(c, data);
      && !IsUnauthorized(f) && (f.ApiError? ==> f.code == f.status)
      && (IsQueueLimit(f) <==> SaysBusy(text))
      && (IsFinal(f) <==> UnavailableWithin(text, MESSAGE_LIMIT))
      && Blame(cfg, name, f) == (if UnavailableWithin(text, MESSAGE_LIMIT) then Nothing
                                 else if SaysBusy(text) then CoolDown(name, cfg.softCooldown)
                                 else if SaysUnavailable(text) then Nothing
                                 else NoteError(name))
  {
    StatusSays(c, data);
    hide ErrorText, SaysUnavailable, SaysSessions, SaysThrottled, SaysBusy, UnavailableWithin, Cut;
  }

  // ----- a phrase behind the cut -----

  lemma NotWithout(s: string, p: string, c: char, n: nat)
    requires c in p && forall i | 0 <= i < |s| && i < n :: LowerChar(s[i]) != c
    ensures !Within(s, n, p) && (n >= |s| ==> !Contains(Lower(s), p))
  {
    var k :| 0 <= k < |p| && p[k] == c;
    forall i | 0 <= i <= |s| && At(Lower(s), p, i) ensures i + |p| > n {
      assert Lower(s)[i..i + |p|][k] == Lower(s)[i + k];
    }
  }

  /** Some text that says nothing, then that the model is not registered. */
  function LateText(n: nat): string {
    seq(n, _ => 'a') + "not registered"
  }

  lemma LateTextShape(n: nat)
    ensures var text := "x " + LateText(n);
      && Trim(text) == text && text[n + 2..] == "not registered" && |text| == n + 16
      && (forall i | 0 <= i < n + 2 :: text[i] in {'x', ' ', 'a'})
  {
    var text := "x " + LateText(n);
    assert "not registered"[13] == 'd' && text[n + 15] == "not registered"[13];
    assert text[0] == 'x' && TrimLeft(text) == text && TrimRight(text) == text;
    assert text[..n + 2] == "x " + seq(n, _ => 'a');
    assert forall i | 0 <= i < n + 2 :: text[i] == text[..n + 2][i];
  }

  lemma LateTextLetters(n: nat, i: nat)
    requires i < n + 16
    ensures var text := "x " + LateText(n); |text| == n + 16 && LowerChar(text[i]) !in {'4', '0', 'p', '\U{E5}'}
  {
    var text, tail := "x " + LateText(n), "not registered";
    LateTextShape(n);
    hide LateText;
    if i >= n + 2 {
      assert text[i] == text[n + 2..][i - n - 2] == tail[i - n - 2];
    }
  }

  lemma LateTextIsNotBusy(n: nat)
    ensures !SaysBusy("x " + LateText(n))
  {
    var text := "x " + LateText(n);
    hide LateText, Lower, Contains, Within, LowerChar;
    forall i | 0 <= i < n + 16 ensures |text| == n + 16 && LowerChar(text[i]) !in {'4', '0', 'p', '\U{E5}'} {
      LateTextLetters(n, i);
    }
    LateTextLetters(n, 0);
    assert "429"[0] == '4' && "tm.00001041"[3] == '0' && "tpm"[1] == 'p' && CONCURRENT_SESSIONS[0] == '\U{E5}';
    NotWithout(text, "429", '4', |text|);
    NotWithout(text, "tm.00001041", '0', |text|);
    NotWithout(text, "tpm", 'p', |text|);
    NotWithout(text, CONCURRENT_SESSIONS, '\U{E5}', |text|);
  }

  lemma LateTextIsLate(n: nat)
    requires n >= MESSAGE_LIMIT
    ensures !UnavailableWithin("x " + LateText(n), MESSAGE_LIMIT)
  {
    var text := "x " + LateText(n);
    LateTextShape(n);
    hide LateText, Lower, Contains, Within;
    assert forall i | 0 <= i < |text| && i < MESSAGE_LIMIT :: LowerChar(text[i]) in {'x', ' ', 'a'};
    hide LowerChar;
    assert "002002009"[0] == '0' && "not registered"[0] == 'n' && "4004.200"[0] == '4' && "benefit not found"[0] == 'b';
    NotWithout(text, "002002009", '0', MESSAGE_LIMIT);
    NotWithout(text, "not registered", 'n', MESSAGE_LIMIT);
    NotWithout(text, "4004.200", '4', MESSAGE_LIMIT);
    NotWithout(text, "benefit not found", 'b', MESSAGE_LIMIT);
  }

  lemma LateTextNamesTheModel(n: nat)
    ensures SaysUnavailable("x " + LateText(n))
  {
    var text, tail := "x " + LateText(n), "not registered";
    LateTextShape(n);
    hide LateText;
    forall k | 0 <= k < 14 ensures Lower(text)[n + 2..n + 16][k] == tail[k] {
      assert text[n + 2..][k] == tail[k] && ('a' <= tail[k] <= 't' || tail[k] == ' ');
    }
    assert At(Lower(text), tail, n + 2);
  }

  /** An error that names the model only behind the first 300 bytes is a 400 that does not end the rotation. */
  lemma LatePhraseRotates(cfg: Config, c: Codec, data: string, name: string, n: nat)
    requires n >= MESSAGE_LIMIT && data != "" && data != "[DONE]"
    requires c.decode(data) == Decoded(map["error_code" := Str("x"), "error_msg" := Str(LateText(n))], true)
    ensures EmbeddedError(c, data).Some?
    ensures var r := EmbeddedError(c, data).value; var f := FailureOf(r);
      r.Embedded? && r.status == 400 && !IsFinal(f) && !IsQueueLimit(f) && Blame(cfg, name, f) == Nothing
  {
    LateTextShape(n);
    LateTextIsNotBusy(n);
    LateTextIsLate(n);
    LateTextNamesTheModel(n);
    assert ErrorText(c, data) == "x " + LateText(n) by {
      hide LateText;
      assert "x" + " " + LateText(n) == "x " + LateText(n);
    }
    hide LateText, SaysBusy, SaysUnavailable, UnavailableWithin, Trim;
    EmbeddedErrorHandled(cfg, c, data, name);
  }
}
