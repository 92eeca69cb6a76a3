/** The retry loop around an upstream request. */
module HttpRetry {
  import opened Common

  /** What one request can end in. `Crash` is an exception outside Python's `Exception`, such as the
      cancellation of the coroutine; `OtherException` is any other one the client does not name. */
  datatype Outcome =
    | Response(status: nat, json: Option<string>)
    | ConnectError | ReadTimeout | OtherException | Crash

  datatype Answer =
    | Json(body: string)
    | UpstreamStatus(status: nat) | UpstreamConnection | UpstreamUnexpected
    | Propagated

  /** `raise_for_status` raises for everything but 2xx. */
  predicate IsSuccessStatus(status: nat) { 200 <= status < 300 }

  function UpperChar(c: char): char {
    if 'a' <= c <= 'z' then (c as int - 32) as char else c
  }

  function Upper(s: string): string {
    seq(|s|, k requires 0 <= k < |s| => UpperChar(s[k]))
  }

  /** `should_retry`, for the exception a request ended in. */
  predicate ShouldRetry(verb: string, optIn: bool, outcome: Outcome) {
    && (match outcome
        case ConnectError => true
        case ReadTimeout => true
        case Response(status, _) => !IsSuccessStatus(status) && status >= 500
        case _ => false)
    && !(verb in ["POST", "PATCH"] && !optIn)
  }

  /** How the last attempt's end is reported. */
  function Reported(outcome: Outcome): Answer {
    match outcome
    case Response(status, json) =>
      if !IsSuccessStatus(status) then UpstreamStatus(status)
      else if json.Some? then Json(json.value) else UpstreamUnexpected
    case ConnectError => UpstreamConnection
    case ReadTimeout => UpstreamConnection
    case OtherException => UpstreamUnexpected
    case Crash => Propagated
  }

  function Cap(maxAttempts: int): nat { if maxAttempts < 1 then 1 else maxAttempts }

  /** An upstream that will end its requests, in turn, in `script(0)`, `script(1)`, and so on. */
  class Upstream {
    const script: nat -> Outcome
    var sent: seq<string>

    constructor (script: nat -> Outcome)
      ensures this.script == script && sent == []
    {
      this.script := script;
      sent := [];
    }

    method Request(verb: string) returns (outcome: Outcome)
      modifies this`sent
      ensures sent == old(sent) + [verb] && outcome == script(|old(sent)|)
    {
      outcome := script(|sent|);
      sent := sent + [verb];
    }
  }

  /** Attempt until an attempt succeeds, is not worth retrying, or was the last one allowed. */
  method RequestJson(client: Upstream, verb: string, optIn: bool, maxAttempts: int) returns (answer: Answer)
    modifies client`sent
    ensures var first := |old(client.sent)|;
            var n := |client.sent| - first;
            && 1 <= n <= Cap(maxAttempts)
            && client.sent == old(client.sent) + seq(n, _ => Upper(verb))
            && (forall k: nat | first <= k < first + n - 1 :: ShouldRetry(Upper(verb), optIn, client.script(k)))
            && (n < Cap(maxAttempts) ==> !ShouldRetry(Upper(verb), optIn, client.script(first + n - 1)))
            && n == RequestsSent(client.script, Upper(verb), optIn, Cap(maxAttempts), first)
            && answer == Reported(client.script(first + n - 1))
            && answer == AnswerTo(client.script, Upper(verb), optIn, Cap(maxAttempts), first)
            && (answer.Propagated? <==> client.script(first + n - 1).Crash?)
            && (forall body :: answer == Json(body) <==> Delivers(client.script(first + n - 1), body))
    ensures var first := |old(client.sent)|;
            var n := |client.sent| - first;
            && (n == 1 || n <= maxAttempts)
            && (forall k: nat | first <= k < first + n - 1 :: Transient(client.script(k)))
            && (n > 1 ==> Repeatable(Upper(verb), optIn))
            && (n < maxAttempts ==> !(Transient(client.script(first + n - 1)) && Repeatable(Upper(verb), optIn)))
  {
    var upper := Upper(verb);
    var outcome := client.Request(upper);
    var attempt := 1;
    while ShouldRetry(upper, optIn, outcome) && attempt < maxAttempts
      invariant 1 <= attempt <= Cap(maxAttempts)
      invariant client.sent == old(client.sent) + seq(attempt, _ => upper)
      invariant outcome == client.script(|old(client.sent)| + attempt - 1)
      invariant forall k: nat | |old(client.sent)| <= k < |old(client.sent)| + attempt - 1 ::
        ShouldRetry(upper, optIn, client.script(k))
      decreases maxAttempts - attempt
    {
      outcome := client.Request(upper);
      attempt := attempt + 1;
    }
    CountIsDetermined(client.script, upper, optIn, Cap(maxAttempts), |old(client.sent)|, attempt);
    forall k: nat ensures ShouldRetry(upper, optIn, client.script(k))
                          <==> Transient(client.script(k)) && Repeatable(upper, optIn) {
      RetryRule(upper, optIn, client.script(k));
    }
    answer := Reported(outcome);
  }

  // ---------------------------------------------------------------- what is worth retrying

  /** The ends that a later attempt may mend: no connection, no answer in time, a server error. */
  ghost predicate Transient(outcome: Outcome) {
    outcome == ConnectError || outcome == ReadTimeout || (outcome.Response? && outcome.status >= 500)
  }

  /** A verb that may be sent again: only POST and PATCH need the caller's word. */
  ghost predicate Repeatable(verb: string, optIn: bool) {
    optIn || (verb != "POST" && verb != "PATCH")
  }

  /** The outcome is a 2xx answer with this JSON body. */
  ghost predicate Delivers(outcome: Outcome, body: string) {
    outcome.Response? && 200 <= outcome.status <= 299 && outcome.json == Some(body)
  }

  lemma RetryRule(verb: string, optIn: bool, outcome: Outcome)
    ensures ShouldRetry(verb, optIn, outcome) <==> Transient(outcome) && Repeatable(verb, optIn)
  {
  }

  /** More than `n` requests are sent exactly if the cap allows it, the verb may be repeated, and the
      first `n` outcomes are all transient. */
  lemma {:induction false} SentMoreThanIff(script: nat -> Outcome, verb: string, optIn: bool, cap: nat, from: nat,
      n: nat)
    requires cap >= 1 && n >= 1
    ensures RequestsSent(script, verb, optIn, cap, from) > n
            <==> n < cap && Repeatable(verb, optIn) && forall k: nat | from <= k < from + n :: Transient(script(k))
    decreases n
  {
    RetryRule(verb, optIn, script(from));
    if n > 1 && cap > 1 && ShouldRetry(verb, optIn, script(from)) {
      SentMoreThanIff(script, verb, optIn, cap - 1, from + 1, n - 1);
    }
  }

  // ---------------------------------------------------------------- letter case

  const LOWER := "abcdefghijklmnopqrstuvwxyz"
  const UPPER := "ABCDEFGHIJKLMNOPQRSTUVWXYZ"

  /** Each of the 26 small letters becomes its capital, and every other character stays. */
  lemma UpperLetters(s: string, k: nat)
    requires k < |s|
    ensures |Upper(s)| == |s|
    ensures forall i | 0 <= i < 26 && s[k] == LOWER[i] :: Upper(s)[k] == UPPER[i]
    ensures s[k] !in LOWER ==> Upper(s)[k] == s[k]
  {
    LettersAt(s[k]);
  }

  lemma LettersAt(c: char)
    ensures forall i | 0 <= i < 26 :: LOWER[i] as int == 97 + i && UPPER[i] as int == 65 + i
    ensures c in LOWER <==> 97 <= c as int <= 122
  {
    if 97 <= c as int <= 122 { assert LOWER[c as int - 97] == c; }
  }

  // ---------------------------------------------------------------- how many requests

  /** The number of requests, defined on the outcomes alone. */
  function RequestsSent(script: nat -> Outcome, verb: string, optIn: bool, cap: nat, from: nat): nat
    requires cap >= 1
    decreases cap
  {
    if cap == 1 || !ShouldRetry(verb, optIn, script(from)) then 1
    else 1 + RequestsSent(script, verb, optIn, cap - 1, from + 1)
  }

  /** The promise of `RequestJson` determines the number of requests. */
  lemma {:induction false} CountIsDetermined(script: nat -> Outcome, verb: string, optIn: bool, cap: nat,
      from: nat, n: nat)
    requires 1 <= n <= cap
    requires forall k: nat | from <= k < from + n - 1 :: ShouldRetry(verb, optIn, script(k))
    requires n < cap ==> !ShouldRetry(verb, optIn, script(from + n - 1))
    ensures n == RequestsSent(script, verb, optIn, cap, from)
    decreases cap
  {
    if n > 1 {
      CountIsDetermined(script, verb, optIn, cap - 1, from + 1, n - 1);
    }
  }

  /** It is the smaller of the allowed attempts and one more than the index of the first outcome that is
      not transient or whose verb may not be repeated, and all attempts if there is no such outcome; a
      limit below one counts as one. */
  lemma RequestCount(script: nat -> Outcome, verb: string, optIn: bool, maxAttempts: int, from: nat,
      first: Option<nat>)
    requires first.Some? ==> !(Transient(script(from + first.value)) && Repeatable(verb, optIn))
    requires forall k: nat | from <= k && (first.Some? ==> k < from + first.value) ::
               Transient(script(k)) && Repeatable(verb, optIn)
    ensures RequestsSent(script, verb, optIn, Cap(maxAttempts), from)
         == if maxAttempts <= 1 then 1
            else if first.None? || maxAttempts <= first.value + 1 then maxAttempts else first.value + 1
  {
    var cap := if maxAttempts <= 1 then 1 else maxAttempts;
    var n := if first.None? || cap <= first.value + 1 then cap else first.value + 1;
    if n > 1 { SentMoreThanIff(script, verb, optIn, Cap(maxAttempts), from, n - 1); }
    SentMoreThanIff(script, verb, optIn, Cap(maxAttempts), from, n);
    LastIsReached(script, verb, optIn, Cap(maxAttempts), from);
  }

  /** `verb` is `name`, letter by letter a capital or the small letter of `small`. */
  ghost predicate Spells(verb: string, name: string, small: string) {
    |verb| == |name| == |small| && forall k | 0 <= k < |verb| :: verb[k] == name[k] || verb[k] == small[k]
  }

  /** POST and PATCH, in any letter case, are sent in capitals, and exactly once without opt-in. */
  lemma UnsafeVerbsSentOnce(script: nat -> Outcome, verb: string, maxAttempts: int, from: nat)
    requires Spells(verb, "POST", "post") || Spells(verb, "PATCH", "patch")
    ensures Upper(verb) == if |verb| == 4 then "POST" else "PATCH"
    ensures RequestsSent(script, Upper(verb), false, Cap(maxAttempts), from) == 1
  {
    assert forall k | 0 <= k < |verb| :: Upper(verb)[k] == (if |verb| == 4 then "POST" else "PATCH")[k];
  }

  predicate IsJson(outcome: Outcome) {
    outcome.Response? && 200 <= outcome.status <= 299 && outcome.json.Some?
  }

  /** The answer to a whole call: what is reported of its last request. */
  function AnswerTo(script: nat -> Outcome, verb: string, optIn: bool, cap: nat, from: nat): Answer
    requires cap >= 1
  {
    Reported(script(from + RequestsSent(script, verb, optIn, cap, from) - 1))
  }

  /** Outcome `k` is reached: it is within the cap, and everything before it was worth retrying. */
  ghost predicate Reaches(script: nat -> Outcome, verb: string, optIn: bool, cap: nat, from: nat, k: nat) {
    from <= k < from + cap && forall m: nat | from <= m < k :: ShouldRetry(verb, optIn, script(m))
  }

  lemma {:induction false} LastIsReached(script: nat -> Outcome, verb: string, optIn: bool, cap: nat, from: nat)
    requires cap >= 1
    ensures var n := RequestsSent(script, verb, optIn, cap, from);
            && 1 <= n <= cap && Reaches(script, verb, optIn, cap, from, from + n - 1)
            && (n < cap ==> !ShouldRetry(verb, optIn, script(from + n - 1)))
    decreases cap
  {
    if cap > 1 && ShouldRetry(verb, optIn, script(from)) {
      LastIsReached(script, verb, optIn, cap - 1, from + 1);
    }
  }

  /** Outcome `k` ends the call: it is reached, and it is final or the last that the cap allows. */
  ghost predicate Ends(script: nat -> Outcome, verb: string, optIn: bool, cap: nat, from: nat, k: nat) {
    Reaches(script, verb, optIn, cap, from, k) && (k + 1 == from + cap || !ShouldRetry(verb, optIn, script(k)))
  }

  lemma EndsOnce(script: nat -> Outcome, verb: string, optIn: bool, cap: nat, from: nat, j: nat, k: nat)
    requires Ends(script, verb, optIn, cap, from, j) && Ends(script, verb, optIn, cap, from, k)
    ensures j == k
  {
  }

  /** What a caller gets, by the outcomes alone: JSON exactly when a JSON success is reached, something
      outside Python's `Exception` exactly when such an end is reached, and otherwise the upstream error
      that belongs to the one outcome that ends the call. */
  lemma ReportsAreUpstreamErrors(script: nat -> Outcome, verb: string, optIn: bool, cap: nat, from: nat)
    requires cap >= 1
    ensures var answer := AnswerTo(script, verb, optIn, cap, from);
            && (answer.Json? <==> exists k: nat :: Reaches(script, verb, optIn, cap, from, k) && IsJson(script(k)))
            && (answer.Propagated? <==> exists k: nat :: Reaches(script, verb, optIn, cap, from, k) && script(k).Crash?)
    ensures exists k: nat :: Ends(script, verb, optIn, cap, from, k)
    ensures forall k: nat | Ends(script, verb, optIn, cap, from, k) ::
              var answer, last := AnswerTo(script, verb, optIn, cap, from), script(k);
              && (forall body :: answer == Json(body) <==> Delivers(last, body))
              && (forall n ::
                    answer == UpstreamStatus(n) <==> last.Response? && last.status == n && !(200 <= n <= 299))
              && (answer == UpstreamConnection <==> last == ConnectError || last == ReadTimeout)
              && (answer == UpstreamUnexpected <==>
                  last == OtherException || (last.Response? && 200 <= last.status <= 299 && last.json.None?))
  {
    var last := from + RequestsSent(script, verb, optIn, cap, from) - 1;
    LastIsReached(script, verb, optIn, cap, from);
    assert Ends(script, verb, optIn, cap, from, last);
    forall k: nat | Ends(script, verb, optIn, cap, from, k) ensures k == last {
      EndsOnce(script, verb, optIn, cap, from, k, last);
    }
    forall k: nat | Reaches(script, verb, optIn, cap, from, k) && (IsJson(script(k)) || script(k).Crash?)
      ensures k == last
    {
      assert Ends(script, verb, optIn, cap, from, k);
    }
  }
}
