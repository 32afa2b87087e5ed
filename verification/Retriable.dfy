/** The HTTP client that retries and fails over (xhttp/retriable/retriable.go, request.go). What
    the transport answers to each attempt, and how much of the body it reads, is arbitrary. */
module Retriable {
  import opened Wrappers

  type Bytes = seq<nat>

  const MILLISECOND: int := 1_000_000
  const SECOND: int := 1000 * MILLISECOND

  datatype Context = Live | Cancelled | DeadlineExceeded

  /** A failed attempt: the state of its context, and whether the text of the error is one of those
      that are never retried. Or a response with a status. */
  datatype Outcome = Failed(context: Context, fatal: bool) | Response(status: int)

  /** A rule made by shouldRetryFactory. */
  datatype Rule = Rule(limit: int, wait: int)
  datatype Policy = Policy(rules: map<int, Rule>, total: int)

  datatype Reason = ByRule | IsCancelled | PastDeadline | NonRetriable | Success | NotFound | LimitExceeded
  datatype Verdict = Verdict(retry: bool, wait: int, reason: Reason)

  function Ask(rule: Rule, retries: nat): Verdict {
    Verdict(rule.limit >= retries, rule.wait, ByRule)
  }

  function ShouldRetry(p: Policy, o: Outcome, retries: nat): Verdict {
    match o
    case Failed(context, fatal) =>
      if context.Cancelled? then Verdict(false, 0, IsCancelled)
      else if context.DeadlineExceeded? then Verdict(false, 0, PastDeadline)
      else if fatal then Verdict(false, 0, NonRetriable)
      else if 0 in p.rules then Ask(p.rules[0], retries)
      else Verdict(false, 0, NonRetriable)
    case Response(status) =>
      if status < 400 then Verdict(false, 0, Success)
      else if status == 404 then Verdict(false, 0, NotFound)
      else if status != 429 && 400 <= status < 500 then Verdict(false, 0, NonRetriable)
      else if p.total <= retries then Verdict(false, 0, LimitExceeded)
      else if status in p.rules then Ask(p.rules[status], retries)
      else Verdict(false, 0, NonRetriable)
  }

  /** A failure is retried while its context lives, the error is not one of the fatal ones and the
      rule for connections allows it; a response only with status 429 or from 500 up, while its own
      rule allows it and the total is not reached. */
  lemma RetriesExactly(p: Policy, o: Outcome, retries: nat)
    ensures ShouldRetry(p, o, retries).retry <==>
            && Code(o) in p.rules && retries <= p.rules[Code(o)].limit
            && (o.Failed? ==> o.context.Live? && !o.fatal)
            && (o.Response? ==> (o.status == 429 || o.status >= 500) && retries < p.total)
    ensures ShouldRetry(p, o, retries).retry ==> ShouldRetry(p, o, retries).wait == p.rules[Code(o)].wait
  {}

  /** The reasons that are given: a limit is named for a response that would be retried but for the
      total. */
  lemma ReasonsExactly(p: Policy, o: Outcome, retries: nat)
    ensures var reason := ShouldRetry(p, o, retries).reason;
      && (reason == Success <==> o.Response? && o.status < 400)
      && (reason == NotFound <==> o == Response(404))
      && (reason == LimitExceeded <==> o.Response? && (o.status == 429 || o.status >= 500) && retries >= p.total)
      && (reason == IsCancelled <==> o.Failed? && o.context.Cancelled?)
      && (reason == PastDeadline <==> o.Failed? && o.context.DeadlineExceeded?)
  {}

  /** The key of the rule for an outcome. */
  function Code(o: Outcome): int {
    if o.Failed? then 0 else o.status
  }

  function Max(a: int, b: int): int {
    if a < b then b else a
  }

  function Min(a: int, b: int): int {
    if a < b then a else b
  }

  /** The limit for failed connections; -1 stands for no rule. */
  function ConnectionLimit(p: Policy): int {
    if 0 in p.rules then p.rules[0].limit else -1
  }

  /** No rule allows more than most retries. */
  predicate LimitedBy(p: Policy, most: int) {
    forall k | k in p.rules :: p.rules[k].limit <= most
  }

  /** The attempts that a policy allows at most. */
  function MostAttempts(p: Policy, most: int): nat {
    Max(1, Max(ConnectionLimit(p) + 2, Min(p.total, most + 1) + 1))
  }

  /** The loop of Do ends with attempt n (counted from 0). */
  predicate EndsAt(p: Policy, net: nat -> Outcome, n: nat) {
    && !ShouldRetry(p, net(n), n).retry
    && forall r: nat | r < n :: ShouldRetry(p, net(r), r).retry
  }

  /** The time slept before attempt n. */
  function Slept(p: Policy, net: nat -> Outcome, n: nat): int {
    if n == 0 then 0 else Slept(p, net, n - 1) + ShouldRetry(p, net(n - 1), n - 1).wait
  }

  lemma RetryBound(p: Policy, most: int, o: Outcome, retries: nat)
    requires LimitedBy(p, most) && ShouldRetry(p, o, retries).retry
    ensures retries + 2 <= MostAttempts(p, most)
  {}

  /** Whatever the outcomes, an end within the bound is there, and it is the only end. */
  lemma EndsWithin(p: Policy, most: int, net: nat -> Outcome) returns (n: nat)
    requires LimitedBy(p, most)
    ensures EndsAt(p, net, n) && n + 1 <= MostAttempts(p, most)
    ensures forall m: nat | EndsAt(p, net, m) :: m == n
  {
    hide MostAttempts, ShouldRetry;
    n := 0;
    AtLeastOne(p, most);
    while ShouldRetry(p, net(n), n).retry
      invariant n + 1 <= MostAttempts(p, most)
      invariant forall r: nat | r < n :: ShouldRetry(p, net(r), r).retry
      decreases MostAttempts(p, most) - n
    {
      RetryBound(p, most, net(n), n);
      n := n + 1;
    }
  }

  lemma AtLeastOne(p: Policy, most: int)
    ensures 1 <= MostAttempts(p, most)
  {}

  /** How often an outcome that never changes is retried. */
  function Retries(p: Policy, o: Outcome): nat {
    if Code(o) !in p.rules then 0
    else if o.Failed? then
      if o.context.Live? && !o.fatal then Max(0, p.rules[0].limit + 1) else 0
    else if o.status == 429 || o.status >= 500 then Max(0, Min(p.rules[o.status].limit + 1, p.total))
    else 0
  }

  /** Do with that outcome ends after exactly so many retries. */
  lemma ConstantOutcome(p: Policy, o: Outcome, n: nat)
    ensures EndsAt(p, _ => o, n) <==> n == Retries(p, o)
  {
    var net: nat -> Outcome := _ => o;
    assert forall r: nat :: net(r) == o;
    assert forall r: nat :: ShouldRetry(p, o, r).retry <==> r < Retries(p, o);
    var k := Retries(p, o);
    assert !ShouldRetry(p, net(k), k).retry;
  }

  // ----- The default policy -----

  const DEFAULT := Policy(
    map[0 := Rule(5, 2 * SECOND), 429 := Rule(3, SECOND),
        503 := Rule(10, SECOND / 2), 502 := Rule(10, SECOND / 2)], 10)

  /** The longest sleeps before attempt n. */
  function LongestSleep(n: nat): int {
    if n <= 6 then n * 2 * SECOND else 12 * SECOND + (n - 6) * (SECOND / 2)
  }

  lemma {:induction false} DefaultSleep(net: nat -> Outcome, n: nat)
    requires forall r: nat | r < n :: ShouldRetry(DEFAULT, net(r), r).retry
    ensures n <= 10 && Slept(DEFAULT, net, n) <= LongestSleep(n)
  {
    if n > 0 {
      DefaultSleep(net, n - 1);
      DefaultWait(net(n - 1), n - 1);
    }
  }

  lemma DefaultWait(o: Outcome, r: nat)
    requires ShouldRetry(DEFAULT, o, r).retry
    ensures r < 10 && ShouldRetry(DEFAULT, o, r).wait <= (if r <= 5 then 2 * SECOND else SECOND / 2)
  {}

  /** The default policy makes at most 11 attempts and sleeps at most 14 s. */
  lemma DefaultBound(net: nat -> Outcome, n: nat)
    requires EndsAt(DEFAULT, net, n)
    ensures n + 1 <= 11 && Slept(DEFAULT, net, n) <= 14 * SECOND
  {
    DefaultSleep(net, n);
  }

  function WorstCase(r: nat): Outcome {
    if r <= 5 then Failed(Live, false) else Response(503)
  }

  /** Both bounds are reached. */
  lemma DefaultWorstCase()
    ensures EndsAt(DEFAULT, WorstCase, 10) && Slept(DEFAULT, WorstCase, 10) == 14 * SECOND
  {
    var n := 0;
    while n < 10
      invariant n <= 10 && Slept(DEFAULT, WorstCase, n) == LongestSleep(n)
    {
      n := n + 1;
    }
  }

  /** How often, and after which pauses, the default policy retries what never changes: a failed
      connection 6 times after 2 s each, "too many requests" 4 times after 1 s, "bad gateway" and
      "unavailable" 10 times after half a second, and nothing else. */
  lemma DefaultRetries(o: Outcome, r: nat)
    ensures Retries(DEFAULT, o) ==
            if o == Failed(Live, false) then 6
            else if o == Response(429) then 4
            else if o == Response(502) || o == Response(503) then 10
            else 0
    ensures r < Retries(DEFAULT, o) ==>
      ShouldRetry(DEFAULT, o, r).wait
      == (if o.Failed? then 2_000_000_000 else if o.status == 429 then 1_000_000_000 else 500_000_000)
  {}

  // ----- Bodies -----

  /** A reader over fixed bytes. Some readers can be closed, as files can; then reading fails and
      seeking has no effect. */
  class Reader {
    const data: Bytes
    const closes: bool
    var pos: nat
    var closed: bool

    ghost predicate Valid()
      reads this
    {
      pos <= |data|
    }

    constructor (data: Bytes, closes: bool)
      ensures this.data == data && this.closes == closes && pos == 0 && !closed
    {
      this.data, this.closes, pos, closed := data, closes, 0, false;
    }

    ghost function Rest(): Bytes
      requires Valid()
      reads this
    {
      data[pos..]
    }

    method Rewind()
      modifies this
      ensures pos == (if closed then old(pos) else 0) && closed == old(closed)
    {
      if !closed {
        pos := 0;
      }
    }

    /** A read of at most n bytes. */
    method Read(n: nat) returns (b: Bytes)
      requires Valid() && !closed
      modifies this
      ensures Valid() && !closed && b + Rest() == old(Rest()) && |b| <= n
    {
      var end := if pos + n < |data| then pos + n else |data|;
      b := data[pos..end];
      pos := end;
    }

    method ReadAll() returns (b: Option<Bytes>)
      requires Valid()
      modifies this
      ensures Valid() && closed == old(closed)
      ensures b == if closed then None else Some(old(Rest()))
    {
      if closed {
        return None;
      }
      b := Some(data[pos..]);
      pos := |data|;
    }

    /** Close, where there is one. */
    method Close()
      modifies this
      ensures pos == old(pos) && closed == (old(closed) || closes)
    {
      closed := closed || closes;
    }

    function Len(): nat
      requires Valid()
      reads this
    {
      |data| - pos
    }
  }

  /** A wrapped request: the reader that is rewound before each attempt, and its Content-Length. */
  datatype Request = Request(body: Option<Reader>, contentLength: nat)

  /** Content-Length counts the unread bytes, although every attempt sends the whole of data: the
      two agree exactly for a reader at its start. */
  method NewRequest(raw: Option<Reader>) returns (req: Request)
    requires raw.Some? ==> raw.value.Valid()
    ensures req.body == raw
    ensures req.contentLength == if raw.Some? then |raw.value.Rest()| else 0
    ensures raw.Some? ==> (req.contentLength == |raw.value.data| <==> raw.value.pos == 0)
  {
    req := Request(raw, 0);
    if raw.Some? {
      req := Request(raw, raw.value.Len());
    }
  }

  /** The whole body is read into a reader of its own, and closed if it can be; a body that is
      closed already cannot be read. */
  method ConvertRequest(body: Option<Reader>) returns (req: Option<Request>)
    requires body.Some? ==> body.value.Valid()
    modifies if body.Some? then {body.value} else {}
    ensures body.Some? ==> body.value.Valid() && body.value.closed == (old(body.value.closed) || body.value.closes)
    ensures req.None? <==> body.Some? && old(body.value.closed)
    ensures body.None? ==> req == Some(Request(None, 0))
    ensures req.Some? && body.Some? ==> Copied(req.value, old(body.value.Rest())) && fresh(req.value.body.value)
  {
    if body.None? {
      var r := NewRequest(None);
      return Some(r);
    }
    var bytes := body.value.ReadAll();
    body.value.Close();
    if bytes.None? {
      return None;
    }
    var reader := new Reader(bytes.value, false);
    var r := NewRequest(Some(reader));
    req := Some(r);
  }

  /** The request sends b and says how long it is. */
  ghost predicate Copied(req: Request, b: Bytes)
    reads if req.body.Some? then {req.body.value} else {}
  {
    && req.body.Some? && req.body.value.data == b && req.contentLength == |b|
    && req.body.value.Valid() && !req.body.value.closed
  }

  /** What the transport does with attempt r: it answers net(r) after reading taken(r) bytes. */
  datatype Host = Host(valid: bool, net: nat -> Outcome, taken: nat -> nat)

  /** All attempts are offered b. */
  predicate Offers(attempts: seq<Bytes>, b: Bytes) {
    forall i | 0 <= i < |attempts| :: attempts[i] == b
  }

  /** Every attempt is offered the same bytes, from the first to the last, and Content-Length is
      their number; the loop ends with the first outcome that is not retried. A body that was
      closed before is an error, without an attempt. */
  method Do(p: Policy, host: Host, body: Option<Reader>)
    returns (outcome: Option<Outcome>, offered: seq<Bytes>, contentLength: nat, slept: int)
    requires body.Some? ==> body.value.Valid()
    modifies if body.Some? then {body.value} else {}
    ensures body.Some? ==> body.value.Valid() && body.value.closed == (old(body.value.closed) || body.value.closes)
    ensures outcome.None? <==> body.Some? && old(body.value.closed)
    ensures outcome.None? ==> offered == [] && slept == 0
    ensures outcome.Some? ==>
      && |offered| > 0 && EndsAt(p, host.net, |offered| - 1) && outcome.value == host.net(|offered| - 1)
      && slept == Slept(p, host.net, |offered| - 1)
    ensures forall most | LimitedBy(p, most) :: |offered| <= MostAttempts(p, most)
    ensures Offers(offered, if body.Some? then old(body.value.Rest()) else [])
    ensures outcome.Some? && body.Some? ==> contentLength == |old(body.value.Rest())|
  {
    hide EndsAt, LimitedBy, MostAttempts;
    var req := ConvertRequest(body);
    if req.None? {
      return None, [], 0, 0;
    }
    contentLength := req.value.contentLength;
    var o;
    o, offered, slept := Send(p, host, req.value, if body.Some? then old(body.value.Rest()) else []);
    outcome := Some(o);
  }

  /** The loop of Do. */
  method Send(p: Policy, host: Host, req: Request, ghost sent: Bytes)
    returns (outcome: Outcome, offered: seq<Bytes>, slept: int)
    requires if req.body.Some? then Copied(req, sent) else sent == []
    modifies if req.body.Some? then {req.body.value} else {}
    ensures |offered| > 0 && EndsAt(p, host.net, |offered| - 1) && outcome == host.net(|offered| - 1)
    ensures slept == Slept(p, host.net, |offered| - 1)
    ensures forall most | LimitedBy(p, most) :: |offered| <= MostAttempts(p, most)
    ensures Offers(offered, sent)
  {
    hide ShouldRetry, MostAttempts, LimitedBy;
    offered, slept := [], 0;
    var retries := 0;
    ghost var end := FirstEnd(p, host.net);
    while true
      invariant |offered| == retries <= end && slept == Slept(p, host.net, retries)
      invariant if req.body.Some? then Copied(req, sent) else sent == []
      invariant forall r: nat | r < retries :: ShouldRetry(p, host.net(r), r).retry
      invariant Offers(offered, sent)
      decreases end - retries
    {
      if req.body.Some? {
        req.body.value.Rewind();
        offered := offered + [req.body.value.data[req.body.value.pos..]];
        var _ := req.body.value.Read(host.taken(retries));
      } else {
        offered := offered + [[]];
      }
      outcome := host.net(retries);
      var verdict := ShouldRetry(p, outcome, retries);
      if !verdict.retry {
        break;
      }
      slept := slept + verdict.wait;
      retries := retries + 1;
    }
    forall most | LimitedBy(p, most) ensures |offered| <= MostAttempts(p, most) {
      var n := EndsWithin(p, most, host.net);
    }
  }

  lemma FirstEnd(p: Policy, net: nat -> Outcome) returns (n: nat)
    ensures EndsAt(p, net, n)
  {
    var most := Highest(p.rules.Keys, p);
    n := EndsWithin(p, most, net);
  }

  lemma {:induction false} Highest(keys: set<int>, p: Policy) returns (most: int)
    requires keys <= p.rules.Keys
    ensures forall k | k in keys :: p.rules[k].limit <= most
  {
    most := 0;
    if k :| k in keys {
      most := Highest(keys - {k}, p);
      most := Max(most, p.rules[k].limit);
    }
  }

  // ----- Failover -----

  /** What a host gives: no response, or a status. */
  datatype Answer = NoResponse | Answered(status: int)

  predicate TryDifferentHost(a: Answer) {
    a.NoResponse? || a.status == 500 || a.status == 503 || a.status == 504 || a.status == 429
  }

  function AnswerOf(o: Outcome): Answer {
    if o.Failed? then NoResponse else Answered(o.status)
  }

  /** The answer of a host is its last outcome; an invalid address or an unreadable body gives
      none. */
  ghost predicate Gives(p: Policy, host: Host, readable: bool, a: Answer) {
    if host.valid && readable then
      exists n: nat :: EndsAt(p, host.net, n)
                       && match host.net(n)
                          case Failed(_, _) => a == NoResponse
                          case Response(status) => a == Answered(status)
    else a == NoResponse
  }

  /** A body that closes can be read for the first valid host only. */
  predicate Readable(hosts: seq<Host>, i: nat, closes: bool, closed: bool)
    requires i <= |hosts|
  {
    !closed && (closes ==> forall j | 0 <= j < i :: !hosts[j].valid)
  }

  /** What host i is sent by each attempt: what is left in the body for the first host, all of it
      for the others, nothing when the body cannot be read. */
  ghost predicate Sent(host: Host, readable: bool, attempts: seq<Bytes>, b: Bytes) {
    Offers(attempts, b) && (attempts == [] <==> !host.valid || !readable)
  }

  /** What is known of a host that was tried. */
  ghost predicate Tried(p: Policy, hosts: seq<Host>, i: nat, body: Option<Reader>, closed: bool, rest: Bytes,
                        a: Answer, sent: seq<Bytes>)
    requires i < |hosts|
  {
    var readable := body.Some? ==> Readable(hosts, i, body.value.closes, closed);
    && Gives(p, hosts[i], readable, a)
    && Sent(hosts[i], readable, sent, if body.None? then [] else if i == 0 then rest else body.value.data)
  }

  /** The hosts are tried in order until one answers; then its answer is the result. When none
      does, the result is the response of the last host, if there is one, and every host is in the
      list of errors. Two hosts are sent the same bytes exactly when the caller's reader was at its
      start and cannot be closed. */
  method ExecuteRequest(p: Policy, hosts: seq<Host>, body: Option<Reader>)
    returns (response: Option<int>, errors: seq<nat>, answers: seq<Answer>, bodies: seq<seq<Bytes>>)
    requires body.Some? ==> body.value.Valid()
    modifies if body.Some? then {body.value} else {}
    ensures |bodies| == |answers| <= |hosts|
    ensures forall i | 0 <= i < |answers| ::
      Tried(p, hosts, i, body, body.Some? && old(body.value.closed), if body.Some? then old(body.value.Rest()) else [],
            answers[i], bodies[i])
    ensures forall i | 0 <= i < |answers| - 1 :: answers[i].NoResponse? || answers[i].status in {429, 500, 503, 504}
    ensures |answers| < |hosts| ==> answers != [] && answers[|answers| - 1].Answered?
                                    && answers[|answers| - 1].status !in {429, 500, 503, 504}
    ensures response == if answers != [] && answers[|answers| - 1].Answered?
                        then Some(answers[|answers| - 1].status) else None
    ensures errors == seq(|errors|, i => i)
    ensures |errors| == if answers != [] && !TryDifferentHost(answers[|answers| - 1])
                        then |answers| - 1 else |answers|
    ensures body.Some? && !old(body.value.closed) && |bodies| > 1 && hosts[0].valid && hosts[1].valid ==>
              bodies[0] != [] &&
              (bodies[1] != [] && bodies[1][0] == bodies[0][0] <==> old(body.value.pos) == 0 && !body.value.closes)
  {
    hide EndsAt, Gives, Sent, Readable, Tried;
    response, errors, answers, bodies := None, [], [], [];
    ghost var rest := if body.Some? then body.value.Rest() else [];
    ghost var closed := body.Some? && body.value.closed;
    assert body.Some? ==> |rest| == |body.value.data| - body.value.pos;
    if body.Some? {
      ReadableFirst(hosts, body.value.closes, closed);
    }
    var i := 0;
    while i < |hosts|
      invariant i <= |hosts| && |answers| == |bodies| == i
      invariant body.Some? ==>
        && body.value.Valid() && (i == 0 ==> body.value.Rest() == rest)
        && (i > 0 && !body.value.closed ==> body.value.pos == 0)
        && body.value.closed == !Readable(hosts, i, body.value.closes, closed)
      invariant forall k | 0 <= k < i :: TryDifferentHost(answers[k]) && Tried(p, hosts, k, body, closed, rest, answers[k], bodies[k])
      invariant errors == seq(i, k => k)
      invariant response == if i > 0 && i == |hosts| && answers[i - 1].Answered?
                            then Some(answers[i - 1].status) else None
    {
      var answer, sent := TryHost(p, hosts, i, body, closed, rest);
      answers, bodies := answers + [answer], bodies + [sent];
      response := if answer.Answered? then Some(answer.status) else None;
      if !TryDifferentHost(answer) {
        break;
      }
      errors := errors + [i];
      if i < |hosts| - 1 {
        response := None;
      }
      if body.Some? {
        body.value.Rewind();
      }
      i := i + 1;
    }
    if body.Some? && !closed && |bodies| > 1 && hosts[0].valid && hosts[1].valid {
      TwoHosts(p, hosts, body.value, rest, answers, bodies);
    }
  }

  /** One turn of the loop of executeRequest. */
  method TryHost(p: Policy, hosts: seq<Host>, i: nat, body: Option<Reader>, ghost closed: bool, ghost rest: Bytes)
    returns (answer: Answer, sent: seq<Bytes>)
    requires i < |hosts|
    requires body.Some? ==>
      && body.value.Valid() && (i == 0 ==> body.value.Rest() == rest)
      && (i > 0 && !body.value.closed ==> body.value.pos == 0)
      && body.value.closed == !Readable(hosts, i, body.value.closes, closed)
    modifies if body.Some? then {body.value} else {}
    ensures body.Some? ==>
      && body.value.Valid() && body.value.closed == !Readable(hosts, i + 1, body.value.closes, closed)
    ensures Tried(p, hosts, i, body, closed, rest, answer, sent)
  {
    hide EndsAt;
    answer, sent := NoResponse, [];
    if hosts[i].valid {
      var outcome, length, slept;
      outcome, sent, length, slept := Do(p, hosts[i], body);
      if outcome.Some? {
        answer := AnswerOf(outcome.value);
      }
    }
  }

  lemma ReadableFirst(hosts: seq<Host>, closes: bool, closed: bool)
    ensures Readable(hosts, 0, closes, closed) == !closed
  {}

  lemma TwoHosts(p: Policy, hosts: seq<Host>, body: Reader, rest: Bytes, answers: seq<Answer>, bodies: seq<seq<Bytes>>)
    requires |hosts| > 1 && hosts[0].valid && hosts[1].valid && |answers| == |bodies| > 1
    requires Tried(p, hosts, 0, Some(body), false, rest, answers[0], bodies[0])
    requires Tried(p, hosts, 1, Some(body), false, rest, answers[1], bodies[1])
    ensures bodies[0] != [] &&
            (bodies[1] != [] && bodies[1][0] == bodies[0][0] <==> rest == body.data && !body.closes)
  {}
}
