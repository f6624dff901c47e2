/** One request through ReverseProxyHandler: the middleware chain, the backend attempt, what is
    recorded and what the client gets. */
module RequestHandler {
  import opened Options
  import opened Headers
  import opened MovingAverage
  import opened RequestTrace

  datatype Response = Response(status: int, body: string, fields: seq<Header>)

  /** How a middleware call ends, and the response as it leaves it. */
  datatype Ending = Ok | Err(message: string) | Panic(message: string)
  datatype Call = Call(ending: Ending, res: Response)

  /** How the backend attempt ends: `error` is fasthttp's, and `timeout` says whether it is
      ErrTimeout. */
  datatype Attempt = Attempt(error: Option<string>, timeout: bool, res: Response)

  /** What the environment does to this request, should it get that far. */
  datatype Script = Script(onRequest: seq<Call>, attempt: Attempt, onResponse: seq<Call>)

  /** runProtected: a panic becomes an error. */
  function RunProtected(ending: Ending): Option<string> {
    match ending
    case Ok => None
    case Err(message) => Some(message)
    case Panic(message) => Some("middleware panic: " + message)
  }

  /** The first call of the chain that does not end well, or the length of the chain. */
  function FirstFailure(calls: seq<Call>): (k: nat)
    ensures k <= |calls| && (forall i :: 0 <= i < k ==> calls[i].ending.Ok?) && (k < |calls| ==> !calls[k].ending.Ok?)
  {
    if calls == [] || !calls[0].ending.Ok? then 0 else 1 + FirstFailure(calls[1..])
  }

  predicate Stops(calls: seq<Call>) {
    FirstFailure(calls) < |calls|
  }

  /** How many calls of a chain are made: up to and including the first failure. */
  function CallsMade(calls: seq<Call>): (k: nat)
    ensures k <= |calls|
  {
    if Stops(calls) then FirstFailure(calls) + 1 else |calls|
  }

  function CallEvent(inRequest: bool, i: nat, ok: bool): Event {
    if inRequest then OnRequest(i, ok) else OnResponse(i, ok)
  }

  function WellCalls(inRequest: bool, k: nat): seq<Event> {
    if inRequest then RequestCalls(k) else ResponseCalls(k)
  }

  /** The calls of a chain: those that end well, and the first that does not. */
  function ChainTrace(inRequest: bool, calls: seq<Call>): seq<Event> {
    var k := FirstFailure(calls);
    WellCalls(inRequest, k) + if Stops(calls) then [CallEvent(inRequest, k, false)] else []
  }

  class Executor {
    constructor () {}

    /** RunOnRequest and RunOnResponse: in order, and the first error stops the chain. */
    method RunChain(inRequest: bool, calls: seq<Call>, res: Response)
        returns (err: Option<string>, res': Response, trace: seq<Event>)
      ensures err == ChainError(calls) && res' == AfterChain(calls, res) && trace == ChainTrace(inRequest, calls)
    {
      var made := 0;
      err, res', trace := None, res, [];
      while made < |calls|
        invariant 0 <= made <= |calls| && err.None?
        invariant forall i :: 0 <= i < made ==> calls[i].ending.Ok?
        invariant res' == if made == 0 then res else calls[made - 1].res
        invariant trace == WellCalls(inRequest, made)
      {
        err := RunProtected(calls[made].ending);
        res' := calls[made].res;
        trace := trace + [CallEvent(inRequest, made, err.None?)];
        if err.Some? {
          return;
        }
        OneMoreRequestCall(made);
        OneMoreResponseCall(made);
        made := made + 1;
      }
      assert trace + [] == trace;
    }
  }

  class ProxyClient {
    var totalRequestCount: nat
    var totalResTime: nat
    var measuredRequestCount: nat
    var recentResTime: real
    const addr: string
    const marshal: string -> string  // json.Marshal of a string

    constructor (addr: string, marshal: string -> string)
      ensures this.addr == addr && this.marshal == marshal
      ensures totalRequestCount == totalResTime == measuredRequestCount == 0 && recentResTime == 0.0
    {
      totalRequestCount, totalResTime, measuredRequestCount, recentResTime := 0, 0, 0, 0.0;
      this.addr, this.marshal := addr, marshal;
    }

    /** The CAS loop. `others[k]` are the scores that other goroutines store between this call's k-th
        load and its k-th compare-and-swap; after those the call is undisturbed. */
    method StoreRecentResTime(micros: real, others: seq<seq<real>>) returns (attempts: nat)
      modifies this`recentResTime
      ensures 1 <= attempts <= |others| + 1
      ensures recentResTime == Smooth(ScoreBefore(old(recentResTime), others, attempts), micros)
      ensures ScoreBefore(old(recentResTime), others, attempts) == ScoreBefore(old(recentResTime), others, attempts - 1)
      ensures forall k :: 1 <= k < attempts ==> Disturbed(old(recentResTime), others, k)
    {
      attempts := 0;
      while true
        invariant attempts <= |others|
        invariant recentResTime == ScoreBefore(old(recentResTime), others, attempts)
        invariant forall k :: 1 <= k <= attempts ==> Disturbed(old(recentResTime), others, k)
        decreases |others| - attempts
      {
        var current := recentResTime;
        var next := Smooth(current, micros);
        if attempts < |others| && others[attempts] != [] {
          recentResTime := others[attempts][|others[attempts]| - 1];
        }
        attempts := attempts + 1;
        if recentResTime == current {
          recentResTime := next;
          return;
        }
      }
    }

    method RecordResponseTime(elapsed: nat, others: seq<seq<real>>) returns (attempts: nat)
      modifies this`totalResTime, this`measuredRequestCount, this`recentResTime
      ensures totalResTime == old(totalResTime) + WholeMicros(elapsed)
      ensures measuredRequestCount == old(measuredRequestCount) + 1
      ensures recentResTime == Smooth(ScoreBefore(old(recentResTime), others, attempts), DurationMicros(elapsed))
      ensures AfterSample(ScoreBefore(old(recentResTime), others, attempts), elapsed, recentResTime)
      ensures 1 <= attempts <= |others| + 1
    {
      totalResTime := totalResTime + WholeMicros(elapsed);
      measuredRequestCount := measuredRequestCount + 1;
      attempts := StoreRecentResTime(DurationMicros(elapsed), others);
    }

    method RecordFailure(elapsed: nat, others: seq<seq<real>>) returns (attempts: nat)
      modifies this`recentResTime
      ensures recentResTime
           == Smooth(ScoreBefore(old(recentResTime), others, attempts), DurationMicros(PenalisedNanos(elapsed)))
      ensures AfterSample(ScoreBefore(old(recentResTime), others, attempts),
                          if elapsed < 10_000_000_000 then 10_000_000_000 else elapsed, recentResTime)
      ensures 1 <= attempts <= |others| + 1
    {
      attempts := StoreRecentResTime(DurationMicros(PenalisedNanos(elapsed)), others);
    }

    method PostRes(res: Response) returns (res': Response)
      ensures res' == res.(fields := EndToEnd(res.fields))
    {
      var h := new HeaderSet(res.fields);
      h.DelHopByHop();
      res' := res.(fields := h.fields);
    }

    /** A response that a middleware wrote stays; an untouched one becomes a 500 that names the error. */
    method MiddlewareError(res: Response, message: string) returns (res': Response)
      ensures Written(res) ==> res' == res
      ensures !Written(res) ==> res'.status == 500 && res'.body == "{\"message\":" + marshal(message) + "}"
      ensures !Written(res) ==> res'.fields == WithHeader(res.fields, CONTENT_TYPE, JSON)
      ensures !Written(res) ==> HeadersChanged(res.fields, res'.fields, map[Lower(CONTENT_TYPE) := JSON])
      ensures Written(res')
    {
      if res.status != 200 || |res.body| > 0 {
        return res;
      }
      var h := new HeaderSet(res.fields);
      h.Set(CONTENT_TYPE, JSON);
      OneHeaderSet(res.fields, CONTENT_TYPE, JSON);
      res' := Response(500, ErrorMessage(marshal, message), h.fields);
    }

    /** Of the response only the headers stay that are not divisor's own: exactly one Content-Type and
        exactly one Connection header come out, the latter with the value close. */
    method ServerError(res: Response, message: string, timeout: bool) returns (res': Response)
      ensures res'.status == (if timeout then 504 else 502) && res'.body == "{\"message\":\"" + message + "\"}"
      ensures res'.fields == WithHeader(WithHeader(res.fields, CONNECTION, CLOSE), CONTENT_TYPE, JSON)
      ensures HeadersChanged(res.fields, res'.fields, map[Lower(CONNECTION) := CLOSE, Lower(CONTENT_TYPE) := JSON])
    {
      var h := new HeaderSet(res.fields);
      h.Set(CONNECTION, CLOSE);
      h.Set(CONTENT_TYPE, JSON);
      TwoHeadersSet(res.fields, CONNECTION, CLOSE, CONTENT_TYPE, JSON);
      res' := Response(if timeout then 504 else 502, GatewayMessage(message), h.fields);
    }

    /** ReverseProxyHandler, for a request that is alone: `elapsed` and `total` are its running time
        after a failed attempt and at its end. */
    method ReverseProxyHandler(req: HeaderSet, clientIP: string, script: Script, res: Response, elapsed: nat,
                               total: nat)
        returns (err: Option<string>, res': Response, trace: seq<Event>)
      modifies this, req
      ensures req.fields == Prepared(old(req.fields), addr, clientIP)
      ensures HeadersChanged(EndToEnd(old(req.fields)), req.fields,
                             map[Lower(HOST) := addr, Lower(FORWARDED_FOR) := clientIP])
      ensures err == Returned(script) && res' == Reply(marshal, script, res) && trace == TraceOf(script)
      ensures totalRequestCount == old(totalRequestCount) + 1
      ensures measuredRequestCount == old(measuredRequestCount) + if err.None? then 1 else 0
      ensures totalResTime == old(totalResTime) + if err.None? then WholeMicros(total) else 0
      ensures recentResTime == ScoreAfter(old(recentResTime), script, elapsed, total)
      ensures ScoreChanged(old(recentResTime), script, elapsed, total, recentResTime)
      ensures AllWell(script.onRequest) && script.attempt.error.Some? && old(recentResTime) >= 0.0
              ==> recentResTime / 1000.0 >= 2000.0
    {
      ScoreAfterMeans(recentResTime, script, elapsed, total);
      totalRequestCount := totalRequestCount + 1;
      req.PreReq(addr, clientIP);
      var executor := new Executor();
      err, res', trace := executor.RunChain(true, script.onRequest, res);
      if err.Some? {
        res' := PostRes(res');
        res' := MiddlewareError(res', err.value);
      } else {
        err, res', trace := ForwardAndRespond(script, elapsed, total, trace);
      }
    }

    /** The second half of the handler: the attempt, the OnResponse chain and the books. */
    method ForwardAndRespond(script: Script, elapsed: nat, total: nat, before: seq<Event>)
        returns (err: Option<string>, res': Response, trace: seq<Event>)
      requires !Stops(script.onRequest)
      modifies this
      ensures totalRequestCount == old(totalRequestCount)
      ensures measuredRequestCount == old(measuredRequestCount) + if err.None? then 1 else 0
      ensures totalResTime == old(totalResTime) + if err.None? then WholeMicros(total) else 0
      ensures recentResTime == ScoreAfter(old(recentResTime), script, elapsed, total)
      ensures err == Returned(script) && res' == Reply(marshal, script, script.attempt.res)
      ensures trace == before + [Backend(script.attempt.error.None?)] + ChainTrace(false, script.onResponse)
    {
      trace := before + [Backend(script.attempt.error.None?)];
      if script.attempt.error.Some? {
        var attempts := RecordFailure(elapsed, []);
        UndisturbedScore(old(recentResTime), attempts);
      }
      var executor := new Executor();
      var calls: seq<Event>;
      err, res', calls := executor.RunChain(false, script.onResponse, script.attempt.res);
      trace := trace + calls;
      res' := PostRes(res');
      if err.Some? {
        res' := MiddlewareError(res', err.value);
      } else if script.attempt.error.Some? {
        res' := ServerError(res', script.attempt.error.value, script.attempt.timeout);
        err := script.attempt.error;
      } else {
        var attempts := RecordResponseTime(total, []);
        UndisturbedScore(old(recentResTime), attempts);
      }
    }
  }

  /** The score that the k-th compare-and-swap finds, when the ones before it failed. */
  function ScoreBefore(score: real, others: seq<seq<real>>, k: int): real {
    if k <= 0 then score
    else if k <= |others| && others[k - 1] != [] then others[k - 1][|others[k - 1]| - 1]
    else ScoreBefore(score, others, k - 1)
  }

  /** What another goroutine stored last before a compare-and-swap is what that one finds. */
  lemma FindsWhatOthersStored(score: real, others: seq<seq<real>>, k: nat)
    requires k < |others|
    ensures others[k] != [] ==> ScoreBefore(score, others, k + 1) == others[k][|others[k]| - 1]
    ensures others[k] == [] ==> ScoreBefore(score, others, k + 1) == ScoreBefore(score, others, k)
  {
  }

  predicate Disturbed(score: real, others: seq<seq<real>>, k: nat)
    requires k > 0
  {
    ScoreBefore(score, others, k) != ScoreBefore(score, others, k - 1)
  }

  lemma {:induction false} UndisturbedScore(score: real, k: nat)
    ensures ScoreBefore(score, [], k) == score
  {
    if k > 0 {
      UndisturbedScore(score, k - 1);
    }
  }

  const CONTENT_TYPE := "Content-Type"
  const JSON := "application/json"
  const CLOSE := "close"

  /** A status or a body that a middleware, or the backend, has set. */
  predicate Written(res: Response) {
    res.status != 200 || res.body != ""
  }

  function ErrorMessage(marshal: string -> string, message: string): string {
    "{\"message\":" + marshal(message) + "}"
  }

  function GatewayMessage(message: string): string {
    "{\"message\":\"" + message + "\"}"
  }

  /** The response after the calls that a chain makes. */
  function AfterChain(calls: seq<Call>, res: Response): Response {
    if CallsMade(calls) == 0 then res else calls[CallsMade(calls) - 1].res
  }

  function ChainError(calls: seq<Call>): Option<string> {
    if Stops(calls) then RunProtected(calls[FirstFailure(calls)].ending) else None
  }

  /** What the handler returns. */
  function Returned(script: Script): Option<string> {
    if Stops(script.onRequest) then ChainError(script.onRequest)
    else if Stops(script.onResponse) then ChainError(script.onResponse)
    else script.attempt.error
  }

  function Clean(res: Response): Response {
    res.(fields := EndToEnd(res.fields))
  }

  /** The response as the last call that was made, or the backend, left it. */
  function LastResponse(script: Script, res: Response): Response {
    if Stops(script.onRequest) then AfterChain(script.onRequest, res)
    else AfterChain(script.onResponse, script.attempt.res)
  }

  function ErrorPage(marshal: string -> string, res: Response, message: string): Response {
    if Written(res) then res
    else Response(500, ErrorMessage(marshal, message), WithHeader(res.fields, CONTENT_TYPE, JSON))
  }

  function GatewayError(fields: seq<Header>, message: string, timeout: bool): Response {
    Response(if timeout then 504 else 502, GatewayMessage(message),
             WithHeader(WithHeader(fields, CONNECTION, CLOSE), CONTENT_TYPE, JSON))
  }

  /** The response that goes out to the client. */
  function Reply(marshal: string -> string, script: Script, res: Response): Response {
    var last := Clean(LastResponse(script, res));
    if MiddlewareStopped(script) then ErrorPage(marshal, last, Returned(script).value)
    else if script.attempt.error.None? then last
    else GatewayError(last.fields, script.attempt.error.value, script.attempt.timeout)
  }

  /** The score afterwards: a nil return is a sample of the whole time, a failed attempt a penalised
      one, and a request that never reached the backend - or whose good answer a middleware refused -
      none. */
  function ScoreAfter(score: real, script: Script, elapsed: nat, total: nat): real {
    if Returned(script).None? then Smooth(score, DurationMicros(total))
    else if !Stops(script.onRequest) && script.attempt.error.Some? then
      Smooth(score, DurationMicros(PenalisedNanos(elapsed)))
    else score
  }

  /** What the request does to the score: nothing if it never reached the backend, or if a middleware
      refused its good answer; a sample of the whole time if it returned nil; and if the attempt
      failed one of at least ten seconds, whatever OnResponse returned. */
  ghost predicate ScoreChanged(before: real, script: Script, elapsed: nat, total: nat, after: real) {
    if !AllWell(script.onRequest) then after == before
    else if script.attempt.error.Some? then
      AfterSample(before, if elapsed < 10_000_000_000 then 10_000_000_000 else elapsed, after)
    else if AllWell(script.onResponse) then AfterSample(before, total, after)
    else after == before
  }

  lemma ScoreAfterMeans(before: real, script: Script, elapsed: nat, total: nat)
    ensures ScoreChanged(before, script, elapsed, total, ScoreAfter(before, script, elapsed, total))
    ensures AllWell(script.onRequest) && script.attempt.error.Some? && before >= 0.0
            ==> ScoreAfter(before, script, elapsed, total) / 1000.0 >= 2000.0
  {
    ChainErrorMeans(script.onRequest);
    ChainErrorMeans(script.onResponse);
    SmoothIsAfterSample(before, total);
    SmoothIsAfterSample(before, PenalisedNanos(elapsed));
    if before >= 0.0 {
      OneFailurePenalises(before, elapsed);
    }
  }

  function TraceOf(script: Script): seq<Event> {
    var before := ChainTrace(true, script.onRequest);
    if Stops(script.onRequest) then before
    else before + [Backend(script.attempt.error.None?)] + ChainTrace(false, script.onResponse)
  }

  // ---------- what the client can count on ----------

  predicate MiddlewareStopped(script: Script) {
    Stops(script.onRequest) || Stops(script.onResponse)
  }

  /** The response as the middleware that stopped the chain left it. */
  function StoppedResponse(script: Script): Response
    requires MiddlewareStopped(script)
  {
    if Stops(script.onRequest) then script.onRequest[FirstFailure(script.onRequest)].res
    else script.onResponse[FirstFailure(script.onResponse)].res
  }

  /** A middleware's error never goes out as an empty 200, and a status or a body that the middleware
      wrote itself goes out as it is. */
  lemma MiddlewareErrorIsVisible(marshal: string -> string, script: Script, res: Response)
    requires MiddlewareStopped(script)
    ensures var reply, own := Reply(marshal, script, res), StoppedResponse(script);
            && !(reply.status == 200 && reply.body == "")
            && (own.status != 200 || own.body != "" ==> reply == Clean(own))
            && (own.status == 200 && own.body == "" ==>
                  reply.status == 500 && reply.body == "{\"message\":" + marshal(Returned(script).value) + "}")
  {
  }

  /** A failed attempt that no middleware stops is answered with 504 if it timed out, else 502, and the
      attempt's error. */
  lemma FailedAttemptIsAnswered(marshal: string -> string, script: Script, res: Response)
    requires AllWell(script.onRequest) && AllWell(script.onResponse) && script.attempt.error.Some?
    ensures var reply := Reply(marshal, script, res);
            && reply.status == (if script.attempt.timeout then 504 else 502)
            && reply.body == "{\"message\":\"" + script.attempt.error.value + "\"}"
  {
    ChainErrorMeans(script.onRequest);
    ChainErrorMeans(script.onResponse);
  }

  lemma WellUntil(calls: seq<Call>, k: nat)
    requires k < |calls| && AllWell(calls[..k]) && !calls[k].ending.Ok?
    ensures FirstFailure(calls) == k
  {
    forall i | 0 <= i < k ensures calls[i].ending.Ok? {
      assert calls[..k][i] == calls[i];
    }
  }

  /** A chain leaves the response as its first failing call, or else its last call, left it. */
  lemma AfterChainMeans(calls: seq<Call>, res: Response)
    ensures calls == [] ==> AfterChain(calls, res) == res
    ensures calls != [] && AllWell(calls) ==> AfterChain(calls, res) == calls[|calls| - 1].res
    ensures forall k :: 0 <= k < |calls| && AllWell(calls[..k]) && !calls[k].ending.Ok?
                        ==> AfterChain(calls, res) == calls[k].res
  {
    ChainErrorMeans(calls);
    forall k | 0 <= k < |calls| && AllWell(calls[..k]) && !calls[k].ending.Ok?
      ensures AfterChain(calls, res) == calls[k].res
    {
      WellUntil(calls, k);
    }
  }

  predicate AllWell(calls: seq<Call>) {
    forall i :: 0 <= i < |calls| ==> calls[i].ending.Ok?
  }

  /** The first call that does not end well, and its error, a panic's included. */
  ghost predicate FailsFirstWith(calls: seq<Call>, message: string) {
    exists k :: 0 <= k < |calls| && AllWell(calls[..k]) && EndsWith(calls[k].ending, message)
  }

  predicate EndsWith(ending: Ending, message: string) {
    match ending
    case Ok => false
    case Err(m) => message == m
    case Panic(m) => message == "middleware panic: " + m
  }

  lemma ChainErrorMeans(calls: seq<Call>)
    ensures Stops(calls) <==> !AllWell(calls)
    ensures Stops(calls) ==> FailsFirstWith(calls, ChainError(calls).value)
  {
    var k := FirstFailure(calls);
    if Stops(calls) {
      assert AllWell(calls[..k]) && EndsWith(calls[k].ending, ChainError(calls).value);
    }
  }

  /** The handler returns nil exactly when every call and the attempt went well, and the client then
      gets what they left. Otherwise the first OnRequest error comes back; or else the first
      OnResponse error, even if the attempt failed too; or else the attempt's. */
  lemma NilMeansSuccess(marshal: string -> string, script: Script, res: Response)
    ensures var err, reply := Returned(script), Reply(marshal, script, res);
            && (err.None? <==> AllWell(script.onRequest) && AllWell(script.onResponse) && script.attempt.error.None?)
            && (err.None? ==>
                  var calls := script.onResponse;
                  var last := if calls == [] then script.attempt.res else calls[|calls| - 1].res;
                  reply == Response(last.status, last.body, EndToEnd(last.fields)))
            && (!AllWell(script.onRequest) ==> FailsFirstWith(script.onRequest, err.value))
            && (AllWell(script.onRequest) ==>
                  if AllWell(script.onResponse) then err == script.attempt.error
                  else FailsFirstWith(script.onResponse, err.value))
  {
    ChainErrorMeans(script.onRequest);
    ChainErrorMeans(script.onResponse);
  }

  /** Which calls a request alone makes, to the last: OnRequest calls up to the first failure, and if
      there is none the attempt and OnResponse calls up to the first failure. */
  lemma HandlerTraceIs(script: Script, k: nat)
    ensures k < |script.onRequest| && AllWell(script.onRequest[..k]) && !script.onRequest[k].ending.Ok?
        ==> TraceOf(script) == RequestCalls(k) + [OnRequest(k, false)]
    ensures AllWell(script.onRequest) && AllWell(script.onResponse)
        ==> TraceOf(script) == RequestCalls(|script.onRequest|) + [Backend(script.attempt.error.None?)]
                               + ResponseCalls(|script.onResponse|)
    ensures AllWell(script.onRequest) && k < |script.onResponse|
            && AllWell(script.onResponse[..k]) && !script.onResponse[k].ending.Ok?
        ==> TraceOf(script) == RequestCalls(|script.onRequest|) + [Backend(script.attempt.error.None?)]
                               + (ResponseCalls(k) + [OnResponse(k, false)])
  {
    ChainTraceIs(true, script.onRequest, k);
    ChainTraceIs(false, script.onResponse, k);
  }

  lemma ChainTraceIs(inRequest: bool, calls: seq<Call>, k: nat)
    ensures AllWell(calls) ==> !Stops(calls) && ChainTrace(inRequest, calls) == WellCalls(inRequest, |calls|)
    ensures k < |calls| && AllWell(calls[..k]) && !calls[k].ending.Ok?
        ==> Stops(calls)
            && ChainTrace(inRequest, calls) == WellCalls(inRequest, k) + [CallEvent(inRequest, k, false)]
  {
    ChainErrorMeans(calls);
    ChainTraceShape(inRequest, calls);
    if k < |calls| && AllWell(calls[..k]) && !calls[k].ending.Ok? {
      WellUntil(calls, k);
    }
  }

  /** What happens to a request alone is a finished trace, refused before the attempt exactly when an
      OnRequest call fails. */
  lemma HandlerTraceIsFinished(script: Script, n: nat)
    requires |script.onRequest| == |script.onResponse| == n
    ensures Finished(TraceOf(script), n) && InOrder(TraceOf(script))
    ensures Attempts(TraceOf(script)) == if Stops(script.onRequest) then 0 else 1
  {
    ChainTraceShape(true, script.onRequest);
    if Stops(script.onRequest) {
      StoppedBefore(FirstFailure(script.onRequest));
    } else {
      TraceAfterAttempt(script.onResponse, n, script.attempt.error.None?);
    }
  }

  lemma TraceAfterAttempt(calls: seq<Call>, n: nat, ok: bool)
    requires |calls| == n
    ensures var trace := Tried(n, ok) + ChainTrace(false, calls);
            Finished(trace, n) && InOrder(trace) && Attempts(trace) == 1
  {
    ChainTraceShape(false, calls);
    if Stops(calls) {
      var m := FirstFailure(calls);
      assert Tried(n, ok) + ChainTrace(false, calls) == Tried(n, ok) + ResponseCalls(m) + [OnResponse(m, false)];
      StoppedAfter(n, ok, m);
      assert RefusedAfter(Tried(n, ok) + ChainTrace(false, calls), n, ok);
    } else {
      ResponsesInOrder(n);
      TriedOnce(n, ok, ResponseCalls(n));
    }
  }

  lemma ChainTraceShape(inRequest: bool, calls: seq<Call>)
    ensures Stops(calls) ==>
      var k := FirstFailure(calls);
      ChainTrace(inRequest, calls) == WellCalls(inRequest, k) + [CallEvent(inRequest, k, false)]
    ensures !Stops(calls) ==> ChainTrace(inRequest, calls) == WellCalls(inRequest, |calls|)
  {
    assert WellCalls(inRequest, FirstFailure(calls)) + [] == WellCalls(inRequest, FirstFailure(calls));
  }

  // ---------- headers ----------

  predicate GatewayAnswers(script: Script) {
    !MiddlewareStopped(script) && script.attempt.error.Some?
  }

  /** The headers that divisor sets itself, by name in lower case. */
  function OwnHeaders(script: Script, res: Response): map<string, string> {
    if GatewayAnswers(script) then map[Lower(CONNECTION) := CLOSE, Lower(CONTENT_TYPE) := JSON]
    else if MiddlewareStopped(script) && !Written(LastResponse(script, res)) then map[Lower(CONTENT_TYPE) := JSON]
    else map[]
  }

  /** On every path, failed attempts included, the end-to-end headers of the last response reach the
      client, except that a 502 or 504 and the page for an unanswered middleware error bring their
      own Content-Type, and the former a Connection: close. */
  lemma HeadersOfTheReply(marshal: string -> string, script: Script, res: Response)
    ensures HeadersChanged(EndToEnd(LastResponse(script, res).fields), Reply(marshal, script, res).fields,
                           OwnHeaders(script, res))
  {
    var fields := EndToEnd(LastResponse(script, res).fields);
    if GatewayAnswers(script) {
      TwoHeadersSet(fields, CONNECTION, CLOSE, CONTENT_TYPE, JSON);
    } else if MiddlewareStopped(script) && !Written(LastResponse(script, res)) {
      OneHeaderSet(fields, CONTENT_TYPE, JSON);
    } else {
      forall name ensures HeaderChanged(fields, fields, map[], name) {}
    }
  }

  /** Status and body that an OnResponse writes after a failed attempt reach the client exactly when a
      call of the chain stops with an error: a chain that ends well cannot change them. */
  lemma FallbackSurvivesOnlyWithAnError(marshal: string -> string, script: Script, other: Response, res: Response)
    requires !Stops(script.onRequest) && script.attempt.error.Some? && script.onResponse != []
    requires Written(other) && Written(LastResponse(script, res))
    requires (other.status, other.body) != (LastResponse(script, res).status, LastResponse(script, res).body)
    ensures var k := CallsMade(script.onResponse) - 1;
            var changed := script.(onResponse := script.onResponse[k := script.onResponse[k].(res := other)]);
            var a, b := Reply(marshal, script, res), Reply(marshal, changed, res);
            Stops(script.onResponse) <==> (a.status, a.body) != (b.status, b.body)
  {
    var k := CallsMade(script.onResponse) - 1;
    SameFailure(script.onResponse, k, other);
  }

  lemma {:induction false} SameFailure(calls: seq<Call>, k: nat, res: Response)
    requires k < |calls|
    ensures FirstFailure(calls[k := calls[k].(res := res)]) == FirstFailure(calls)
  {
    var calls' := calls[k := calls[k].(res := res)];
    if calls[0].ending.Ok? {
      if k == 0 {
        assert calls'[1..] == calls[1..];
      } else {
        SameFailure(calls[1..], k - 1, res);
        assert calls'[1..] == calls[1..][k - 1 := calls[1..][k - 1].(res := res)];
      }
    }
  }

  lemma OneValue(f: Header)
    ensures Values([f], f.name) == [f.value]
  {
    ValuesExtend([], f, f.name);
    assert [] + [f] == [f];
  }

  lemma OneEndToEndHeader(f: Header)
    requires Lower(f.name) !in LowerAll(HOP_HEADERS) && Lower(f.name) != Lower(CONNECTION)
    ensures EndToEnd([f]) == [f]
  {
    ValuesExtend([], f, CONNECTION);
    StripExtend([], f, Nominated([f]) + LowerAll(HOP_HEADERS));
    assert [] + [f] == [f];
    assert Values([f], CONNECTION) == [];
  }

  /** The chain ends well and the answer is a 502; the header that OnResponse set is in it. */
  lemma HeadersSurviveWithoutAnError(marshal: string -> string, failed: Response, f: Header)
    requires Lower(f.name) !in LowerAll(HOP_HEADERS) + {Lower(CONTENT_TYPE), Lower(CONNECTION)}
    ensures var script := Script([Call(Ok, failed)], Attempt(Some("EOF"), false, failed),
                                 [Call(Ok, failed.(fields := [f]))]);
            var reply := Reply(marshal, script, failed);
            reply.status == 502 && Values(reply.fields, f.name) == [f.value]
  {
    var script := Script([Call(Ok, failed)], Attempt(Some("EOF"), false, failed),
                         [Call(Ok, failed.(fields := [f]))]);
    assert FirstFailure(script.onRequest[1..]) == 0 && FirstFailure(script.onResponse[1..]) == 0;
    assert LastResponse(script, failed).fields == [f];
    HeadersOfTheReply(marshal, script, failed);
    OneEndToEndHeader(f);
    assert HeaderChanged([f], Reply(marshal, script, failed).fields, OwnHeaders(script, failed), f.name);
    OneValue(f);
  }

  lemma HopNames(k: nat)
    requires k < |HOP_HEADERS|
    ensures Lower(HOP_HEADERS[k]) != Lower(CONTENT_TYPE)
    ensures Lower(HOP_HEADERS[k]) == Lower(CONNECTION) <==> k == 0
  {
    assert |HOP_HEADERS[k]| != |CONTENT_TYPE|;
    if k == 2 {
      assert Lower(HOP_HEADERS[k])[0] == 'k' && Lower(CONNECTION)[0] == 'c';
    } else if k > 0 {
      assert |HOP_HEADERS[k]| != |CONNECTION|;
    }
  }

  lemma CleanHasNoHopHeader(res: Response, k: nat)
    requires k < |HOP_HEADERS|
    ensures Values(Clean(res).fields, HOP_HEADERS[k]) == []
  {
    StrippedHasNoValues(res.fields, Nominated(res.fields) + LowerAll(HOP_HEADERS), HOP_HEADERS[k]);
  }

  /** Of the fixed hop-by-hop list only divisor's own Connection: close reaches the client, and that
      exactly when divisor answers for a failed attempt. */
  lemma OnlyOwnHopHeaderReachesTheClient(marshal: string -> string, script: Script, res: Response, k: nat)
    requires k < |HOP_HEADERS|
    ensures Values(Reply(marshal, script, res).fields, HOP_HEADERS[k])
         == if GatewayAnswers(script) && k == 0 then [CLOSE] else []
  {
    CleanHasNoHopHeader(LastResponse(script, res), k);
    HopNames(k);
    HeadersOfTheReply(marshal, script, res);
    assert HeaderChanged(EndToEnd(LastResponse(script, res).fields), Reply(marshal, script, res).fields,
                         OwnHeaders(script, res), HOP_HEADERS[k]);
  }
}
