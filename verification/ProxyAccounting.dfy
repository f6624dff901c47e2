/** The counters and the score of one proxy client under concurrent requests, resets and readers,
    one atomic access at a time. */
module ProxyAccounting {
  import opened Options
  import opened MovingAverage
  import opened RequestTrace

  /** Where a request is inside ReverseProxyHandler. Times are nanoseconds. */
  datatype Request =
    | NotStarted
    | Arrived(made: nat)                     // totalRequestCount incremented, OnRequest calls made
    | Answered(made: nat)                    // the backend attempt succeeded, OnResponse calls made
    | TimeAdded(elapsed: nat)                // totalResTime incremented
    | Scoring(failed: bool, elapsed: nat, loaded: Option<real>, seen: nat, retries: nat)  // in the CAS loop
    | Failed(elapsed: nat, made: nat)        // recordFailure has returned, OnResponse calls made
    | ReturnedNil(elapsed: nat)
    | ReturnedError(attemptFailed: bool, elapsed: nat)

  /** A call of AvgResponseTime: the count it loaded, and the time it loaded after that. `due` is the
      total of the counted requests' times at the moment of the first load. */
  datatype Reader = Idle | GotCount(count: nat, due: nat) | Reported(count: nat, due: nat, time: nat)

  datatype Sample = Sample(request: nat, micros: real)

  datatype State = State(
    total: nat,               // totalRequestCount
    time: nat,                // totalResTime
    measured: nat,            // measuredRequestCount
    score: real,              // recentResTime
    chain: nat,               // how many middlewares are configured
    requests: seq<Request>,
    traces: seq<seq<Event>>,  // what each request has done
    readers: seq<Reader>,
    applied: seq<Sample>,     // successful compare-and-swaps, in their order
    sinceReset: seq<real>,    // the samples among them since the last reset
    changes: nat)             // how often the stored score took another value

  // ---------- sums over the requests ----------

  function Sum(f: Request -> nat, requests: seq<Request>): nat {
    if requests == [] then 0 else Sum(f, requests[..|requests| - 1]) + f(requests[|requests| - 1])
  }

  lemma {:induction false} SumUpdate(f: Request -> nat, requests: seq<Request>, i: nat, r: Request)
    requires i < |requests|
    ensures Sum(f, requests[i := r]) == Sum(f, requests) - f(requests[i]) + f(r)
    ensures Sum(f, requests) >= f(requests[i])
  {
    var n := |requests| - 1;
    if i == n {
      assert requests[i := r][..n] == requests[..n];
    } else {
      SumUpdate(f, requests[..n], i, r);
      assert requests[i := r][..n] == requests[..n][i := r];
    }
  }

  lemma {:induction false} SumMonotone(f: Request -> nat, g: Request -> nat, requests: seq<Request>)
    requires forall r :: f(r) <= g(r)
    ensures Sum(f, requests) <= Sum(g, requests)
  {
    if requests != [] {
      SumMonotone(f, g, requests[..|requests| - 1]);
    }
  }

  function Started(r: Request): nat {
    if r.NotStarted? then 0 else 1
  }

  predicate IsCounted(r: Request) {
    (r.Scoring? && !r.failed) || r.ReturnedNil?
  }

  function Counted(r: Request): nat {
    if IsCounted(r) then 1 else 0
  }

  function CountedTime(r: Request): nat {
    if IsCounted(r) then WholeMicros(r.elapsed) else 0
  }

  function AddedTime(r: Request): nat {
    if r.TimeAdded? || IsCounted(r) then WholeMicros(r.elapsed) else 0
  }

  function Scored(r: Request): nat {
    if r.Failed? || r.ReturnedNil? || (r.ReturnedError? && r.attemptFailed) then 1 else 0
  }

  function Nil(r: Request): nat {
    if r.ReturnedNil? then 1 else 0
  }

  function FailedAttempt(r: Request): nat {
    if (r.Scoring? && r.failed) || r.Failed? || (r.ReturnedError? && r.attemptFailed) then 1 else 0
  }

  function Nanos(r: Request): nat {
    if r.ReturnedNil? then r.elapsed else 0
  }

  // ---------- steps ----------

  datatype Step =
    | Arrive(r: nat)
    | CallOnRequest(r: nat, ok: bool)             // the next one; an error ends the request
    | AttemptOk(r: nat)
    | AttemptFails(r: nat, elapsed: nat)
    | CallOnResponse(r: nat, ok: bool)
    | AnswerFailure(r: nat)                       // serverError
    | AddTime(r: nat, elapsed: nat)
    | AddCount(r: nat)
    | LoadScore(r: nat)
    | Swap(r: nat)                                // the compare-and-swap, successful or not
    | Reset
    | LoadCount(a: nat)
    | LoadTime(a: nat)

  predicate IsRequest(s: State, r: nat) {
    r < |s.requests| && r < |s.traces|
  }

  predicate Can(s: State, step: Step) {
    match step
    case Arrive(r) => IsRequest(s, r) && s.requests[r].NotStarted?
    case CallOnRequest(r, ok) => IsRequest(s, r) && s.requests[r].Arrived? && s.requests[r].made < s.chain
    case AttemptOk(r) => IsRequest(s, r) && s.requests[r] == Arrived(s.chain)
    case AttemptFails(r, elapsed) => IsRequest(s, r) && s.requests[r] == Arrived(s.chain)
    case CallOnResponse(r, ok) =>
      IsRequest(s, r) && (s.requests[r].Answered? || s.requests[r].Failed?) && s.requests[r].made < s.chain
    case AnswerFailure(r) => IsRequest(s, r) && s.requests[r].Failed? && s.requests[r].made == s.chain
    case AddTime(r, elapsed) => IsRequest(s, r) && s.requests[r] == Answered(s.chain)
    case AddCount(r) => IsRequest(s, r) && s.requests[r].TimeAdded?
    case LoadScore(r) => IsRequest(s, r) && s.requests[r].Scoring? && s.requests[r].loaded.None?
    case Swap(r) => IsRequest(s, r) && s.requests[r].Scoring? && s.requests[r].loaded.Some?
    case Reset => true
    case LoadCount(a) => a < |s.readers| && s.readers[a].Idle?
    case LoadTime(a) => a < |s.readers| && s.readers[a].GotCount?
  }

  function Move(s: State, r: nat, to: Request): State
    requires r < |s.requests|
  {
    s.(requests := s.requests[r := to])
  }

  /** A request that ends with an error after its attempt. */
  function Refused(pc: Request): Request {
    ReturnedError(pc.Failed?, if pc.Failed? then pc.elapsed else 0)
  }

  function Note(s: State, r: nat, event: Event): State
    requires r < |s.traces|
  {
    s.(traces := s.traces[r := s.traces[r] + [event]])
  }

  function Do(s: State, step: Step): State
    requires Can(s, step)
  {
    match step
    case Arrive(r) => Move(s, r, Arrived(0)).(total := s.total + 1)
    case CallOnRequest(r, ok) =>
      var made := s.requests[r].made;
      Note(Move(s, r, if ok then Arrived(made + 1) else ReturnedError(false, 0)), r, OnRequest(made, ok))
    case AttemptOk(r) => Note(Move(s, r, Answered(0)), r, Backend(true))
    case AttemptFails(r, elapsed) =>
      Note(Move(s, r, Scoring(true, PenalisedNanos(elapsed), None, 0, 0)), r, Backend(false))
    case CallOnResponse(r, ok) =>
      var pc := s.requests[r];
      Note(Move(s, r, if ok then pc.(made := pc.made + 1) else Refused(pc)), r, OnResponse(pc.made, ok))
    case AnswerFailure(r) => Move(s, r, Refused(s.requests[r]))
    case AddTime(r, elapsed) => Move(s, r, TimeAdded(elapsed)).(time := s.time + WholeMicros(elapsed))
    case AddCount(r) => Move(s, r, Scoring(false, s.requests[r].elapsed, None, 0, 0)).(measured := s.measured + 1)
    case LoadScore(r) => Move(s, r, s.requests[r].(loaded := Some(s.score), seen := s.changes))
    case Swap(r) =>
      var pc := s.requests[r];
      if pc.loaded.value != s.score then Move(s, r, pc.(loaded := None, retries := pc.retries + 1))
      else
        var micros := DurationMicros(pc.elapsed);
        var next := Smooth(pc.loaded.value, micros);
        Move(s, r, if pc.failed then Failed(pc.elapsed, 0) else ReturnedNil(pc.elapsed))
        .(score := next, applied := s.applied + [Sample(r, micros)], sinceReset := s.sinceReset + [micros],
          changes := s.changes + if next == s.score then 0 else 1)
    case Reset => s.(score := 0.0, sinceReset := [], changes := s.changes + if s.score == 0.0 then 0 else 1)
    case LoadCount(a) =>
      s.(readers := s.readers[a := if s.measured == 0 then Reported(0, 0, 0)
                                   else GotCount(s.measured, Sum(CountedTime, s.requests))])
    case LoadTime(a) => s.(readers := s.readers[a := Reported(s.readers[a].count, s.readers[a].due, s.time)])
  }

  ghost predicate Init(s: State) {
    && s.total == s.time == s.measured == s.changes == 0 && s.score == 0.0
    && s.applied == [] && s.sinceReset == []
    && |s.traces| == |s.requests|
    && (forall r :: 0 <= r < |s.requests| ==> s.requests[r] == NotStarted && s.traces[r] == [])
    && (forall a :: 0 <= a < |s.readers| ==> s.readers[a] == Reader.Idle)
  }

  // ---------- invariants ----------

  ghost predicate CountsRight(s: State) {
    && s.total == Sum(Started, s.requests)
    && s.measured == Sum(Counted, s.requests)
    && s.time == Sum(AddedTime, s.requests)
    && |s.applied| == Sum(Scored, s.requests)
  }

  /** A loaded score is stale only if the stored one has changed since; every retry is paid for by
      such a change. */
  ghost predicate LoopRight(r: Request, score: real, changes: nat) {
    r.Scoring? ==>
      if r.loaded.None? then r.retries <= changes
      else r.retries <= r.seen <= changes && (r.seen == changes ==> r.loaded.value == score)
  }

  function Times(applied: seq<Sample>, r: nat): nat {
    if applied == [] then 0
    else Times(applied[..|applied| - 1], r) + if applied[|applied| - 1].request == r then 1 else 0
  }

  /** The score is the fold of the last applied samples, those since the reset. */
  ghost predicate FoldRight(score: real, sinceReset: seq<real>, applied: seq<Sample>) {
    && score == Fold(sinceReset)
    && |sinceReset| <= |applied|
    && (forall i :: 0 <= i < |sinceReset| ==> sinceReset[i] == applied[|applied| - |sinceReset| + i].micros)
  }

  ghost predicate ScoreRight(s: State) {
    && FoldRight(s.score, s.sinceReset, s.applied)
    && (forall r :: 0 <= r < |s.requests| ==> Times(s.applied, r) == Scored(s.requests[r]))
    && (forall r :: 0 <= r < |s.requests| ==> LoopRight(s.requests[r], s.score, s.changes))
  }

  /** A sample is the time of its request, and at least the penalty if the attempt failed. */
  ghost predicate SampleRight(requests: seq<Request>, sample: Sample) {
    && sample.request < |requests| && sample.micros >= 0.0
    && var r := requests[sample.request];
       && Scored(r) == 1
       && 1000.0 * sample.micros == r.elapsed as real
       && (!r.ReturnedNil? ==> r.elapsed >= FAILURE_PENALTY)
  }

  ghost predicate SamplesRight(s: State) {
    && (forall i :: 0 <= i < |s.applied| ==> SampleRight(s.requests, s.applied[i]))
    && (forall r :: 0 <= r < |s.requests| ==> PenaltyDue(s.requests[r]))
  }

  ghost predicate PenaltyDue(r: Request) {
    r.Scoring? && r.failed ==> r.elapsed >= FAILURE_PENALTY
  }

  /** Where a request is, and how many calls it has made, can be read off its trace. */
  ghost predicate TraceRight(r: Request, n: nat, trace: seq<Event>) {
    match r
    case NotStarted => trace == []
    case Arrived(made) => made <= n && trace == RequestCalls(made)
    case Answered(made) => made <= n && trace == Tried(n, true) + ResponseCalls(made)
    case TimeAdded(_) => trace == Tried(n, true) + ResponseCalls(n)
    case Scoring(failed, _, _, _, _) => trace == if failed then Tried(n, false) else Tried(n, true) + ResponseCalls(n)
    case Failed(_, made) => made <= n && trace == Tried(n, false) + ResponseCalls(made)
    case ReturnedNil(_) => trace == Tried(n, true) + ResponseCalls(n)
    case ReturnedError(attemptFailed, _) =>
      || (!attemptFailed && RefusedBefore(trace, n))
      || RefusedAfter(trace, n, !attemptFailed)
      || (attemptFailed && trace == Tried(n, false) + ResponseCalls(n))
  }

  ghost predicate TracesRight(s: State) {
    && |s.traces| == |s.requests|
    && forall r :: 0 <= r < |s.requests| ==> TraceRight(s.requests[r], s.chain, s.traces[r])
  }

  ghost predicate ReaderRight(a: Reader, time: nat) {
    match a
    case Idle => true
    case GotCount(count, due) => count > 0 && due <= time
    case Reported(count, due, t) => due <= t
  }

  ghost predicate ReadersRight(s: State) {
    forall a :: 0 <= a < |s.readers| ==> ReaderRight(s.readers[a], s.time)
  }
}
