/** What the counters, the score and the reported averages mean, over all runs. */
module ProxyRuns {
  import opened Options
  import opened MovingAverage
  import opened ProxyAccounting
  import opened RequestTrace

  // ---------- counters ----------

  lemma MoveSums(s: State, r: nat, to: Request)
    requires r < |s.requests|
    ensures Sum(Started, Move(s, r, to).requests) == Sum(Started, s.requests) - Started(s.requests[r]) + Started(to)
    ensures Sum(Counted, Move(s, r, to).requests) == Sum(Counted, s.requests) - Counted(s.requests[r]) + Counted(to)
    ensures Sum(AddedTime, Move(s, r, to).requests)
         == Sum(AddedTime, s.requests) - AddedTime(s.requests[r]) + AddedTime(to)
    ensures Sum(Scored, Move(s, r, to).requests) == Sum(Scored, s.requests) - Scored(s.requests[r]) + Scored(to)
  {
    SumUpdate(Started, s.requests, r, to);
    SumUpdate(Counted, s.requests, r, to);
    SumUpdate(AddedTime, s.requests, r, to);
    SumUpdate(Scored, s.requests, r, to);
  }

  function Mover(step: Step): Option<nat> {
    match step
    case Reset => None
    case LoadCount(_) => None
    case LoadTime(_) => None
    case _ => Some(step.r)
  }

  lemma StepKeepsCounts(s: State, step: Step)
    requires CountsRight(s) && Can(s, step)
    ensures CountsRight(Do(s, step))
  {
    if Mover(step).Some? {
      var r := Mover(step).value;
      var to := Do(s, step).requests[r];
      MoveSums(s, r, to);
      assert Do(s, step).requests == Move(s, r, to).requests;
    }
  }

  // ---------- score ----------

  lemma TimesExtend(applied: seq<Sample>, sample: Sample, r: nat)
    ensures Times(applied + [sample], r) == Times(applied, r) + if sample.request == r then 1 else 0
  {
    assert (applied + [sample])[..|applied|] == applied;
  }

  lemma StepKeepsLoops(s: State, step: Step, q: nat)
    requires ScoreRight(s) && Can(s, step) && q < |s.requests|
    ensures LoopRight(Do(s, step).requests[q], Do(s, step).score, Do(s, step).changes)
  {
    assert LoopRight(s.requests[q], s.score, s.changes);
  }

  predicate StoresSample(s: State, step: Step)
    requires Can(s, step)
  {
    step.Swap? && s.requests[step.r].loaded.value == s.score
  }

  lemma OtherStepsStoreNothing(s: State, step: Step, q: nat)
    requires Can(s, step) && !StoresSample(s, step) && q < |s.requests|
    ensures Do(s, step).applied == s.applied && Scored(Do(s, step).requests[q]) == Scored(s.requests[q])
  {
  }

  lemma StoreEffect(s: State, r: nat) returns (sample: Sample, to: Request)
    requires Can(s, Swap(r)) && StoresSample(s, Swap(r))
    ensures Do(s, Swap(r)).applied == s.applied + [sample] && sample.request == r
    ensures Do(s, Swap(r)).requests == s.requests[r := to] && Scored(s.requests[r]) == 0 && Scored(to) == 1
  {
    sample, to := Sample(r, DurationMicros(s.requests[r].elapsed)), Do(s, Swap(r)).requests[r];
  }

  lemma TimesAfterStore(applied: seq<Sample>, sample: Sample, requests: seq<Request>, to: Request, q: nat)
    requires sample.request < |requests| && q < |requests| && Times(applied, q) == Scored(requests[q])
    requires Scored(requests[sample.request]) == 0 && Scored(to) == 1
    ensures Times(applied + [sample], q) == Scored(requests[sample.request := to][q])
  {
    TimesExtend(applied, sample, q);
  }

  lemma StepKeepsTimes(s: State, step: Step, q: nat)
    requires ScoreRight(s) && Can(s, step) && q < |s.requests|
    ensures Times(Do(s, step).applied, q) == Scored(Do(s, step).requests[q])
  {
    assert Times(s.applied, q) == Scored(s.requests[q]);
    if StoresSample(s, step) {
      var sample, to := StoreEffect(s, step.r);
      TimesAfterStore(s.applied, sample, s.requests, to, q);
    } else {
      OtherStepsStoreNothing(s, step, q);
    }
  }

  lemma OneMoreSample(score: real, sinceReset: seq<real>, applied: seq<Sample>, sample: Sample)
    requires FoldRight(score, sinceReset, applied)
    ensures FoldRight(Smooth(score, sample.micros), sinceReset + [sample.micros], applied + [sample])
  {
    FoldExtend(sinceReset, sample.micros);
  }

  lemma StepKeepsFold(s: State, step: Step)
    requires FoldRight(s.score, s.sinceReset, s.applied) && Can(s, step)
    ensures var s' := Do(s, step); FoldRight(s'.score, s'.sinceReset, s'.applied)
  {
    if StoresSample(s, step) {
      OneMoreSample(s.score, s.sinceReset, s.applied, Sample(step.r, DurationMicros(s.requests[step.r].elapsed)));
    }
  }

  lemma StepKeepsScore(s: State, step: Step)
    requires ScoreRight(s) && Can(s, step)
    ensures ScoreRight(Do(s, step))
  {
    StepKeepsFold(s, step);
    var s' := Do(s, step);
    forall q | 0 <= q < |s'.requests|
      ensures Times(s'.applied, q) == Scored(s'.requests[q]) && LoopRight(s'.requests[q], s'.score, s'.changes)
    {
      StepKeepsTimes(s, step, q);
      StepKeepsLoops(s, step, q);
    }
  }

  lemma OldSampleStaysRight(s: State, step: Step, sample: Sample)
    requires SampleRight(s.requests, sample) && Can(s, step)
    ensures SampleRight(Do(s, step).requests, sample)
  {
  }

  lemma NewSampleIsRight(s: State, r: nat)
    requires SamplesRight(s) && Can(s, Swap(r)) && s.requests[r].loaded.value == s.score
    ensures SampleRight(Do(s, Swap(r)).requests, Sample(r, DurationMicros(s.requests[r].elapsed)))
  {
    assert PenaltyDue(s.requests[r]);
  }

  lemma StepKeepsPenaltyDue(s: State, step: Step, q: nat)
    requires SamplesRight(s) && Can(s, step) && q < |s.requests|
    ensures PenaltyDue(Do(s, step).requests[q])
  {
    assert PenaltyDue(s.requests[q]);
  }

  lemma StepKeepsSamples(s: State, step: Step)
    requires SamplesRight(s) && Can(s, step)
    ensures SamplesRight(Do(s, step))
  {
    var s' := Do(s, step);
    forall q | 0 <= q < |s'.requests| ensures PenaltyDue(s'.requests[q]) {
      StepKeepsPenaltyDue(s, step, q);
    }
    forall i | 0 <= i < |s'.applied| ensures SampleRight(s'.requests, s'.applied[i]) {
      if i < |s.applied| {
        assert s'.applied[i] == s.applied[i];
        OldSampleStaysRight(s, step, s.applied[i]);
      } else {
        NewSampleIsRight(s, step.r);
      }
    }
  }

  // ---------- traces ----------

  lemma CallKeepsTrace(r: Request, n: nat, trace: seq<Event>, ok: bool)
    requires TraceRight(r, n, trace) && (r.Arrived? || r.Answered? || r.Failed?) && r.made < n
    ensures r.Arrived? ==>
      TraceRight(if ok then Arrived(r.made + 1) else ReturnedError(false, 0), n, trace + [OnRequest(r.made, ok)])
    ensures !r.Arrived? ==>
      TraceRight(if ok then r.(made := r.made + 1) else Refused(r), n, trace + [OnResponse(r.made, ok)])
  {
    OneMoreRequestCall(r.made);
    OneMoreResponseCall(r.made);
    if !r.Arrived? {
      var before := Tried(n, r.Answered?);
      assert before + ResponseCalls(r.made) + [OnResponse(r.made, true)] == before + ResponseCalls(r.made + 1);
    }
  }

  lemma AttemptKeepsTrace(n: nat, ok: bool)
    ensures RequestCalls(n) + [Backend(ok)] == Tried(n, ok) + ResponseCalls(0) == Tried(n, ok)
  {
  }

  lemma StepKeepsTraces(s: State, step: Step)
    requires TracesRight(s) && Can(s, step)
    ensures TracesRight(Do(s, step))
  {
    var s' := Do(s, step);
    AttemptKeepsTrace(s.chain, true);
    AttemptKeepsTrace(s.chain, false);
    forall q | 0 <= q < |s'.requests| ensures TraceRight(s'.requests[q], s'.chain, s'.traces[q]) {
      assert TraceRight(s.requests[q], s.chain, s.traces[q]);
      if step.CallOnRequest? || step.CallOnResponse? {
        if q == step.r {
          CallKeepsTrace(s.requests[q], s.chain, s.traces[q], step.ok);
        }
      }
    }
  }

  // ---------- reported averages ----------

  lemma StepKeepsReaders(s: State, step: Step)
    requires ReadersRight(s) && CountsRight(s) && Can(s, step)
    ensures ReadersRight(Do(s, step))
  {
    var s' := Do(s, step);
    SumMonotone(CountedTime, AddedTime, s.requests);
    forall a | 0 <= a < |s'.readers| ensures ReaderRight(s'.readers[a], s'.time) {
      assert ReaderRight(s.readers[a], s.time);
    }
  }

  // ---------- runs ----------

  ghost predicate Inv(s: State) {
    CountsRight(s) && ScoreRight(s) && SamplesRight(s) && ReadersRight(s) && TracesRight(s)
  }

  ghost predicate IsRun(run: seq<State>) {
    && run != [] && Init(run[0])
    && forall t :: 0 <= t < |run| - 1 ==> StepAt(run, t)
  }

  ghost predicate StepAt(run: seq<State>, t: nat)
    requires t + 1 < |run|
  {
    Follows(run[t], run[t + 1])
  }

  ghost predicate Follows(s: State, s': State) {
    exists step :: Can(s, step) && s' == Do(s, step)
  }

  lemma {:induction false} NothingYet(f: Request -> nat, requests: seq<Request>)
    requires f(NotStarted) == 0 && forall r :: 0 <= r < |requests| ==> requests[r] == NotStarted
    ensures Sum(f, requests) == 0
  {
    if requests != [] {
      NothingYet(f, requests[..|requests| - 1]);
    }
  }

  lemma InitInv(s: State)
    requires Init(s)
    ensures Inv(s)
  {
    NothingYet(Started, s.requests);
    NothingYet(Counted, s.requests);
    NothingYet(AddedTime, s.requests);
    NothingYet(Scored, s.requests);
  }

  lemma {:induction false} RunInv(run: seq<State>, t: nat)
    requires IsRun(run) && t < |run|
    ensures Inv(run[t])
  {
    if t == 0 {
      InitInv(run[0]);
    } else {
      RunInv(run, t - 1);
      assert StepAt(run, t - 1);
      var step :| Can(run[t - 1], step) && run[t] == Do(run[t - 1], step);
      StepKeepsCounts(run[t - 1], step);
      StepKeepsScore(run[t - 1], step);
      StepKeepsSamples(run[t - 1], step);
      StepKeepsReaders(run[t - 1], step);
      StepKeepsTraces(run[t - 1], step);
    }
  }

  // ---------- the guarantees ----------

  /** In every interleaving of requests and resets: the score is the sequential fold of the samples
      in the order of their compare-and-swaps since the last reset, and a request's sample has been
      applied exactly once when its recording is over, and not before. */
  lemma ScoreIsLinearizable(run: seq<State>, t: nat)
    requires IsRun(run) && t < |run|
    ensures var s := run[t];
            && s.score == Fold(s.sinceReset) && |s.sinceReset| <= |s.applied|
            && (forall i :: 0 <= i < |s.sinceReset|
                  ==> s.sinceReset[i] == s.applied[|s.applied| - |s.sinceReset| + i].micros)
            && forall r :: 0 <= r < |s.requests| ==> Times(s.applied, r) == Scored(s.requests[r])
  {
    RunInv(run, t);
  }

  /** The first sample after a reset stands alone. */
  lemma FirstSampleStandsAlone(run: seq<State>, t: nat)
    requires IsRun(run) && t < |run| && |run[t].sinceReset| == 1
    ensures run[t].score == run[t].sinceReset[0]
  {
    RunInv(run, t);
    assert run[t].sinceReset == [] + [run[t].sinceReset[0]];
    FoldExtend([], run[t].sinceReset[0]);
  }

  /** The request behind the i-th sample since the last reset. */
  function SampledRequest(s: State, i: nat): (r: Option<Request>) {
    if i < |s.sinceReset| <= |s.applied| then
      var sample := s.applied[|s.applied| - |s.sinceReset| + i];
      if sample.request < |s.requests| then Some(s.requests[sample.request]) else None
    else None
  }

  predicate TookNoTime(r: Option<Request>) {
    r.Some? && r.value.ReturnedNil? && r.value.elapsed == 0
  }

  lemma SampleMeaning(s: State, i: nat)
    requires Inv(s) && i < |s.sinceReset|
    ensures SampledRequest(s, i).Some? && s.sinceReset[i] >= 0.0
    ensures s.sinceReset[i] == 0.0 <==> TookNoTime(SampledRequest(s, i))
    ensures FailedAttempt(SampledRequest(s, i).value) == 1 ==> s.sinceReset[i] >= 10_000_000.0
  {
    assert SampleRight(s.requests, s.applied[|s.applied| - |s.sinceReset| + i]);
  }

  /** A Backend reads as unmeasured exactly when every request sampled since the last reset succeeded
      in 0 nanoseconds, and right after a failed attempt it reads as at least 2000 milliseconds. */
  lemma ScoreMeaning(run: seq<State>, t: nat)
    requires IsRun(run) && t < |run|
    ensures var s := run[t];
            && (s.score == 0.0 <==> forall i :: 0 <= i < |s.sinceReset| ==> TookNoTime(SampledRequest(s, i)))
            && (s.sinceReset != [] ==>
                  var last := SampledRequest(s, |s.sinceReset| - 1);
                  last.Some? && (FailedAttempt(last.value) == 1 ==> s.score / 1000.0 >= 2000.0))
  {
    RunInv(run, t);
    var s := run[t];
    forall i | 0 <= i < |s.sinceReset|
      ensures s.sinceReset[i] >= 0.0 && (s.sinceReset[i] == 0.0 <==> TookNoTime(SampledRequest(s, i)))
    {
      SampleMeaning(s, i);
    }
    UnmeasuredIffNoTimePassed(s.sinceReset);
    if s.sinceReset != [] {
      SampleMeaning(s, |s.sinceReset| - 1);
      UnmeasuredIffNoTimePassed(s.sinceReset[..|s.sinceReset| - 1]);
    }
  }

  // ---------- times ----------

  /** The request's time is set, and it is that of a failed attempt or not. */
  predicate HasTime(r: Request, failed: bool, elapsed: nat) {
    match r
    case TimeAdded(e) => !failed && e == elapsed
    case Scoring(f, e, _, _, _) => f == failed && e == elapsed
    case Failed(e, _) => failed && e == elapsed
    case ReturnedNil(e) => !failed && e == elapsed
    case ReturnedError(f, e) => f && failed && e == elapsed
    case _ => false
  }

  /** The step from state v on ends request q's time, at `elapsed` nanoseconds: its attempt fails, or
      its answer is recorded. */
  ghost predicate EndedAt(run: seq<State>, v: nat, q: nat, failed: bool, elapsed: nat) {
    && v + 1 < |run|
    && var step := if failed then AttemptFails(q, elapsed) else AddTime(q, elapsed);
       Can(run[v], step) && run[v + 1] == Do(run[v], step)
  }

  function SampledNanos(failed: bool, elapsed: nat): nat {
    if failed && elapsed < 10_000_000_000 then 10_000_000_000 else elapsed
  }

  lemma OthersStay(s: State, step: Step, q: nat)
    requires Can(s, step) && q < |s.requests| && Mover(step) != Some(q)
    ensures q < |Do(s, step).requests| && Do(s, step).requests[q] == s.requests[q]
  {
  }

  /** Once set, a time stays; it is set by the step that ends it. */
  lemma OwnTimeStep(s: State, step: Step, q: nat, failed: bool, nanos: nat)
    requires Can(s, step) && Mover(step) == Some(q) && HasTime(Do(s, step).requests[q], failed, nanos)
    ensures || HasTime(s.requests[q], failed, nanos)
            || (failed && step.AttemptFails? && nanos == SampledNanos(failed, step.elapsed))
            || (!failed && step.AddTime? && nanos == SampledNanos(failed, step.elapsed))
  {
  }

  lemma SameLength(s: State, step: Step)
    requires Can(s, step)
    ensures |Do(s, step).requests| == |s.requests|
  {
  }

  lemma TimeStep(s: State, s': State, q: nat, failed: bool, nanos: nat) returns (elapsed: nat)
    requires Follows(s, s') && q < |s'.requests| && HasTime(s'.requests[q], failed, nanos)
    ensures q < |s.requests|
    ensures || HasTime(s.requests[q], failed, nanos)
            || (nanos == SampledNanos(failed, elapsed)
                && var step := if failed then AttemptFails(q, elapsed) else AddTime(q, elapsed);
                   Can(s, step) && s' == Do(s, step))
  {
    var step :| Can(s, step) && s' == Do(s, step);
    elapsed := if step.AttemptFails? || step.AddTime? then step.elapsed else 0;
    SameLength(s, step);
    if Mover(step) == Some(q) {
      OwnTimeStep(s, step, q, failed, nanos);
    } else {
      OthersStay(s, step, q);
    }
  }

  lemma {:induction false} FindTime(run: seq<State>, t: nat, q: nat, failed: bool, nanos: nat)
      returns (v: nat, elapsed: nat)
    requires IsRun(run) && t < |run| && q < |run[t].requests| && HasTime(run[t].requests[q], failed, nanos)
    ensures v < t && EndedAt(run, v, q, failed, elapsed) && nanos == SampledNanos(failed, elapsed)
  {
    assert t > 0;
    assert StepAt(run, t - 1);
    elapsed := TimeStep(run[t - 1], run[t], q, failed, nanos);
    if HasTime(run[t - 1].requests[q], failed, nanos) {
      v, elapsed := FindTime(run, t - 1, q, failed, nanos);
    } else {
      v := t - 1;
    }
  }

  /** Each sample is, to the nanosecond, the time that its request had when its attempt failed or its
      answer was recorded; a failure counts as ten seconds if it took less. */
  lemma SamplesAreTheRequestsTimes(run: seq<State>, t: nat, i: nat) returns (v: nat, failed: bool, elapsed: nat)
    requires IsRun(run) && t < |run| && i < |run[t].applied|
    ensures var sample := run[t].applied[i];
            && v < t && EndedAt(run, v, sample.request, failed, elapsed)
            && 1000.0 * sample.micros
               == (if failed && elapsed < 10_000_000_000 then 10_000_000_000 else elapsed) as real
            && sample.request < |run[t].requests| && (failed <==> FailedAttempt(run[t].requests[sample.request]) == 1)
  {
    RunInv(run, t);
    var sample := run[t].applied[i];
    assert SampleRight(run[t].requests, sample);
    var r := run[t].requests[sample.request];
    failed := !r.ReturnedNil?;
    v, elapsed := FindTime(run, t, sample.request, failed, r.elapsed);
  }

  // ---------- retries ----------

  predicate HoldsScore(s: State, q: nat, x: real) {
    q < |s.requests| && s.requests[q].Scoring? && s.requests[q].loaded == Some(x)
  }

  /** Request q loaded its score in the step from state u, and has held it since. */
  ghost predicate ScoreLoadedAt(run: seq<State>, q: nat, t: nat, u: nat) {
    && u < t < |run| && Can(run[u], LoadScore(q)) && run[u + 1] == Do(run[u], LoadScore(q))
    && forall v :: u < v <= t ==> HoldsScore(run[v], q, run[u].score)
  }

  lemma OwnLoad(s: State, step: Step, q: nat, x: real)
    requires Can(s, step) && Mover(step) == Some(q) && HoldsScore(Do(s, step), q, x)
    ensures step == LoadScore(q) && s.score == x
  {
  }

  lemma HoldStep(s: State, s': State, q: nat, x: real)
    requires Follows(s, s') && HoldsScore(s', q, x)
    ensures HoldsScore(s, q, x) || (Can(s, LoadScore(q)) && s' == Do(s, LoadScore(q)) && s.score == x)
  {
    var step :| Can(s, step) && s' == Do(s, step);
    SameLength(s, step);
    if Mover(step) == Some(q) {
      OwnLoad(s, step, q, x);
    } else {
      OthersStay(s, step, q);
    }
  }

  lemma {:induction false} FindScoreLoad(run: seq<State>, t: nat, q: nat, x: real) returns (u: nat)
    requires IsRun(run) && t < |run| && HoldsScore(run[t], q, x)
    ensures ScoreLoadedAt(run, q, t, u) && run[u].score == x
  {
    assert t > 0;
    assert StepAt(run, t - 1);
    HoldStep(run[t - 1], run[t], q, x);
    if HoldsScore(run[t - 1], q, x) {
      u := FindScoreLoad(run, t - 1, q, x);
    } else {
      u := t - 1;
    }
  }

  /** A compare-and-swap fails exactly when the stored score is another one than at this request's
      load; the request itself has stored nothing in between. */
  lemma FailedSwapMeansAChange(run: seq<State>, t: nat, q: nat) returns (u: nat)
    requires IsRun(run) && t < |run| && Can(run[t], Swap(q))
    ensures ScoreLoadedAt(run, q, t, u)
    ensures !StoresSample(run[t], Swap(q)) <==> run[t].score != run[u].score
  {
    u := FindScoreLoad(run, t, q, run[t].requests[q].loaded.value);
  }

  /** No request retries more often than the score has changed. */
  lemma RetriesArePaidFor(run: seq<State>, t: nat, r: nat)
    requires IsRun(run) && t < |run| && r < |run[t].requests| && run[t].requests[r].Scoring?
    ensures run[t].requests[r].retries <= run[t].changes
    ensures run[t].requests[r].loaded.Some? && run[t].requests[r].loaded.value != run[t].score
        ==> run[t].requests[r].seen < run[t].changes
  {
    RunInv(run, t);
    assert LoopRight(run[t].requests[r], run[t].score, run[t].changes);
  }

  predicate AtRest(r: Request) {
    r.NotStarted? || r.ReturnedNil? || r.ReturnedError?
  }

  ghost predicate Quiet(s: State) {
    forall r :: 0 <= r < |s.requests| ==> AtRest(s.requests[r])
  }

  lemma {:induction false} SumEqual(f: Request -> nat, g: Request -> nat, h: Request -> nat, requests: seq<Request>)
    requires forall r :: 0 <= r < |requests| ==> f(requests[r]) == g(requests[r]) + h(requests[r])
    ensures Sum(f, requests) == Sum(g, requests) + Sum(h, requests)
  {
    if requests != [] {
      SumEqual(f, g, h, requests[..|requests| - 1]);
    }
  }

  function Zero(r: Request): nat { 0 }

  lemma {:induction false} SumZero(requests: seq<Request>)
    ensures Sum(Zero, requests) == 0
  {
    if requests != [] {
      SumZero(requests[..|requests| - 1]);
    }
  }

  lemma NumberOfOneMore(p: Request -> bool, requests: seq<Request>, last: Request)
    ensures Number(p, requests + [last]) == Number(p, requests) + if p(last) then 1 else 0
  {
    var n, all := |requests|, requests + [last];
    var before, now := set q | 0 <= q < n && p(requests[q]), set q | 0 <= q < |all| && p(all[q]);
    assert now == before + if p(last) then {n} else {};
  }

  lemma {:induction false} SumIsNumber(f: Request -> nat, p: Request -> bool, requests: seq<Request>)
    requires forall r :: f(r) == if p(r) then 1 else 0
    ensures Sum(f, requests) == Number(p, requests)
  {
    if requests != [] {
      var before, last := requests[..|requests| - 1], requests[|requests| - 1];
      SumIsNumber(f, p, before);
      NumberOfOneMore(p, before, last);
      assert requests == before + [last];
    }
  }

  /** How many of the requests are like this. */
  ghost function Number(p: Request -> bool, requests: seq<Request>): nat {
    |set q | 0 <= q < |requests| && p(requests[q])|
  }

  /** totalRequestCount is the number of requests that have started; when no request is under way, the
      measured ones are the nil returns, and the score updates are as many as those and the failed
      backend attempts. */
  lemma CountersAgree(run: seq<State>, t: nat)
    requires IsRun(run) && t < |run|
    ensures run[t].total == Number((r: Request) => r != NotStarted, run[t].requests)
    ensures Quiet(run[t]) ==>
      && run[t].measured == Number((r: Request) => r.ReturnedNil?, run[t].requests)
      && |run[t].applied|
         == run[t].measured + Number((r: Request) => r.ReturnedError? && r.attemptFailed, run[t].requests)
  {
    RunInv(run, t);
    SumIsNumber(Started, (r: Request) => r != NotStarted, run[t].requests);
    if Quiet(run[t]) {
      CountersAtRest(run[t]);
    }
  }

  lemma CountersAtRest(s: State)
    requires CountsRight(s) && Quiet(s)
    ensures s.measured == Sum(Nil, s.requests) == Number((r: Request) => r.ReturnedNil?, s.requests)
    ensures |s.applied| == s.measured + Number((r: Request) => r.ReturnedError? && r.attemptFailed, s.requests)
  {
    SumZero(s.requests);
    SumEqual(Counted, Nil, Zero, s.requests);
    SumEqual(Scored, Nil, FailedAtRest, s.requests);
    SumIsNumber(Nil, (r: Request) => r.ReturnedNil?, s.requests);
    SumIsNumber(FailedAtRest, (r: Request) => r.ReturnedError? && r.attemptFailed, s.requests);
  }

  function FailedAtRest(r: Request): nat {
    if r.ReturnedError? && r.attemptFailed then 1 else 0
  }

  /** What AvgResponseTime returns, in milliseconds. */
  function Average(count: nat, time: nat): (r: real)
    ensures count == 0 ==> r == 0.0
    ensures count > 0 ==> r * count as real * 1000.0 == time as real
  {
    if count == 0 then 0.0 else time as real / 1000.0 / count as real
  }

  predicate HasLoaded(reader: Reader, count: nat, due: nat) {
    (reader.GotCount? || reader.Reported?) && reader.count == count && reader.due == due
  }

  /** Whose times a reader's average has to cover: the requests counted when it loaded the count. */
  ghost predicate CountedThen(s: State, count: nat, due: nat) {
    count == s.measured == Sum(Counted, s.requests) && due == Sum(CountedTime, s.requests)
  }

  lemma LoadStep(s: State, s': State, a: nat, count: nat, due: nat)
    requires CountsRight(s) && Follows(s, s') && a < |s'.readers| && HasLoaded(s'.readers[a], count, due) && count > 0
    ensures a < |s.readers| && (HasLoaded(s.readers[a], count, due) || CountedThen(s, count, due))
  {
  }

  lemma {:induction false} FindCountLoad(run: seq<State>, t: nat, a: nat, count: nat, due: nat) returns (u: nat)
    requires IsRun(run) && t < |run| && a < |run[t].readers| && HasLoaded(run[t].readers[a], count, due) && count > 0
    ensures u < t && CountedThen(run[u], count, due)
  {
    assert t > 0;
    RunInv(run, t - 1);
    assert StepAt(run, t - 1);
    LoadStep(run[t - 1], run[t], a, count, due);
    if HasLoaded(run[t - 1].readers[a], count, due) {
      u := FindCountLoad(run, t - 1, a, count, due);
    } else {
      u := t - 1;
    }
  }

  /** The mean time, in milliseconds, of the requests that are counted. */
  function MeanOfCounted(requests: seq<Request>): real {
    Average(Sum(Counted, requests), Sum(CountedTime, requests))
  }

  lemma LongerTimeLongerAverage(count: nat, due: nat, time: nat)
    requires count > 0 && due <= time
    ensures Average(count, due) <= Average(count, time)
  {
    Distribute(Average(count, time), Average(count, due), count as real);
    PositiveFactor(Average(count, time) - Average(count, due), count as real);
  }

  /** Read count first, written last: a reported average is at least the mean of exactly those
      requests whose number the reader divided by, the ones counted at its first load. */
  lemma AverageNeverUnderReports(run: seq<State>, t: nat, a: nat) returns (u: nat)
    requires IsRun(run) && t < |run| && a < |run[t].readers| && run[t].readers[a].Reported?
    requires run[t].readers[a].count > 0
    ensures u < t && run[t].readers[a].count == Sum(Counted, run[u].requests)
    ensures Average(run[t].readers[a].count, run[t].readers[a].time) >= MeanOfCounted(run[u].requests)
  {
    RunInv(run, t);
    var reader := run[t].readers[a];
    assert ReaderRight(reader, run[t].time);
    u := FindCountLoad(run, t, a, reader.count, reader.due);
    LongerTimeLongerAverage(reader.count, reader.due, reader.time);
  }

  lemma {:induction false} TruncationLoss(requests: seq<Request>)
    requires forall r :: 0 <= r < |requests| ==> AtRest(requests[r])
    ensures 1000 * Sum(AddedTime, requests) <= Sum(Nanos, requests)
    ensures Sum(Nanos, requests) <= 1000 * Sum(AddedTime, requests) + 999 * Sum(Nil, requests)
  {
    if requests != [] {
      TruncationLoss(requests[..|requests| - 1]);
      assert AtRest(requests[|requests| - 1]);
    }
  }

  lemma MeanBounds(count: nat, micros: nat, nanos: nat)
    requires count > 0 && 1000 * micros <= nanos <= 1000 * micros + 999 * count
    ensures Average(count, micros) <= nanos as real / 1_000_000.0 / count as real < Average(count, micros) + 0.001
  {
    var c, m, n := count as real, micros as real / 1000.0, nanos as real / 1_000_000.0;
    assert m <= n <= m + 0.000999 * c;
    assert n - m <= 0.000999 * c;
    Divide(m, n, c);
  }

  lemma Divide(m: real, n: real, c: real)
    requires c > 0.0 && m <= n <= m + 0.000999 * c
    ensures m / c <= n / c <= m / c + 0.000999
  {
    var p, q := m / c, n / c;
    assert p * c == m;
    assert q * c == n;
    Distribute(q, p, c);
    PositiveFactor(q - p, c);
    Distribute(p + 0.000999, q, c);
    Distribute(p, -0.000999, c);
    PositiveFactor(p + 0.000999 - q, c);
  }

  lemma Distribute(p: real, e: real, c: real)
    ensures (p - e) * c == p * c - e * c
  {
  }

  lemma PositiveFactor(d: real, c: real)
    requires c > 0.0 && d * c >= 0.0
    ensures d >= 0.0
  {
  }

  /** With no request under way the average is the mean of the truncated times, less than one
      microsecond below the true mean. */
  lemma QuietAverageIsTheMean(run: seq<State>, t: nat)
    requires IsRun(run) && t < |run| && Quiet(run[t]) && run[t].measured > 0
    ensures run[t].measured == Sum(Nil, run[t].requests) && run[t].time == Sum(AddedTime, run[t].requests)
    ensures Average(run[t].measured, run[t].time)
         <= Sum(Nanos, run[t].requests) as real / 1_000_000.0 / run[t].measured as real
          < Average(run[t].measured, run[t].time) + 0.001
  {
    RunInv(run, t);
    CountersAtRest(run[t]);
    TruncationLoss(run[t].requests);
    MeanBounds(run[t].measured, run[t].time, Sum(Nanos, run[t].requests));
  }

  /** In a stretch without a request under way, what reader a has loaded is what the counters hold. */
  ghost predicate InStep(s: State, a: nat) {
    a < |s.readers|
    && match s.readers[a]
       case Idle => true
       case GotCount(count, _) => count == s.measured > 0
       case Reported(count, _, time) => count == s.measured && (count > 0 ==> time == s.time)
  }

  lemma MoversAreUnderWay(s: State, step: Step)
    requires Can(s, step) && Mover(step).Some?
    ensures !(AtRest(s.requests[step.r]) && AtRest(Do(s, step).requests[step.r]))
  {
  }

  lemma QuietStep(s: State, s': State, a: nat)
    requires Quiet(s) && Quiet(s') && Follows(s, s') && InStep(s, a)
    ensures s'.requests == s.requests && s'.measured == s.measured && s'.time == s.time && InStep(s', a)
  {
    var step :| Can(s, step) && s' == Do(s, step);
    if Mover(step).Some? {
      MoversAreUnderWay(s, step);
      assert false;
    }
  }

  lemma {:induction false} QuietStretch(run: seq<State>, u: nat, t: nat, a: nat)
    requires IsRun(run) && u <= t < |run| && InStep(run[u], a)
    requires forall x :: u <= x <= t ==> Quiet(run[x])
    ensures InStep(run[t], a)
    decreases t
  {
    if u < t {
      QuietStretch(run, u, t - 1, a);
      assert StepAt(run, t - 1);
      QuietStep(run[t - 1], run[t], a);
    }
  }

  /** So a reader whose two loads fall into a stretch with no request under way reports that mean. */
  lemma QuietReaderReportsTheMean(run: seq<State>, u: nat, t: nat, a: nat)
    requires IsRun(run) && u <= t < |run| && a < |run[u].readers| && run[u].readers[a].Idle?
    requires forall x :: u <= x <= t ==> Quiet(run[x])
    requires a < |run[t].readers| && run[t].readers[a].Reported? && run[t].measured > 0
    ensures var reported := Average(run[t].readers[a].count, run[t].readers[a].time);
            reported <= Sum(Nanos, run[t].requests) as real / 1_000_000.0 / run[t].measured as real < reported + 0.001
    ensures run[t].readers[a].count == Sum(Nil, run[t].requests)
  {
    QuietStretch(run, u, t, a);
    QuietAverageIsTheMean(run, t);
  }

  // ---------- what each request has done ----------

  /** In every interleaving, a request that is over has made OnRequest calls up to the first error;
      or all of them, one backend attempt, and OnResponse calls up to the first error. It returned nil
      exactly when all went well, and it has scored a failure exactly when its attempt failed. */
  lemma TracesAreLegal(run: seq<State>, t: nat, r: nat)
    requires IsRun(run) && t < |run| && r < |run[t].requests|
    requires AtRest(run[t].requests[r]) && !run[t].requests[r].NotStarted?
    ensures |run[t].traces| == |run[t].requests|
    ensures var pc, n, trace := run[t].requests[r], run[t].chain, run[t].traces[r];
            && Finished(trace, n) && InOrder(trace) && Attempts(trace) <= 1
            && (pc.ReturnedNil? <==> trace == Tried(n, true) + ResponseCalls(n))
            && (FailedAttempt(pc) == 1 <==> Backend(false) in trace)
  {
    RunInv(run, t);
    var pc, n, trace := run[t].requests[r], run[t].chain, run[t].traces[r];
    assert TraceRight(pc, n, trace);
    BackendIsTriedOnce(trace, n);
    EndOfTrace(pc, n, trace);
  }

  lemma EndOfTrace(pc: Request, n: nat, trace: seq<Event>)
    requires TraceRight(pc, n, trace) && (pc.ReturnedNil? || pc.ReturnedError?)
    ensures Finished(trace, n)
    ensures pc.ReturnedNil? <==> trace == Tried(n, true) + ResponseCalls(n)
    ensures FailedAttempt(pc) == 1 <==> Backend(false) in trace
  {
    if pc.ReturnedNil? {
      NoFailedAttempt(n, true, ResponseCalls(n));
    } else if !pc.attemptFailed && RefusedBefore(trace, n) {
      var k: nat :| k < n && trace == RequestCalls(k) + [OnRequest(k, false)];
      assert trace[k] == OnRequest(k, false) && (Tried(n, true) + ResponseCalls(n))[k] == OnRequest(k, true);
    } else if RefusedAfter(trace, n, !pc.attemptFailed) {
      var k: nat :| k < n && trace == Tried(n, !pc.attemptFailed) + ResponseCalls(k) + [OnResponse(k, false)];
      assert trace == Tried(n, !pc.attemptFailed) + (ResponseCalls(k) + [OnResponse(k, false)]);
      NoFailedAttempt(n, !pc.attemptFailed, ResponseCalls(k) + [OnResponse(k, false)]);
      assert trace[n + 1 + k] == OnResponse(k, false);
      assert (Tried(n, true) + ResponseCalls(n))[n + 1 + k] == OnResponse(k, true);
    } else {
      NoFailedAttempt(n, false, ResponseCalls(n));
      assert trace[n] == Backend(false) && (Tried(n, true) + ResponseCalls(n))[n] == Backend(true);
    }
  }

  lemma NoFailedAttempt(n: nat, ok: bool, rest: seq<Event>)
    requires forall i :: 0 <= i < |rest| ==> rest[i].OnResponse?
    ensures Backend(false) in Tried(n, ok) + rest <==> !ok
  {
    assert (Tried(n, ok) + rest)[n] == Backend(ok);
  }

  // ---------- what a reset promises ----------

  lemma OneStepLonger(run: seq<State>, step: Step) returns (run': seq<State>)
    requires IsRun(run) && Can(run[|run| - 1], step)
    ensures IsRun(run') && run' == run + [Do(run[|run| - 1], step)]
  {
    run' := run + [Do(run[|run| - 1], step)];
    forall t | 0 <= t < |run'| - 1 ensures StepAt(run', t) {
      if t == |run| - 1 {
        assert Can(run'[t], step);
      } else {
        assert StepAt(run, t) && run'[t] == run[t] && run'[t + 1] == run[t + 1];
      }
    }
  }

  /** The request has begun, and its sample may still come. */
  predicate InFlight(r: Request) {
    r.Arrived? || r.Answered? || r.TimeAdded? || r.Scoring?
  }

  ghost predicate StoresIn(run: seq<State>, later: seq<State>, q: nat)
    requires run != []
  {
    IsRun(run + later) && Times(Last(run + later).applied, q) > Times(Last(run).applied, q)
  }

  ghost predicate CanStillStore(run: seq<State>, q: nat)
    requires run != []
  {
    exists later :: StoresIn(run, later, q)
  }

  function Last(run: seq<State>): State
    requires run != []
  {
    run[|run| - 1]
  }

  predicate Over(s: State, q: nat) {
    q < |s.requests| && !s.requests[q].NotStarted? && !InFlight(s.requests[q])
  }

  lemma OverStep(s: State, s': State, q: nat)
    requires Over(s, q) && Follows(s, s')
    ensures Over(s', q) && Times(s'.applied, q) == Times(s.applied, q)
  {
    var step :| Can(s, step) && s' == Do(s, step);
    if StoresSample(s, step) {
      TimesExtend(s.applied, Sample(step.r, DurationMicros(s.requests[step.r].elapsed)), q);
    } else {
      OtherStepsStoreNothing(s, step, q);
    }
  }

  lemma {:induction false} OverStaysOver(run: seq<State>, t: nat, u: nat, q: nat)
    requires IsRun(run) && t <= u < |run| && Over(run[t], q)
    ensures Over(run[u], q) && Times(run[u].applied, q) == Times(run[t].applied, q)
    decreases u
  {
    if t < u {
      OverStaysOver(run, t, u - 1, q);
      assert StepAt(run, u - 1);
      OverStep(run[u - 1], run[u], q);
    }
  }

  /** How request q gets to its compare-and-swap, if all its calls end well but its attempt fails. */
  function NextStep(s: State, q: nat): Step
    requires q < |s.requests|
  {
    match s.requests[q]
    case Arrived(made) => if made < s.chain then CallOnRequest(q, true) else AttemptFails(q, 0)
    case Answered(made) => if made < s.chain then CallOnResponse(q, true) else AddTime(q, 0)
    case TimeAdded(_) => AddCount(q)
    case Scoring(_, _, loaded, _, _) => if loaded.None? then LoadScore(q) else Swap(q)
    case _ => Arrive(q)
  }

  function Distance(s: State, q: nat): nat
    requires q < |s.requests|
  {
    match s.requests[q]
    case Scoring(_, _, loaded, _, _) => if loaded.None? then 2 else if loaded.value == s.score then 1 else 3
    case TimeAdded(_) => 4
    case Answered(made) => 5 + if made < s.chain then s.chain - made else 0
    case Arrived(made) => 6 + if made < s.chain then s.chain - made else 0
    case _ => 0
  }

  lemma InFlightStep(s: State, q: nat)
    requires TracesRight(s) && q < |s.requests| && InFlight(s.requests[q])
    ensures Can(s, NextStep(s, q))
    ensures var s' := Do(s, NextStep(s, q));
            && |s'.requests| == |s.requests|
            && if StoresSample(s, NextStep(s, q)) then Times(s'.applied, q) == Times(s.applied, q) + 1
               else InFlight(s'.requests[q]) && s'.applied == s.applied && Distance(s', q) < Distance(s, q)
  {
    assert TraceRight(s.requests[q], s.chain, s.traces[q]);
    if StoresSample(s, NextStep(s, q)) {
      TimesExtend(s.applied, Sample(q, DurationMicros(s.requests[q].elapsed)), q);
    }
  }

  lemma StoresOneStepSooner(run: seq<State>, s': State, rest: seq<State>, q: nat)
    requires run != [] && Times(s'.applied, q) == Times(Last(run).applied, q) && StoresIn(run + [s'], rest, q)
    ensures StoresIn(run, [s'] + rest, q)
  {
    assert run + [s'] + rest == run + ([s'] + rest);
  }

  lemma {:induction false} InFlightStores(run: seq<State>, q: nat) returns (later: seq<State>)
    requires IsRun(run) && q < |Last(run).requests| && InFlight(Last(run).requests[q])
    ensures StoresIn(run, later, q)
    decreases Distance(Last(run), q)
  {
    var s := Last(run);
    RunInv(run, |run| - 1);
    InFlightStep(s, q);
    var s' := Do(s, NextStep(s, q));
    var run' := OneStepLonger(run, NextStep(s, q));
    if StoresSample(s, NextStep(s, q)) {
      later := [s'];
    } else {
      var rest := InFlightStores(run', q);
      StoresOneStepSooner(run, s', rest, q);
      later := [s'] + rest;
    }
  }

  /** A request that began before a reset can store its sample after it if and only if it was in
      flight at the reset. */
  lemma StragglerIffInFlight(run: seq<State>, q: nat)
    requires IsRun(run) && q < |Last(run).requests| && !Last(run).requests[q].NotStarted?
    ensures CanStillStore(run + [Do(Last(run), Reset)], q) <==> InFlight(Last(run).requests[q])
  {
    var reset := OneStepLonger(run, Reset);
    if InFlight(Last(run).requests[q]) {
      var later := InFlightStores(reset, q);
    } else {
      forall later | IsRun(reset + later) ensures !StoresIn(reset, later, q) {
        OverStaysOver(reset + later, |reset| - 1, |reset + later| - 1, q);
      }
    }
  }

  ghost predicate Began(s: State, q: nat) {
    q < |s.requests| && !s.requests[q].NotStarted?
  }

  /** So a reset fences off the past exactly when it falls into a moment with no request in flight. */
  lemma ResetFencesIffNothingInFlight(run: seq<State>)
    requires IsRun(run)
    ensures (forall q: nat :: Began(Last(run), q) ==> !CanStillStore(run + [Do(Last(run), Reset)], q))
       <==> (forall q: nat :: Began(Last(run), q) ==> !InFlight(Last(run).requests[q]))
  {
    forall q: nat | Began(Last(run), q)
      ensures CanStillStore(run + [Do(Last(run), Reset)], q) <==> InFlight(Last(run).requests[q])
    {
      StragglerIffInFlight(run, q);
    }
  }

  /** A Rejoin resets the score so that the Backend reads as unmeasured, but a request that failed
      before the reset may still store its penalty after it. */
  lemma ResetDoesNotFenceStragglers() returns (run: seq<State>)
    ensures IsRun(run) && |run| == 6
    ensures |run[3].requests| == 1 && run[3].requests[0].Scoring? && run[3].requests[0].failed
    ensures run[4] == Do(run[3], Reset) && run[4].score == 0.0 && run[5].score == 10_000_000.0
  {
    var s := State(0, 0, 0, 0.0, 0, [NotStarted], [[]], [], [], [], 0);
    run := [s];
    run := OneStepLonger(run, Arrive(0));
    run := OneStepLonger(run, AttemptFails(0, 0));
    run := OneStepLonger(run, LoadScore(0));
    run := OneStepLonger(run, Reset);
    run := OneStepLonger(run, Swap(0));
  }
}
