/** The guarantees of a rotation balancer, over all runs: every interleaving of the checker, the
    requests and the Shutdown calls. */
module BalancerRuns {
  import opened Rotation
  import opened TicketCounting
  import opened BalancerProtocol
  import opened BalancerSafety
  import opened BalancerShutdown
  import RoundRobin
  import opened LeastAlgorithm

  ghost predicate Inv(cfg: Config, s: State) {
    RotationInv(cfg, s) && RoundInv(s) && SelectionInv(cfg, s) && StopInv(s) && LogInv(s)
    && ClosesInv(cfg, s) && ResetInv(cfg, s)
  }

  lemma InitInv(cfg: Config, s: State)
    requires Init(cfg, s)
    ensures Inv(cfg, s)
  {
    RotationInit(cfg, s);
    SelectionInit(cfg, s);
    StopInit(cfg, s);
  }

  lemma FollowsInv(cfg: Config, s: State, s': State)
    requires Inv(cfg, s) && Follows(cfg, s, s')
    ensures Inv(cfg, s')
  {
    var step :| Can(cfg, s, step) && s' == Do(cfg, s, step);
    StepKeepsRotation(cfg, s, step);
    StepKeepsRound(cfg, s, step);
    StepKeepsSelections(cfg, s, step);
    StepKeepsStop(cfg, s, step);
    StepKeepsLog(cfg, s, step);
    StepKeepsCloses(cfg, s, step);
    StepKeepsResets(cfg, s, step);
  }

  lemma {:induction false} RunInv(cfg: Config, run: seq<State>, t: nat)
    requires IsRun(cfg, run) && t < |run|
    ensures Inv(cfg, run[t])
  {
    if t == 0 {
      InitInv(cfg, run[0]);
    } else {
      RunInv(cfg, run, t - 1);
      assert StepAt(cfg, run, t - 1);
      FollowsInv(cfg, run[t - 1], run[t]);
    }
  }

  // ---------- rotation and liveness ----------

  /** At every moment the current slice holds each Alive Backend as often as its weight says and no
      Down Backend, except for the one Backend whose flag the checker is about to set. */
  lemma RotationFollowsLiveness(cfg: Config, run: seq<State>, t: nat, k: nat)
    requires IsRun(cfg, run) && t < |run| && k < |cfg.weights|
    requires !(run[t].checker.Flagging? && run[t].checker.i == k)
    ensures run[t].published != [] && k < |run[t].alive|
    ensures multiset(Current(run[t]))[k] == if run[t].alive[k] then cfg.weights[k] else 0
  {
    RunInv(cfg, run, t);
    var s := run[t];
    assert SnapshotRight(cfg, s.published, s.rotations, |s.published| - 1);
    assert Holds(Last(s.published), cfg.weights, Last(s.rotations), k);
  }

  // ---------- rounds ----------

  /** The step from state v on is Backend k's Probe answering `up`. */
  ghost predicate AnswerOf(cfg: Config, run: seq<State>, v: nat, k: nat, up: bool)
    requires v + 1 < |run|
  {
    && run[v].checker == Probing(k) && CheckerCan(cfg, run[v], Answer(up))
    && run[v + 1] == CheckerDo(cfg, run[v], Answer(up))
  }

  /** Between these states Backend k was probed, with the answer that state t has for it. */
  ghost predicate AnsweredIn(cfg: Config, run: seq<State>, x: nat, t: nat, k: nat)
    requires t < |run| && k < |run[t].answers|
  {
    exists v :: x <= v < t && AnswerOf(cfg, run, v, k, run[t].answers[k])
  }

  lemma AnswersStep(cfg: Config, s: State, s': State)
    requires RotationInv(cfg, s) && RoundInv(s) && Follows(cfg, s, s')
    ensures || s'.answers == s.answers || s'.answers == []
            || exists up :: CheckerCan(cfg, s, Answer(up)) && s' == CheckerDo(cfg, s, Answer(up))
                            && s.checker.Probing? && s.checker.i == |s.answers|
  {
  }

  lemma {:induction false} FindAnswer(cfg: Config, run: seq<State>, x: nat, t: nat, k: nat) returns (v: nat)
    requires IsRun(cfg, run) && x <= t < |run| && run[x].answers == [] && k < |run[t].answers|
    ensures x <= v < t && AnswerOf(cfg, run, v, k, run[t].answers[k])
    decreases t
  {
    RunInv(cfg, run, t - 1);
    assert StepAt(cfg, run, t - 1);
    AnswersStep(cfg, run[t - 1], run[t]);
    if k < |run[t - 1].answers| {
      v := FindAnswer(cfg, run, x, t - 1, k);
    } else {
      v := t - 1;
    }
  }

  /** Whenever the checker is back at its select, the round was complete: every Backend was probed in
      it, and flags and slice are those of its Probe results alone, whatever they were before. */
  lemma RoundFollowsItsProbes(cfg: Config, run: seq<State>, x: nat, t: nat)
    requires IsRun(cfg, run) && x <= t < |run| && run[x].answers == [] && run[t].checker == AtSelect
    ensures run[t].published != [] && |run[t].answers| == |cfg.weights|
    ensures run[t].alive == run[t].answers && InRotation(Current(run[t]), cfg.weights, run[t].answers)
    ensures forall k :: 0 <= k < |cfg.weights| ==> AnsweredIn(cfg, run, x, t, k)
  {
    RunInv(cfg, run, t);
    var s := run[t];
    assert SnapshotRight(cfg, s.published, s.rotations, |s.published| - 1);
    forall k | 0 <= k < |cfg.weights| ensures AnsweredIn(cfg, run, x, t, k) {
      var v := FindAnswer(cfg, run, x, t, k);
    }
  }

  // ---------- selections ----------

  ghost predicate HoldsSnapshot(s: State, r: nat, k: nat) {
    r < |s.readers| && s.readers[r] == Loaded(k)
  }

  /** Request r, which holds a slice in state t, loaded it in the step from state u: the slice that was
      current there. */
  ghost predicate LoadedAt(run: seq<State>, r: nat, t: nat, u: nat) {
    && u < t < |run| && run[u].published != [] && r < |run[u].readers| && run[u].readers[r].Idle?
    && forall v :: u < v <= t ==> HoldsSnapshot(run[v], r, |run[u].published| - 1)
  }

  lemma OthersDoNotRead(cfg: Config, s: State, step: Step)
    requires Can(cfg, s, step) && !step.Request?
    ensures Do(cfg, s, step).readers == s.readers && Do(cfg, s, step).picks == s.picks
    ensures s.published <= Do(cfg, s, step).published && s.rotations <= Do(cfg, s, step).rotations
  {
  }

  lemma ReadStep(cfg: Config, s: State, q: nat, read: ReaderStep)
    requires ReaderCan(cfg, s, q, read)
    ensures var s' := ReaderDo(cfg, s, q, read);
            && s'.published == s.published && s'.rotations == s.rotations && s.picks <= s'.picks
            && s'.readers == s.readers[q := if read.Load? then Loaded(|s.published| - 1) else Idle]
            && (read.Load? ==> s.readers[q].Idle?)
  {
  }

  lemma HoldStep(cfg: Config, s: State, s': State, r: nat, k: nat)
    requires Follows(cfg, s, s') && HoldsSnapshot(s', r, k)
    ensures r < |s.readers|
    ensures HoldsSnapshot(s, r, k) || (s.readers[r].Idle? && s.published != [] && k == |s.published| - 1)
  {
    var step :| Can(cfg, s, step) && s' == Do(cfg, s, step);
    if step.Request? {
      ReadStep(cfg, s, step.r, step.read);
    } else {
      OthersDoNotRead(cfg, s, step);
    }
  }

  lemma LoadedAtFirst(cfg: Config, run: seq<State>, r: nat, k: nat)
    requires IsRun(cfg, run)
    ensures !HoldsSnapshot(run[0], r, k)
  {
  }

  lemma LoadedJustNow(run: seq<State>, r: nat, t: nat)
    requires t + 1 < |run| && run[t].published != [] && r < |run[t].readers| && run[t].readers[r].Idle?
    requires HoldsSnapshot(run[t + 1], r, |run[t].published| - 1)
    ensures LoadedAt(run, r, t + 1, t)
  {
  }

  lemma LoadedLonger(run: seq<State>, r: nat, t: nat, u: nat)
    requires t + 1 < |run| && LoadedAt(run, r, t, u) && HoldsSnapshot(run[t + 1], r, |run[u].published| - 1)
    ensures LoadedAt(run, r, t + 1, u)
  {
  }

  lemma {:induction false} FindLoad(cfg: Config, run: seq<State>, t: nat, r: nat, k: nat) returns (u: nat)
    requires IsRun(cfg, run) && t < |run| && HoldsSnapshot(run[t], r, k)
    ensures LoadedAt(run, r, t, u) && k == |run[u].published| - 1
  {
    if t == 0 {
      LoadedAtFirst(cfg, run, r, k);
      assert false;
    } else {
      assert StepAt(cfg, run, t - 1);
      HoldStep(cfg, run[t - 1], run[t], r, k);
      if HoldsSnapshot(run[t - 1], r, k) {
        u := FindLoad(cfg, run, t - 1, r, k);
        LoadedLonger(run, r, t - 1, u);
      } else {
        u := t - 1;
        LoadedJustNow(run, r, u);
      }
    }
  }

  ghost predicate Grown(s: State, s': State) {
    s.published <= s'.published && s.rotations <= s'.rotations && s.picks <= s'.picks
  }

  lemma GrowStep(cfg: Config, s: State, s': State)
    requires Follows(cfg, s, s')
    ensures Grown(s, s')
  {
    var step :| Can(cfg, s, step) && s' == Do(cfg, s, step);
    if step.Request? {
      ReadStep(cfg, s, step.r, step.read);
    } else {
      OthersDoNotRead(cfg, s, step);
    }
  }

  lemma GrownTwice(a: State, b: State, c: State)
    requires Grown(a, b) && Grown(b, c)
    ensures Grown(a, c)
  {
  }

  lemma {:induction false} HistoryGrows(cfg: Config, run: seq<State>, u: nat, t: nat)
    requires IsRun(cfg, run) && u <= t < |run|
    ensures Grown(run[u], run[t])
    decreases t
  {
    if u < t {
      HistoryGrows(cfg, run, u, t - 1);
      assert StepAt(cfg, run, t - 1);
      GrowStep(cfg, run[t - 1], run[t]);
      GrownTwice(run[u], run[t - 1], run[t]);
    }
  }

  /** Alive in the flags, or about to be flagged so, its slice being published already. */
  ghost predicate InRotationAt(s: State, p: nat) {
    p < |s.alive| && if s.checker.Flagging? && s.checker.i == p then s.checker.up else s.alive[p]
  }

  lemma CurrentIsInRotation(cfg: Config, s: State, p: nat)
    requires RotationInv(cfg, s) && p in Current(s)
    ensures InRotationAt(s, p)
  {
    assert p in multiset(Current(s));
    assert SnapshotRight(cfg, s.published, s.rotations, |s.published| - 1);
    assert Holds(Current(s), cfg.weights, Last(s.rotations), p);
  }

  /** Pick i is made by request r in the step from state v. */
  ghost predicate TakenAt(run: seq<State>, r: nat, i: nat, v: nat) {
    && v + 1 < |run| && i == |run[v].picks| && |run[v + 1].picks| == i + 1
    && HoldsSnapshot(run[v], r, run[v + 1].picks[i].snapshot)
  }

  lemma PickStep(cfg: Config, s: State, s': State) returns (r: nat)
    requires Follows(cfg, s, s') && s'.picks != s.picks
    ensures |s'.picks| == |s.picks| + 1 && HoldsSnapshot(s, r, Last(s'.picks).snapshot)
  {
    var step :| Can(cfg, s, step) && s' == Do(cfg, s, step);
    if !step.Request? {
      OthersDoNotRead(cfg, s, step);
    }
    r := step.r;
  }

  lemma {:induction false} FindTake(cfg: Config, run: seq<State>, t: nat, i: nat) returns (r: nat, v: nat)
    requires IsRun(cfg, run) && t < |run| && i < |run[t].picks|
    ensures v < t && TakenAt(run, r, i, v)
  {
    assert StepAt(cfg, run, t - 1);
    if i < |run[t - 1].picks| {
      r, v := FindTake(cfg, run, t - 1, i);
    } else {
      r := PickStep(cfg, run[t - 1], run[t]);
      v := t - 1;
    }
  }

  /** Every selection, whatever the balancer's way to choose: some request loaded the slice that was
      current at that moment and held it until it picked, and the Backend it got was in rotation at
      the load. */
  lemma SelectionsAreAlive(cfg: Config, run: seq<State>, t: nat, i: nat) returns (r: nat, u: nat, v: nat)
    requires IsRun(cfg, run) && t < |run| && i < |run[t].picks|
    ensures u < v < t && LoadedAt(run, r, v, u) && TakenAt(run, r, i, v)
    ensures var pick := run[t].picks[i];
            && pick == run[v + 1].picks[i] && pick.snapshot == |run[u].published| - 1
            && pick.proxy in Current(run[u]) && InRotationAt(run[u], pick.proxy)
  {
    r, v := FindTake(cfg, run, t, i);
    var pick := run[v + 1].picks[i];
    u := FindLoad(cfg, run, v, r, pick.snapshot);
    HistoryGrows(cfg, run, v + 1, t);
    HistoryGrows(cfg, run, u, v + 1);
    RunInv(cfg, run, v + 1);
    assert PickRight(cfg, run[v + 1].published, run[v + 1].picks, i);
    assert run[v + 1].published[pick.snapshot] == Current(run[u]);
    RunInv(cfg, run, u);
    CurrentIsInRotation(cfg, run[u], pick.proxy);
  }

  lemma SomeReadings(cfg: Config, n: nat) returns (readings: Readings)
    requires n > 0
    ensures Fits(cfg, readings, n)
  {
    match cfg.policy {
      case ByTicket => readings := NoReadings;
      case ByLoad => readings := Loads(seq(n, _ => 0));
      case ByScore => readings := Scores(0.0, seq(n, _ => 0.0), 0);
    }
  }

  /** A request finds no Backend exactly when no Backend was in rotation at the moment of its load. */
  lemma NothingServedOnlyIfAllDown(cfg: Config, run: seq<State>, t: nat, r: nat) returns (u: nat)
    requires IsRun(cfg, run) && t < |run|
    requires forall k :: 0 <= k < |cfg.weights| ==> cfg.weights[k] > 0
    requires r < |run[t].readers| && run[t].readers[r].Loaded?
    ensures LoadedAt(run, r, t, u)
    ensures ReaderCan(cfg, run[t], r, TakeNothing) <==> forall p :: 0 <= p < |cfg.weights| ==> !InRotationAt(run[u], p)
    ensures (exists readings :: ReaderCan(cfg, run[t], r, Take(readings))) <==> !ReaderCan(cfg, run[t], r, TakeNothing)
  {
    var k := run[t].readers[r].snapshot;
    u := FindLoad(cfg, run, t, r, k);
    HistoryGrows(cfg, run, u, t);
    RunInv(cfg, run, t);
    RunInv(cfg, run, u);
    EmptyIffNothingInRotation(cfg, run[u]);
    var slice := run[t].published[k];
    assert slice == Current(run[u]);
    if slice != [] {
      var readings := SomeReadings(cfg, |slice|);
      assert ReaderCan(cfg, run[t], r, Take(readings));
    }
  }

  lemma EmptyIffNothingInRotation(cfg: Config, s: State)
    requires RotationInv(cfg, s) && forall k :: 0 <= k < |cfg.weights| ==> cfg.weights[k] > 0
    ensures Current(s) == [] <==> forall p :: 0 <= p < |cfg.weights| ==> !InRotationAt(s, p)
  {
    assert SnapshotRight(cfg, s.published, s.rotations, |s.published| - 1);
    RoundRobin.EmptyRotation(Current(s), cfg.weights, Intended(s));
    forall p | 0 <= p < |cfg.weights| ensures InRotationAt(s, p) <==> Intended(s)[p] {}
  }

  // ---------- a Rejoin resets before it stores ----------

  /** In the least-connection and least-response-time balancers the checker's last act before it
      stores the slice of a Rejoin is the reset of that Backend's score, so every load of that slice,
      and every selection from it, comes after the reset. */
  lemma RejoinIsResetFirst(cfg: Config, run: seq<State>, t: nat, b: nat)
    requires IsRun(cfg, run) && t < |run| && !cfg.policy.ByTicket?
    requires b < |run[t].log| && run[t].log[b].Stored? && run[t].log[b].up
    ensures JustReset(run[t].log[..b], run[t].log[b].i)
  {
    RunInv(cfg, run, t);
    assert StoreIsReset(run[t].log, b);
  }

  // ---------- fairness ----------

  function Share(picks: seq<Pick>, p: nat, from: nat, m: nat): nat
    requires from + m <= |picks|
  {
    if m == 0 then 0 else Share(picks, p, from, m - 1) + if picks[from + m - 1].proxy == p then 1 else 0
  }

  ghost predicate OneSnapshot(picks: seq<Pick>, k: nat, from: nat, m: nat)
    requires from + m <= |picks|
  {
    forall i :: from <= i < from + m ==> picks[i].snapshot == k
  }

  lemma {:induction false} ShareIsHits(cfg: Config, published: seq<seq<nat>>, picks: seq<Pick>, k: nat, p: nat,
                                       from: nat, m: nat)
    requires cfg.policy.ByTicket? && PicksRight(cfg, published, picks) && k < |published| && published[k] != []
    requires from + m <= |picks| && OneSnapshot(picks, k, from, m)
    ensures Share(picks, p, from, m) == WrappedHits(published[k], p, from + 1, m)
  {
    if m > 0 {
      ShareIsHits(cfg, published, picks, k, p, from, m - 1);
      assert PickRight(cfg, published, picks, from + m - 1);
    }
  }

  lemma WrappedSum(v: nat, m: nat)
    ensures Wrapped(Wrapped(v) + m) == Wrapped(v + m)
  {
  }

  lemma {:induction false} HitsFromTicket<T>(s: seq<T>, p: T, first: nat, m: nat)
    requires s != []
    ensures WrappedHits(s, p, first, m) == WrappedHits(s, p, Wrapped(first), m)
  {
    if m > 0 {
      HitsFromTicket(s, p, first, m - 1);
      WrappedSum(first, m - 1);
    }
  }

  /** Exact weighted fairness, whatever the interleaving of the callers: over k times as many
      consecutive tickets as the slice has slots, a Backend is chosen k times its weight, and never
      if Down. If the uint64 counter wraps inside the window, the count is off by at most its
      weight, and by nothing when the wrap falls between two rounds. */
  lemma WeightedFairness(cfg: Config, run: seq<State>, t: nat, snap: nat, p: nat, from: nat, k: nat, m: nat)
    requires IsRun(cfg, run) && t < |run| && p < |cfg.weights| && cfg.policy.ByTicket?
    requires snap < |run[t].published| && run[t].published[snap] != []
    requires m == k * |run[t].published[snap]| && m <= TICKETS
    requires from + m <= |run[t].picks| && OneSnapshot(run[t].picks, snap, from, m)
    ensures |run[t].published| == |run[t].rotations| && p < |run[t].rotations[snap]|
    ensures var w, first := (if run[t].rotations[snap][p] then cfg.weights[p] else 0), Wrapped(from + 1);
            var share := Share(run[t].picks, p, from, m);
            && k * w - w <= share <= k * w + w
            && (first + m <= TICKETS || (TICKETS - first) % |run[t].published[snap]| == 0 ==> share == k * w)
  {
    RunInv(cfg, run, t);
    var s := run[t];
    SliceHolds(cfg, s, snap, p);
    ShareIsHits(cfg, s.published, s.picks, snap, p, from, m);
    HitsFromTicket(s.published[snap], p, from + 1, m);
    WholeRoundsAcrossTheWrap(s.published[snap], p, Wrapped(from + 1), k);
    WindowSum(k, 1, multiset(s.published[snap])[p]);
    WindowSum(k, -1, multiset(s.published[snap])[p]);
  }

  /** A slice holds a Backend as often as the flags it stands for say. */
  lemma SliceHolds(cfg: Config, s: State, snap: nat, p: nat)
    requires RotationInv(cfg, s) && snap < |s.published| && p < |cfg.weights|
    ensures p < |s.rotations[snap]|
    ensures multiset(s.published[snap])[p] == if s.rotations[snap][p] then cfg.weights[p] else 0
  {
    assert SnapshotRight(cfg, s.published, s.rotations, snap);
    assert Holds(s.published[snap], cfg.weights, s.rotations[snap], p);
  }

  /** Any number of consecutive tickets on one slice, k rounds and r more: a Backend gets its weight
      per round, and at most one more round's worth for the rest. If the uint64 counter wraps inside
      the window, the count is off by at most one more weight. */
  lemma FairnessOfAnyWindow(cfg: Config, run: seq<State>, t: nat, snap: nat, p: nat, from: nat, k: nat, r: nat, m: nat)
    requires IsRun(cfg, run) && t < |run| && p < |cfg.weights| && cfg.policy.ByTicket?
    requires snap < |run[t].published| && r < |run[t].published[snap]|
    requires m == k * |run[t].published[snap]| + r && m <= TICKETS
    requires from + m <= |run[t].picks| && OneSnapshot(run[t].picks, snap, from, m)
    ensures |run[t].published| == |run[t].rotations| && p < |run[t].rotations[snap]|
    ensures var w := if run[t].rotations[snap][p] then cfg.weights[p] else 0;
            var share := Share(run[t].picks, p, from, m);
            && k * w - w <= share <= (if r == 0 then k + 1 else k + 2) * w
            && (Wrapped(from + 1) + m <= TICKETS ==> k * w <= share <= (if r == 0 then k else k + 1) * w)
  {
    RunInv(cfg, run, t);
    SliceHolds(cfg, run[t], snap, p);
    ShareIsHits(cfg, run[t].published, run[t].picks, snap, p, from, m);
    HitsFromTicket(run[t].published[snap], p, from + 1, m);
    AnyWindowAcrossTheWrap(run[t].published[snap], p, Wrapped(from + 1), k, r);
  }

  ghost predicate GetsItsWeight(cfg: Config, s: State, snap: nat, p: nat, from: nat, k: nat, m: nat)
    requires from + m <= |s.picks| && snap < |s.rotations| && p < |cfg.weights| && p < |s.rotations[snap]|
  {
    Share(s.picks, p, from, m) == k * if s.rotations[snap][p] then cfg.weights[p] else 0
  }

  ghost predicate EachGetsItsWeight(cfg: Config, s: State, snap: nat, from: nat, k: nat, m: nat)
    requires from + m <= |s.picks| && snap < |s.rotations| && |s.rotations[snap]| == |cfg.weights|
  {
    forall p :: 0 <= p < |cfg.weights| ==> GetsItsWeight(cfg, s, snap, p, from, k, m)
  }

  lemma {:induction false} NoHits<T>(s: seq<T>, p: T, first: nat, m: nat)
    requires s != [] && p !in s
    ensures WrappedHits(s, p, first, m) == 0
  {
    if m > 0 {
      NoHits(s, p, first, m - 1);
    }
  }

  /** Over k rounds of tickets on one slice, every Backend gets exactly k times its weight if and only
      if the uint64 wrap is fair: it lies outside the window, or the slots selected just before it
      are those that the cut round still had to come to. */
  lemma ExactFairnessIffTheWrapIsFair(cfg: Config, run: seq<State>, t: nat, snap: nat, from: nat, k: nat, m: nat)
    requires IsRun(cfg, run) && t < |run| && cfg.policy.ByTicket?
    requires snap < |run[t].published| && run[t].published[snap] != []
    requires m == k * |run[t].published[snap]| && m <= TICKETS
    requires from + m <= |run[t].picks| && OneSnapshot(run[t].picks, snap, from, m)
    ensures |run[t].rotations| == |run[t].published| && |run[t].rotations[snap]| == |cfg.weights|
    ensures EachGetsItsWeight(cfg, run[t], snap, from, k, m)
       <==> WrapIsFair(run[t].published[snap], Wrapped(from + 1), k)
  {
    RunInv(cfg, run, t);
    assert SnapshotRight(cfg, run[t].published, run[t].rotations, snap);
    forall p: nat ensures ShareMeansHits(cfg, run[t], snap, p, from, k, m) {
      OneShare(cfg, run[t], snap, p, from, k, m);
    }
    AllShares(cfg, run[t], snap, from, k, m);
    ExactIffTheWrapIsFair(run[t].published[snap], Wrapped(from + 1), k);
  }

  /** A configured Backend's share is exact if its hits are; there are no hits for anything else. */
  ghost predicate ShareMeansHits(cfg: Config, s: State, snap: nat, p: nat, from: nat, k: nat, m: nat)
    requires from + m <= |s.picks| && snap < |s.rotations| == |s.published| && s.published[snap] != []
    requires |s.rotations[snap]| == |cfg.weights|
  {
    if p < |cfg.weights| then
      GetsItsWeight(cfg, s, snap, p, from, k, m) <==> ExactShare(s.published[snap], p, Wrapped(from + 1), k)
    else ExactShare(s.published[snap], p, Wrapped(from + 1), k)
  }

  lemma OneShare(cfg: Config, s: State, snap: nat, p: nat, from: nat, k: nat, m: nat)
    requires RotationInv(cfg, s) && SelectionInv(cfg, s) && cfg.policy.ByTicket?
    requires from + m <= |s.picks| && snap < |s.rotations| == |s.published| && s.published[snap] != []
    requires |s.rotations[snap]| == |cfg.weights| && OneSnapshot(s.picks, snap, from, m)
    requires m == k * |s.published[snap]|
    ensures ShareMeansHits(cfg, s, snap, p, from, k, m)
  {
    if p < |cfg.weights| {
      SliceHolds(cfg, s, snap, p);
      ShareIsHits(cfg, s.published, s.picks, snap, p, from, m);
      HitsFromTicket(s.published[snap], p, from + 1, m);
    } else {
      assert SnapshotRight(cfg, s.published, s.rotations, snap);
      assert p !in multiset(s.published[snap]);
      NoHits(s.published[snap], p, Wrapped(from + 1), m);
    }
  }

  lemma AllShares(cfg: Config, s: State, snap: nat, from: nat, k: nat, m: nat)
    requires from + m <= |s.picks| && snap < |s.rotations| == |s.published| && s.published[snap] != []
    requires |s.rotations[snap]| == |cfg.weights|
    requires forall p: nat :: ShareMeansHits(cfg, s, snap, p, from, k, m)
    ensures EachGetsItsWeight(cfg, s, snap, from, k, m) <==> ExactShares(s.published[snap], Wrapped(from + 1), k)
  {
    var slice, first := s.published[snap], Wrapped(from + 1);
    if EachGetsItsWeight(cfg, s, snap, from, k, m) {
      forall p: nat ensures ExactShare(slice, p, first, k) {
        assert ShareMeansHits(cfg, s, snap, p, from, k, m);
      }
    }
    if ExactShares(slice, first, k) {
      forall p: nat | p < |cfg.weights| ensures GetsItsWeight(cfg, s, snap, p, from, k, m) {
        assert ShareMeansHits(cfg, s, snap, p, from, k, m);
        OneOfTheShares<nat>(slice, p, first, k);
      }
    }
  }

  /** The slots come up one after the other: selection i is the one at (i + 1) modulo 2^64 modulo the
      number of slots. */
  lemma TicketsWalkTheSlice(cfg: Config, run: seq<State>, t: nat, i: nat)
    requires IsRun(cfg, run) && t < |run| && i < |run[t].picks| && cfg.policy.ByTicket?
    ensures var pick := run[t].picks[i];
            && pick.snapshot < |run[t].published| && run[t].published[pick.snapshot] != []
            && var slice := run[t].published[pick.snapshot];
               pick.proxy == slice[((i + 1) % 0x1_0000_0000_0000_0000) % |slice|]
  {
    RunInv(cfg, run, t);
    assert PickRight(cfg, run[t].published, run[t].picks, i);
  }

  // ---------- shares of least-connection ----------

  ghost predicate FixedLoads(picks: seq<Pick>, load: seq<int>, from: nat, m: nat)
    requires from + m <= |picks|
  {
    forall i :: from <= i < from + m ==> picks[i].readings == Loads(load)
  }

  lemma {:induction false} ShareIsChoices(cfg: Config, published: seq<seq<nat>>, picks: seq<Pick>, k: nat,
                                          load: seq<int>, j: nat, from: nat, m: nat)
    requires cfg.policy.ByLoad? && PicksRight(cfg, published, picks) && k < |published|
    requires j < |load| == |published[k]| && AllDifferent(published[k])
    requires from + m <= |picks| && OneSnapshot(picks, k, from, m) && FixedLoads(picks, load, from, m)
    requires Wrapped(from + 1) + m <= TICKETS
    ensures Share(picks, published[k][j], from, m) == Hits(Choices(load), j, Wrapped(from + 1), m)
  {
    if m > 0 {
      ShareIsChoices(cfg, published, picks, k, load, j, from, m - 1);
      var i := from + m - 1;
      assert PickRight(cfg, published, picks, i);
      WrappedSum(from + 1, m - 1);
      var ticket := Wrapped(from + 1) + (m - 1);
      assert picks[i].ticket == ticket;
      TicketChoice(load, ticket);
      DifferentSlotsDiffer(published[k], Choice(load, ticket % |load|), j);
    }
  }

  lemma DifferentSlotsDiffer(s: seq<nat>, i: nat, j: nat)
    requires i < |s| && j < |s| && AllDifferent(s)
    ensures s[i] == s[j] <==> i == j
  {
    if i < j {
      AtOnePlaceOnly(s, i, j);
    } else if j < i {
      AtOnePlaceOnly(s, j, i);
    }
  }

  /** The share law in any interleaving of callers: while the pending counts are the same for every
      scan, n consecutive tickets on one slice of n Backends give a least loaded Backend as many
      requests as its cyclic distance from the previous one, and so at least one; without a wrap of
      the counter among them. */
  lemma LeastLoadedShares(cfg: Config, run: seq<State>, t: nat, snap: nat, load: seq<int>, j: nat, g: nat, from: nat)
    requires IsRun(cfg, run) && t < |run| && cfg.policy.ByLoad?
    requires forall k :: 0 <= k < |cfg.weights| ==> cfg.weights[k] == 1
    requires snap < |run[t].published| && j < |load| == |run[t].published[snap]|
    requires from + |load| <= |run[t].picks| && OneSnapshot(run[t].picks, snap, from, |load|)
    requires FixedLoads(run[t].picks, load, from, |load|) && Wrapped(from + 1) + |load| <= TICKETS
    requires IsLeast(load, j) && IsGap(load, j, g)
    ensures Share(run[t].picks, run[t].published[snap][j], from, |load|) == g >= 1
  {
    RunInv(cfg, run, t);
    SlicesHaveNoRepeats(cfg, run[t], snap);
    ShareIsChoices(cfg, run[t].published, run[t].picks, snap, load, j, from, |load|);
    ShareLaw(load, j, g, Wrapped(from + 1));
  }

  lemma SlicesHaveNoRepeats(cfg: Config, s: State, snap: nat)
    requires RotationInv(cfg, s) && snap < |s.published| && forall k :: 0 <= k < |cfg.weights| ==> cfg.weights[k] == 1
    ensures AllDifferent(s.published[snap])
  {
    var slice := s.published[snap];
    assert SnapshotRight(cfg, s.published, s.rotations, snap);
    forall p | p in slice ensures multiset(slice)[p] == 1 {
      assert p in multiset(slice);
      assert Holds(slice, cfg.weights, s.rotations[snap], p);
    }
  }

  /** Failover of least-response-time in any interleaving: a request whose scan found steady scores got
      the Backend in a slot that no other slot of the slice it loaded scored below. */
  lemma FastestIsChosen(cfg: Config, run: seq<State>, t: nat, i: nat, peer: nat)
    requires IsRun(cfg, run) && t < |run| && i < |run[t].picks| && cfg.policy.ByScore?
    requires var readings := run[t].picks[i].readings;
             readings.Scores? && peer < |readings.scan| && readings.first == readings.scan[0]
    ensures var pick := run[t].picks[i];
            && pick.snapshot < |run[t].published| && |run[t].published[pick.snapshot]| == |pick.readings.scan|
            && pick.readings.winner < |pick.readings.scan|
            && pick.proxy == run[t].published[pick.snapshot][pick.readings.winner]
            && pick.readings.scan[pick.readings.winner] <= pick.readings.scan[peer]
  {
    RunInv(cfg, run, t);
    assert PickRight(cfg, run[t].published, run[t].picks, i);
    var readings := run[t].picks[i].readings;
    if readings.scan[peer] < readings.scan[readings.winner] {
      SlowerBackendLoses(readings.scan, readings.winner, peer);
    }
  }

  // ---------- Shutdown ----------

  /** However many calls race: the stop channel is closed once, and at most one health check begins
      after that. */
  lemma StopIsClosedOnce(cfg: Config, run: seq<State>, t: nat)
    requires IsRun(cfg, run) && t < |run|
    ensures run[t].closes <= 1 && run[t].begunSinceClose <= 1
    ensures run[t].closes == 1 <==> run[t].stopClosed
  {
    RunInv(cfg, run, t);
  }

  /** A call that came through the done channel closes its proxies after the last Probe and the last
      store: nothing but proxy closes follows in the log. */
  lemma ProxiesCloseLast(cfg: Config, run: seq<State>, t: nat, a: nat, b: nat)
    requires IsRun(cfg, run) && t < |run| && a < b < |run[t].log|
    requires run[t].log[a].ProxyClosed? && run[t].log[a].sawDone
    ensures run[t].log[b].ProxyClosed?
  {
    RunInv(cfg, run, t);
  }

  /** Each Shutdown call closes each proxy exactly once before it returns, timed out or not, and none
      before it has seen the done channel or timed out. */
  lemma ReturnedCallHasClosedAll(cfg: Config, run: seq<State>, t: nat, c: nat, proxy: nat)
    requires IsRun(cfg, run) && t < |run| && c < |run[t].callers| && proxy < |cfg.weights|
    ensures run[t].callers[c].Returned? ==> Closings(run[t].log, c, proxy) == 1
    ensures run[t].callers[c].Closing? ==>
      Closings(run[t].log, c, proxy) == if proxy in run[t].callers[c].left then 0 else 1
    ensures run[t].callers[c].NotCalled? || run[t].callers[c].Waiting? ==> Closings(run[t].log, c, proxy) == 0
  {
    RunInv(cfg, run, t);
    assert HasClosed(|cfg.weights|, run[t].log, run[t].callers[c], c);
  }

  /** How many health checks the checker begins from state t to state u: its moves to a Probe. */
  function Begins(run: seq<State>, t: nat, u: nat): nat
    requires t <= u < |run|
    decreases u
  {
    if t == u then 0
    else Begins(run, t, u - 1) + if !run[u - 1].checker.Probing? && run[u].checker.Probing? then 1 else 0
  }

  /** Once the stop channel is closed at most one health check begins, and only one whose stop test
      was passed before. */
  lemma {:induction false} AtMostOneCheckBegins(cfg: Config, run: seq<State>, t: nat, u: nat)
    requires IsRun(cfg, run) && t <= u < |run| && run[t].stopClosed
    ensures Begins(run, t, u) + (if run[u].checker.Entering? then 1 else 0)
         <= if run[t].checker.Entering? then 1 else 0
    ensures run[u].stopClosed
    decreases u
  {
    if t < u {
      AtMostOneCheckBegins(cfg, run, t, u - 1);
      assert StepAt(cfg, run, u - 1);
      StoppedStep(cfg, run[u - 1], run[u]);
    }
  }

  lemma StoppedCheckerStep(cfg: Config, s: State, step: CheckerStep)
    requires CheckerCan(cfg, s, step) && s.stopClosed
    ensures var s' := CheckerDo(cfg, s, step);
            && s'.stopClosed && !s'.checker.Entering?
            && (s'.checker.Probing? ==> s.checker.Entering?)
  {
  }

  lemma StoppedStep(cfg: Config, s: State, s': State)
    requires Follows(cfg, s, s') && s.stopClosed
    ensures s'.stopClosed && (s'.checker.Entering? ==> s.checker.Entering?)
    ensures s'.checker.Probing? && !s.checker.Probing? ==> s.checker.Entering? && !s'.checker.Entering?
  {
    var step :| Can(cfg, s, step) && s' == Do(cfg, s, step);
    if step.Check? {
      StoppedCheckerStep(cfg, s, step.check);
    } else {
      OnlyTheCheckerWrites(cfg, s, step);
      OthersLeaveTheCheckerAlone(cfg, s, step);
    }
  }

  /** Once some call has seen the done channel, slices and flags are final. */
  lemma {:induction false} DoneIsFinal(cfg: Config, run: seq<State>, t: nat, u: nat, c: nat)
    requires IsRun(cfg, run) && t <= u < |run| && c < |run[t].callers| && SawDone(run[t].callers[c])
    ensures run[u].checker == Exited
    ensures run[u].published == run[t].published && run[u].alive == run[t].alive
    decreases u
  {
    if t == u {
      RunInv(cfg, run, t);
      assert CallerRight(run[t].stopClosed, run[t].doneClosed, run[t].callers[c]);
    } else {
      DoneIsFinal(cfg, run, t, u - 1, c);
      assert StepAt(cfg, run, u - 1);
    }
  }

  /** How many steps the checker makes from state t to state u: each of its steps moves it. */
  function Moves(run: seq<State>, t: nat, u: nat): nat
    requires t <= u < |run|
    decreases u
  {
    if t == u then 0 else Moves(run, t, u - 1) + if run[u - 1].checker != run[u].checker then 1 else 0
  }

  /** Once the stop channel is closed the checker makes a bounded number of steps, whatever the
      other goroutines do, and while it has not exited it can always make one more. */
  lemma {:induction false} CheckerTerminates(cfg: Config, run: seq<State>, t: nat, u: nat)
    requires IsRun(cfg, run) && t <= u < |run| && |cfg.weights| > 0 && run[t].stopClosed
    ensures Moves(run, t, u) + StepsLeft(cfg, run[u]) <= StepsLeft(cfg, run[t])
    ensures run[u].stopClosed
    ensures run[u].checker == Exited || CheckerCan(cfg, run[u], NextCheckerStep(cfg, run[u]))
    decreases u
  {
    RunInv(cfg, run, u);
    if t < u {
      CheckerTerminates(cfg, run, t, u - 1);
      assert StepAt(cfg, run, u - 1);
      var step :| Can(cfg, run[u - 1], step) && run[u] == Do(cfg, run[u - 1], step);
      if step.Check? {
        CheckerGetsCloserToExit(cfg, run[u - 1], step.check);
      } else {
        OthersLeaveTheCheckerAlone(cfg, run[u - 1], step);
      }
    }
    if run[u].stopClosed && run[u].checker != Exited {
      CheckerIsNeverStuck(cfg, run[u]);
    }
  }

  lemma OneStepLonger(cfg: Config, run: seq<State>, step: Step) returns (run': seq<State>)
    requires IsRun(cfg, run) && Can(cfg, Last(run), step)
    ensures IsRun(cfg, run') && run' == run + [Do(cfg, Last(run), step)]
  {
    run' := run + [Do(cfg, Last(run), step)];
    forall t | 0 <= t < |run'| - 1 ensures StepAt(cfg, run', t) {
      if t == |run| - 1 {
        assert Can(cfg, run'[t], step);
      } else {
        assert StepAt(cfg, run, t);
      }
    }
  }

  // ---------- what a Shutdown that times out can rely on ----------

  /** The checker is inside a health check: past the stop test, and not yet past its store. */
  predicate Busy(checker: Checker) {
    checker.Entering? || checker.Probing? || checker.Resetting? || checker.Building?
  }

  ghost predicate WorksAfter(cfg: Config, run: seq<State>, later: seq<State>)
    requires run != []
  {
    IsRun(cfg, run + later) && !OnlyCloses(Last(run + later).log, |Last(run).log|)
  }

  ghost predicate CanStillWork(cfg: Config, run: seq<State>)
    requires run != []
  {
    exists later :: WorksAfter(cfg, run, later)
  }

  lemma IdleStep(cfg: Config, s: State, s': State, n: nat)
    requires s.stopClosed && !Busy(s.checker) && OnlyCloses(s.log, n) && Follows(cfg, s, s')
    ensures s'.stopClosed && !Busy(s'.checker) && OnlyCloses(s'.log, n)
  {
  }

  lemma {:induction false} IdleStaysIdle(cfg: Config, run: seq<State>, t: nat, u: nat)
    requires IsRun(cfg, run) && t <= u < |run| && run[t].stopClosed && !Busy(run[t].checker)
    ensures run[u].stopClosed && !Busy(run[u].checker) && OnlyCloses(run[u].log, |run[t].log|)
    decreases u
  {
    if t < u {
      IdleStaysIdle(cfg, run, t, u - 1);
      assert StepAt(cfg, run, u - 1);
      IdleStep(cfg, run[u - 1], run[u], |run[t].log|);
    }
  }

  /** The step that takes a busy checker to its next Probe or store, given a Probe that finds the
      Backend changed. */
  ghost function NextWorkStep(s: State): CheckerStep {
    match s.checker
    case Entering(i) => Begin
    case Probing(i) => Answer(if i < |s.alive| then !s.alive[i] else true)
    case Resetting(i) => ResetScore
    case Building(i, up, slice, left) => if left == 0 then Store else Swap(0)
    case _ => CloseDone
  }

  lemma WorkStep(cfg: Config, s: State)
    requires RotationInv(cfg, s) && Busy(s.checker)
    ensures CheckerCan(cfg, s, NextWorkStep(s))
    ensures var s' := CheckerDo(cfg, s, NextWorkStep(s));
            || (|s'.log| == |s.log| + 1 && s'.log[..|s.log|] == s.log && !s'.log[|s.log|].ProxyClosed?)
            || (s'.log == s.log && Busy(s'.checker) && StepsLeft(cfg, s') < StepsLeft(cfg, s))
  {
  }

  lemma {:induction false} BusyCheckerWorks(cfg: Config, run: seq<State>) returns (later: seq<State>)
    requires IsRun(cfg, run) && Busy(Last(run).checker)
    ensures WorksAfter(cfg, run, later)
    decreases StepsLeft(cfg, Last(run))
  {
    var s := Last(run);
    RunInv(cfg, run, |run| - 1);
    WorkStep(cfg, s);
    var run' := OneStepLonger(cfg, run, Check(NextWorkStep(s)));
    later := [Last(run')];
    assert run' == run + later;
    if Last(run').log == s.log {
      var rest := BusyCheckerWorks(cfg, run');
      assert run' + rest == run + (later + rest);
      later := later + rest;
    } else {
      assert !Last(run').log[|s.log|].ProxyClosed?;
    }
  }

  /** Once the stop channel is closed, a proxy closed now - by a call that timed out, say - is closed
      after the last Probe and the last store, however the run goes on, if and only if the checker is
      not inside a health check. */
  lemma BarrierIffCheckerIsIdle(cfg: Config, run: seq<State>)
    requires IsRun(cfg, run) && Last(run).stopClosed
    ensures !CanStillWork(cfg, run) <==> !Busy(Last(run).checker)
  {
    if Busy(Last(run).checker) {
      var later := BusyCheckerWorks(cfg, run);
    } else {
      forall later | IsRun(cfg, run + later) ensures !WorksAfter(cfg, run, later) {
        IdleStaysIdle(cfg, run + later, |run| - 1, |run + later| - 1);
      }
    }
  }

  lemma CheckerAboutToStore() returns (cfg: Config, run: seq<State>)
    ensures IsRun(cfg, run) && cfg == Config([1], false, ByTicket)
    ensures Last(run) == State([[0]], [[true]], [true], [false], 0, Building(0, false, [], 0), false, false, 0, 0,
                               [], [], [NotCalled], [ProbeStarted])
  {
    cfg := Config([1], false, ByTicket);
    var s := State([[0]], [[true]], [true], [true], 0, AtSelect, false, false, 0, 0, [], [], [NotCalled], []);
    assert Holds([0], [1], [true], 0);
    run := [s];
    run := OneStepLonger(cfg, run, Check(Tick));
    run := OneStepLonger(cfg, run, Check(PassStopTest));
    run := OneStepLonger(cfg, run, Check(Begin));
    run := OneStepLonger(cfg, run, Check(Answer(false)));
    assert Without([0], 0) == [] by {
      assert [0][..0] == [];
    }
  }

  /** The timeout is no barrier: a call that gives up waiting closes proxies while the checker is
      still busy, and a slice is stored after that. */
  lemma TimedOutShutdownIsNoBarrier() returns (cfg: Config, run: seq<State>)
    ensures IsRun(cfg, run) && Last(run).log == [ProbeStarted, ProxyClosed(0, 0, false), Stored(0, false)]
  {
    cfg, run := CheckerAboutToStore();
    run := OneStepLonger(cfg, run, Shutdown(0, CloseStop));
    run := OneStepLonger(cfg, run, Shutdown(0, TimeOut));
    assert 0 in Proxies(1);
    run := OneStepLonger(cfg, run, Shutdown(0, CloseProxy(0)));
    run := OneStepLonger(cfg, run, Check(Store));
  }
}
