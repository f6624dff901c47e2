/** The stop and done channels: what any number of concurrent Shutdown calls can rely on. */
module BalancerShutdown {
  import opened BalancerProtocol
  import opened BalancerSafety

  /** A Shutdown call that came through the done channel rather than the timeout. */
  predicate SawDone(c: Caller) {
    (c.Closing? || c.Returned?) && c.sawDone
  }

  ghost predicate StopInv(s: State) {
    && s.closes == (if s.stopClosed then 1 else 0)
    && s.begunSinceClose + (if s.stopClosed && s.checker.Entering? then 1 else 0) <= (if s.stopClosed then 1 else 0)
    && (s.doneClosed <==> s.checker.Exited?)
    && (s.checker.Leaving? || s.checker.Exited? ==> s.stopClosed)
    && (forall c :: 0 <= c < |s.callers| ==> CallerRight(s.stopClosed, s.doneClosed, s.callers[c]))
  }

  predicate CallerRight(stopClosed: bool, doneClosed: bool, c: Caller) {
    (!c.NotCalled? ==> stopClosed) && (SawDone(c) ==> doneClosed)
  }

  lemma StopInit(cfg: Config, s: State)
    requires Init(cfg, s)
    ensures StopInv(s)
  {
  }

  lemma StepKeepsStop(cfg: Config, s: State, step: Step)
    requires StopInv(s) && Can(cfg, s, step)
    ensures StopInv(Do(cfg, s, step))
  {
    var s' := Do(cfg, s, step);
    forall c | 0 <= c < |s'.callers| ensures CallerRight(s'.stopClosed, s'.doneClosed, s'.callers[c]) {
      assert CallerRight(s.stopClosed, s.doneClosed, s.callers[c]);
    }
  }

  /** Nothing is probed or stored after a proxy was closed by a call that saw the done channel. */
  ghost predicate CleanLog(log: seq<Event>) {
    forall a, b :: 0 <= a < b < |log| && log[a].ProxyClosed? && log[a].sawDone ==> log[b].ProxyClosed?
  }

  predicate ClosedAfterDone(e: Event) {
    e.ProxyClosed? && e.sawDone
  }

  ghost predicate LogInv(s: State) {
    CleanLog(s.log) && (forall a :: 0 <= a < |s.log| && ClosedAfterDone(s.log[a]) ==> s.checker.Exited?)
  }

  lemma StepKeepsLog(cfg: Config, s: State, step: Step)
    requires StopInv(s) && LogInv(s) && Can(cfg, s, step)
    ensures LogInv(Do(cfg, s, step))
  {
    if step.Shutdown? && step.call.CloseProxy? {
      assert CallerRight(s.stopClosed, s.doneClosed, s.callers[step.c]);
    }
  }

  // ---------- every call closes every proxy ----------

  /** How often this call has closed this proxy. */
  function Closings(log: seq<Event>, c: nat, proxy: nat): nat {
    if log == [] then 0
    else
      var last := log[|log| - 1];
      Closings(log[..|log| - 1], c, proxy)
      + if last.ProxyClosed? && last.caller == c && last.proxy == proxy then 1 else 0
  }

  /** How often it has to, by where it is: not before it closes, and once for each that is done. */
  function ClosingsDue(n: nat, caller: Caller, proxy: nat): nat {
    match caller
    case NotCalled => 0
    case Waiting => 0
    case Closing(_, left) => if proxy < n && proxy !in left then 1 else 0
    case Returned(_) => if proxy < n then 1 else 0
  }

  ghost predicate HasClosed(n: nat, log: seq<Event>, caller: Caller, c: nat) {
    && (caller.Closing? ==> caller.left <= Proxies(n))
    && forall proxy: nat :: Closings(log, c, proxy) == ClosingsDue(n, caller, proxy)
  }

  ghost predicate ClosesInv(cfg: Config, s: State) {
    forall c :: 0 <= c < |s.callers| ==> HasClosed(|cfg.weights|, s.log, s.callers[c], c)
  }

  lemma ClosingsExtend(log: seq<Event>, e: Event, c: nat, proxy: nat)
    ensures Closings(log + [e], c, proxy)
         == Closings(log, c, proxy) + if e.ProxyClosed? && e.caller == c && e.proxy == proxy then 1 else 0
  {
    assert (log + [e])[..|log|] == log;
  }

  lemma OtherEventsDoNotClose(n: nat, log: seq<Event>, e: Event, caller: Caller, c: nat)
    requires HasClosed(n, log, caller, c) && !(e.ProxyClosed? && e.caller == c)
    ensures HasClosed(n, log + [e], caller, c)
  {
    forall proxy: nat ensures Closings(log + [e], c, proxy) == ClosingsDue(n, caller, proxy) {
      ClosingsExtend(log, e, c, proxy);
    }
  }

  /** A call that only moves on owes what it has done. */
  lemma MoveKeepsCloses(cfg: Config, s: State, c: nat, call: CallerStep)
    requires CallerCan(s, c, call) && !call.CloseProxy? && HasClosed(|cfg.weights|, s.log, s.callers[c], c)
    ensures HasClosed(|cfg.weights|, s.log, CallerDo(cfg, s, c, call).callers[c], c)
  {
    var n, caller, caller' := |cfg.weights|, s.callers[c], CallerDo(cfg, s, c, call).callers[c];
    forall proxy: nat ensures Closings(s.log, c, proxy) == ClosingsDue(n, caller', proxy) {
      assert Closings(s.log, c, proxy) == ClosingsDue(n, caller, proxy);
      assert ClosingsDue(n, caller, proxy) == ClosingsDue(n, caller', proxy);
    }
  }

  lemma OneMoreClosing(n: nat, log: seq<Event>, c: nat, sawDone: bool, left: set<nat>, closed: nat)
    requires HasClosed(n, log, Closing(sawDone, left), c) && closed in left
    ensures HasClosed(n, log + [ProxyClosed(c, closed, sawDone)], Closing(sawDone, left - {closed}), c)
  {
    var log', left' := log + [ProxyClosed(c, closed, sawDone)], left - {closed};
    forall proxy: nat ensures Closings(log', c, proxy) == ClosingsDue(n, Closing(sawDone, left'), proxy) {
      ClosingsExtend(log, ProxyClosed(c, closed, sawDone), c, proxy);
      assert Closings(log, c, proxy) == ClosingsDue(n, Closing(sawDone, left), proxy);
    }
  }

  lemma CallerStepKeepsCloses(cfg: Config, s: State, c: nat, call: CallerStep, q: nat)
    requires CallerCan(s, c, call) && q < |s.callers|
    requires HasClosed(|cfg.weights|, s.log, s.callers[q], q)
    ensures var s' := CallerDo(cfg, s, c, call); HasClosed(|cfg.weights|, s'.log, s'.callers[q], q)
  {
    var n := |cfg.weights|;
    if call.CloseProxy? {
      if q == c {
        OneMoreClosing(n, s.log, c, s.callers[c].sawDone, s.callers[c].left, call.proxy);
      } else {
        OtherEventsDoNotClose(n, s.log, ProxyClosed(c, call.proxy, s.callers[c].sawDone), s.callers[q], q);
      }
    } else if q == c {
      MoveKeepsCloses(cfg, s, c, call);
    }
  }

  lemma CheckerStepKeepsCloses(cfg: Config, s: State, step: CheckerStep, q: nat)
    requires ClosesInv(cfg, s) && CheckerCan(cfg, s, step) && q < |s.callers|
    ensures var s' := CheckerDo(cfg, s, step);
            |s'.callers| == |s.callers| && HasClosed(|cfg.weights|, s'.log, s'.callers[q], q)
  {
    assert HasClosed(|cfg.weights|, s.log, s.callers[q], q);
    match step {
      case Begin => OtherEventsDoNotClose(|cfg.weights|, s.log, ProbeStarted, s.callers[q], q);
      case ResetScore => OtherEventsDoNotClose(|cfg.weights|, s.log, ScoreReset(s.checker.i), s.callers[q], q);
      case Store =>
        OtherEventsDoNotClose(|cfg.weights|, s.log, Stored(s.checker.i, s.checker.up), s.callers[q], q);
      case _ =>
    }
  }

  lemma StepKeepsCloses(cfg: Config, s: State, step: Step)
    requires ClosesInv(cfg, s) && Can(cfg, s, step)
    ensures ClosesInv(cfg, Do(cfg, s, step))
  {
    var s' := Do(cfg, s, step);
    forall q | 0 <= q < |s'.callers| ensures HasClosed(|cfg.weights|, s'.log, s'.callers[q], q) {
      match step {
        case Check(check) => CheckerStepKeepsCloses(cfg, s, check, q);
        case Request(_, _) => assert HasClosed(|cfg.weights|, s.log, s.callers[q], q);
        case Shutdown(c, call) =>
          assert HasClosed(|cfg.weights|, s.log, s.callers[q], q);
          CallerStepKeepsCloses(cfg, s, c, call, q);
      }
    }
  }

  // ---------- every call returns ----------

  /** How many steps a call has left. */
  function CallLeft(n: nat, caller: Caller): nat {
    match caller
    case NotCalled => n + 3
    case Waiting => n + 2
    case Closing(_, left) => |left| + 1
    case Returned(_) => 0
  }

  lemma {:induction false} NumberOfProxies(n: nat)
    ensures |Proxies(n)| == n
  {
    if n > 0 {
      NumberOfProxies(n - 1);
    }
  }

  lemma CallGetsCloserToReturn(cfg: Config, s: State, c: nat, call: CallerStep)
    requires CallerCan(s, c, call)
    ensures CallLeft(|cfg.weights|, CallerDo(cfg, s, c, call).callers[c]) < CallLeft(|cfg.weights|, s.callers[c])
  {
    NumberOfProxies(|cfg.weights|);
  }

  /** Whatever the checker does, a call can take a step until it returns: at worst it times out. */
  lemma CallIsNeverStuck(s: State, c: nat) returns (call: CallerStep)
    requires c < |s.callers| && !s.callers[c].Returned?
    ensures CallerCan(s, c, call)
  {
    match s.callers[c] {
      case NotCalled => call := CloseStop;
      case Waiting => call := TimeOut;
      case Closing(_, left) =>
        if proxy :| proxy in left {
          call := CloseProxy(proxy);
        } else {
          call := Return;
        }
    }
  }

  // ---------- a Rejoin resets before it stores ----------

  /** From entry n on the log has nothing but proxy closes. */
  ghost predicate OnlyCloses(log: seq<Event>, n: nat) {
    n <= |log| && forall i :: n <= i < |log| ==> log[i].ProxyClosed?
  }

  /** The checker's last entry in the log is the reset of Backend i's score. */
  ghost predicate JustReset(log: seq<Event>, i: nat) {
    exists a :: 0 <= a < |log| && ResetAt(log, i, a)
  }

  ghost predicate ResetAt(log: seq<Event>, i: nat, a: nat)
    requires a < |log|
  {
    log[a] == ScoreReset(i) && OnlyCloses(log, a + 1)
  }

  ghost predicate StoreIsReset(log: seq<Event>, b: nat)
    requires b < |log|
  {
    log[b].Stored? && log[b].up ==> JustReset(log[..b], log[b].i)
  }

  ghost predicate ResetInv(cfg: Config, s: State) {
    Resets(cfg) ==>
      && (s.checker.Building? && s.checker.up ==> JustReset(s.log, s.checker.i))
      && (forall b :: 0 <= b < |s.log| ==> StoreIsReset(s.log, b))
  }

  lemma JustResetNow(log: seq<Event>, i: nat)
    ensures JustReset(log + [ScoreReset(i)], i)
  {
    assert ResetAt(log + [ScoreReset(i)], i, |log|);
  }

  lemma CloseKeepsReset(log: seq<Event>, i: nat, e: Event)
    requires JustReset(log, i) && e.ProxyClosed?
    ensures JustReset(log + [e], i)
  {
    var a :| 0 <= a < |log| && ResetAt(log, i, a);
    assert ResetAt(log + [e], i, a);
  }

  lemma OneMoreEvent(log: seq<Event>, e: Event)
    requires forall b :: 0 <= b < |log| ==> StoreIsReset(log, b)
    requires e.Stored? && e.up ==> JustReset(log, e.i)
    ensures forall b :: 0 <= b < |log + [e]| ==> StoreIsReset(log + [e], b)
  {
    forall b | 0 <= b < |log + [e]| ensures StoreIsReset(log + [e], b) {
      assert b < |log| ==> StoreIsReset(log, b);
      assert b < |log| ==> (log + [e])[..b] == log[..b];
      assert b == |log| ==> (log + [e])[..b] == log;
    }
  }

  lemma CheckerStepKeepsResets(cfg: Config, s: State, step: CheckerStep)
    requires ResetInv(cfg, s) && CheckerCan(cfg, s, step)
    ensures ResetInv(cfg, CheckerDo(cfg, s, step))
  {
    if Resets(cfg) {
      match step {
        case Begin => OneMoreEvent(s.log, ProbeStarted);
        case ResetScore =>
          JustResetNow(s.log, s.checker.i);
          OneMoreEvent(s.log, ScoreReset(s.checker.i));
        case Store => OneMoreEvent(s.log, Stored(s.checker.i, s.checker.up));
        case _ =>
      }
    }
  }

  lemma StepKeepsResets(cfg: Config, s: State, step: Step)
    requires ResetInv(cfg, s) && Can(cfg, s, step)
    ensures ResetInv(cfg, Do(cfg, s, step))
  {
    match step {
      case Check(check) => CheckerStepKeepsResets(cfg, s, check);
      case Request(_, _) =>
      case Shutdown(c, call) =>
        if Resets(cfg) && call.CloseProxy? {
          var e := ProxyClosed(c, call.proxy, s.callers[c].sawDone);
          OneMoreEvent(s.log, e);
          if s.checker.Building? && s.checker.up {
            CloseKeepsReset(s.log, s.checker.i, e);
          }
        }
    }
  }

  // ---------- the checker stops ----------

  /** A bound on the swaps of a shuffle that a check of Backend i may need. */
  ghost function WorkLeft(cfg: Config, s: State, i: nat): nat {
    (if s.published == [] then 0 else |Last(s.published)|) + if i < |cfg.weights| then cfg.weights[i] else 0
  }

  /** How many steps the checker has left once the stop channel is closed. */
  ghost function StepsLeft(cfg: Config, s: State): nat {
    match s.checker
    case Exited => 0
    case Leaving => 1
    case AtStopTest(i) => if i < |cfg.weights| then 2 else 4
    case AtSelect => 3
    case Flagging(i, up) => 5
    case Building(i, up, slice, left) => 6 + left
    case Resetting(i) => 7 + WorkLeft(cfg, s, i)
    case Probing(i) => 8 + WorkLeft(cfg, s, i)
    case Entering(i) => 9 + WorkLeft(cfg, s, i)
  }

  lemma CheckerGetsCloserToExit(cfg: Config, s: State, step: CheckerStep)
    requires |cfg.weights| > 0 && s.stopClosed && CheckerCan(cfg, s, step)
    ensures StepsLeft(cfg, CheckerDo(cfg, s, step)) < StepsLeft(cfg, s)
  {
  }

  lemma OthersLeaveTheCheckerAlone(cfg: Config, s: State, step: Step)
    requires Can(cfg, s, step) && !step.Check?
    ensures StepsLeft(cfg, Do(cfg, s, step)) == StepsLeft(cfg, s)
    ensures s.stopClosed ==> Do(cfg, s, step).stopClosed
  {
  }

  /** The step that the checker can take, given that Probes answer. */
  ghost function NextCheckerStep(cfg: Config, s: State): CheckerStep {
    match s.checker
    case AtSelect => if s.stopClosed then SelectStop else Tick
    case AtStopTest(i) => if i >= |cfg.weights| then EndRound else if s.stopClosed then StopSeen else PassStopTest
    case Entering(i) => Begin
    case Probing(i) => Answer(true)
    case Resetting(i) => ResetScore
    case Building(i, up, slice, left) => if left == 0 then Store else Swap(0)
    case Flagging(i, up) => SetFlag
    case _ => CloseDone
  }

  lemma CheckerIsNeverStuck(cfg: Config, s: State)
    requires RotationInv(cfg, s) && !s.checker.Exited?
    ensures CheckerCan(cfg, s, NextCheckerStep(cfg, s))
  {
  }
}
