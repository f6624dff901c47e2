/** What holds in every state of every run of the balancer. */
module BalancerSafety {
  import opened Rotation
  import opened TicketCounting
  import opened BalancerProtocol

  // ---------- rotation and liveness ----------

  /** The flags as the published slice has them: one ahead of the real ones for the single Backend
      that the checker is about to flag. */
  ghost function Intended(s: State): seq<bool> {
    if s.checker.Flagging? && s.checker.i < |s.alive| then s.alive[s.checker.i := s.checker.up] else s.alive
  }

  ghost predicate SnapshotRight(cfg: Config, published: seq<seq<nat>>, rotations: seq<seq<bool>>, k: nat)
    requires k < |published| == |rotations|
  {
    InRotation(published[k], cfg.weights, rotations[k])
  }

  ghost predicate SnapshotsRight(cfg: Config, published: seq<seq<nat>>, rotations: seq<seq<bool>>) {
    && |published| == |rotations| > 0
    && forall k :: 0 <= k < |published| ==> SnapshotRight(cfg, published, rotations, k)
  }

  lemma OneMoreSnapshot(cfg: Config, published: seq<seq<nat>>, rotations: seq<seq<bool>>, slice: seq<nat>,
                        alive: seq<bool>)
    requires SnapshotsRight(cfg, published, rotations) && InRotation(slice, cfg.weights, alive)
    ensures SnapshotsRight(cfg, published + [slice], rotations + [alive])
  {
    var published', rotations' := published + [slice], rotations + [alive];
    forall k | 0 <= k < |published'| ensures SnapshotRight(cfg, published', rotations', k) {
      assert k < |published| ==> SnapshotRight(cfg, published, rotations, k);
    }
  }

  ghost predicate CheckerRight(cfg: Config, s: State) {
    var n := |cfg.weights|;
    match s.checker
    case AtStopTest(i) => i <= n
    case Entering(i) => i < n
    case Probing(i) => i < n
    case Resetting(i) => i < n && |s.alive| == n && !s.alive[i]
    case Building(i, up, slice, left) =>
      && i < n && |s.alive| == n && s.alive[i] != up && (left == 0 || left < |slice|)
      && InRotation(slice, cfg.weights, s.alive[i := up])
    case Flagging(i, up) => i < n && |s.alive| == n && s.alive[i] != up
    case _ => true
  }

  ghost predicate RotationInv(cfg: Config, s: State) {
    && SnapshotsRight(cfg, s.published, s.rotations) && |s.alive| == |cfg.weights|
    && CheckerRight(cfg, s)
    && Last(s.rotations) == Intended(s)
  }

  lemma RotationInit(cfg: Config, s: State)
    requires Init(cfg, s)
    ensures RotationInv(cfg, s)
  {
  }

  lemma BuildKeepsRotation(cfg: Config, s: State, i: nat, up: bool)
    requires RotationInv(cfg, s) && s.checker in {Probing(i), Resetting(i)} && up != s.alive[i]
    ensures var b := BuildSlice(cfg, Last(s.published), i, up);
            InRotation(b.slice, cfg.weights, s.alive[i := up]) && (b.left == 0 || b.left < |b.slice|)
  {
    assert SnapshotRight(cfg, s.published, s.rotations, |s.published| - 1);
    if up {
      RejoinKeepsRotation(Last(s.published), cfg.weights, s.alive, i);
    } else {
      LeaveKeepsRotation(Last(s.published), cfg.weights, s.alive, i);
    }
  }

  lemma CheckerStepKeepsRotation(cfg: Config, s: State, step: CheckerStep)
    requires RotationInv(cfg, s) && CheckerCan(cfg, s, step)
    ensures RotationInv(cfg, CheckerDo(cfg, s, step))
  {
    var s', pc := CheckerDo(cfg, s, step), s.checker;
    match step {
      case Answer(up) =>
        if up != s.alive[pc.i] {
          BuildKeepsRotation(cfg, s, pc.i, up);
        }
      case ResetScore =>
        BuildKeepsRotation(cfg, s, pc.i, true);
      case Swap(j) =>
        SwapCounts(pc.slice, pc.left, j);
        PermutationKeepsRotation(pc.slice, s'.checker.slice, cfg.weights, s.alive[pc.i := pc.up]);
      case Store =>
        OneMoreSnapshot(cfg, s.published, s.rotations, pc.slice, s.alive[pc.i := pc.up]);
      case _ =>
    }
  }

  lemma OnlyTheCheckerWrites(cfg: Config, s: State, step: Step)
    requires Can(cfg, s, step) && !step.Check?
    ensures var s' := Do(cfg, s, step);
            && s'.published == s.published && s'.rotations == s.rotations
            && s'.alive == s.alive && s'.answers == s.answers && s'.checker == s.checker
  {
  }

  lemma SameFieldsSameRotation(cfg: Config, s: State, s': State)
    requires RotationInv(cfg, s)
    requires s'.published == s.published && s'.rotations == s.rotations
    requires s'.alive == s.alive && s'.checker == s.checker
    ensures RotationInv(cfg, s')
  {
  }

  lemma StepKeepsRotation(cfg: Config, s: State, step: Step)
    requires RotationInv(cfg, s) && Can(cfg, s, step)
    ensures RotationInv(cfg, Do(cfg, s, step))
  {
    if step.Check? {
      CheckerStepKeepsRotation(cfg, s, step.check);
      assert Do(cfg, s, step) == CheckerDo(cfg, s, step.check);
    } else {
      OnlyTheCheckerWrites(cfg, s, step);
      SameFieldsSameRotation(cfg, s, Do(cfg, s, step));
    }
  }

  // ---------- rounds ----------

  /** The flags of the Backends checked so far in the round are its Probe results, in config order. */
  ghost predicate RoundInv(s: State) {
    match s.checker
    case AtSelect => s.answers == s.alive
    case AtStopTest(i) => |s.answers| == i && Answered(s.answers, s.alive, i)
    case Entering(i) => |s.answers| == i && Answered(s.answers, s.alive, i)
    case Probing(i) => |s.answers| == i && Answered(s.answers, s.alive, i)
    case Resetting(i) => |s.answers| == i + 1 && s.answers[i] && Answered(s.answers, s.alive, i)
    case Building(i, up, _, _) => |s.answers| == i + 1 && s.answers[i] == up && Answered(s.answers, s.alive, i)
    case Flagging(i, up) => |s.answers| == i + 1 && s.answers[i] == up && Answered(s.answers, s.alive, i)
    case _ => Answered(s.answers, s.alive, |s.answers|)
  }

  ghost predicate Answered(answers: seq<bool>, alive: seq<bool>, n: nat) {
    n <= |answers| && n <= |alive| && answers[..n] == alive[..n]
  }

  lemma AnswerKeepsRound(cfg: Config, s: State, up: bool)
    requires RotationInv(cfg, s) && RoundInv(s) && CheckerCan(cfg, s, Answer(up))
    ensures RoundInv(CheckerDo(cfg, s, Answer(up)))
  {
    var i := s.checker.i;
    assert (s.answers + [up])[..i] == s.answers;
    assert s.alive[..i + 1] == s.alive[..i] + [s.alive[i]];
  }

  lemma FlagKeepsRound(cfg: Config, s: State)
    requires RotationInv(cfg, s) && RoundInv(s) && CheckerCan(cfg, s, SetFlag)
    ensures RoundInv(CheckerDo(cfg, s, SetFlag))
  {
    var i := s.checker.i;
    assert s.answers == s.answers[..i] + [s.answers[i]];
    assert s.alive[i := s.checker.up][..i + 1] == s.alive[..i] + [s.checker.up];
  }

  lemma CheckerStepKeepsRound(cfg: Config, s: State, step: CheckerStep)
    requires RotationInv(cfg, s) && RoundInv(s) && CheckerCan(cfg, s, step)
    ensures RoundInv(CheckerDo(cfg, s, step))
  {
    match step {
      case Answer(up) => AnswerKeepsRound(cfg, s, up);
      case SetFlag => FlagKeepsRound(cfg, s);
      case EndRound => assert s.answers[..s.checker.i] == s.answers && s.alive[..s.checker.i] == s.alive;
      case _ =>
    }
  }

  lemma StepKeepsRound(cfg: Config, s: State, step: Step)
    requires RotationInv(cfg, s) && RoundInv(s) && Can(cfg, s, step)
    ensures RoundInv(Do(cfg, s, step))
  {
    if step.Check? {
      CheckerStepKeepsRound(cfg, s, step.check);
    } else {
      OnlyTheCheckerWrites(cfg, s, step);
    }
  }

  // ---------- selections ----------

  /** The readings fit the slice, and the proxy is the one they lead to. Tickets are consecutive. */
  ghost predicate PickRight(cfg: Config, published: seq<seq<nat>>, picks: seq<Pick>, t: nat)
    requires t < |picks|
  {
    var pick := picks[t];
    && pick.snapshot < |published| && published[pick.snapshot] != []
    && var slice := published[pick.snapshot];
       && Fits(cfg, pick.readings, |slice|)
       && Slot(pick.readings, |slice|, pick.ticket) < |slice|
       && pick.proxy == slice[Slot(pick.readings, |slice|, pick.ticket)]
       && pick.ticket == if cfg.policy.ByScore? then 0 else Wrapped(t + 1)
  }

  ghost predicate PicksRight(cfg: Config, published: seq<seq<nat>>, picks: seq<Pick>) {
    forall t :: 0 <= t < |picks| ==> PickRight(cfg, published, picks, t)
  }

  ghost predicate SelectionInv(cfg: Config, s: State) {
    && s.published != [] && s.counter == (if cfg.policy.ByScore? then 0 else Wrapped(|s.picks|))
    && PicksRight(cfg, s.published, s.picks)
    && (forall r :: 0 <= r < |s.readers| && s.readers[r].Loaded? ==> s.readers[r].snapshot < |s.published|)
  }

  lemma SelectionInit(cfg: Config, s: State)
    requires Init(cfg, s)
    ensures SelectionInv(cfg, s)
  {
  }

  lemma MoreSnapshotsKeepPicks(cfg: Config, published: seq<seq<nat>>, more: seq<seq<nat>>, picks: seq<Pick>)
    requires PicksRight(cfg, published, picks) && published <= more
    ensures PicksRight(cfg, more, picks)
  {
    forall t | 0 <= t < |picks| ensures PickRight(cfg, more, picks, t) {
      assert PickRight(cfg, published, picks, t);
    }
  }

  lemma OneMorePick(cfg: Config, published: seq<seq<nat>>, picks: seq<Pick>, pick: Pick)
    requires PicksRight(cfg, published, picks) && PickRight(cfg, published, picks + [pick], |picks|)
    ensures PicksRight(cfg, published, picks + [pick])
  {
    forall t | 0 <= t < |picks| + 1 ensures PickRight(cfg, published, picks + [pick], t) {
      assert t < |picks| ==> PickRight(cfg, published, picks, t);
    }
  }

  lemma NextTicket(v: nat)
    ensures (Wrapped(v) + 1) % TICKETS == Wrapped(v + 1)
  {
  }

  lemma TakeKeepsSelections(cfg: Config, s: State, r: nat, readings: Readings)
    requires SelectionInv(cfg, s) && ReaderCan(cfg, s, r, Take(readings))
    ensures SelectionInv(cfg, ReaderDo(cfg, s, r, Take(readings)))
  {
    NextTicket(|s.picks|);
    OneMorePick(cfg, s.published, s.picks, Last(ReaderDo(cfg, s, r, Take(readings)).picks));
  }

  lemma StoreKeepsSelections(cfg: Config, s: State)
    requires SelectionInv(cfg, s) && CheckerCan(cfg, s, Store)
    ensures SelectionInv(cfg, CheckerDo(cfg, s, Store))
  {
    MoreSnapshotsKeepPicks(cfg, s.published, CheckerDo(cfg, s, Store).published, s.picks);
  }

  lemma OthersKeepSelections(cfg: Config, s: State, step: Step)
    requires SelectionInv(cfg, s) && Can(cfg, s, step)
    requires step != Check(Store) && !(step.Request? && step.read.Take?)
    ensures SelectionInv(cfg, Do(cfg, s, step))
  {
    var s' := Do(cfg, s, step);
    assert s'.published == s.published && s'.picks == s.picks && s'.counter == s.counter;
  }

  lemma StepKeepsSelections(cfg: Config, s: State, step: Step)
    requires SelectionInv(cfg, s) && Can(cfg, s, step)
    ensures SelectionInv(cfg, Do(cfg, s, step))
  {
    if step == Check(Store) {
      StoreKeepsSelections(cfg, s);
    } else if step.Request? && step.read.Take? {
      TakeKeepsSelections(cfg, s, step.r, step.read.readings);
    } else {
      OthersKeepSelections(cfg, s, step);
    }
  }
}
