/** The slices of a rotation balancer as they lie in shared memory. Here the pointer and the requests
    hold addresses: the checker fills and shuffles its cell in place, and a request reads the cell
    when it picks, however long after its load that is. Every run of this machine is a run of
    BalancerProtocol, whose slices are values, because no cell is written once its address has been
    stored. */
module BalancerMemory {
  import P = BalancerProtocol

  /** The checker while it works on the cell `slice`, which so far only it knows; or anywhere else. */
  datatype Checker = Elsewhere(at: P.Checker) | Filling(i: nat, up: bool, slice: nat, left: nat)

  datatype State = State(
    cells: seq<seq<nat>>,      // the memory: the slices allocated so far, by address
    stored: seq<nat>,          // the addresses that the pointer has shown; the last is the current one
    checker: Checker,
    rotations: seq<seq<bool>>, // the rest as in BalancerProtocol
    alive: seq<bool>,
    answers: seq<bool>,
    counter: nat,
    stopClosed: bool,
    doneClosed: bool,
    closes: nat,
    begunSinceClose: nat,
    readers: seq<P.Reader>,
    picks: seq<P.Pick>,
    callers: seq<P.Caller>,
    log: seq<P.Event>)

  function Cell(cells: seq<seq<nat>>, a: nat): seq<nat> {
    if a < |cells| then cells[a] else []
  }

  /** What a reader of these addresses sees at this moment. */
  function Seen(cells: seq<seq<nat>>, stored: seq<nat>): seq<seq<nat>> {
    seq(|stored|, k requires 0 <= k < |stored| => Cell(cells, stored[k]))
  }

  function SeenChecker(cells: seq<seq<nat>>, checker: Checker): P.Checker {
    match checker
    case Elsewhere(at) => at
    case Filling(i, up, slice, left) => P.Building(i, up, Cell(cells, slice), left)
  }

  /** The machine as BalancerProtocol has it, with every address replaced by what lies there. */
  function View(m: State): P.State {
    P.State(Seen(m.cells, m.stored), m.rotations, m.alive, m.answers, m.counter, SeenChecker(m.cells, m.checker),
            m.stopClosed, m.doneClosed, m.closes, m.begunSinceClose, m.readers, m.picks, m.callers, m.log)
  }

  ghost predicate Can(cfg: P.Config, m: State, step: P.Step) {
    P.Can(cfg, View(m), step)
  }

  /** Everything but the memory and the addresses. */
  function WithControl(m: State, s: P.State): State {
    State(m.cells, m.stored, if m.checker.Filling? then m.checker else Elsewhere(s.checker), s.rotations, s.alive,
          s.answers, s.counter, s.stopClosed, s.doneClosed, s.closes, s.begunSinceClose, s.readers, s.picks,
          s.callers, s.log)
  }

  /** A step that allocates a slice: the checker begins to fill one. */
  ghost predicate Allocates(m: State, s: P.State) {
    m.checker.Elsewhere? && s.checker.Building?
  }

  ghost function Do(cfg: P.Config, m: State, step: P.Step): State
    requires Can(cfg, m, step)
  {
    var s := P.Do(cfg, View(m), step);
    var m' := WithControl(m, s);
    if Allocates(m, s) then
      // a fresh cell, filled from what lies in the cell that the pointer shows
      m'.(cells := m.cells + [s.checker.slice],
          checker := Filling(s.checker.i, s.checker.up, |m.cells|, s.checker.left))
    else if m.checker.Filling? && step.Check? && step.check.Swap? then
      // in place
      var a, left := m.checker.slice, m.checker.left;
      var cell := Cell(m.cells, a);
      var swapped := cell[left := cell[step.check.j]][step.check.j := cell[left]];
      m'.(cells := if a < |m.cells| then m.cells[a := swapped] else m.cells, checker := m.checker.(left := left - 1))
    else if m.checker.Filling? && step.Check? && step.check.Store? then
      m'.(stored := m.stored + [m.checker.slice], checker := Elsewhere(s.checker))
    else m'
  }

  /** The cell being filled is not one that the pointer has ever shown. */
  ghost predicate Separate(m: State) {
    && (forall k :: 0 <= k < |m.stored| ==> m.stored[k] < |m.cells|)
    && (m.checker.Elsewhere? ==> !m.checker.at.Building?)
    && (m.checker.Filling? ==> m.checker.slice < |m.cells| && m.checker.slice !in m.stored)
  }

  lemma SeenWithMore(cells: seq<seq<nat>>, cell: seq<nat>, stored: seq<nat>)
    requires forall k :: 0 <= k < |stored| ==> stored[k] < |cells|
    ensures Seen(cells + [cell], stored) == Seen(cells, stored)
  {
  }

  lemma SeenAfterWrite(cells: seq<seq<nat>>, a: nat, cell: seq<nat>, stored: seq<nat>)
    requires a < |cells| && a !in stored
    ensures Seen(cells[a := cell], stored) == Seen(cells, stored)
  {
  }

  lemma SeenOneMore(cells: seq<seq<nat>>, stored: seq<nat>, a: nat)
    ensures Seen(cells, stored + [a]) == Seen(cells, stored) + [Cell(cells, a)]
  {
  }

  // ---------- one step ----------

  lemma AllocationIsSafe(cfg: P.Config, m: State, step: P.Step)
    requires Separate(m) && Can(cfg, m, step) && Allocates(m, P.Do(cfg, View(m), step))
    ensures var m' := Do(cfg, m, step);
            && Separate(m') && m'.stored == m.stored && Seen(m'.cells, m.stored) == Seen(m.cells, m.stored)
            && View(m') == P.Do(cfg, View(m), step)
  {
    var s := P.Do(cfg, View(m), step);
    SeenWithMore(m.cells, s.checker.slice, m.stored);
    AllocatingKeepsPublished(cfg, View(m), step);
  }

  lemma AllocatingKeepsPublished(cfg: P.Config, s: P.State, step: P.Step)
    requires P.Can(cfg, s, step) && !s.checker.Building? && P.Do(cfg, s, step).checker.Building?
    ensures P.Do(cfg, s, step).published == s.published
  {
  }

  lemma SwapIsSafe(cfg: P.Config, m: State, j: nat)
    requires Separate(m) && Can(cfg, m, P.Check(P.Swap(j)))
    ensures var m' := Do(cfg, m, P.Check(P.Swap(j)));
            && Separate(m') && m'.stored == m.stored && Seen(m'.cells, m.stored) == Seen(m.cells, m.stored)
            && View(m') == P.Do(cfg, View(m), P.Check(P.Swap(j)))
  {
    var a := m.checker.slice;
    SeenAfterWrite(m.cells, a, Do(cfg, m, P.Check(P.Swap(j))).cells[a], m.stored);
  }

  lemma StoreIsSafe(cfg: P.Config, m: State)
    requires Separate(m) && Can(cfg, m, P.Check(P.Store))
    ensures var m' := Do(cfg, m, P.Check(P.Store));
            && Separate(m') && m.stored <= m'.stored && m'.cells == m.cells
            && View(m') == P.Do(cfg, View(m), P.Check(P.Store))
  {
    SeenOneMore(m.cells, m.stored, m.checker.slice);
  }

  lemma ViewWithControl(m: State, s: P.State)
    requires s.published == View(m).published && (m.checker.Filling? ==> s.checker == View(m).checker)
    ensures View(WithControl(m, s)) == s
  {
  }

  lemma CheckerControl(cfg: P.Config, s: P.State, step: P.CheckerStep)
    requires P.CheckerCan(cfg, s, step) && !step.Store?
    ensures P.CheckerDo(cfg, s, step).published == s.published
    ensures s.checker.Building? ==> step.Swap?
  {
  }

  lemma ControlKeepsSlices(cfg: P.Config, s: P.State, step: P.Step)
    requires P.Can(cfg, s, step) && !(s.checker.Building? && step.Check?)
    ensures var s' := P.Do(cfg, s, step);
            s'.published == s.published && (s.checker.Building? ==> s'.checker == s.checker)
  {
    if step.Check? {
      CheckerControl(cfg, s, step.check);
    }
  }

  lemma ControlIsSafe(cfg: P.Config, m: State, step: P.Step)
    requires Separate(m) && Can(cfg, m, step) && !Allocates(m, P.Do(cfg, View(m), step))
    requires !(m.checker.Filling? && step.Check?)
    ensures var m' := Do(cfg, m, step);
            && Separate(m') && m'.stored == m.stored && m'.cells == m.cells
            && View(m') == P.Do(cfg, View(m), step)
  {
    ControlKeepsSlices(cfg, View(m), step);
    ViewWithControl(m, P.Do(cfg, View(m), step));
  }

  /** No step writes a cell that the pointer has shown, none forgets what it has shown, and each step
      in memory is the same step on values. */
  lemma StepRefines(cfg: P.Config, m: State, step: P.Step)
    requires Separate(m) && Can(cfg, m, step)
    ensures Separate(Do(cfg, m, step)) && m.stored <= Do(cfg, m, step).stored
    ensures Seen(Do(cfg, m, step).cells, m.stored) == Seen(m.cells, m.stored)
    ensures View(Do(cfg, m, step)) == P.Do(cfg, View(m), step)
  {
    if Allocates(m, P.Do(cfg, View(m), step)) {
      AllocationIsSafe(cfg, m, step);
    } else if m.checker.Filling? && step.Check? {
      if step.check.Store? {
        StoreIsSafe(cfg, m);
      } else {
        CheckerControl(cfg, View(m), step.check);
        SwapIsSafe(cfg, m, step.check.j);
      }
    } else {
      ControlIsSafe(cfg, m, step);
    }
  }

  // ---------- runs ----------

  /** One cell, shown by the pointer; otherwise as BalancerProtocol starts. */
  ghost predicate Init(cfg: P.Config, m: State) {
    m.stored == [0] && |m.cells| == 1 && m.checker.Elsewhere? && P.Init(cfg, View(m))
  }

  ghost predicate Follows(cfg: P.Config, m: State, m': State) {
    exists step :: Can(cfg, m, step) && m' == Do(cfg, m, step)
  }

  ghost predicate StepAt(cfg: P.Config, run: seq<State>, t: nat)
    requires t + 1 < |run|
  {
    Follows(cfg, run[t], run[t + 1])
  }

  ghost predicate IsRun(cfg: P.Config, run: seq<State>) {
    && run != [] && Init(cfg, run[0])
    && forall t :: 0 <= t < |run| - 1 ==> StepAt(cfg, run, t)
  }

  lemma FollowsStaysSeparate(cfg: P.Config, m: State, m': State)
    requires Separate(m) && Follows(cfg, m, m')
    ensures Separate(m') && m.stored <= m'.stored && Seen(m'.cells, m.stored) == Seen(m.cells, m.stored)
  {
    var step :| Can(cfg, m, step) && m' == Do(cfg, m, step);
    StepRefines(cfg, m, step);
  }

  lemma FollowsRefines(cfg: P.Config, m: State, m': State)
    requires Separate(m) && Follows(cfg, m, m')
    ensures P.Follows(cfg, View(m), View(m'))
  {
    var step :| Can(cfg, m, step) && m' == Do(cfg, m, step);
    StepRefines(cfg, m, step);
  }

  lemma {:induction false} RunIsSeparate(cfg: P.Config, run: seq<State>, t: nat)
    requires IsRun(cfg, run) && t < |run|
    ensures Separate(run[t])
  {
    if t > 0 {
      RunIsSeparate(cfg, run, t - 1);
      assert StepAt(cfg, run, t - 1);
      FollowsStaysSeparate(cfg, run[t - 1], run[t]);
    }
  }

  function Views(run: seq<State>): seq<P.State> {
    seq(|run|, t requires 0 <= t < |run| => View(run[t]))
  }

  /** So whatever holds of all runs on values holds of what readers see in memory: the rotation, the
      selections, the shares and the shutdown order. */
  lemma RunRefines(cfg: P.Config, run: seq<State>)
    requires IsRun(cfg, run)
    ensures P.IsRun(cfg, Views(run))
  {
    forall t | 0 <= t < |run| - 1 ensures P.StepAt(cfg, Views(run), t) {
      RunIsSeparate(cfg, run, t);
      assert StepAt(cfg, run, t);
      FollowsRefines(cfg, run[t], run[t + 1]);
    }
  }

  /** Over any part of a run, what lies at an address that the pointer has shown stays the same. */
  lemma {:induction false} SnapshotsAreImmutable(cfg: P.Config, run: seq<State>, t: nat, u: nat, k: nat)
    requires IsRun(cfg, run) && t <= u < |run| && k < |run[t].stored|
    ensures k < |run[u].stored| && run[u].stored[k] == run[t].stored[k]
    ensures Seen(run[u].cells, run[u].stored)[k] == Seen(run[t].cells, run[t].stored)[k]
    decreases u
  {
    if t < u {
      SnapshotsAreImmutable(cfg, run, t, u - 1, k);
      RunIsSeparate(cfg, run, u - 1);
      assert StepAt(cfg, run, u - 1);
      FollowsStaysSeparate(cfg, run[u - 1], run[u]);
      var before := run[u - 1].stored;
      assert Seen(run[u].cells, run[u].stored)[k] == Seen(run[u].cells, before)[k];
    }
  }
}
