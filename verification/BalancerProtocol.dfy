/** A rotation balancer at work, one atomic access at a time: the health checker, any number of
    requests selecting a Backend, and any number of Shutdown calls, in every interleaving. */
module BalancerProtocol {
  import opened Rotation
  import opened TicketCounting
  import LeastAlgorithm

  /** How a request chooses from its slice: by its ticket alone (w-round-robin, round-robin), by the
      pending requests from a rotating offset on (least-connection), or by the response-time scores
      (least-response-time). */
  datatype Policy = ByTicket | ByLoad | ByScore

  datatype Config = Config(weights: seq<nat>, shuffles: bool, policy: Policy)

  /** A Rejoin resets the Backend's score before it is published. */
  predicate Resets(cfg: Config) {
    !cfg.policy.ByTicket?
  }

  /** Where the checker goroutine is. `Building` holds the slice that only the checker can see, and
      how many swaps its shuffle still makes. */
  datatype Checker =
    | AtSelect
    | AtStopTest(i: nat)
    | Entering(i: nat)
    | Probing(i: nat)
    | Resetting(i: nat)
    | Building(i: nat, up: bool, slice: seq<nat>, left: nat)
    | Flagging(i: nat, up: bool)
    | Leaving
    | Exited

  /** A request inside next: `snapshot` is the slice it loaded, as an index into `published`. */
  datatype Reader = Idle | Loaded(snapshot: nat)

  /** What the proxies of a slice answer while a request scans it, slot by slot. For least-response-time
      `first` is the first reading of slot 0, and `winner` the slot that wins the scan. */
  datatype Readings =
    | NoReadings
    | Loads(pending: seq<int>)
    | Scores(first: real, scan: seq<real>, winner: nat)

  datatype Pick = Pick(snapshot: nat, ticket: nat, readings: Readings, proxy: nat)

  /** A Shutdown call; `left` are the proxies that it still has to close, in whatever order. */
  datatype Caller = NotCalled | Waiting | Closing(sawDone: bool, left: set<nat>) | Returned(sawDone: bool)

  datatype Event =
    | ProbeStarted
    | ScoreReset(i: nat)
    | Stored(i: nat, up: bool)
    | ProxyClosed(caller: nat, proxy: nat, sawDone: bool)

  datatype State = State(
    published: seq<seq<nat>>,   // every slice ever stored in the pointer; the last is the current one
    rotations: seq<seq<bool>>,  // for each of them, the liveness flags it stands for
    alive: seq<bool>,           // the isHostAlive flags
    answers: seq<bool>,         // the Probe results of the current round, or of the last one
    counter: nat,               // the uint64 ticket counter
    checker: Checker,
    stopClosed: bool,
    doneClosed: bool,
    closes: nat,                // how often the stop channel was closed
    begunSinceClose: nat,       // health checks begun since then
    readers: seq<Reader>,
    picks: seq<Pick>,           // all selections, in ticket order
    callers: seq<Caller>,
    log: seq<Event>)

  function Last<T>(s: seq<T>): T
    requires s != []
  {
    s[|s| - 1]
  }

  function Current(s: State): seq<nat>
    requires s.published != []
  {
    Last(s.published)
  }

  // ---------- the checker ----------

  datatype CheckerStep =
    | Tick | SelectStop | StopSeen | PassStopTest | EndRound | Begin
    | Answer(up: bool) | ResetScore | Swap(j: nat) | Store | SetFlag | CloseDone

  ghost predicate CheckerCan(cfg: Config, s: State, step: CheckerStep) {
    var n, pc := |cfg.weights|, s.checker;
    && s.published != []
    && match step
       case Tick => pc.AtSelect?
       case SelectStop => pc.AtSelect? && s.stopClosed
       case StopSeen => pc.AtStopTest? && pc.i < n && s.stopClosed
       case PassStopTest => pc.AtStopTest? && pc.i < n && !s.stopClosed
       case EndRound => pc.AtStopTest? && pc.i >= n
       case Begin => pc.Entering?
       case Answer(up) => pc.Probing? && pc.i < n && pc.i < |s.alive|
       case ResetScore => pc.Resetting? && pc.i < n
       case Swap(j) => pc.Building? && 0 < pc.left < |pc.slice| && j <= pc.left
       case Store => pc.Building? && pc.left == 0 && pc.i < |s.alive|
       case SetFlag => pc.Flagging? && pc.i < |s.alive|
       case CloseDone => pc.Leaving?
  }

  function BuildSlice(cfg: Config, current: seq<nat>, i: nat, up: bool): Checker
    requires i < |cfg.weights|
  {
    if up then
      var slice := current + Copies(i, cfg.weights[i]);
      Building(i, up, slice, if cfg.shuffles && slice != [] then |slice| - 1 else 0)
    else
      Building(i, up, Without(current, i), 0)
  }

  ghost function CheckerDo(cfg: Config, s: State, step: CheckerStep): State
    requires CheckerCan(cfg, s, step)
  {
    var pc := s.checker;
    match step
    case Tick => s.(checker := AtStopTest(0), answers := [])
    case SelectStop => s.(checker := Leaving)
    case StopSeen => s.(checker := Leaving)
    case PassStopTest => s.(checker := Entering(pc.i))
    case EndRound => s.(checker := AtSelect)
    case Begin =>
      s.(checker := Probing(pc.i), log := s.log + [ProbeStarted],
         begunSinceClose := s.begunSinceClose + if s.stopClosed then 1 else 0)
    case Answer(up) =>
      s.(checker := if up == s.alive[pc.i] then AtStopTest(pc.i + 1)
                    else if up && Resets(cfg) then Resetting(pc.i)
                    else BuildSlice(cfg, Last(s.published), pc.i, up),
         answers := s.answers + [up])
    case ResetScore =>
      s.(checker := BuildSlice(cfg, Last(s.published), pc.i, true), log := s.log + [ScoreReset(pc.i)])
    case Swap(j) =>
      var swapped := pc.slice[pc.left := pc.slice[j]][j := pc.slice[pc.left]];
      s.(checker := Building(pc.i, pc.up, swapped, pc.left - 1))
    case Store =>
      s.(checker := Flagging(pc.i, pc.up), published := s.published + [pc.slice],
         rotations := s.rotations + [s.alive[pc.i := pc.up]], log := s.log + [Stored(pc.i, pc.up)])
    case SetFlag => s.(checker := AtStopTest(pc.i + 1), alive := s.alive[pc.i := pc.up])
    case CloseDone => s.(checker := Exited, doneClosed := true)
  }

  // ---------- requests ----------

  datatype ReaderStep = Load | Take(readings: Readings) | TakeNothing

  /** Readings that the scan of a slice of n slots can make. */
  ghost predicate Fits(cfg: Config, readings: Readings, n: nat) {
    match cfg.policy
    case ByTicket => readings.NoReadings?
    case ByLoad => readings.Loads? && |readings.pending| == n
    case ByScore =>
      && readings.Scores? && |readings.scan| == n && readings.winner < n && readings.first >= 0.0
      && (forall j :: 0 <= j < n ==> readings.scan[j] >= 0.0)
      && LeastAlgorithm.WinsScan(readings.first, readings.scan, readings.winner)
  }

  /** The slot that the request ends up with. */
  ghost function Slot(readings: Readings, n: nat, ticket: nat): nat
    requires n > 0 && (readings.Loads? ==> |readings.pending| == n)
  {
    match readings
    case NoReadings => ticket % n
    case Loads(pending) => LeastAlgorithm.Choice(pending, ticket % n)
    case Scores(_, _, winner) => winner
  }

  ghost predicate HasLoaded(s: State, r: nat)
    requires r < |s.readers|
  {
    s.readers[r].Loaded? && s.readers[r].snapshot < |s.published|
  }

  ghost predicate ReaderCan(cfg: Config, s: State, r: nat, step: ReaderStep) {
    && r < |s.readers| && s.published != []
    && match step
       case Load => s.readers[r].Idle?
       case Take(readings) =>
         && HasLoaded(s, r) && s.published[s.readers[r].snapshot] != []
         && Fits(cfg, readings, |s.published[s.readers[r].snapshot]|)
       case TakeNothing => HasLoaded(s, r) && s.published[s.readers[r].snapshot] == []
  }

  /** The slot is in bounds. */
  lemma SlotInSlice(cfg: Config, readings: Readings, n: nat, ticket: nat)
    requires n > 0 && Fits(cfg, readings, n)
    ensures readings.Loads? ==> |readings.pending| == n
    ensures Slot(readings, n, ticket) < n
  {
  }

  ghost function ReaderDo(cfg: Config, s: State, r: nat, step: ReaderStep): State
    requires ReaderCan(cfg, s, r, step)
  {
    match step
    case Load => s.(readers := s.readers[r := Loaded(|s.published| - 1)])
    case Take(readings) =>
      var k := s.readers[r].snapshot;
      var slice := s.published[k];
      // least-response-time takes no ticket
      var ticket := if cfg.policy.ByScore? then s.counter else (s.counter + 1) % TICKETS;
      SlotInSlice(cfg, readings, |slice|, ticket);
      s.(readers := s.readers[r := Idle], counter := ticket,
         picks := s.picks + [Pick(k, ticket, readings, slice[Slot(readings, |slice|, ticket)])])
    case TakeNothing => s.(readers := s.readers[r := Idle])
  }

  // ---------- Shutdown ----------

  datatype CallerStep = CloseStop | SeeDone | TimeOut | CloseProxy(proxy: nat) | Return

  function Proxies(n: nat): (r: set<nat>)
    ensures forall i: nat :: i in r <==> i < n
  {
    if n == 0 then {} else Proxies(n - 1) + {n - 1}
  }

  ghost predicate CallerCan(s: State, c: nat, step: CallerStep) {
    && c < |s.callers|
    && match step
       case CloseStop => s.callers[c].NotCalled?
       case SeeDone => s.callers[c].Waiting? && s.doneClosed
       case TimeOut => s.callers[c].Waiting?
       case CloseProxy(proxy) => s.callers[c].Closing? && proxy in s.callers[c].left
       case Return => s.callers[c].Closing? && s.callers[c].left == {}
  }

  ghost function CallerDo(cfg: Config, s: State, c: nat, step: CallerStep): State
    requires CallerCan(s, c, step)
  {
    var pc := s.callers[c];
    match step
    case CloseStop =>
      // sync.Once: only the first caller closes the channel
      s.(callers := s.callers[c := Waiting], stopClosed := true, closes := s.closes + if s.stopClosed then 0 else 1)
    case SeeDone => s.(callers := s.callers[c := Closing(true, Proxies(|cfg.weights|))])
    case TimeOut => s.(callers := s.callers[c := Closing(false, Proxies(|cfg.weights|))])
    case CloseProxy(proxy) =>
      s.(callers := s.callers[c := Closing(pc.sawDone, pc.left - {proxy})],
         log := s.log + [ProxyClosed(c, proxy, pc.sawDone)])
    case Return => s.(callers := s.callers[c := Returned(pc.sawDone)])
  }

  // ---------- runs ----------

  datatype Step = Check(check: CheckerStep) | Request(r: nat, read: ReaderStep) | Shutdown(c: nat, call: CallerStep)

  ghost predicate Can(cfg: Config, s: State, step: Step) {
    match step
    case Check(check) => CheckerCan(cfg, s, check)
    case Request(r, read) => ReaderCan(cfg, s, r, read)
    case Shutdown(c, call) => CallerCan(s, c, call)
  }

  ghost function Do(cfg: Config, s: State, step: Step): State
    requires Can(cfg, s, step)
  {
    match step
    case Check(check) => CheckerDo(cfg, s, check)
    case Request(r, read) => ReaderDo(cfg, s, r, read)
    case Shutdown(c, call) => CallerDo(cfg, s, c, call)
  }

  /** As the constructor leaves it: one slice, right for the first Probes, and not empty. */
  ghost predicate Init(cfg: Config, s: State) {
    && |s.published| == 1 && s.rotations == [s.alive] && s.published[0] != [] && s.answers == s.alive
    && InRotation(s.published[0], cfg.weights, s.alive)
    && s.counter == 0 && s.picks == [] && s.log == []
    && s.checker == AtSelect && !s.stopClosed && !s.doneClosed && s.closes == 0 && s.begunSinceClose == 0
    && (forall r :: 0 <= r < |s.readers| ==> s.readers[r] == Idle)
    && (forall c :: 0 <= c < |s.callers| ==> s.callers[c] == NotCalled)
  }

  ghost predicate IsRun(cfg: Config, run: seq<State>) {
    && run != [] && Init(cfg, run[0])
    && forall t :: 0 <= t < |run| - 1 ==> StepAt(cfg, run, t)
  }

  ghost predicate StepAt(cfg: Config, run: seq<State>, t: nat)
    requires t + 1 < |run|
  {
    Follows(cfg, run[t], run[t + 1])
  }

  ghost predicate Follows(cfg: Config, s: State, s': State) {
    exists step :: Can(cfg, s, step) && s' == Do(cfg, s, step)
  }
}
