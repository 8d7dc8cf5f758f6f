/** Lab 9: Santa Claus, elves and reindeer as threads over six mutexes and four condition variables.
    One step is one mutex operation, one wait, one broadcast or one access to the shared counters.
    pthread_cond_wait unlocks and parks in one step; only a broadcast wakes a parked thread. */
module Santa {
  import opened Options

  datatype Config = Config(elves: nat, maxWaiting: nat, reindeer: nat, maxDeliveries: nat)

  datatype Mutex =
    | SleepMutex      // santa_sleep_mutex
    | ProblemMutex    // elves_problem_mutex
    | WaitMutex       // elves_wait_mutex
    | StartMutex      // santa_started_solving_problem_mutex
    | ReturnMutex     // reindeer_wait_mutex
    | DeliveryMutex   // reindeer_delivery_mutex

  datatype Thread = TheSanta | Elf(e: nat) | Reindeer(r: nat)

  datatype ElfPc =
    | Working
    | LockWait | CheckRoom | LockNotice | UnlockNotice | ParkSolved | ParkedSolved | WokenSolved | UnlockWait
    | LockProblem | Report | LockSleep | Broadcast | UnlockSleep | UnlockProblem
    | LockStart | ParkStart | ParkedStart | WokenStart | UnlockStart

  datatype ReindeerPc =
    | OnHoliday
    | LockReturn | Count | LockSleepR | BroadcastR | UnlockSleepR | UnlockReturn
    | LockDelivery | ParkDelivery | ParkedDelivery | WokenDelivery | UnlockDelivery

  datatype SantaPc =
    // santa_sleep
    | LockToSleep | CheckElves | CheckReindeer | Park | Parked | Woken | WakeUp
    // deliver_presents
    | LockToDeliver | CheckAllBack | Deliver | LockToReset | ResetReindeer | BroadcastDelivered
    | UnlockReset | UnlockDeliver | CheckDone
    // solve_elves_problem
    | LockSleepAgain | LockProblems | CheckGroup | LockToStart | BroadcastStart | UnlockToStart
    | LockToFinish | ResetElves | BroadcastSolved | UnlockFinish | UnlockProblems | UnlockSleepAgain
    | Finished

  /** The shared variables.  `counted` (reindeer counted since the last delivery), `served` (some group was
      served since Santa last woke up) and `calls` (how often Santa has called a group of elves) record
      history and influence nothing. */
  datatype Shared = Shared(
    elfCount: nat,
    ids: seq<int>,
    reindeerCount: nat,
    deliveries: nat,
    counted: set<nat>,
    served: bool,
    calls: nat)

  datatype State = State(
    locks: map<Mutex, Thread>,
    shared: Shared,
    santa: SantaPc,
    elves: seq<ElfPc>,
    reindeer: seq<ReindeerPc>)

  function Init(c: Config): State {
    State(map[], Shared(0, seq(c.maxWaiting, _ => 0), 0, 0, {}, true, 0), LockToSleep,
          seq(c.elves, _ => Working), seq(c.reindeer, _ => OnHoliday))
  }

  // ---------------------------------------------------------------- elf.c

  function NextElf(c: Config, sh: Shared, pc: ElfPc): ElfPc {
    match pc
    case Working => LockWait
    case LockWait => CheckRoom
    case CheckRoom => if sh.elfCount == c.maxWaiting then LockNotice else UnlockWait
    case LockNotice => UnlockNotice
    case UnlockNotice => ParkSolved
    case ParkSolved => ParkedSolved
    case ParkedSolved => ParkedSolved
    case WokenSolved => CheckRoom
    case UnlockWait => LockProblem
    case LockProblem => Report
    case Report =>
      if sh.elfCount < c.maxWaiting && sh.elfCount + 1 == c.maxWaiting then LockSleep else UnlockProblem
    case LockSleep => Broadcast
    case Broadcast => UnlockSleep
    case UnlockSleep => UnlockProblem
    case UnlockProblem => LockStart
    case LockStart => ParkStart
    case ParkStart => ParkedStart
    case ParkedStart => ParkedStart
    case WokenStart => UnlockStart
    case UnlockStart => Working
  }

  function ElfLocks(pc: ElfPc): Option<Mutex> {
    match pc
    case LockWait => Some(WaitMutex)
    case LockNotice => Some(StartMutex)
    case WokenSolved => Some(WaitMutex)
    case LockProblem => Some(ProblemMutex)
    case LockSleep => Some(SleepMutex)
    case LockStart => Some(StartMutex)
    case WokenStart => Some(StartMutex)
    case _ => None
  }

  function ElfUnlocks(pc: ElfPc): Option<Mutex> {
    match pc
    case UnlockNotice => Some(StartMutex)
    case ParkSolved => Some(WaitMutex)
    case UnlockWait => Some(WaitMutex)
    case UnlockSleep => Some(SleepMutex)
    case UnlockProblem => Some(ProblemMutex)
    case ParkStart => Some(StartMutex)
    case UnlockStart => Some(StartMutex)
    case _ => None
  }

  function ElfHolds(pc: ElfPc): set<Mutex> {
    match pc
    case CheckRoom => {WaitMutex}
    case LockNotice => {WaitMutex}
    case UnlockNotice => {WaitMutex, StartMutex}
    case ParkSolved => {WaitMutex}
    case UnlockWait => {WaitMutex}
    case Report => {ProblemMutex}
    case LockSleep => {ProblemMutex}
    case Broadcast => {ProblemMutex, SleepMutex}
    case UnlockSleep => {ProblemMutex, SleepMutex}
    case UnlockProblem => {ProblemMutex}
    case ParkStart => {StartMutex}
    case UnlockStart => {StartMutex}
    case _ => {}
  }

  function ElfWrites(c: Config, sh: Shared, pc: ElfPc, e: nat): Shared {
    if pc.Report? && sh.elfCount < c.maxWaiting && sh.elfCount < |sh.ids| then
      sh.(ids := sh.ids[sh.elfCount := e], elfCount := sh.elfCount + 1)
    else sh
  }

  // ---------------------------------------------------------------- reindeer.c

  function NextReindeer(c: Config, sh: Shared, pc: ReindeerPc): ReindeerPc {
    match pc
    case OnHoliday => LockReturn
    case LockReturn => Count
    case Count => if sh.reindeerCount + 1 == c.reindeer then LockSleepR else UnlockReturn
    case LockSleepR => BroadcastR
    case BroadcastR => UnlockSleepR
    case UnlockSleepR => UnlockReturn
    case UnlockReturn => LockDelivery
    case LockDelivery => ParkDelivery
    case ParkDelivery => ParkedDelivery
    case ParkedDelivery => ParkedDelivery
    case WokenDelivery => UnlockDelivery
    case UnlockDelivery => OnHoliday
  }

  function ReindeerLocks(pc: ReindeerPc): Option<Mutex> {
    match pc
    case LockReturn => Some(ReturnMutex)
    case LockSleepR => Some(SleepMutex)
    case LockDelivery => Some(DeliveryMutex)
    case WokenDelivery => Some(DeliveryMutex)
    case _ => None
  }

  function ReindeerUnlocks(pc: ReindeerPc): Option<Mutex> {
    match pc
    case UnlockSleepR => Some(SleepMutex)
    case UnlockReturn => Some(ReturnMutex)
    case ParkDelivery => Some(DeliveryMutex)
    case UnlockDelivery => Some(DeliveryMutex)
    case _ => None
  }

  function ReindeerHolds(pc: ReindeerPc): set<Mutex> {
    match pc
    case Count => {ReturnMutex}
    case LockSleepR => {ReturnMutex}
    case BroadcastR => {ReturnMutex, SleepMutex}
    case UnlockSleepR => {ReturnMutex, SleepMutex}
    case UnlockReturn => {ReturnMutex}
    case ParkDelivery => {DeliveryMutex}
    case UnlockDelivery => {DeliveryMutex}
    case _ => {}
  }

  function ReindeerWrites(sh: Shared, pc: ReindeerPc, r: nat): Shared {
    if pc.Count? then sh.(reindeerCount := sh.reindeerCount + 1, counted := sh.counted + {r}) else sh
  }

  // ---------------------------------------------------------------- santa.c

  function NextSanta(c: Config, sh: Shared, pc: SantaPc): SantaPc {
    match pc
    case LockToSleep => CheckElves
    case CheckElves => if sh.elfCount < c.maxWaiting then CheckReindeer else WakeUp
    case CheckReindeer => if sh.reindeerCount < c.reindeer then Park else WakeUp
    case Park => Parked
    case Parked => Parked
    case Woken => CheckElves
    case WakeUp => LockToDeliver
    case LockToDeliver => CheckAllBack
    case CheckAllBack => if sh.reindeerCount == c.reindeer then Deliver else UnlockDeliver
    case Deliver => LockToReset
    case LockToReset => ResetReindeer
    case ResetReindeer => BroadcastDelivered
    case BroadcastDelivered => UnlockReset
    case UnlockReset => UnlockDeliver
    case UnlockDeliver => CheckDone
    case CheckDone => if sh.deliveries == c.maxDeliveries then Finished else LockSleepAgain
    case LockSleepAgain => LockProblems
    case LockProblems => CheckGroup
    case CheckGroup => if sh.elfCount == c.maxWaiting then LockToStart else UnlockProblems
    case LockToStart => BroadcastStart
    case BroadcastStart => UnlockToStart
    case UnlockToStart => LockToFinish
    case LockToFinish => ResetElves
    case ResetElves => BroadcastSolved
    case BroadcastSolved => UnlockFinish
    case UnlockFinish => UnlockProblems
    case UnlockProblems => UnlockSleepAgain
    case UnlockSleepAgain => LockToSleep
    case Finished => Finished
  }

  function SantaLocks(pc: SantaPc): Option<Mutex> {
    match pc
    case LockToSleep => Some(SleepMutex)
    case Woken => Some(SleepMutex)
    case LockToDeliver => Some(DeliveryMutex)
    case LockToReset => Some(ReturnMutex)
    case LockSleepAgain => Some(SleepMutex)
    case LockProblems => Some(ProblemMutex)
    case LockToStart => Some(StartMutex)
    case LockToFinish => Some(WaitMutex)
    case _ => None
  }

  function SantaUnlocks(pc: SantaPc): Option<Mutex> {
    match pc
    case Park => Some(SleepMutex)
    case WakeUp => Some(SleepMutex)
    case UnlockReset => Some(ReturnMutex)
    case UnlockDeliver => Some(DeliveryMutex)
    case UnlockToStart => Some(StartMutex)
    case UnlockFinish => Some(WaitMutex)
    case UnlockProblems => Some(ProblemMutex)
    case UnlockSleepAgain => Some(SleepMutex)
    case _ => None
  }

  function SantaHolds(pc: SantaPc): set<Mutex> {
    match pc
    case CheckElves => {SleepMutex}
    case CheckReindeer => {SleepMutex}
    case Park => {SleepMutex}
    case WakeUp => {SleepMutex}
    case CheckAllBack => {DeliveryMutex}
    case Deliver => {DeliveryMutex}
    case LockToReset => {DeliveryMutex}
    case ResetReindeer => {DeliveryMutex, ReturnMutex}
    case BroadcastDelivered => {DeliveryMutex, ReturnMutex}
    case UnlockReset => {DeliveryMutex, ReturnMutex}
    case UnlockDeliver => {DeliveryMutex}
    case LockProblems => {SleepMutex}
    case CheckGroup => {SleepMutex, ProblemMutex}
    case LockToStart => {SleepMutex, ProblemMutex}
    case BroadcastStart => {SleepMutex, ProblemMutex, StartMutex}
    case UnlockToStart => {SleepMutex, ProblemMutex, StartMutex}
    case LockToFinish => {SleepMutex, ProblemMutex}
    case ResetElves => {SleepMutex, ProblemMutex, WaitMutex}
    case BroadcastSolved => {SleepMutex, ProblemMutex, WaitMutex}
    case UnlockFinish => {SleepMutex, ProblemMutex, WaitMutex}
    case UnlockProblems => {SleepMutex, ProblemMutex}
    case UnlockSleepAgain => {SleepMutex}
    case _ => {}
  }

  function SantaWrites(sh: Shared, pc: SantaPc): Shared {
    match pc
    case WakeUp => sh.(served := false)
    case Deliver => sh.(deliveries := sh.deliveries + 1)
    case ResetReindeer => sh.(reindeerCount := 0, counted := {}, served := true)
    case BroadcastStart => sh.(calls := sh.calls + 1)
    case ResetElves => sh.(elfCount := 0, served := true)
    case _ => sh
  }

  // ---------------------------------------------------------------- steps

  function Wake(s: State): State {
    if s.santa.Parked? then s.(santa := Woken) else s
  }

  function WakeElves(pcs: seq<ElfPc>, parked: ElfPc, woken: ElfPc): (r: seq<ElfPc>)
    ensures |r| == |pcs|
    ensures forall e :: 0 <= e < |pcs| ==> r[e] == if pcs[e] == parked then woken else pcs[e]
  {
    seq(|pcs|, e requires 0 <= e < |pcs| => if pcs[e] == parked then woken else pcs[e])
  }

  function WakeReindeer(pcs: seq<ReindeerPc>): (r: seq<ReindeerPc>)
    ensures |r| == |pcs|
    ensures forall k :: 0 <= k < |pcs| ==> r[k] == if pcs[k].ParkedDelivery? then WokenDelivery else pcs[k]
  {
    seq(|pcs|, k requires 0 <= k < |pcs| => if pcs[k].ParkedDelivery? then WokenDelivery else pcs[k])
  }

  predicate IsThread(s: State, t: Thread) {
    match t
    case TheSanta => true
    case Elf(e) => e < |s.elves|
    case Reindeer(r) => r < |s.reindeer|
  }

  function Holds(s: State, t: Thread): set<Mutex>
    requires IsThread(s, t)
  {
    match t
    case TheSanta => SantaHolds(s.santa)
    case Elf(e) => ElfHolds(s.elves[e])
    case Reindeer(r) => ReindeerHolds(s.reindeer[r])
  }

  function Locks(s: State, t: Thread): Option<Mutex>
    requires IsThread(s, t)
  {
    match t
    case TheSanta => SantaLocks(s.santa)
    case Elf(e) => ElfLocks(s.elves[e])
    case Reindeer(r) => ReindeerLocks(s.reindeer[r])
  }

  function Unlocks(s: State, t: Thread): Option<Mutex>
    requires IsThread(s, t)
  {
    match t
    case TheSanta => SantaUnlocks(s.santa)
    case Elf(e) => ElfUnlocks(s.elves[e])
    case Reindeer(r) => ReindeerUnlocks(s.reindeer[r])
  }

  predicate IsParked(s: State, t: Thread)
    requires IsThread(s, t)
  {
    match t
    case TheSanta => s.santa.Parked?
    case Elf(e) => s.elves[e].ParkedSolved? || s.elves[e].ParkedStart?
    case Reindeer(r) => s.reindeer[r].ParkedDelivery?
  }

  /** A thread steps unless it is parked or waits for a held mutex; Santa's exit ends the process. */
  predicate Enabled(s: State, t: Thread) {
    && !s.santa.Finished?
    && IsThread(s, t)
    && !IsParked(s, t)
    && (Locks(s, t).Some? ==> Locks(s, t).value !in s.locks)
  }

  function NewLocks(s: State, t: Thread): map<Mutex, Thread>
    requires IsThread(s, t)
  {
    var acquired := if Locks(s, t).Some? then s.locks[Locks(s, t).value := t] else s.locks;
    if Unlocks(s, t).Some? then acquired - {Unlocks(s, t).value} else acquired
  }

  function SantaStep(c: Config, s: State): State {
    var pc := s.santa;
    var s' := s.(locks := NewLocks(s, TheSanta), shared := SantaWrites(s.shared, pc),
                 santa := NextSanta(c, s.shared, pc));
    match pc
    case BroadcastDelivered => s'.(reindeer := WakeReindeer(s.reindeer))
    case BroadcastStart => s'.(elves := WakeElves(s.elves, ParkedStart, WokenStart))
    case BroadcastSolved => s'.(elves := WakeElves(s.elves, ParkedSolved, WokenSolved))
    case _ => s'
  }

  function ElfStep(c: Config, s: State, e: nat): State
    requires e < |s.elves|
  {
    var pc := s.elves[e];
    var s' := s.(locks := NewLocks(s, Elf(e)), shared := ElfWrites(c, s.shared, pc, e),
                 elves := s.elves[e := NextElf(c, s.shared, pc)]);
    if pc.Broadcast? then Wake(s') else s'
  }

  function ReindeerStep(c: Config, s: State, r: nat): State
    requires r < |s.reindeer|
  {
    var pc := s.reindeer[r];
    var s' := s.(locks := NewLocks(s, Reindeer(r)), shared := ReindeerWrites(s.shared, pc, r),
                 reindeer := s.reindeer[r := NextReindeer(c, s.shared, pc)]);
    if pc.BroadcastR? then Wake(s') else s'
  }

  function Apply(c: Config, s: State, t: Thread): State
    requires IsThread(s, t)
  {
    match t
    case TheSanta => SantaStep(c, s)
    case Elf(e) => ElfStep(c, s, e)
    case Reindeer(r) => ReindeerStep(c, s, r)
  }

  /** The state after a schedule, or None when some step of it was blocked. */
  function Exec(c: Config, s: State, schedule: seq<Thread>): Option<State>
    decreases |schedule|
  {
    if schedule == [] then Some(s)
    else
      var before := Exec(c, s, schedule[..|schedule| - 1]);
      var t := schedule[|schedule| - 1];
      if before.Some? && Enabled(before.value, t) then Some(Apply(c, before.value, t)) else None
  }
}
