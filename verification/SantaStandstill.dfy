/** Lab 9: when all threads of the Santa program can come to a standstill.  There are two ways: Santa and an
    elf lock each other out, or a reindeer comes to wait for a broadcast that was made while it was still on
    its way, and is then missing for ever. */
module SantaStandstill {
  import opened Options
  import opened Santa
  import opened SantaSafety
  import opened SantaPaths
  import opened SantaRounds
  import opened SantaDeadlock

  /** The program has not ended, and no thread can take a step. */
  ghost predicate Dead(s: State) {
    !s.santa.Finished? && forall t :: !Enabled(s, t)
  }

  ghost predicate CanDie(c: Config) {
    exists s :: Reaches(c, s) && Dead(s)
  }

  // ---------------------------------------------------------------- work left without a broadcast

  /** Steps an elf can make at most before it parks, if nobody calls it. */
  function ElfRank(pc: ElfPc): nat {
    match pc
    case WokenStart => 16
    case UnlockStart => 15
    case Working => 14
    case LockWait => 13
    case WokenSolved => 13
    case CheckRoom => 12
    case LockNotice => 11
    case UnlockNotice => 10
    case ParkSolved => 9
    case UnlockWait => 11
    case LockProblem => 10
    case Report => 9
    case LockSleep => 8
    case Broadcast => 7
    case UnlockSleep => 6
    case UnlockProblem => 5
    case LockStart => 4
    case ParkStart => 3
    case ParkedSolved => 0
    case ParkedStart => 0
  }

  function ReindeerRank(pc: ReindeerPc): nat {
    match pc
    case WokenDelivery => 12
    case UnlockDelivery => 11
    case OnHoliday => 10
    case LockReturn => 9
    case Count => 8
    case LockSleepR => 7
    case BroadcastR => 6
    case UnlockSleepR => 5
    case UnlockReturn => 4
    case LockDelivery => 3
    case ParkDelivery => 2
    case ParkedDelivery => 0
  }

  /** Santa on his way back to sleep. */
  predicate Settling(pc: SantaPc) {
    SantaRank(pc) < 20
  }

  function SantaRank(pc: SantaPc): nat {
    match pc
    case UnlockReset => 13
    case UnlockDeliver => 12
    case CheckDone => 11
    case LockSleepAgain => 10
    case LockProblems => 9
    case CheckGroup => 8
    case UnlockProblems => 7
    case UnlockSleepAgain => 6
    case LockToSleep => 5
    case CheckElves => 4
    case CheckReindeer => 3
    case Park => 2
    case Parked => 0
    case _ => 20
  }

  function ElfWork(pcs: seq<ElfPc>): nat {
    if pcs == [] then 0 else ElfWork(pcs[..|pcs| - 1]) + ElfRank(pcs[|pcs| - 1])
  }

  function ReindeerWork(pcs: seq<ReindeerPc>): nat {
    if pcs == [] then 0 else ReindeerWork(pcs[..|pcs| - 1]) + ReindeerRank(pcs[|pcs| - 1])
  }

  function Work(s: State): nat {
    SantaRank(s.santa) + ElfWork(s.elves) + ReindeerWork(s.reindeer)
  }

  lemma {:induction false} ElfWorkOf(pcs: seq<ElfPc>, e: nat, pc: ElfPc)
    requires e < |pcs|
    ensures ElfWork(pcs[e := pc]) == ElfWork(pcs) - ElfRank(pcs[e]) + ElfRank(pc)
  {
    var last := |pcs| - 1;
    if e < last {
      ElfWorkOf(pcs[..last], e, pc);
      assert pcs[e := pc][..last] == pcs[..last][e := pc];
    } else {
      assert pcs[e := pc][..last] == pcs[..last];
    }
  }

  lemma {:induction false} ReindeerWorkOf(pcs: seq<ReindeerPc>, r: nat, pc: ReindeerPc)
    requires r < |pcs|
    ensures ReindeerWork(pcs[r := pc]) == ReindeerWork(pcs) - ReindeerRank(pcs[r]) + ReindeerRank(pc)
  {
    var last := |pcs| - 1;
    if r < last {
      ReindeerWorkOf(pcs[..last], r, pc);
      assert pcs[r := pc][..last] == pcs[..last][r := pc];
    } else {
      assert pcs[r := pc][..last] == pcs[..last];
    }
  }

  lemma ElvesGoOn(c: Config, s: State, e: nat)
    requires Enabled(s, Elf(e)) && !s.elves[e].Broadcast?
    ensures Work(Apply(c, s, Elf(e))) < Work(s)
  {
    ElfWorkOf(s.elves, e, NextElf(c, s.shared, s.elves[e]));
  }

  lemma ReindeerGoOn(c: Config, s: State, r: nat)
    requires Enabled(s, Reindeer(r)) && !s.reindeer[r].BroadcastR?
    ensures Work(Apply(c, s, Reindeer(r))) < Work(s)
  {
    ReindeerWorkOf(s.reindeer, r, NextReindeer(c, s.shared, s.reindeer[r]));
  }

  // ---------------------------------------------------------------- the two ways

  /** Reindeer r is not counted and waits, or is about to wait, for the next delivery; Santa is on his way
      to sleep, nobody is going to wake him, and there are too few elves for a group. */
  ghost predicate Missed(c: Config, s: State, r: nat) {
    && c.elves < c.maxWaiting && s.shared.deliveries < c.maxDeliveries
    && r < |s.reindeer| && r !in s.shared.counted && Waits(s.reindeer[r])
    && Settling(s.santa)
    && forall k :: 0 <= k < |s.reindeer| ==> !AboutToWakeReindeer(s.reindeer[k])
  }

  predicate Waits(pc: ReindeerPc) {
    pc.LockDelivery? || pc.ParkDelivery? || pc.ParkedDelivery?
  }

  ghost predicate Doomed(c: Config, s: State, e: nat, r: nat) {
    Inv(c, s) && (Stuck(s, e) || Missed(c, s, r))
  }

  /** No group of elves forms when there are too few of them. */
  lemma TooFewElves(c: Config, s: State, e: nat)
    requires Inv(c, s) && !(1 <= c.maxWaiting <= c.elves) && e < |s.elves|
    ensures !WakesSanta(s.elves[e])
    ensures c.maxWaiting > 0 ==> s.shared.elfCount < c.maxWaiting
  {
    DistinctBelow(s.shared.ids[..s.shared.elfCount], c.elves);
  }

  lemma GroupTooSmall(c: Config, s: State)
    requires Inv(c, s) && c.elves < c.maxWaiting
    ensures s.shared.elfCount < c.maxWaiting
  {
    DistinctBelow(s.shared.ids[..s.shared.elfCount], c.elves);
  }

  /** Without reindeer r the count is never complete. */
  lemma OneMissing(c: Config, s: State, r: nat)
    requires ReindeerOk(c, s) && r < c.reindeer && r !in s.shared.counted
    ensures s.shared.reindeerCount < c.reindeer
    ensures forall k :: 0 <= k < c.reindeer && k != r && k !in s.shared.counted ==>
              s.shared.reindeerCount + 1 < c.reindeer
  {
    AtMost(c.reindeer, s.shared.counted);
    forall k | 0 <= k < c.reindeer && k != r && k !in s.shared.counted
      ensures s.shared.reindeerCount + 1 < c.reindeer
    {
      AtMost(c.reindeer, s.shared.counted + {k});
    }
  }

  lemma StuckStep(c: Config, s: State, e: nat, t: Thread)
    requires Inv(c, s) && Stuck(s, e) && Enabled(s, t)
    ensures Stuck(Apply(c, s, t), e) && Work(Apply(c, s, t)) < Work(s)
  {
    StuckForever(c, s, e, t);
    match t
    case TheSanta =>
    case Elf(w) =>
      if s.elves[w].Broadcast? {
        OneHolder(s, TheSanta, Elf(w), SleepMutex);
        assert false;
      }
      ElvesGoOn(c, s, w);
    case Reindeer(r) =>
      if s.reindeer[r].BroadcastR? {
        OneHolder(s, TheSanta, Reindeer(r), SleepMutex);
        assert false;
      }
      ReindeerGoOn(c, s, r);
  }

  lemma SantaSettles(c: Config, s: State, r: nat)
    requires Inv(c, s) && Missed(c, s, r) && Enabled(s, TheSanta)
    ensures Missed(c, SantaStep(c, s), r) && Work(SantaStep(c, s)) < Work(s)
  {
    GroupTooSmall(c, s);
    OneMissing(c, s, r);
  }

  lemma MissedStep(c: Config, s: State, r: nat, t: Thread)
    requires Inv(c, s) && Missed(c, s, r) && Enabled(s, t)
    ensures Missed(c, Apply(c, s, t), r) && Work(Apply(c, s, t)) < Work(s)
  {
    match t
    case TheSanta =>
      SantaSettles(c, s, r);
    case Elf(e) =>
      TooFewElves(c, s, e);
      ElvesGoOn(c, s, e);
    case Reindeer(k) =>
      OneMissing(c, s, r);
      ReindeerGoOn(c, s, k);
  }

  /** A doomed state runs into a standstill: whatever step is taken, it stays doomed and has less work left. */
  lemma {:induction false} RunsOut(c: Config, s: State, e: nat, r: nat) returns (d: State)
    requires Reaches(c, s) && Doomed(c, s, e, r)
    ensures Reaches(c, d) && Dead(d)
    decreases Work(s)
  {
    if t :| Enabled(s, t) {
      if Stuck(s, e) {
        StuckStep(c, s, e, t);
      } else {
        MissedStep(c, s, r, t);
      }
      StepKeepsInv(c, s, t);
      OneStep(c, Init(c), s, t);
      d := RunsOut(c, Apply(c, s, t), e, r);
    } else {
      d := s;
    }
  }

  // ---------------------------------------------------------------- a run that misses a reindeer

  /** All reindeer are counted and on their way to wait when Santa delivers and broadcasts. */
  lemma MissedRun(c: Config, run: iset<State>) returns (s: State)
    requires Closed(c, run) && Init(c) in run
    requires c.elves < c.maxWaiting && c.reindeer >= 1 && c.maxDeliveries >= 2
    ensures s in run && Missed(c, s, 0)
  {
    s := ReindeerJoin(c, run, Init(c), c.reindeer, LockDelivery);
    assert s.reindeer[0] == LockDelivery;
    s := SantaDrives(c, run, s);
  }

  lemma MissedReachable(c: Config) returns (s: State)
    requires c.elves < c.maxWaiting && c.reindeer >= 1 && c.maxDeliveries >= 2
    ensures Reaches(c, s) && Inv(c, s) && Missed(c, s, 0)
  {
    AfterClosed(c, Init(c));
    s := MissedRun(c, After(c, Init(c)));
    ReachesInv(c, s);
  }

  // ---------------------------------------------------------------- when it cannot happen

  /** The order in which mutexes are taken, but for the elf that wakes Santa. */
  function Order(m: Mutex): nat {
    match m
    case StartMutex => 0
    case WaitMutex => 1
    case ProblemMutex => 2
    case SleepMutex => 3
    case ReturnMutex => 4
    case DeliveryMutex => 5
  }

  ghost predicate Ordered(s: State) {
    forall e :: 0 <= e < |s.elves| ==> !WakesSanta(s.elves[e])
  }

  lemma WaitsForLower(s: State, t: Thread, m: Mutex)
    requires Ordered(s) && IsThread(s, t) && m in Holds(s, t)
    ensures !IsParked(s, t)
    ensures Locks(s, t).Some? ==> Order(Locks(s, t).value) < Order(m)
  {
  }

  lemma {:induction false} HeldMutexMoves(s: State, m: Mutex) returns (t: Thread)
    requires LocksOk(s) && Ordered(s) && !s.santa.Finished? && m in s.locks
    ensures Enabled(s, t)
    decreases Order(m)
  {
    t := s.locks[m];
    WaitsForLower(s, t, m);
    if Locks(s, t).Some? && Locks(s, t).value in s.locks {
      t := HeldMutexMoves(s, Locks(s, t).value);
    }
  }

  /** Without that elf, a standstill means that everybody is parked. */
  lemma DeadMeansParked(s: State, t: Thread)
    requires LocksOk(s) && Ordered(s) && Dead(s) && IsThread(s, t)
    ensures IsParked(s, t)
  {
    if !IsParked(s, t) {
      assert !Enabled(s, t);
      var u := HeldMutexMoves(s, Locks(s, t).value);
      assert false;
    }
  }

  /** Before the first delivery nobody is parked who is not counted. */
  ghost predicate FirstRound(s: State) {
    && (s.santa.LockToReset? || s.santa.ResetReindeer? || s.santa.BroadcastDelivered? ==> s.shared.deliveries > 0)
    && (s.shared.deliveries == 0 ==>
          forall r :: 0 <= r < |s.reindeer| ==> NotBackYet(s.reindeer[r]) || r in s.shared.counted)
  }

  predicate NotBackYet(pc: ReindeerPc) {
    pc.OnHoliday? || pc.LockReturn? || pc.Count?
  }

  lemma StepKeepsFirstRound(c: Config, s: State, t: Thread)
    requires FirstRound(s) && Enabled(s, t)
    ensures FirstRound(Apply(c, s, t))
  {
  }

  lemma {:induction false} ExecKeepsFirstRound(c: Config, schedule: seq<Thread>)
    requires Exec(c, Init(c), schedule).Some?
    ensures FirstRound(Exec(c, Init(c), schedule).value)
    decreases |schedule|
  {
    if schedule != [] {
      var front, t := schedule[..|schedule| - 1], schedule[|schedule| - 1];
      ExecKeepsFirstRound(c, front);
      StepKeepsFirstRound(c, Exec(c, Init(c), front).value, t);
    }
  }

  lemma {:induction false} AtLeast(n: nat, xs: set<nat>)
    requires forall x :: 0 <= x < n ==> x in xs
    ensures |xs| >= n
  {
    if n > 0 {
      AtLeast(n - 1, xs - {n - 1});
    }
  }

  lemma AllParked(c: Config, s: State)
    requires Inv(c, s) && Dead(s) && !(1 <= c.maxWaiting <= c.elves)
    ensures s.santa.Parked? && 0 < c.maxWaiting && s.shared.reindeerCount < c.reindeer
    ensures forall r :: 0 <= r < |s.reindeer| ==> s.reindeer[r].ParkedDelivery?
  {
    forall e | 0 <= e < |s.elves|
      ensures !WakesSanta(s.elves[e])
    {
      TooFewElves(c, s, e);
    }
    DeadMeansParked(s, TheSanta);
    forall r | 0 <= r < |s.reindeer|
      ensures s.reindeer[r].ParkedDelivery?
    {
      DeadMeansParked(s, Reindeer(r));
    }
    AtMost(c.reindeer, s.shared.counted);
    assert forall e :: 0 <= e < |s.elves| ==> !AboutToWakeElf(s.elves[e]);
  }

  lemma DeadNeeds(c: Config, s: State)
    requires c.maxDeliveries >= 1 && Reaches(c, s) && Dead(s)
    ensures 1 <= c.maxWaiting && (c.maxWaiting <= c.elves || c.maxDeliveries >= 2)
  {
    ReachesInv(c, s);
    if !(1 <= c.maxWaiting <= c.elves) {
      AllParked(c, s);
      var schedule :| Exec(c, Init(c), schedule) == Some(s);
      ExecKeepsFirstRound(c, schedule);
      if s.shared.deliveries == 0 {
        AtLeast(c.reindeer, s.shared.counted);
        assert false;
      }
    }
  }

  /** The program can come to a standstill exactly when elves do form groups and either there are enough of
      them for one, or a second delivery is wanted. */
  lemma DeadIff(c: Config)
    requires c.reindeer >= 1 && c.maxDeliveries >= 1
    ensures CanDie(c) <==> 1 <= c.maxWaiting && (c.maxWaiting <= c.elves || c.maxDeliveries >= 2)
  {
    if 1 <= c.maxWaiting <= c.elves {
      var s, e := CrosswiseReachable(c);
      ReachesInv(c, s);
      var d := RunsOut(c, s, e, 0);
    } else if 1 <= c.maxWaiting && c.maxDeliveries >= 2 {
      var s := MissedReachable(c);
      var d := RunsOut(c, s, 0, 0);
    }
    if CanDie(c) {
      var s :| Reaches(c, s) && Dead(s);
      DeadNeeds(c, s);
    }
  }
}
