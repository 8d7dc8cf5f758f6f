/** Lab 9: what every run of the Santa program keeps, for any numbers of elves and reindeer. */
module SantaSafety {
  import opened Options
  import opened Santa

  // ---------------------------------------------------------------- mutexes

  /** The mutexes are held by exactly the threads whose program counter says so. */
  ghost predicate LocksOk(s: State) {
    && (forall m :: m in s.locks ==> IsThread(s, s.locks[m]) && m in Holds(s, s.locks[m]))
    && (forall t, m :: IsThread(s, t) && m in Holds(s, t) ==> HeldBy(s, m, t))
  }

  predicate HeldBy(s: State, m: Mutex, t: Thread) {
    m in s.locks && s.locks[m] == t
  }

  /** Mutual exclusion. */
  lemma OneHolder(s: State, t: Thread, u: Thread, m: Mutex)
    requires LocksOk(s) && IsThread(s, t) && IsThread(s, u) && m in Holds(s, t) && m in Holds(s, u)
    ensures t == u
  {
    assert HeldBy(s, m, t) && HeldBy(s, m, u);
  }

  lemma SantaProgramLocks(c: Config, sh: Shared, pc: SantaPc)
    ensures SantaHolds(NextSanta(c, sh, pc))
         == SantaHolds(pc) + (if SantaLocks(pc).Some? then {SantaLocks(pc).value} else {})
            - (if SantaUnlocks(pc).Some? then {SantaUnlocks(pc).value} else {})
    ensures SantaUnlocks(pc).Some? ==> SantaUnlocks(pc).value in SantaHolds(pc) && SantaLocks(pc).None?
  {
  }

  lemma ElfProgramLocks(c: Config, sh: Shared, pc: ElfPc)
    ensures ElfHolds(NextElf(c, sh, pc))
         == ElfHolds(pc) + (if ElfLocks(pc).Some? && !pc.ParkedStart? then {ElfLocks(pc).value} else {})
            - (if ElfUnlocks(pc).Some? then {ElfUnlocks(pc).value} else {})
    ensures ElfUnlocks(pc).Some? ==> ElfUnlocks(pc).value in ElfHolds(pc) && ElfLocks(pc).None?
  {
  }

  lemma ReindeerProgramLocks(c: Config, sh: Shared, pc: ReindeerPc)
    ensures ReindeerHolds(NextReindeer(c, sh, pc))
         == ReindeerHolds(pc) + (if ReindeerLocks(pc).Some? then {ReindeerLocks(pc).value} else {})
            - (if ReindeerUnlocks(pc).Some? then {ReindeerUnlocks(pc).value} else {})
    ensures ReindeerUnlocks(pc).Some? ==> ReindeerUnlocks(pc).value in ReindeerHolds(pc) && ReindeerLocks(pc).None?
  {
  }

  /** What a step does to the holders, whoever makes it. */
  ghost predicate HoldersMove(s: State, s': State, t: Thread)
    requires IsThread(s, t)
  {
    && |s'.elves| == |s.elves| && |s'.reindeer| == |s.reindeer|
    && (forall u :: IsThread(s, u) && u != t ==> Holds(s', u) == Holds(s, u))
    && Holds(s', t) == Holds(s, t) + (if Locks(s, t).Some? then {Locks(s, t).value} else {})
                       - (if Unlocks(s, t).Some? then {Unlocks(s, t).value} else {})
    && (Unlocks(s, t).Some? ==> Unlocks(s, t).value in Holds(s, t) && Locks(s, t).None?)
    && s'.locks == NewLocks(s, t)
  }

  lemma SantaMovesHolders(c: Config, s: State)
    requires Enabled(s, TheSanta)
    ensures HoldersMove(s, SantaStep(c, s), TheSanta)
  {
    SantaProgramLocks(c, s.shared, s.santa);
  }

  lemma ElfMovesHolders(c: Config, s: State, e: nat)
    requires Enabled(s, Elf(e))
    ensures HoldersMove(s, ElfStep(c, s, e), Elf(e))
  {
    ElfProgramLocks(c, s.shared, s.elves[e]);
  }

  lemma ReindeerMovesHolders(c: Config, s: State, r: nat)
    requires Enabled(s, Reindeer(r))
    ensures HoldersMove(s, ReindeerStep(c, s, r), Reindeer(r))
  {
    ReindeerProgramLocks(c, s.shared, s.reindeer[r]);
  }

  lemma StepMovesHolders(c: Config, s: State, t: Thread)
    requires Enabled(s, t)
    ensures HoldersMove(s, Apply(c, s, t), t)
  {
    match t
    case TheSanta => SantaMovesHolders(c, s);
    case Elf(e) => ElfMovesHolders(c, s, e);
    case Reindeer(r) => ReindeerMovesHolders(c, s, r);
  }

  lemma StepKeepsLocks(c: Config, s: State, t: Thread)
    requires LocksOk(s) && Enabled(s, t)
    ensures LocksOk(Apply(c, s, t))
  {
    StepMovesHolders(c, s, t);
    MoveKeepsLocks(s, Apply(c, s, t), t);
  }

  lemma MoveKeepsLocks(s: State, s': State, t: Thread)
    requires LocksOk(s) && Enabled(s, t) && HoldersMove(s, s', t)
    ensures LocksOk(s')
  {
    forall u, m | IsThread(s', u) && m in Holds(s', u)
      ensures HeldBy(s', m, u)
    {
      if m in Holds(s, u) {
        assert HeldBy(s, m, u);
      }
    }
    forall m | m in s'.locks
      ensures IsThread(s', s'.locks[m]) && m in Holds(s', s'.locks[m])
    {
      if m in s.locks {
        assert HeldBy(s, m, s.locks[m]);
      }
    }
  }

  // ---------------------------------------------------------------- elves

  /** From reporting a problem until Santa starts solving it. */
  predicate WaitsForHelp(pc: ElfPc) {
    pc.LockSleep? || pc.Broadcast? || pc.UnlockSleep? || pc.UnlockProblem?
    || pc.LockStart? || pc.ParkStart? || pc.ParkedStart?
  }

  /** Santa has called the waiting elves but has not reset their number yet. */
  predicate Helping(pc: SantaPc) {
    pc.UnlockToStart? || pc.LockToFinish? || pc.ResetElves?
  }

  predicate HasGroup(pc: SantaPc) {
    pc.LockToStart? || pc.BroadcastStart? || Helping(pc)
  }

  ghost predicate ElvesOk(c: Config, s: State) {
    var sh := s.shared;
    && sh.elfCount <= c.maxWaiting == |sh.ids|
    && (forall k :: 0 <= k < sh.elfCount ==>
                      0 <= sh.ids[k] < |s.elves| && (WaitsForHelp(s.elves[sh.ids[k]]) || Helping(s.santa)))
    && (forall k, l :: 0 <= k < l < sh.elfCount ==> sh.ids[k] != sh.ids[l])
    && (HasGroup(s.santa) ==> sh.elfCount == c.maxWaiting)
  }

  /** An elf that is about to report is not among the waiting ones. */
  lemma ReporterIsNew(c: Config, s: State, e: nat)
    requires LocksOk(s) && ElvesOk(c, s) && e < |s.elves| && s.elves[e].Report?
    ensures forall k :: 0 <= k < s.shared.elfCount ==> s.shared.ids[k] != e
    ensures !HasGroup(s.santa)
  {
    if HasGroup(s.santa) {
      OneHolder(s, TheSanta, Elf(e), ProblemMutex);
      assert false;
    }
  }

  lemma SantaKeepsElves(c: Config, s: State)
    requires LocksOk(s) && ElvesOk(c, s) && Enabled(s, TheSanta)
    ensures ElvesOk(c, SantaStep(c, s))
  {
    var s' := SantaStep(c, s);
    assert |s'.elves| == |s.elves|;
    assert s.santa.BroadcastStart? || StillWaiting(s.elves, s'.elves);
    SantaProgramKeepsGroup(c, s.shared, s.santa);
    ElvesStandStill(c, s, s');
  }

  ghost predicate StillWaiting(elves: seq<ElfPc>, elves': seq<ElfPc>)
    requires |elves'| == |elves|
  {
    forall e :: 0 <= e < |elves| && WaitsForHelp(elves[e]) ==> WaitsForHelp(elves'[e])
  }

  /** Santa either resets the count or leaves the group alone, and calls full groups only. */
  lemma SantaProgramKeepsGroup(c: Config, sh: Shared, pc: SantaPc)
    ensures var sh' := SantaWrites(sh, pc);
            sh'.ids == sh.ids && sh'.elfCount == if pc.ResetElves? then 0 else sh.elfCount
    ensures var pc' := NextSanta(c, sh, pc);
            && (Helping(pc') <==> pc.BroadcastStart? || (Helping(pc) && !pc.ResetElves?))
            && (HasGroup(pc') ==> sh.elfCount == c.maxWaiting || HasGroup(pc))
            && (pc.ResetElves? ==> !HasGroup(pc'))
  {
  }

  lemma ElvesStandStill(c: Config, s: State, s': State)
    requires ElvesOk(c, s) && |s'.elves| == |s.elves| && s'.shared.ids == s.shared.ids
    requires s'.shared.elfCount == 0 || s'.shared.elfCount == s.shared.elfCount
    requires s'.shared.elfCount > 0 ==> Helping(s'.santa) || (!Helping(s.santa) && StillWaiting(s.elves, s'.elves))
    requires HasGroup(s'.santa) ==> s'.shared.elfCount == c.maxWaiting
    ensures ElvesOk(c, s')
  {
  }

  lemma ElfKeepsElves(c: Config, s: State, e: nat)
    requires LocksOk(s) && ElvesOk(c, s) && Enabled(s, Elf(e))
    ensures ElvesOk(c, ElfStep(c, s, e))
  {
    if s.elves[e].Report? {
      ReporterIsNew(c, s, e);
    }
  }

  lemma ReindeerKeepsElves(c: Config, s: State, r: nat)
    requires LocksOk(s) && ElvesOk(c, s) && Enabled(s, Reindeer(r))
    ensures ElvesOk(c, ReindeerStep(c, s, r))
  {
  }

  /** On its way to wake Santa. */
  predicate WakesSanta(pc: ElfPc) { pc.LockSleep? || pc.Broadcast? || pc.UnlockSleep? }

  /** The elf on its way to wake Santa is the one that completed the group, and its mutex keeps the group
      together. */
  ghost predicate GroupOk(c: Config, s: State) {
    && |s.elves| == c.elves
    && forall e :: 0 <= e < |s.elves| && WakesSanta(s.elves[e]) ==> CompletedBy(c, s.shared, e)
  }

  predicate CompletedBy(c: Config, sh: Shared, e: int) {
    0 < sh.elfCount == c.maxWaiting == |sh.ids| && sh.ids[c.maxWaiting - 1] == e
  }

  lemma OneProblem(s: State, t: Thread, e: nat)
    requires LocksOk(s) && IsThread(s, t) && ProblemMutex in Holds(s, t)
    requires e < |s.elves| && WakesSanta(s.elves[e])
    ensures t == Elf(e)
  {
    OneHolder(s, t, Elf(e), ProblemMutex);
  }

  lemma SantaKeepsGroup(c: Config, s: State)
    requires LocksOk(s) && GroupOk(c, s) && Enabled(s, TheSanta)
    ensures GroupOk(c, SantaStep(c, s))
  {
    if s.santa.ResetElves? {
      forall e | 0 <= e < |s.elves|
        ensures !WakesSanta(s.elves[e])
      {
        if WakesSanta(s.elves[e]) {
          OneProblem(s, TheSanta, e);
          assert false;
        }
      }
    }
  }

  lemma ElfKeepsGroup(c: Config, s: State, e: nat)
    requires LocksOk(s) && ElvesOk(c, s) && GroupOk(c, s) && Enabled(s, Elf(e))
    ensures GroupOk(c, ElfStep(c, s, e))
  {
    if s.elves[e].Report? {
      forall w | 0 <= w < |s.elves|
        ensures !WakesSanta(s.elves[w])
      {
        if WakesSanta(s.elves[w]) {
          OneProblem(s, Elf(e), w);
          assert false;
        }
      }
    }
  }

  lemma ReindeerKeepsGroup(c: Config, s: State, r: nat)
    requires GroupOk(c, s) && Enabled(s, Reindeer(r))
    ensures GroupOk(c, ReindeerStep(c, s, r))
  {
  }

  // ---------------------------------------------------------------- reindeer

  predicate AfterCount(pc: ReindeerPc) {
    pc.LockSleepR? || pc.BroadcastR? || pc.UnlockSleepR? || pc.UnlockReturn?
    || pc.LockDelivery? || pc.ParkDelivery? || pc.ParkedDelivery?
  }

  predicate Delivers(pc: SantaPc) {
    pc.Deliver? || pc.LockToReset? || pc.ResetReindeer?
  }

  ghost predicate ReindeerOk(c: Config, s: State) {
    var sh := s.shared;
    && |s.reindeer| == c.reindeer
    && sh.reindeerCount == |sh.counted|
    && (forall r :: r in sh.counted ==> r < c.reindeer && AfterCount(s.reindeer[r]))
    && (s.santa.BroadcastDelivered? ==> sh.counted == {})
    && (Delivers(s.santa) ==> sh.reindeerCount == c.reindeer)
  }

  lemma {:induction false} AtMost(n: nat, xs: set<nat>)
    requires forall x :: x in xs ==> x < n
    ensures |xs| <= n
    ensures |xs| == n ==> forall x :: 0 <= x < n ==> x in xs
  {
    if n > 0 {
      AtMost(n - 1, xs - {n - 1});
      assert |xs| == |xs - {n - 1}| + (if n - 1 in xs then 1 else 0);
      assert forall x :: x in xs - {n - 1} ==> x in xs;
    }
  }

  lemma {:induction false} DistinctBelow(xs: seq<int>, n: nat)
    requires forall k :: 0 <= k < |xs| ==> 0 <= xs[k] < n
    requires forall k, l :: 0 <= k < l < |xs| ==> xs[k] != xs[l]
    ensures |xs| <= n
  {
    var seen: set<nat> := set k | 0 <= k < |xs| :: xs[k] as nat;
    CountDistinct(xs, n, seen);
    AtMost(n, seen);
  }

  lemma {:induction false} CountDistinct(xs: seq<int>, n: nat, seen: set<nat>)
    requires forall k :: 0 <= k < |xs| ==> 0 <= xs[k] < n
    requires forall k, l :: 0 <= k < l < |xs| ==> xs[k] != xs[l]
    requires seen == set k | 0 <= k < |xs| :: xs[k] as nat
    ensures |seen| == |xs|
  {
    if xs != [] {
      var front, last := xs[..|xs| - 1], xs[|xs| - 1];
      var fewer := seen - {last as nat};
      assert fewer == set k | 0 <= k < |front| :: front[k] as nat;
      CountDistinct(front, n, fewer);
    }
  }

  lemma SantaKeepsReindeer(c: Config, s: State)
    requires LocksOk(s) && ReindeerOk(c, s) && Enabled(s, TheSanta)
    ensures ReindeerOk(c, SantaStep(c, s))
  {
  }

  lemma ElfKeepsReindeer(c: Config, s: State, e: nat)
    requires LocksOk(s) && ReindeerOk(c, s) && Enabled(s, Elf(e))
    ensures ReindeerOk(c, ElfStep(c, s, e))
  {
  }

  lemma ReindeerKeepsReindeer(c: Config, s: State, r: nat)
    requires LocksOk(s) && ReindeerOk(c, s) && Enabled(s, Reindeer(r))
    ensures ReindeerOk(c, ReindeerStep(c, s, r))
  {
    if s.reindeer[r].Count? {
      assert r !in s.shared.counted;
      AtMost(c.reindeer, s.shared.counted + {r});
      if s.santa.BroadcastDelivered? {
        OneHolder(s, TheSanta, Reindeer(r), ReturnMutex);
        assert false;
      }
    }
  }

  // ---------------------------------------------------------------- Santa's sleep

  predicate AboutToWakeElf(pc: ElfPc) { pc.LockSleep? || pc.Broadcast? }
  predicate AboutToWakeReindeer(pc: ReindeerPc) { pc.LockSleepR? || pc.BroadcastR? }

  /** Santa sleeps, or has read the counter and is going to. */
  predicate AsleepForElves(pc: SantaPc) { pc.CheckReindeer? || pc.Park? || pc.Parked? }
  predicate AsleepForReindeer(pc: SantaPc) { pc.Park? || pc.Parked? }

  ghost predicate SleepOk(c: Config, s: State) {
    && (AsleepForElves(s.santa) && s.shared.elfCount == c.maxWaiting ==>
          exists e :: 0 <= e < |s.elves| && AboutToWakeElf(s.elves[e]))
    && (AsleepForReindeer(s.santa) && s.shared.reindeerCount == c.reindeer ==>
          exists r :: 0 <= r < |s.reindeer| && AboutToWakeReindeer(s.reindeer[r]))
  }

  lemma SantaKeepsSleep(c: Config, s: State)
    requires SleepOk(c, s) && ElvesOk(c, s) && Enabled(s, TheSanta)
    ensures SleepOk(c, SantaStep(c, s))
  {
  }

  lemma ElfKeepsSleep(c: Config, s: State, e: nat)
    requires LocksOk(s) && ElvesOk(c, s) && SleepOk(c, s) && Enabled(s, Elf(e))
    ensures SleepOk(c, ElfStep(c, s, e))
  {
    var s' := ElfStep(c, s, e);
    if s.elves[e].Broadcast? {
      if s.santa.CheckReindeer? || s.santa.Park? {
        OneHolder(s, TheSanta, Elf(e), SleepMutex);
        assert false;
      }
    } else if AsleepForElves(s.santa) && s'.shared.elfCount == c.maxWaiting {
      if s.shared.elfCount == c.maxWaiting {
        var w :| 0 <= w < |s.elves| && AboutToWakeElf(s.elves[w]);
        assert AboutToWakeElf(s'.elves[w]);
      } else {
        assert AboutToWakeElf(s'.elves[e]);
      }
    }
  }

  lemma ReindeerKeepsSleep(c: Config, s: State, r: nat)
    requires LocksOk(s) && ReindeerOk(c, s) && SleepOk(c, s) && Enabled(s, Reindeer(r))
    ensures SleepOk(c, ReindeerStep(c, s, r))
  {
    var s' := ReindeerStep(c, s, r);
    if s.reindeer[r].BroadcastR? {
      if s.santa.CheckReindeer? || s.santa.Park? {
        OneHolder(s, TheSanta, Reindeer(r), SleepMutex);
        assert false;
      }
    } else if AsleepForReindeer(s.santa) && s'.shared.reindeerCount == c.reindeer {
      if s.shared.reindeerCount == c.reindeer {
        var w :| 0 <= w < |s.reindeer| && AboutToWakeReindeer(s.reindeer[w]);
        assert AboutToWakeReindeer(s'.reindeer[w]);
      } else {
        assert AboutToWakeReindeer(s'.reindeer[r]);
      }
    }
  }

  // ---------------------------------------------------------------- Santa's rounds

  predicate JustAwake(pc: SantaPc) { pc.WakeUp? || pc.LockToDeliver? || pc.CheckAllBack? }

  predicate PastDelivery(pc: SantaPc) {
    pc.BroadcastDelivered? || pc.UnlockReset? || pc.UnlockDeliver? || pc.CheckDone?
    || pc.LockSleepAgain? || pc.LockProblems? || pc.CheckGroup?
  }

  /** Before a delivery is counted in this round. */
  predicate BeforeDelivery(pc: SantaPc) {
    !pc.LockToReset? && !pc.ResetReindeer? && !pc.BroadcastDelivered? && !pc.UnlockReset? && !pc.UnlockDeliver?
    && !pc.CheckDone? && !pc.Finished?
  }

  predicate RoundOver(pc: SantaPc) {
    pc.BroadcastSolved? || pc.UnlockFinish? || pc.UnlockProblems? || pc.UnlockSleepAgain?
    || pc.LockToSleep? || pc.CheckElves? || pc.CheckReindeer? || pc.Park? || pc.Parked? || pc.Woken?
  }

  /** Santa wakes up for a full group, and goes back to sleep having served one. */
  ghost predicate RoundsOk(c: Config, s: State) {
    RoundOf(c, s.shared, s.santa)
  }

  predicate RoundOf(c: Config, sh: Shared, pc: SantaPc) {
    && (JustAwake(pc) ==> sh.elfCount == c.maxWaiting || sh.reindeerCount == c.reindeer)
    && (PastDelivery(pc) ==> sh.served || sh.elfCount == c.maxWaiting)
    && (RoundOver(pc) ==> sh.served)
    && sh.deliveries <= c.maxDeliveries
    && (BeforeDelivery(pc) ==> sh.deliveries < c.maxDeliveries)
    && (pc.Finished? ==> sh.deliveries == c.maxDeliveries)
  }

  lemma SantaKeepsRounds(c: Config, s: State)
    requires ElvesOk(c, s) && ReindeerOk(c, s) && RoundsOk(c, s) && Enabled(s, TheSanta)
    ensures RoundsOk(c, SantaStep(c, s))
  {
    AtMost(c.reindeer, s.shared.counted);
    SantaRound(c, s.shared, s.santa);
  }

  /** The same for Santa's program alone: what he reads decides where he goes. */
  lemma SantaRound(c: Config, sh: Shared, pc: SantaPc)
    requires sh.elfCount <= c.maxWaiting && sh.reindeerCount <= c.reindeer && !pc.Finished? && !pc.Parked?
    requires HasGroup(pc) ==> sh.elfCount == c.maxWaiting
    requires Delivers(pc) ==> sh.reindeerCount == c.reindeer
    requires RoundOf(c, sh, pc)
    ensures RoundOf(c, SantaWrites(sh, pc), NextSanta(c, sh, pc))
  {
  }

  lemma ElfKeepsRounds(c: Config, s: State, e: nat)
    requires ElvesOk(c, s) && ReindeerOk(c, s) && RoundsOk(c, s) && Enabled(s, Elf(e))
    ensures RoundsOk(c, ElfStep(c, s, e))
  {
  }

  lemma ReindeerKeepsRounds(c: Config, s: State, r: nat)
    requires ElvesOk(c, s) && ReindeerOk(c, s) && RoundsOk(c, s) && Enabled(s, Reindeer(r))
    ensures RoundsOk(c, ReindeerStep(c, s, r))
  {
    if s.reindeer[r].Count? {
      assert r !in s.shared.counted;
      AtMost(c.reindeer, s.shared.counted + {r});
    }
  }

  // ---------------------------------------------------------------- every run

  ghost predicate Inv(c: Config, s: State) {
    LocksOk(s) && ElvesOk(c, s) && GroupOk(c, s) && ReindeerOk(c, s) && SleepOk(c, s) && RoundsOk(c, s)
  }

  lemma StepKeepsInv(c: Config, s: State, t: Thread)
    requires Inv(c, s) && Enabled(s, t)
    ensures Inv(c, Apply(c, s, t))
  {
    StepKeepsLocks(c, s, t);
    match t
    case TheSanta =>
      SantaKeepsElves(c, s);
      SantaKeepsGroup(c, s);
      SantaKeepsReindeer(c, s);
      SantaKeepsSleep(c, s);
      SantaKeepsRounds(c, s);
    case Elf(e) =>
      ElfKeepsElves(c, s, e);
      ElfKeepsGroup(c, s, e);
      ElfKeepsReindeer(c, s, e);
      ElfKeepsSleep(c, s, e);
      ElfKeepsRounds(c, s, e);
    case Reindeer(r) =>
      ReindeerKeepsElves(c, s, r);
      ReindeerKeepsGroup(c, s, r);
      ReindeerKeepsReindeer(c, s, r);
      ReindeerKeepsSleep(c, s, r);
      ReindeerKeepsRounds(c, s, r);
  }

  lemma {:induction false} ExecKeepsInv(c: Config, schedule: seq<Thread>)
    requires c.maxDeliveries >= 1 && Exec(c, Init(c), schedule).Some?
    ensures Inv(c, Exec(c, Init(c), schedule).value)
    decreases |schedule|
  {
    if schedule != [] {
      var front, t := schedule[..|schedule| - 1], schedule[|schedule| - 1];
      ExecKeepsInv(c, front);
      StepKeepsInv(c, Exec(c, Init(c), front).value, t);
    }
  }

  ghost predicate Reaches(c: Config, s: State) {
    exists schedule :: Exec(c, Init(c), schedule) == Some(s)
  }

  // ---------------------------------------------------------------- what it means for every reachable state

  /** Santa never sleeps on while a full group of elves waits: the elf that made up the number, the last
      one recorded, is between its increment and its broadcast. */
  lemma SantaNeverOversleeps(c: Config, s: State)
    requires c.maxDeliveries >= 1 && Reaches(c, s) && s.santa.Parked? && s.shared.elfCount == c.maxWaiting
    ensures c.maxWaiting == |s.shared.ids| > 0
    ensures var last := s.shared.ids[c.maxWaiting - 1]; 0 <= last < |s.elves| && AboutToWakeElf(s.elves[last])
  {
    ReachesInv(c, s);
    var e :| 0 <= e < |s.elves| && AboutToWakeElf(s.elves[e]);
    assert WakesSanta(s.elves[e]);
  }

  /** Nor while all reindeer wait: exactly one of them is between its increment and its broadcast, with
      everybody counted. */
  lemma SantaNeverMissesReindeer(c: Config, s: State) returns (last: nat)
    requires c.maxDeliveries >= 1 && Reaches(c, s) && s.santa.Parked? && s.shared.reindeerCount == c.reindeer
    ensures last < |s.reindeer| == c.reindeer && AboutToWakeReindeer(s.reindeer[last])
    ensures forall r :: 0 <= r < c.reindeer ==> r in s.shared.counted
    ensures forall r :: 0 <= r < c.reindeer && r != last ==> !AboutToWakeReindeer(s.reindeer[r])
  {
    ReachesInv(c, s);
    AtMost(c.reindeer, s.shared.counted);
    var w :| 0 <= w < |s.reindeer| && AboutToWakeReindeer(s.reindeer[w]);
    last := w;
    forall r | 0 <= r < c.reindeer && r != last
      ensures !AboutToWakeReindeer(s.reindeer[r])
    {
      if AboutToWakeReindeer(s.reindeer[r]) {
        OneHolder(s, Reindeer(last), Reindeer(r), ReturnMutex);
        assert false;
      }
    }
  }

  lemma ReachesInv(c: Config, s: State)
    requires c.maxDeliveries >= 1 && Reaches(c, s)
    ensures Inv(c, s)
  {
    var schedule :| Exec(c, Init(c), schedule) == Some(s);
    ExecKeepsInv(c, schedule);
  }

  /** Never more elves before the workshop than allowed, all of them different; each waits for help
      or has just been called by Santa. */
  lemma WaitingElves(c: Config, s: State)
    requires c.maxDeliveries >= 1 && Reaches(c, s)
    ensures s.shared.elfCount <= c.maxWaiting == |s.shared.ids|
    ensures forall k, l :: 0 <= k < l < s.shared.elfCount ==> s.shared.ids[k] != s.shared.ids[l]
    ensures forall k :: 0 <= k < s.shared.elfCount ==>
              0 <= s.shared.ids[k] < |s.elves| && (WaitsForHelp(s.elves[s.shared.ids[k]]) || Helping(s.santa))
  {
    ReachesInv(c, s);
  }

  /** Santa calls, prints and resets a full group only, and no elf can join while he does. */
  lemma HelpsFullGroup(c: Config, s: State, e: nat)
    requires c.maxDeliveries >= 1 && Reaches(c, s) && HasGroup(s.santa)
    ensures s.shared.elfCount == c.maxWaiting
    ensures e < |s.elves| ==> !s.elves[e].Report?
  {
    ReachesInv(c, s);
    if e < |s.elves| && s.elves[e].Report? {
      ReporterIsNew(c, s, e);
    }
  }

  /** The count is the number of different reindeer counted since the last delivery, so a reindeer that
      comes back is never counted twice. */
  lemma CountedReindeer(c: Config, s: State)
    requires c.maxDeliveries >= 1 && Reaches(c, s)
    ensures |s.reindeer| == c.reindeer
    ensures s.shared.reindeerCount == |s.shared.counted| <= c.reindeer
    ensures forall r :: 0 <= r < c.reindeer && s.reindeer[r].Count? ==> r !in s.shared.counted
  {
    ReachesInv(c, s);
    AtMost(c.reindeer, s.shared.counted);
  }

  /** Presents are delivered only with every reindeer back. */
  lemma DeliversWithAll(c: Config, s: State, r: nat)
    requires c.maxDeliveries >= 1 && Reaches(c, s) && Delivers(s.santa) && r < c.reindeer
    ensures s.shared.reindeerCount == c.reindeer && r in s.shared.counted
    ensures r < |s.reindeer| && AfterCount(s.reindeer[r])
  {
    ReachesInv(c, s);
    AtMost(c.reindeer, s.shared.counted);
  }

  /** Santa wakes up only for a full group, does not go back to sleep before he served one, and ends
      after exactly the agreed number of deliveries. */
  lemma NeverWakesForNothing(c: Config, s: State)
    requires c.maxDeliveries >= 1 && Reaches(c, s)
    ensures s.santa.WakeUp? ==> s.shared.elfCount == c.maxWaiting || s.shared.reindeerCount == c.reindeer
    ensures s.santa.LockToSleep? || s.santa.Parked? ==> s.shared.served
    ensures s.santa.Finished? ==> s.shared.deliveries == c.maxDeliveries
    ensures s.santa.Parked? ==> s.shared.deliveries < c.maxDeliveries
  {
    ReachesInv(c, s);
  }

  /** Two threads in sections of the same mutex are one thread. */
  lemma MutualExclusion(c: Config, s: State, t: Thread, u: Thread, m: Mutex)
    requires c.maxDeliveries >= 1 && Reaches(c, s)
    requires IsThread(s, t) && IsThread(s, u) && m in Holds(s, t) && m in Holds(s, u)
    ensures t == u
  {
    ReachesInv(c, s);
    OneHolder(s, t, u, m);
  }
}
