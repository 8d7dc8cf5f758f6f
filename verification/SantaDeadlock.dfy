/** Lab 9: the program is safe but not free of deadlock.  Santa takes the sleep mutex before the
    problem mutex, an elf that completes a group takes them in the other order. */
module SantaDeadlock {
  import opened Options
  import opened Santa
  import opened SantaSafety
  import opened SantaPaths
  import opened SantaRounds

  /** Santa holds the sleep mutex and waits for the problem mutex, the elf the other way round. */
  predicate Stuck(s: State, e: nat) {
    && e < |s.elves| && s.elves[e].LockSleep? && s.santa.LockProblems?
    && s.locks.Keys >= {ProblemMutex, SleepMutex}
    && s.locks[ProblemMutex] == Elf(e) && s.locks[SleepMutex] == TheSanta
  }

  /** Neither of the two ever steps again, whatever the others do. */
  lemma StuckForever(c: Config, s: State, e: nat, t: Thread)
    requires LocksOk(s) && Stuck(s, e) && Enabled(s, t)
    ensures t != TheSanta && t != Elf(e)
    ensures Stuck(Apply(c, s, t), e)
  {
    StepMovesHolders(c, s, t);
    assert HeldBy(s, ProblemMutex, Elf(e)) && HeldBy(s, SleepMutex, TheSanta);
    if Unlocks(s, t).Some? {
      assert HeldBy(s, Unlocks(s, t).value, t);
    }
  }

  ghost predicate Link(c: Config, s: State, t: Thread, s': State) {
    Enabled(s, t) && Apply(c, s, t) == s'
  }

  lemma Along(c: Config, run: iset<State>, s: State, t: Thread, s': State)
    requires Closed(c, run) && s in run && Link(c, s, t, s')
    ensures s' in run
  {
  }

  /** Santa with a full group before him, a mutex map and a program counter. */
  function At(s: State, pc: SantaPc, locks: map<Mutex, Thread>): State {
    s.(santa := pc, locks := locks)
  }

  /** Santa finds the group complete without having slept, skips the reindeer and comes for the elves. */
  lemma SantaComes(c: Config, run: iset<State>, s: State, e: nat) returns (s': State)
    requires Closed(c, run) && s in run && c.reindeer >= 1 && c.maxDeliveries >= 1
    requires s.locks == map[ProblemMutex := Elf(e)] && s.santa.LockToSleep? && s.shared.elfCount == c.maxWaiting
    requires s.shared.reindeerCount == 0 && s.shared.deliveries == 0
    ensures s' in run && s'.elves == s.elves
    ensures s'.santa.LockProblems? && s'.locks == map[ProblemMutex := Elf(e), SleepMutex := TheSanta]
  {
    var awake := s.(shared := s.shared.(served := false));
    var s1, s2, s3 := SantaWakes(c, s, e);
    Along(c, run, s, TheSanta, s1);
    Along(c, run, s1, TheSanta, s2);
    Along(c, run, s2, TheSanta, s3);
    s' := SantaSkipsReindeer(c, run, awake, e, s3);
  }

  lemma SantaWakes(c: Config, s: State, e: nat) returns (s1: State, s2: State, s3: State)
    requires s.locks == map[ProblemMutex := Elf(e)] && s.santa.LockToSleep? && s.shared.elfCount == c.maxWaiting
    ensures Link(c, s, TheSanta, s1) && Link(c, s1, TheSanta, s2) && Link(c, s2, TheSanta, s3)
    ensures s3 == At(s.(shared := s.shared.(served := false)), LockToDeliver, map[ProblemMutex := Elf(e)])
  {
    var free := map[ProblemMutex := Elf(e)];
    s1 := At(s, CheckElves, free[SleepMutex := TheSanta]);
    s2 := At(s, WakeUp, free[SleepMutex := TheSanta]);
    s3 := At(s.(shared := s.shared.(served := false)), LockToDeliver, free);
    assert free[SleepMutex := TheSanta] - {SleepMutex} == free;
  }

  lemma SantaPath(c: Config, s: State, e: nat) returns (s4: State, s5: State, s6: State, s7: State)
    requires c.reindeer >= 1 && c.maxDeliveries >= 1
    requires s.shared.reindeerCount == 0 && s.shared.deliveries == 0
    ensures var free := map[ProblemMutex := Elf(e)];
            && Link(c, At(s, LockToDeliver, free), TheSanta, s4)
            && Link(c, s4, TheSanta, s5) && Link(c, s5, TheSanta, s6)
            && Link(c, s6, TheSanta, s7) && Link(c, s7, TheSanta, At(s, LockProblems, free[SleepMutex := TheSanta]))
  {
    var free := map[ProblemMutex := Elf(e)];
    s4 := At(s, CheckAllBack, free[DeliveryMutex := TheSanta]);
    s5 := At(s, UnlockDeliver, free[DeliveryMutex := TheSanta]);
    s6 := At(s, CheckDone, free);
    s7 := At(s, LockSleepAgain, free);
    assert free[DeliveryMutex := TheSanta] - {DeliveryMutex} == free;
  }

  lemma SantaSkipsReindeer(c: Config, run: iset<State>, s: State, e: nat, s3: State) returns (s': State)
    requires Closed(c, run) && s3 in run && c.reindeer >= 1 && c.maxDeliveries >= 1
    requires s3 == At(s, LockToDeliver, map[ProblemMutex := Elf(e)])
    requires s.shared.reindeerCount == 0 && s.shared.deliveries == 0
    ensures s' in run && s'.elves == s.elves
    ensures s'.santa.LockProblems? && s'.locks == map[ProblemMutex := Elf(e), SleepMutex := TheSanta]
  {
    s' := At(s, LockProblems, map[ProblemMutex := Elf(e)][SleepMutex := TheSanta]);
    var s4, s5, s6, s7 := SantaPath(c, s, e);
    Along(c, run, s3, TheSanta, s4);
    Along(c, run, s4, TheSanta, s5);
    Along(c, run, s5, TheSanta, s6);
    Along(c, run, s6, TheSanta, s7);
    Along(c, run, s7, TheSanta, s');
  }

  lemma OnlyThese(s: State, t: Thread, m: Mutex)
    requires Alone(s, t) && Holds(s, t) == {m}
    ensures s.locks == map[m := t]
  {
    assert m in s.locks;
  }

  /** The last elf of a group reports and goes to wake Santa while he comes for the elves. */
  lemma CrosswiseRun(c: Config, run: iset<State>) returns (s: State)
    requires Closed(c, run) && Init(c) in run
    requires 1 <= c.maxWaiting <= c.elves && c.reindeer >= 1 && c.maxDeliveries >= 1
    ensures s in run && Stuck(s, c.maxWaiting - 1)
  {
    var e := c.maxWaiting - 1;
    s := ElvesWait(c, run, Init(c), e);
    s := ElfComes(c, run, s);
    s := ElfCompletes(c, run, s, e);
    OnlyThese(s, Elf(e), ProblemMutex);
    s := SantaComes(c, run, s, e);
  }

  /** With enough elves for one group the deadlock is reachable, and without a single reindeer back. */
  lemma CrosswiseReachable(c: Config) returns (s: State, e: nat)
    requires 1 <= c.maxWaiting <= c.elves && c.reindeer >= 1 && c.maxDeliveries >= 1
    ensures Reaches(c, s) && Stuck(s, e)
  {
    AfterClosed(c, Init(c));
    s := CrosswiseRun(c, After(c, Init(c)));
    e := c.maxWaiting - 1;
  }

  // ---------------------------------------------------------------- when it cannot happen

  lemma StuckNeedsGroup(c: Config, s: State, e: nat)
    requires c.maxDeliveries >= 1 && Reaches(c, s) && Stuck(s, e)
    ensures 1 <= c.maxWaiting <= c.elves
  {
    ReachesInv(c, s);
    assert WakesSanta(s.elves[e]);
    DistinctBelow(s.shared.ids, c.elves);
  }

  ghost predicate CanLockCrosswise(c: Config) {
    exists s, e :: Reaches(c, s) && Stuck(s, e)
  }

  /** The two can lock each other out exactly when there are enough elves for a group. */
  lemma CrosswiseIff(c: Config)
    requires c.reindeer >= 1 && c.maxDeliveries >= 1
    ensures CanLockCrosswise(c) <==> 1 <= c.maxWaiting <= c.elves
  {
    if 1 <= c.maxWaiting <= c.elves {
      var s, e := CrosswiseReachable(c);
    }
    if CanLockCrosswise(c) {
      var s, e :| Reaches(c, s) && Stuck(s, e);
      StuckNeedsGroup(c, s, e);
    }
  }

  /** The original's parameters: ten elves, groups of three, nine reindeer, three deliveries. */
  lemma OriginalCanLockCrosswise() returns (s: State, e: nat)
    ensures Reaches(Config(10, 3, 9, 3), s) && Stuck(s, e)
  {
    s, e := CrosswiseReachable(Config(10, 3, 9, 3));
  }
}
