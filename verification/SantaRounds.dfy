/** Lab 9: the broadcasts do wake those who wait, so that the program goes on: any number of groups of elves
    are helped, all deliveries are made, and an elf that found no room comes in later.  An elf that is late
    for Santa's call misses it. */
module SantaRounds {
  import opened Options
  import opened Santa
  import opened SantaSafety
  import opened SantaPaths

  // ---------------------------------------------------------------- who is woken

  /** The thread is not parked, and only one mutex can still keep it from its next step. */
  ghost predicate NeedsOnly(s: State, t: Thread, m: Mutex) {
    && IsThread(s, t) && !IsParked(s, t)
    && forall held: map<Mutex, Thread> :: m !in held ==> Enabled(s.(locks := held), t)
  }

  /** After Santa's call no elf waits for it any more: whoever did can go on as soon as the start mutex is
      free, and nobody else has moved. */
  lemma CallWakesElf(c: Config, s: State, e: nat)
    requires Enabled(s, TheSanta) && s.santa.BroadcastStart? && e < |s.elves|
    ensures var s' := Apply(c, s, TheSanta);
            && |s'.elves| == |s.elves| && s'.reindeer == s.reindeer
            && if s.elves[e].ParkedStart? then NeedsOnly(s', Elf(e), StartMutex) else s'.elves[e] == s.elves[e]
  {
  }

  /** So for the elves that found no room, when a group has been helped. */
  lemma SolvedWakesElf(c: Config, s: State, e: nat)
    requires Enabled(s, TheSanta) && s.santa.BroadcastSolved? && e < |s.elves|
    ensures var s' := Apply(c, s, TheSanta);
            && |s'.elves| == |s.elves| && s'.reindeer == s.reindeer
            && if s.elves[e].ParkedSolved? then NeedsOnly(s', Elf(e), WaitMutex) else s'.elves[e] == s.elves[e]
  {
  }

  /** And for the reindeer, when the presents are delivered. */
  lemma DeliveredWakesReindeer(c: Config, s: State, r: nat)
    requires Enabled(s, TheSanta) && s.santa.BroadcastDelivered? && r < |s.reindeer|
    ensures var s' := Apply(c, s, TheSanta);
            && |s'.reindeer| == |s.reindeer| && s'.elves == s.elves
            && if s.reindeer[r].ParkedDelivery? then NeedsOnly(s', Reindeer(r), DeliveryMutex)
               else s'.reindeer[r] == s.reindeer[r]
  {
  }

  // ---------------------------------------------------------------- a group of elves

  /** The first n elves of a group wait for Santa's call, and nobody has a mutex. */
  ghost predicate Gathered(c: Config, s: State, n: nat) {
    && s.locks == map[] && !s.santa.Finished?
    && |s.elves| == c.elves && |s.shared.ids| == c.maxWaiting && s.shared.elfCount == n <= c.maxWaiting <= c.elves
    && forall e :: 0 <= e < c.elves ==> s.elves[e] == if e < n then ParkedStart else Working
  }

  predicate OnlyElvesMoved(s: State, s': State) {
    && s'.reindeer == s.reindeer
    && s'.shared == s.shared.(ids := s'.shared.ids, elfCount := s'.shared.elfCount)
  }

  /** The next elf comes and reports its problem. */
  lemma ElfComes(c: Config, run: iset<State>, s: State) returns (s': State)
    requires Closed(c, run) && s in run && Gathered(c, s, s.shared.elfCount) && s.shared.elfCount < c.maxWaiting
    ensures s' in run && ElfMoved(s, s', s.shared.elfCount, Report) && s'.shared == s.shared
  {
    s' := ElfArrives(c, run, s, s.shared.elfCount);
    s' := ElfEnters(c, run, s', s.shared.elfCount);
  }

  lemma ElfWaits(c: Config, run: iset<State>, s: State) returns (s': State)
    requires Closed(c, run) && s in run && Gathered(c, s, s.shared.elfCount) && s.shared.elfCount + 1 < c.maxWaiting
    ensures s' in run && Gathered(c, s', s.shared.elfCount + 1) && s'.santa == s.santa && OnlyElvesMoved(s, s')
  {
    var e := s.shared.elfCount;
    s' := ElfComes(c, run, s);
    s' := ElfReports(c, run, s', e);
    s' := ElfParks(c, run, s', e);
  }

  lemma {:induction false} ElvesWait(c: Config, run: iset<State>, s: State, n: nat) returns (s': State)
    requires Closed(c, run) && s in run && Gathered(c, s, 0) && n < c.maxWaiting
    ensures s' in run && Gathered(c, s', n) && s'.santa == s.santa && OnlyElvesMoved(s, s')
  {
    s' := s;
    if n > 0 {
      s' := ElvesWait(c, run, s, n - 1);
      s' := ElfWaits(c, run, s');
    }
  }

  /** The last elf of the group wakes Santa; it is still on its way to its place. */
  lemma LastElfWakesSanta(c: Config, run: iset<State>, s: State) returns (s': State)
    requires Closed(c, run) && s in run && c.maxWaiting >= 1 && Gathered(c, s, c.maxWaiting - 1) && s.santa.Parked?
    ensures s' in run && Late(c, s') && OnlyElvesMoved(s, s')
  {
    var e := c.maxWaiting - 1;
    s' := ElfComes(c, run, s);
    s' := ElfCompletes(c, run, s', e);
    s' := ElfWakesSanta(c, run, s', e);
  }

  /** The group is complete and Santa awake, but its last elf does not wait yet. */
  ghost predicate Late(c: Config, s: State) {
    && s.locks == map[] && s.santa.Woken? && 1 <= c.maxWaiting <= c.elves == |s.elves|
    && |s.shared.ids| == s.shared.elfCount == c.maxWaiting && s.shared.ids[c.maxWaiting - 1] == c.maxWaiting - 1
    && forall e :: 0 <= e < c.elves ==>
         s.elves[e] == if e < c.maxWaiting - 1 then ParkedStart else if e < c.maxWaiting then LockStart else Working
  }

  lemma GroupGathers(c: Config, run: iset<State>, s: State) returns (s': State)
    requires Closed(c, run) && s in run && Gathered(c, s, 0) && s.santa.Parked? && 1 <= c.maxWaiting
    ensures s' in run && Gathered(c, s', c.maxWaiting) && s'.santa.Woken? && OnlyElvesMoved(s, s')
  {
    s' := ElvesWait(c, run, s, c.maxWaiting - 1);
    s' := LastElfWakesSanta(c, run, s');
    s' := ElfParks(c, run, s', c.maxWaiting - 1);
  }

  /** Santa wakes up for a complete group and calls it. */
  lemma SantaComesOut(c: Config, run: iset<State>, s: State) returns (s': State)
    requires Closed(c, run) && s in run && s.locks == map[] && s.santa.Woken? && s.shared.elfCount == c.maxWaiting
    requires s.shared.reindeerCount != c.reindeer && s.shared.deliveries != c.maxDeliveries
    ensures s' in run && Alone(s', TheSanta) && s'.santa.UnlockToStart? && s'.reindeer == s.reindeer
    ensures s'.shared == s.shared.(served := false, calls := s.shared.calls + 1)
    ensures ElvesWoken(s.elves, s'.elves, ParkedStart, WokenStart)
  {
    s' := SantaRises(c, run, s);
    s' := SantaSkipsDelivery(c, run, s');
    s' := SantaTurnsToElves(c, run, s');
    s' := SantaCalls(c, run, s');
  }

  /** He solves the problem, lets the next elves in and goes back to sleep. */
  lemma SantaGoesIn(c: Config, run: iset<State>, s: State) returns (s': State)
    requires Closed(c, run) && s in run && Alone(s, TheSanta) && s.santa.UnlockToStart?
    requires s.shared.reindeerCount < c.reindeer && 1 <= c.maxWaiting
    ensures s' in run && s'.locks == map[] && s'.santa.Parked? && s'.reindeer == s.reindeer
    ensures s'.shared == s.shared.(elfCount := 0, served := true)
    ensures ElvesWoken(s.elves, s'.elves, ParkedSolved, WokenSolved)
  {
    s' := SantaSolves(c, run, s);
    s' := SantaLetsElvesIn(c, run, s');
    s' := SantaFallsAsleep(c, run, s');
  }

  // ---------------------------------------------------------------- rounds

  /** Everybody is where the day began, Santa asleep; so many groups were called, so many deliveries made. */
  ghost predicate Calm(c: Config, s: State, calls: nat, deliveries: nat) {
    && s.locks == map[] && s.santa.Parked?
    && |s.elves| == c.elves && (forall e :: 0 <= e < c.elves ==> s.elves[e].Working?)
    && |s.reindeer| == c.reindeer && (forall r :: 0 <= r < c.reindeer ==> s.reindeer[r].OnHoliday?)
    && |s.shared.ids| == c.maxWaiting && s.shared.elfCount == 0 && s.shared.reindeerCount == 0
    && s.shared.calls == calls && s.shared.deliveries == deliveries
  }

  /** The first n elves are back at work, those of the group behind them are woken. */
  ghost predicate Returning(c: Config, s: State, n: nat) {
    && s.locks == map[] && s.santa.Parked? && |s.elves| == c.elves && c.maxWaiting <= c.elves
    && forall e :: 0 <= e < c.elves ==> s.elves[e] == if n <= e < c.maxWaiting then WokenStart else Working
  }

  lemma {:induction false} ElvesReturn(c: Config, run: iset<State>, s: State, n: nat) returns (s': State)
    requires Closed(c, run) && s in run && Returning(c, s, 0) && n <= c.maxWaiting
    ensures s' in run && Returning(c, s', n) && s'.shared == s.shared && s'.reindeer == s.reindeer
  {
    s' := s;
    if n > 0 {
      s' := ElvesReturn(c, run, s, n - 1);
      s' := ElfReturns(c, run, s', n - 1);
    }
  }

  lemma GroupRound(c: Config, run: iset<State>, s: State, calls: nat, deliveries: nat) returns (s': State)
    requires Closed(c, run) && s in run && Calm(c, s, calls, deliveries)
    requires 1 <= c.maxWaiting <= c.elves && c.reindeer >= 1 && deliveries < c.maxDeliveries
    ensures s' in run && Calm(c, s', calls + 1, deliveries)
  {
    s' := GroupGathers(c, run, s);
    s' := SantaComesOut(c, run, s');
    s' := SantaGoesIn(c, run, s');
    s' := ElvesReturn(c, run, s', c.maxWaiting);
  }

  // ---------------------------------------------------------------- a delivery

  /** The first n reindeer are counted and have come to one place: on the way to wait for the delivery, or
      waiting for it. */
  ghost predicate Harnessed(c: Config, s: State, n: nat, place: ReindeerPc) {
    && s.locks == map[] && !s.santa.Finished? && |s.reindeer| == c.reindeer
    && s.shared.reindeerCount == n <= c.reindeer && (place.LockDelivery? || place.ParkedDelivery?)
    && forall r :: 0 <= r < c.reindeer ==> s.reindeer[r] == if r < n then place else OnHoliday
  }

  predicate OnlyReindeerMoved(s: State, s': State) {
    && s'.elves == s.elves
    && s'.shared == s.shared.(reindeerCount := s'.shared.reindeerCount, counted := s'.shared.counted)
  }

  lemma ReindeerJoins(c: Config, run: iset<State>, s: State, place: ReindeerPc) returns (s': State)
    requires Closed(c, run) && s in run && Harnessed(c, s, s.shared.reindeerCount, place)
    requires s.shared.reindeerCount < c.reindeer
    ensures s' in run && Harnessed(c, s', s.shared.reindeerCount + 1, place) && OnlyReindeerMoved(s, s')
    ensures s'.santa == if s.shared.reindeerCount + 1 == c.reindeer && s.santa.Parked? then Woken else s.santa
  {
    var r := s.shared.reindeerCount;
    s' := ReindeerReturns(c, run, s, r);
    if r + 1 == c.reindeer {
      s' := ReindeerWakesSanta(c, run, s', r);
    }
    s' := ReindeerGoesToWait(c, run, s', r);
    if place.ParkedDelivery? {
      s' := ReindeerParks(c, run, s', r);
    }
  }

  lemma {:induction false} ReindeerJoin(c: Config, run: iset<State>, s: State, n: nat, place: ReindeerPc)
    returns (s': State)
    requires Closed(c, run) && s in run && Harnessed(c, s, 0, place) && 1 <= c.reindeer && n <= c.reindeer
    ensures s' in run && Harnessed(c, s', n, place) && OnlyReindeerMoved(s, s')
    ensures s'.santa == if n == c.reindeer && s.santa.Parked? then Woken else s.santa
  {
    s' := s;
    if n > 0 {
      s' := ReindeerJoin(c, run, s, n - 1, place);
      s' := ReindeerJoins(c, run, s', place);
    }
  }

  /** Santa wakes up, delivers and thanks the reindeer. */
  lemma SantaDrives(c: Config, run: iset<State>, s: State) returns (s': State)
    requires Closed(c, run) && s in run && s.locks == map[] && (s.santa.Woken? || s.santa.LockToSleep?)
    requires s.shared.reindeerCount == c.reindeer
    ensures s' in run && s'.locks == map[] && s'.santa.CheckDone? && s'.elves == s.elves
    ensures s'.shared == s.shared.(deliveries := s.shared.deliveries + 1, reindeerCount := 0, counted := {},
                                   served := true)
    ensures ReindeerWoken(s.reindeer, s'.reindeer)
  {
    s' := SantaRises(c, run, s);
    s' := SantaDelivers(c, run, s');
    s' := SantaThanksReindeer(c, run, s');
  }

  lemma SantaRests(c: Config, run: iset<State>, s: State) returns (s': State)
    requires Closed(c, run) && s in run && s.locks == map[] && s.santa.CheckDone?
    requires s.shared.deliveries != c.maxDeliveries && s.shared.elfCount < c.maxWaiting
    requires s.shared.reindeerCount < c.reindeer
    ensures s' in run && s'.locks == map[] && SantaMoved(s, s', Parked) && s'.shared == s.shared
  {
    s' := SantaTurnsToElves(c, run, s);
    s' := SantaSkipsElves(c, run, s');
    s' := SantaFallsAsleep(c, run, s');
  }

  /** The first n reindeer are on holiday again, the others woken. */
  ghost predicate Leaving(c: Config, s: State, n: nat) {
    && s.locks == map[] && s.santa.Parked? && |s.reindeer| == c.reindeer
    && forall r :: 0 <= r < c.reindeer ==> s.reindeer[r] == if r < n then OnHoliday else WokenDelivery
  }

  lemma {:induction false} ReindeerLeave(c: Config, run: iset<State>, s: State, n: nat) returns (s': State)
    requires Closed(c, run) && s in run && Leaving(c, s, 0) && n <= c.reindeer
    ensures s' in run && Leaving(c, s', n) && s'.shared == s.shared && s'.elves == s.elves
  {
    s' := s;
    if n > 0 {
      s' := ReindeerLeave(c, run, s, n - 1);
      s' := ReindeerLeaves(c, run, s', n - 1);
    }
  }

  /** All reindeer come back and the presents are delivered. */
  lemma Delivery(c: Config, run: iset<State>, s: State, calls: nat, deliveries: nat) returns (s': State)
    requires Closed(c, run) && s in run && Calm(c, s, calls, deliveries) && 1 <= c.reindeer
    ensures s' in run && s'.locks == map[] && s'.santa.CheckDone? && s'.elves == s.elves
    ensures s'.shared.reindeerCount == 0 && s'.shared.deliveries == deliveries + 1 && s'.shared.calls == calls
    ensures s'.shared.ids == s.shared.ids && s'.shared.elfCount == 0
    ensures |s'.reindeer| == c.reindeer && forall r :: 0 <= r < c.reindeer ==> s'.reindeer[r].WokenDelivery?
  {
    s' := ReindeerJoin(c, run, s, c.reindeer, ParkedDelivery);
    s' := SantaDrives(c, run, s');
  }

  lemma DeliveryRound(c: Config, run: iset<State>, s: State, calls: nat, deliveries: nat) returns (s': State)
    requires Closed(c, run) && s in run && Calm(c, s, calls, deliveries)
    requires 1 <= c.maxWaiting && 1 <= c.reindeer && deliveries + 1 < c.maxDeliveries
    ensures s' in run && Calm(c, s', calls, deliveries + 1)
  {
    s' := Delivery(c, run, s, calls, deliveries);
    s' := SantaRests(c, run, s');
    s' := ReindeerLeave(c, run, s', c.reindeer);
  }

  // ---------------------------------------------------------------- whole runs

  lemma {:induction false} Rounds(c: Config, run: iset<State>, calls: nat, deliveries: nat) returns (s: State)
    requires Closed(c, run) && Init(c) in run
    requires 1 <= c.maxWaiting && 1 <= c.reindeer && deliveries < c.maxDeliveries
    requires calls > 0 ==> c.maxWaiting <= c.elves
    ensures s in run && Calm(c, s, calls, deliveries)
    decreases calls + deliveries
  {
    if calls > 0 {
      s := Rounds(c, run, calls - 1, deliveries);
      s := GroupRound(c, run, s, calls - 1, deliveries);
    } else if deliveries > 0 {
      s := Rounds(c, run, calls, deliveries - 1);
      s := DeliveryRound(c, run, s, calls, deliveries - 1);
    } else {
      s := SantaFallsAsleep(c, run, Init(c));
    }
  }

  /** Any number of groups is helped, however many deliveries were made before: with just enough elves for
      one group it is the same elves every time, who must have come back to work. */
  lemma AnyNumberOfGroups(c: Config, calls: nat, deliveries: nat) returns (s: State)
    requires 1 <= c.maxWaiting <= c.elves && 1 <= c.reindeer && deliveries < c.maxDeliveries
    ensures Reaches(c, s) && Calm(c, s, calls, deliveries)
  {
    AfterClosed(c, Init(c));
    s := Rounds(c, After(c, Init(c)), calls, deliveries);
  }

  lemma EndingRun(c: Config, run: iset<State>, calls: nat) returns (s: State)
    requires Closed(c, run) && Init(c) in run
    requires 1 <= c.maxWaiting && 1 <= c.reindeer && 1 <= c.maxDeliveries
    requires calls > 0 ==> c.maxWaiting <= c.elves
    ensures s in run && s.santa.Finished?
    ensures s.shared.deliveries == c.maxDeliveries && s.shared.calls == calls
  {
    s := Rounds(c, run, calls, c.maxDeliveries - 1);
    s := Delivery(c, run, s, calls, c.maxDeliveries - 1);
    s := SantaGoes(c, run, s);
  }

  /** The program can end, after all its deliveries, whatever number of groups was helped before. */
  lemma ProgramEnds(c: Config, calls: nat) returns (s: State)
    requires 1 <= c.maxWaiting && 1 <= c.reindeer && 1 <= c.maxDeliveries
    requires calls > 0 ==> c.maxWaiting <= c.elves
    ensures Reaches(c, s) && s.santa.Finished?
    ensures s.shared.deliveries == c.maxDeliveries && s.shared.calls == calls
  {
    AfterClosed(c, Init(c));
    s := EndingRun(c, After(c, Init(c)), calls);
  }

  // ---------------------------------------------------------------- an elf that found no room

  predicate Recorded(s: State, e: nat) {
    exists k :: 0 <= k < s.shared.elfCount && k < |s.shared.ids| && s.shared.ids[k] == e
  }

  /** A group is complete, and one more elf comes. */
  lemma OneTooMany(c: Config, run: iset<State>) returns (s: State)
    requires Closed(c, run) && Init(c) in run
    requires 1 <= c.maxWaiting < c.elves && 1 <= c.reindeer && 1 <= c.maxDeliveries
    ensures s in run && s.locks == map[] && s.santa.Woken?
    ensures |s.elves| == c.elves && s.elves[c.maxWaiting].ParkedSolved?
    ensures s.shared.elfCount == c.maxWaiting == |s.shared.ids|
    ensures s.shared.reindeerCount == 0 && s.shared.deliveries == 0
  {
    s := Rounds(c, run, 0, 0);
    s := GroupGathers(c, run, s);
    s := ElfArrives(c, run, s, c.maxWaiting);
    s := ElfIsTurnedAway(c, run, s, c.maxWaiting);
  }

  /** It comes in when the group has been helped. */
  lemma NextPlease(c: Config, run: iset<State>, s: State, e: nat) returns (s': State)
    requires Closed(c, run) && s in run && s.locks == map[] && s.santa.Woken?
    requires e < |s.elves| && s.elves[e].ParkedSolved?
    requires s.shared.elfCount == c.maxWaiting == |s.shared.ids| && 1 <= c.maxWaiting
    requires s.shared.reindeerCount < c.reindeer && s.shared.deliveries != c.maxDeliveries
    ensures s' in run && Recorded(s', e)
  {
    s' := SantaComesOut(c, run, s);
    s' := SantaGoesIn(c, run, s');
    s' := ElfGoes(c, run, s', e, s'.elves, WokenSolved);
    s' := ElfEnters(c, run, s', e);
    s' := ElfGoes(c, run, s', e, s'.elves, Report);
    assert s'.shared.ids[0] == e;
  }

  /** With more elves than a group has, one of them can find no room, wait, and be recorded later. */
  lemma TurnedAwayElf(c: Config) returns (s: State, s': State, e: nat)
    requires 1 <= c.maxWaiting < c.elves && 1 <= c.reindeer && 1 <= c.maxDeliveries
    ensures Reaches(c, s) && e < |s.elves| && s.elves[e].ParkedSolved? && !Recorded(s, e)
    ensures Leads(c, s, s') && Recorded(s', e)
  {
    e := c.maxWaiting;
    AfterClosed(c, Init(c));
    s := OneTooMany(c, After(c, Init(c)));
    ReachesInv(c, s);
    AfterClosed(c, s);
    s' := NextPlease(c, After(c, s), s, e);
  }

  // ---------------------------------------------------------------- an elf that is late

  /** Santa's mutexes leave an elf that waits for help two places only. */
  lemma WaitingPlaces(s: State, e: nat)
    requires LocksOk(s) && s.santa.BroadcastStart? && e < |s.elves| && WaitsForHelp(s.elves[e])
    ensures s.elves[e].ParkedStart? || s.elves[e].LockStart?
  {
    if ProblemMutex in ElfHolds(s.elves[e]) {
      OneHolder(s, TheSanta, Elf(e), ProblemMutex);
      assert false;
    }
    if StartMutex in ElfHolds(s.elves[e]) {
      OneHolder(s, TheSanta, Elf(e), StartMutex);
      assert false;
    }
  }

  lemma GroupMember(c: Config, s: State, k: nat) returns (e: nat)
    requires ElvesOk(c, s) && s.santa.BroadcastStart? && k < s.shared.elfCount
    ensures k < |s.shared.ids| && s.shared.ids[k] == e && e < |s.elves| && WaitsForHelp(s.elves[e])
  {
    e := s.shared.ids[k];
  }

  /** Santa calls every elf of the group that waits; one that is still on its way does not hear it. */
  lemma CallReachesOrMisses(c: Config, s: State, k: nat) returns (e: nat)
    requires c.maxDeliveries >= 1 && Reaches(c, s) && s.santa.BroadcastStart? && k < s.shared.elfCount
    ensures k < |s.shared.ids| && s.shared.ids[k] == e && e < |s.elves| == |Apply(c, s, TheSanta).elves|
    ensures s.elves[e].ParkedStart? || s.elves[e].LockStart?
    ensures Apply(c, s, TheSanta).elves[e] == if s.elves[e].ParkedStart? then WokenStart else LockStart
  {
    ReachesInv(c, s);
    e := GroupMember(c, s, k);
    WaitingPlaces(s, e);
  }

  /** The elf waits, or is about to, for a call; it is in no group, and Santa helps none. */
  ghost predicate Overlooked(s: State, e: nat) {
    && e < |s.elves| && (s.elves[e].LockStart? || s.elves[e].ParkStart? || s.elves[e].ParkedStart?)
    && !HasGroup(s.santa)
    && forall k :: 0 <= k < s.shared.elfCount && k < |s.shared.ids| ==> s.shared.ids[k] != e
  }

  /** Without that elf the others are too few for a group. */
  lemma TooFewWithout(c: Config, s: State, e: nat)
    requires Inv(c, s) && Overlooked(s, e) && c.elves <= c.maxWaiting
    ensures s.shared.elfCount < c.maxWaiting
  {
    DistinctBelow(s.shared.ids[..s.shared.elfCount] + [e], c.elves);
  }

  lemma OverlookedBySanta(c: Config, s: State, e: nat)
    requires Overlooked(s, e) && s.shared.elfCount < c.maxWaiting && Enabled(s, TheSanta)
    ensures Overlooked(SantaStep(c, s), e) && SantaStep(c, s).shared.calls == s.shared.calls
  {
  }

  lemma OverlookedByElf(c: Config, s: State, e: nat, w: nat)
    requires Overlooked(s, e) && Enabled(s, Elf(w))
    ensures Overlooked(ElfStep(c, s, w), e) && ElfStep(c, s, w).shared.calls == s.shared.calls
  {
  }

  lemma OverlookedStep(c: Config, s: State, e: nat, t: Thread)
    requires Inv(c, s) && Overlooked(s, e) && c.elves <= c.maxWaiting && Enabled(s, t)
    ensures Overlooked(Apply(c, s, t), e) && Apply(c, s, t).shared.calls == s.shared.calls
  {
    TooFewWithout(c, s, e);
    match t
    case TheSanta => OverlookedBySanta(c, s, e);
    case Elf(w) => OverlookedByElf(c, s, e, w);
    case Reindeer(r) =>
  }

  lemma {:induction false} OverlookedForever(c: Config, s: State, e: nat, schedule: seq<Thread>)
    requires Inv(c, s) && Overlooked(s, e) && c.elves <= c.maxWaiting && Exec(c, s, schedule).Some?
    ensures var s' := Exec(c, s, schedule).value;
            Inv(c, s') && Overlooked(s', e) && s'.shared.calls == s.shared.calls
    decreases |schedule|
  {
    if schedule != [] {
      var front, t := schedule[..|schedule| - 1], schedule[|schedule| - 1];
      OverlookedForever(c, s, e, front);
      var before := Exec(c, s, front).value;
      OverlookedStep(c, before, e, t);
      StepKeepsInv(c, before, t);
    }
  }

  lemma LateRun(c: Config, run: iset<State>, calls: nat) returns (s: State)
    requires Closed(c, run) && Init(c) in run
    requires 1 <= c.maxWaiting <= c.elves && 1 <= c.reindeer && 1 <= c.maxDeliveries
    ensures s in run && Overlooked(s, c.maxWaiting - 1) && s.shared.calls == calls + 1
  {
    s := Rounds(c, run, calls, 0);
    s := ElvesWait(c, run, s, c.maxWaiting - 1);
    s := LastElfWakesSanta(c, run, s);
    s := SantaComesOut(c, run, s);
    s := SantaSolves(c, run, s);
  }

  /** With just enough elves for a group, any call can be the last one: an elf of the group comes late to its
      place, and nobody ever calls it again. */
  lemma AnyCallCanBeTheLast(c: Config, calls: nat) returns (s: State)
    requires 1 <= c.maxWaiting == c.elves && 1 <= c.reindeer && 1 <= c.maxDeliveries
    ensures Reaches(c, s) && s.shared.calls == calls + 1
    ensures forall s' :: Leads(c, s, s') ==> s'.shared.calls == calls + 1
  {
    AfterClosed(c, Init(c));
    s := LateRun(c, After(c, Init(c)), calls);
    ReachesInv(c, s);
    forall s' | Leads(c, s, s')
      ensures s'.shared.calls == calls + 1
    {
      var schedule :| Exec(c, s, schedule) == Some(s');
      OverlookedForever(c, s, c.maxWaiting - 1, schedule);
    }
  }
}
