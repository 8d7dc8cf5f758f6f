/** Lab 9: pieces of runs in which one thread moves and all others stand still without a mutex. */
module SantaPaths {
  import opened Options
  import opened Santa
  import opened SantaSafety

  /** A set of states that no step leaves. */
  ghost predicate Closed(c: Config, states: iset<State>) {
    forall s, t :: s in states && Enabled(s, t) ==> Apply(c, s, t) in states
  }

  /** Some schedule leads from one state to the other. */
  ghost predicate Leads(c: Config, s: State, s': State) {
    exists schedule :: Exec(c, s, schedule) == Some(s')
  }

  /** The states that come after a state in some run, with the state itself. */
  ghost function After(c: Config, s: State): iset<State> {
    iset s' | Leads(c, s, s')
  }

  lemma OneStep(c: Config, s0: State, s: State, t: Thread)
    requires Leads(c, s0, s) && Enabled(s, t)
    ensures Leads(c, s0, Apply(c, s, t))
  {
    var schedule :| Exec(c, s0, schedule) == Some(s);
    assert (schedule + [t])[..|schedule|] == schedule;
    assert Exec(c, s0, schedule + [t]) == Some(Apply(c, s, t));
  }

  lemma AfterClosed(c: Config, s: State)
    ensures Closed(c, After(c, s)) && s in After(c, s)
  {
    assert Exec(c, s, []) == Some(s);
    forall s1, t | s1 in After(c, s) && Enabled(s1, t)
      ensures Apply(c, s1, t) in After(c, s)
    {
      OneStep(c, s, s1, t);
    }
  }

  // ---------------------------------------------------------------- one thread alone

  /** Nobody else holds a mutex. */
  ghost predicate Alone(s: State, t: Thread) {
    && IsThread(s, t)
    && (forall m :: m in s.locks ==> s.locks[m] == t)
    && (forall m :: m in s.locks <==> m in Holds(s, t))
  }

  ghost predicate Solo(s: State, t: Thread) {
    Alone(s, t) && !s.santa.Finished? && !IsParked(s, t)
  }

  /** No thread locks a mutex that it has. */
  lemma LocksOthers(s: State, t: Thread)
    requires IsThread(s, t) && !IsParked(s, t) && Locks(s, t).Some?
    ensures Locks(s, t).value !in Holds(s, t)
  {
  }

  lemma SoloStep(c: Config, s: State, t: Thread)
    requires Solo(s, t)
    ensures Enabled(s, t)
    ensures Alone(Apply(c, s, t), t)
  {
    if Locks(s, t).Some? {
      LocksOthers(s, t);
    }
    StepMovesHolders(c, s, t);
  }

  lemma ElfGoes(c: Config, run: iset<State>, s: State, e: nat, elves: seq<ElfPc>, pc: ElfPc) returns (s': State)
    requires Closed(c, run) && s in run && Solo(s, Elf(e)) && e < |elves| && s.elves == elves[e := pc]
    ensures s' in run && s'.elves == elves[e := NextElf(c, s.shared, pc)]
    ensures s'.shared == ElfWrites(c, s.shared, pc, e) && s'.reindeer == s.reindeer
    ensures s'.santa == if pc.Broadcast? && s.santa.Parked? then Woken else s.santa
    ensures Alone(s', Elf(e))
  {
    s' := Apply(c, s, Elf(e));
    SoloStep(c, s, Elf(e));
  }

  lemma ReindeerGoes(c: Config, run: iset<State>, s: State, r: nat, reindeer: seq<ReindeerPc>) returns (s': State)
    requires Closed(c, run) && s in run && Solo(s, Reindeer(r))
    requires r < |reindeer| && s.reindeer == reindeer[r := s.reindeer[r]]
    ensures s' in run && s'.reindeer == reindeer[r := NextReindeer(c, s.shared, s.reindeer[r])]
    ensures s'.shared == ReindeerWrites(s.shared, s.reindeer[r], r) && s'.elves == s.elves
    ensures s'.santa == if s.reindeer[r].BroadcastR? && s.santa.Parked? then Woken else s.santa
    ensures Alone(s', Reindeer(r))
  {
    s' := Apply(c, s, Reindeer(r));
    SoloStep(c, s, Reindeer(r));
  }

  lemma SantaGoes(c: Config, run: iset<State>, s: State) returns (s': State)
    requires Closed(c, run) && s in run && Solo(s, TheSanta)
    requires !s.santa.BroadcastStart? && !s.santa.BroadcastSolved? && !s.santa.BroadcastDelivered?
    ensures s' in run && s'.santa == NextSanta(c, s.shared, s.santa)
    ensures s'.shared == SantaWrites(s.shared, s.santa)
    ensures s'.elves == s.elves && s'.reindeer == s.reindeer && Alone(s', TheSanta)
  {
    s' := Apply(c, s, TheSanta);
    SoloStep(c, s, TheSanta);
  }

  /** Elves that are parked at one place have been woken there, and nobody else has moved. */
  predicate ElvesWoken(elves: seq<ElfPc>, elves': seq<ElfPc>, parked: ElfPc, woken: ElfPc) {
    && |elves'| == |elves|
    && forall e :: 0 <= e < |elves| ==> elves'[e] == if elves[e] == parked then woken else elves[e]
  }

  predicate ReindeerWoken(reindeer: seq<ReindeerPc>, reindeer': seq<ReindeerPc>) {
    && |reindeer'| == |reindeer|
    && forall r :: 0 <= r < |reindeer| ==>
         reindeer'[r] == if reindeer[r].ParkedDelivery? then WokenDelivery else reindeer[r]
  }

  lemma SantaBroadcasts(c: Config, run: iset<State>, s: State) returns (s': State)
    requires Closed(c, run) && s in run && Solo(s, TheSanta)
    requires s.santa.BroadcastStart? || s.santa.BroadcastSolved? || s.santa.BroadcastDelivered?
    ensures s' in run && s'.santa == NextSanta(c, s.shared, s.santa)
    ensures s'.shared == SantaWrites(s.shared, s.santa) && Alone(s', TheSanta)
    ensures if s.santa.BroadcastStart? then ElvesWoken(s.elves, s'.elves, ParkedStart, WokenStart)
            else if s.santa.BroadcastSolved? then ElvesWoken(s.elves, s'.elves, ParkedSolved, WokenSolved)
            else s'.elves == s.elves
    ensures if s.santa.BroadcastDelivered? then ReindeerWoken(s.reindeer, s'.reindeer) else s'.reindeer == s.reindeer
  {
    s' := Apply(c, s, TheSanta);
    SoloStep(c, s, TheSanta);
  }

  // ---------------------------------------------------------------- an elf's ways

  ghost predicate ElfMoved(s: State, s': State, e: nat, pc: ElfPc) {
    && e < |s.elves| && s'.elves == s.elves[e := pc] && s'.reindeer == s.reindeer && s'.santa == s.santa
    && Alone(s', Elf(e))
  }

  lemma ElfArrives(c: Config, run: iset<State>, s: State, e: nat) returns (s': State)
    requires Closed(c, run) && s in run && Solo(s, Elf(e)) && s.elves[e].Working?
    ensures s' in run && ElfMoved(s, s', e, CheckRoom) && s'.shared == s.shared
  {
    s' := ElfGoes(c, run, s, e, s.elves, Working);
    s' := ElfGoes(c, run, s', e, s.elves, LockWait);
  }

  lemma ElfEnters(c: Config, run: iset<State>, s: State, e: nat) returns (s': State)
    requires Closed(c, run) && s in run && Solo(s, Elf(e)) && s.elves[e].CheckRoom? && s.shared.elfCount < c.maxWaiting
    ensures s' in run && ElfMoved(s, s', e, Report) && s'.shared == s.shared
  {
    s' := ElfGoes(c, run, s, e, s.elves, CheckRoom);
    s' := ElfGoes(c, run, s', e, s.elves, UnlockWait);
    s' := ElfGoes(c, run, s', e, s.elves, LockProblem);
  }

  lemma ElfIsTurnedAway(c: Config, run: iset<State>, s: State, e: nat) returns (s': State)
    requires Closed(c, run) && s in run && Solo(s, Elf(e)) && s.elves[e].CheckRoom? && s.shared.elfCount == c.maxWaiting
    ensures s' in run && ElfMoved(s, s', e, ParkedSolved) && s'.shared == s.shared
  {
    s' := ElfGoes(c, run, s, e, s.elves, CheckRoom);
    s' := ElfGoes(c, run, s', e, s.elves, LockNotice);
    s' := ElfGoes(c, run, s', e, s.elves, UnlockNotice);
    s' := ElfGoes(c, run, s', e, s.elves, ParkSolved);
  }

  function Reported(sh: Shared, e: nat): Shared
    requires sh.elfCount < |sh.ids|
  {
    sh.(ids := sh.ids[sh.elfCount := e], elfCount := sh.elfCount + 1)
  }

  lemma ElfReports(c: Config, run: iset<State>, s: State, e: nat) returns (s': State)
    requires Closed(c, run) && s in run && Solo(s, Elf(e)) && s.elves[e].Report?
    requires s.shared.elfCount + 1 < c.maxWaiting == |s.shared.ids|
    ensures s' in run && ElfMoved(s, s', e, LockStart) && s'.shared == Reported(s.shared, e)
  {
    s' := ElfGoes(c, run, s, e, s.elves, Report);
    s' := ElfGoes(c, run, s', e, s.elves, UnlockProblem);
  }

  lemma ElfCompletes(c: Config, run: iset<State>, s: State, e: nat) returns (s': State)
    requires Closed(c, run) && s in run && Solo(s, Elf(e)) && s.elves[e].Report?
    requires s.shared.elfCount + 1 == c.maxWaiting == |s.shared.ids|
    ensures s' in run && ElfMoved(s, s', e, LockSleep) && s'.shared == Reported(s.shared, e)
  {
    s' := ElfGoes(c, run, s, e, s.elves, Report);
  }

  /** The elf that completed the group wakes Santa if he sleeps. */
  lemma ElfWakesSanta(c: Config, run: iset<State>, s: State, e: nat) returns (s': State)
    requires Closed(c, run) && s in run && Solo(s, Elf(e)) && s.elves[e].LockSleep?
    ensures s' in run && s'.santa == if s.santa.Parked? then Woken else s.santa
    ensures ElfMoved(s, s'.(santa := s.santa), e, LockStart) && s'.shared == s.shared
  {
    s' := ElfGoes(c, run, s, e, s.elves, LockSleep);
    s' := ElfGoes(c, run, s', e, s.elves, Broadcast);
    s' := ElfGoes(c, run, s', e, s.elves, UnlockSleep);
    s' := ElfGoes(c, run, s', e, s.elves, UnlockProblem);
  }

  lemma ElfParks(c: Config, run: iset<State>, s: State, e: nat) returns (s': State)
    requires Closed(c, run) && s in run && Solo(s, Elf(e)) && s.elves[e].LockStart?
    ensures s' in run && ElfMoved(s, s', e, ParkedStart) && s'.shared == s.shared
  {
    s' := ElfGoes(c, run, s, e, s.elves, LockStart);
    s' := ElfGoes(c, run, s', e, s.elves, ParkStart);
  }

  lemma ElfReturns(c: Config, run: iset<State>, s: State, e: nat) returns (s': State)
    requires Closed(c, run) && s in run && Solo(s, Elf(e)) && s.elves[e].WokenStart?
    ensures s' in run && ElfMoved(s, s', e, Working) && s'.shared == s.shared
  {
    s' := ElfGoes(c, run, s, e, s.elves, WokenStart);
    s' := ElfGoes(c, run, s', e, s.elves, UnlockStart);
  }

  // ---------------------------------------------------------------- a reindeer's ways

  ghost predicate ReindeerMoved(s: State, s': State, r: nat, pc: ReindeerPc) {
    && r < |s.reindeer| && s'.reindeer == s.reindeer[r := pc] && s'.elves == s.elves && s'.santa == s.santa
    && Alone(s', Reindeer(r))
  }

  function Counted(sh: Shared, r: nat): Shared {
    sh.(reindeerCount := sh.reindeerCount + 1, counted := sh.counted + {r})
  }

  /** A reindeer comes back and is counted. */
  lemma ReindeerReturns(c: Config, run: iset<State>, s: State, r: nat) returns (s': State)
    requires Closed(c, run) && s in run && Solo(s, Reindeer(r)) && s.reindeer[r].OnHoliday?
    ensures s' in run && s'.shared == Counted(s.shared, r)
    ensures ReindeerMoved(s, s', r, if s.shared.reindeerCount + 1 == c.reindeer then LockSleepR else UnlockReturn)
  {
    s' := ReindeerGoes(c, run, s, r, s.reindeer);
    s' := ReindeerGoes(c, run, s', r, s.reindeer);
    s' := ReindeerGoes(c, run, s', r, s.reindeer);
  }

  /** The last one wakes Santa if he sleeps. */
  lemma ReindeerWakesSanta(c: Config, run: iset<State>, s: State, r: nat) returns (s': State)
    requires Closed(c, run) && s in run && Solo(s, Reindeer(r)) && s.reindeer[r].LockSleepR?
    ensures s' in run && s'.santa == if s.santa.Parked? then Woken else s.santa
    ensures ReindeerMoved(s, s'.(santa := s.santa), r, UnlockReturn) && s'.shared == s.shared
  {
    s' := ReindeerGoes(c, run, s, r, s.reindeer);
    s' := ReindeerGoes(c, run, s', r, s.reindeer);
    s' := ReindeerGoes(c, run, s', r, s.reindeer);
  }

  lemma ReindeerGoesToWait(c: Config, run: iset<State>, s: State, r: nat) returns (s': State)
    requires Closed(c, run) && s in run && Solo(s, Reindeer(r)) && s.reindeer[r].UnlockReturn?
    ensures s' in run && ReindeerMoved(s, s', r, LockDelivery) && s'.shared == s.shared
  {
    s' := ReindeerGoes(c, run, s, r, s.reindeer);
  }

  lemma ReindeerParks(c: Config, run: iset<State>, s: State, r: nat) returns (s': State)
    requires Closed(c, run) && s in run && Solo(s, Reindeer(r)) && s.reindeer[r].LockDelivery?
    ensures s' in run && ReindeerMoved(s, s', r, ParkedDelivery) && s'.shared == s.shared
  {
    s' := ReindeerGoes(c, run, s, r, s.reindeer);
    s' := ReindeerGoes(c, run, s', r, s.reindeer);
  }

  lemma ReindeerLeaves(c: Config, run: iset<State>, s: State, r: nat) returns (s': State)
    requires Closed(c, run) && s in run && Solo(s, Reindeer(r)) && s.reindeer[r].WokenDelivery?
    ensures s' in run && ReindeerMoved(s, s', r, OnHoliday) && s'.shared == s.shared
  {
    s' := ReindeerGoes(c, run, s, r, s.reindeer);
    s' := ReindeerGoes(c, run, s', r, s.reindeer);
  }

  // ---------------------------------------------------------------- Santa's ways

  ghost predicate SantaMoved(s: State, s': State, pc: SantaPc) {
    s'.santa == pc && s'.elves == s.elves && s'.reindeer == s.reindeer && Alone(s', TheSanta)
  }

  /** He leaves his bed for a full group of elves, or for all reindeer. */
  lemma SantaRises(c: Config, run: iset<State>, s: State) returns (s': State)
    requires Closed(c, run) && s in run && Solo(s, TheSanta) && (s.santa.Woken? || s.santa.LockToSleep?)
    requires s.shared.elfCount == c.maxWaiting || s.shared.reindeerCount == c.reindeer
    ensures s' in run && SantaMoved(s, s', LockToDeliver) && s'.shared == s.shared.(served := false)
  {
    s' := SantaGoes(c, run, s);
    s' := SantaGoes(c, run, s');
    if s'.santa.CheckReindeer? {
      s' := SantaGoes(c, run, s');
    }
    s' := SantaGoes(c, run, s');
  }

  lemma SantaSkipsDelivery(c: Config, run: iset<State>, s: State) returns (s': State)
    requires Closed(c, run) && s in run && Solo(s, TheSanta) && s.santa.LockToDeliver?
    requires s.shared.reindeerCount != c.reindeer
    ensures s' in run && SantaMoved(s, s', CheckDone) && s'.shared == s.shared
  {
    s' := SantaGoes(c, run, s);
    s' := SantaGoes(c, run, s');
    s' := SantaGoes(c, run, s');
  }

  lemma SantaDelivers(c: Config, run: iset<State>, s: State) returns (s': State)
    requires Closed(c, run) && s in run && Solo(s, TheSanta) && s.santa.LockToDeliver?
    requires s.shared.reindeerCount == c.reindeer
    ensures s' in run && SantaMoved(s, s', BroadcastDelivered)
    ensures s'.shared == s.shared.(deliveries := s.shared.deliveries + 1, reindeerCount := 0, counted := {},
                                   served := true)
  {
    s' := SantaGoes(c, run, s);
    s' := SantaGoes(c, run, s');
    s' := SantaGoes(c, run, s');
    s' := SantaGoes(c, run, s');
    s' := SantaGoes(c, run, s');
  }

  /** He tells the reindeer that wait, and looks whether it was the last delivery. */
  lemma SantaThanksReindeer(c: Config, run: iset<State>, s: State) returns (s': State)
    requires Closed(c, run) && s in run && Solo(s, TheSanta) && s.santa.BroadcastDelivered?
    ensures s' in run && SantaMoved(s, s'.(reindeer := s.reindeer), CheckDone) && s'.shared == s.shared
    ensures ReindeerWoken(s.reindeer, s'.reindeer)
  {
    s' := SantaBroadcasts(c, run, s);
    s' := SantaGoes(c, run, s');
    s' := SantaGoes(c, run, s');
  }

  lemma SantaTurnsToElves(c: Config, run: iset<State>, s: State) returns (s': State)
    requires Closed(c, run) && s in run && Solo(s, TheSanta) && s.santa.CheckDone?
    requires s.shared.deliveries != c.maxDeliveries
    ensures s' in run && SantaMoved(s, s', CheckGroup) && s'.shared == s.shared
  {
    s' := SantaGoes(c, run, s);
    s' := SantaGoes(c, run, s');
    s' := SantaGoes(c, run, s');
  }

  lemma SantaSkipsElves(c: Config, run: iset<State>, s: State) returns (s': State)
    requires Closed(c, run) && s in run && Solo(s, TheSanta) && s.santa.CheckGroup? && s.shared.elfCount != c.maxWaiting
    ensures s' in run && SantaMoved(s, s', LockToSleep) && s'.shared == s.shared
  {
    s' := SantaGoes(c, run, s);
    s' := SantaGoes(c, run, s');
    s' := SantaGoes(c, run, s');
  }

  /** He calls the elves that wait for him. */
  lemma SantaCalls(c: Config, run: iset<State>, s: State) returns (s': State)
    requires Closed(c, run) && s in run && Solo(s, TheSanta) && s.santa.CheckGroup? && s.shared.elfCount == c.maxWaiting
    ensures s' in run && SantaMoved(s, s'.(elves := s.elves), UnlockToStart)
    ensures s'.shared == s.shared.(calls := s.shared.calls + 1)
    ensures ElvesWoken(s.elves, s'.elves, ParkedStart, WokenStart)
  {
    s' := SantaGoes(c, run, s);
    s' := SantaGoes(c, run, s');
    s' := SantaBroadcasts(c, run, s');
  }

  lemma SantaSolves(c: Config, run: iset<State>, s: State) returns (s': State)
    requires Closed(c, run) && s in run && Solo(s, TheSanta) && s.santa.UnlockToStart?
    ensures s' in run && SantaMoved(s, s', BroadcastSolved)
    ensures s'.shared == s.shared.(elfCount := 0, served := true)
  {
    s' := SantaGoes(c, run, s);
    s' := SantaGoes(c, run, s');
    s' := SantaGoes(c, run, s');
  }

  /** He tells the elves that found no room. */
  lemma SantaLetsElvesIn(c: Config, run: iset<State>, s: State) returns (s': State)
    requires Closed(c, run) && s in run && Solo(s, TheSanta) && s.santa.BroadcastSolved?
    ensures s' in run && SantaMoved(s, s'.(elves := s.elves), LockToSleep) && s'.shared == s.shared
    ensures ElvesWoken(s.elves, s'.elves, ParkedSolved, WokenSolved)
  {
    s' := SantaBroadcasts(c, run, s);
    s' := SantaGoes(c, run, s');
    s' := SantaGoes(c, run, s');
    s' := SantaGoes(c, run, s');
  }

  lemma SantaFallsAsleep(c: Config, run: iset<State>, s: State) returns (s': State)
    requires Closed(c, run) && s in run && Solo(s, TheSanta) && s.santa.LockToSleep?
    requires s.shared.elfCount < c.maxWaiting && s.shared.reindeerCount < c.reindeer
    ensures s' in run && SantaMoved(s, s', Parked) && s'.shared == s.shared
  {
    s' := SantaGoes(c, run, s);
    s' := SantaGoes(c, run, s');
    s' := SantaGoes(c, run, s');
    s' := SantaGoes(c, run, s');
  }
}
