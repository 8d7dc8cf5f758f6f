/** Lab 7: what holds in every reachable state of the POSIX pizzeria, for any number of chefs and
    deliverers and any capacities.  The accounts are carried over from System V by the mapping. */
module PosixSafety {
  import opened Options
  import opened Kitchen
  import opened Staff
  import V = SystemV
  import P = Posix
  import opened PosixRefinesSystemV

  /** One abstract program point stands for several concrete ones. */
  lemma {:induction false} AbsChefCounts(chefs: seq<P.ChefPc>, pc: V.ChefPc)
    ensures multiset(AbsChefs(chefs))[pc] == Preimages(multiset(chefs), pc)
  {
    if chefs != [] {
      var front, last := chefs[..|chefs| - 1], chefs[|chefs| - 1];
      AbsChefCounts(front, pc);
      assert chefs == front + [last];
      assert AbsChefs(chefs) == AbsChefs(front) + [AbsChef(last)];
      assert multiset(chefs) == multiset(front) + multiset{last};
      OnePreimage(multiset(front), last, pc);
    }
  }

  lemma OnePreimage(n: multiset<P.ChefPc>, last: P.ChefPc, pc: V.ChefPc)
    ensures Preimages(n + multiset{last}, pc) == Preimages(n, pc) + (if AbsChef(last) == pc then 1 else 0)
  {
  }

  ghost function Preimages(n: multiset<P.ChefPc>, pc: V.ChefPc): nat {
    match pc
    case Preparing => n[P.Choosing]
    case WantsOven => n[P.WaitOven] + n[P.LockToPut]
    case Placing => n[P.PutPizza]
    case Placed => n[P.UnlockPut]
    case Baking => n[P.WaitTable] + n[P.LockToMove]
    case Moving => n[P.PostOven] + n[P.PostWaiting] + n[P.MovePizza]
    case Moved => n[P.UnlockMove]
  }

  lemma {:induction false} AbsDelivererCounts(deliverers: seq<P.DelivererPc>, pc: V.DelivererPc)
    ensures multiset(AbsDeliverers(deliverers))[pc] == DelivererPreimages(multiset(deliverers), pc)
  {
    if deliverers != [] {
      var front, last := deliverers[..|deliverers| - 1], deliverers[|deliverers| - 1];
      AbsDelivererCounts(front, pc);
      assert deliverers == front + [last];
      assert AbsDeliverers(deliverers) == AbsDeliverers(front) + [AbsDeliverer(last)];
      assert multiset(deliverers) == multiset(front) + multiset{last};
      OneDelivererPreimage(multiset(front), last, pc);
    }
  }

  lemma OneDelivererPreimage(n: multiset<P.DelivererPc>, last: P.DelivererPc, pc: V.DelivererPc)
    ensures DelivererPreimages(n + multiset{last}, pc)
         == DelivererPreimages(n, pc) + (if AbsDeliverer(last) == pc then 1 else 0)
  {
  }

  ghost function DelivererPreimages(n: multiset<P.DelivererPc>, pc: V.DelivererPc): nat {
    match pc
    case WantsPizza => n[P.WaitWaiting] + n[P.LockToTake]
    case Taking => n[P.PostTable] + n[P.PostDelivery] + n[P.TakePizza]
    case Taken => n[P.UnlockTake]
    case Travelling => n[P.WaitDelivery]
    case Delivering => n[P.GivePizza]
  }

  predicate ChefHoldsLock(pc: P.ChefPc) {
    pc.PutPizza? || pc.UnlockPut? || pc.PostOven? || pc.PostWaiting? || pc.MovePizza? || pc.UnlockMove?
  }

  predicate DelivererHoldsLock(pc: P.DelivererPc) {
    pc.PostTable? || pc.PostDelivery? || pc.TakePizza? || pc.UnlockTake?
  }

  ghost function LockHolders(s: P.State): nat {
    Chefs(s, P.PutPizza) + Chefs(s, P.UnlockPut) + Chefs(s, P.PostOven) + Chefs(s, P.PostWaiting)
    + Chefs(s, P.MovePizza) + Chefs(s, P.UnlockMove)
    + Deliverers(s, P.PostTable) + Deliverers(s, P.PostDelivery) + Deliverers(s, P.TakePizza)
    + Deliverers(s, P.UnlockTake)
  }

  /** Semaphores, permits held in each phase, counters and slots account exactly for each other. */
  ghost predicate Accounts(c: Config, s: P.State) {
    && s.sems.NonNegative()
    && s.sems.lock + LockHolders(s) == 1
    && s.sems.oven + Chefs(s, P.LockToPut) + Chefs(s, P.PutPizza) + Chefs(s, P.UnlockPut) + Chefs(s, P.WaitTable)
       + Chefs(s, P.LockToMove) + Chefs(s, P.PostOven) == c.ovenCapacity
    && s.sems.table + Chefs(s, P.LockToMove) + Chefs(s, P.PostOven) + Chefs(s, P.PostWaiting)
       + s.sems.waiting + Deliverers(s, P.LockToTake) + Deliverers(s, P.PostTable) == c.tableCapacity
    && s.sems.delivery == Deliverers(s, P.TakePizza) + Deliverers(s, P.UnlockTake) + Deliverers(s, P.WaitDelivery)
    && s.data.memory.ovenCount == Chefs(s, P.UnlockPut) + Chefs(s, P.WaitTable) + Chefs(s, P.LockToMove)
       + Chefs(s, P.PostOven) + Chefs(s, P.PostWaiting) + Chefs(s, P.MovePizza) == Filled(s.data.memory.oven)
    && s.data.memory.tableCount == s.sems.waiting + Deliverers(s, P.LockToTake) - Chefs(s, P.MovePizza)
       + Deliverers(s, P.PostTable) + Deliverers(s, P.PostDelivery) + Deliverers(s, P.TakePizza)
       == Filled(s.data.memory.table)
  }

  lemma ReachableAbsInv(c: Config, s: P.State)
    requires PosixReaches(c, s)
    ensures V.Inv(c, Abs(s)) && P.Shaped(c, s) && s.sems.NonNegative()
  {
    var steps :| P.Exec(P.Init(c), steps) == Some(s);
    RunRefines(c, steps);
    V.ExecKeepsInv(c, Visible(P.Init(c), steps));
    NeverNegative(c, steps);
  }

  /** The System V state behind a reachable POSIX state, by its properties. */
  lemma Abstraction(c: Config, s: P.State) returns (a: V.State)
    requires PosixReaches(c, s)
    ensures P.Shaped(c, s) && V.Inv(c, a) && a.data == s.data
    ensures forall i :: 0 <= i < |a.chefs| ==> a.chefs[i] == AbsChef(s.chefs[i])
    ensures forall j :: 0 <= j < |a.deliverers| ==> a.deliverers[j] == AbsDeliverer(s.deliverers[j])
  {
    ReachableAbsInv(c, s);
    a := Abs(s);
  }

  lemma ReachableShaped(c: Config, s: P.State)
    requires PosixReaches(c, s)
    ensures P.Shaped(c, s) && s.sems.NonNegative()
  {
    ReachableAbsInv(c, s);
  }

  lemma {:induction false} NeverNegative(c: Config, steps: seq<Step>)
    requires P.Exec(P.Init(c), steps).Some?
    ensures P.Exec(P.Init(c), steps).value.sems.NonNegative()
  {
    if steps != [] {
      var s, step := P.Exec(P.Init(c), steps[..|steps| - 1]).value, steps[|steps| - 1];
      assert P.Enabled(s, step);
    }
  }

  lemma AccountsFromSystemV(c: Config, s: P.State)
    requires s.sems.NonNegative() && V.SemaphoresAccount(c, Abs(s)) && V.CountersAccount(Abs(s))
    requires V.SlotsAccount(s.data.memory)
    ensures Accounts(c, s)
  {
    AbsChefCounts(s.chefs, V.Placing);
    AbsChefCounts(s.chefs, V.Placed);
    AbsChefCounts(s.chefs, V.Baking);
    AbsChefCounts(s.chefs, V.Moving);
    AbsChefCounts(s.chefs, V.Moved);
    AbsDelivererCounts(s.deliverers, V.Taking);
    AbsDelivererCounts(s.deliverers, V.Taken);
    AbsDelivererCounts(s.deliverers, V.Travelling);
  }

  /** The accounting of the POSIX version, with the permits in the hands of each phase. */
  lemma AccountsHold(c: Config, s: P.State)
    requires PosixReaches(c, s)
    ensures Accounts(c, s)
  {
    ReachableAbsInv(c, s);
    AccountsFromSystemV(c, s);
  }

  /** No pizza is lost, duplicated or changed: everything that went into the oven is in the oven, on
      the table, carried by a deliverer or delivered. */
  lemma PizzasConserved(c: Config, s: P.State)
    requires PosixReaches(c, s)
    ensures s.data.baked == Contents(s.data.memory.oven) + Contents(s.data.memory.table)
                            + Contents(s.data.carried) + s.data.delivered
  {
    ReachableAbsInv(c, s);
  }

  predicate Bakes(pc: P.ChefPc) {
    pc.UnlockPut? || pc.WaitTable? || pc.LockToMove? || pc.PostOven? || pc.PostWaiting? || pc.MovePizza?
  }

  /** From putting a pizza in until taking it out a chef owns its slot: the slot holds the chef's own
      pizza and no other baking chef has the same one. */
  lemma OvenSlotsOwned(c: Config, s: P.State, i: nat, k: nat)
    requires PosixReaches(c, s) && i < |s.chefs| && Bakes(s.chefs[i])
    ensures P.Shaped(c, s)
    ensures 0 <= s.data.ovenSlots[i] < c.ovenCapacity && IsPizza(s.data.kinds[i])
    ensures s.data.memory.oven[s.data.ovenSlots[i]] == s.data.kinds[i]
    ensures k < c.chefs && k != i && Bakes(s.chefs[k]) ==> s.data.ovenSlots[k] != s.data.ovenSlots[i]
  {
    var a := Abstraction(c, s);
    SlotsOfBakers(c, s, a, i, k);
  }

  lemma SlotsOfBakers(c: Config, s: P.State, a: V.State, i: nat, k: nat)
    requires P.Shaped(c, s) && i < c.chefs && Bakes(s.chefs[i]) && a.data == s.data && |a.chefs| == c.chefs
    requires V.SlotsOwned(a.chefs, s.data) && V.ChefsTyped(a.chefs, s.data)
    requires forall i :: 0 <= i < |a.chefs| ==> a.chefs[i] == AbsChef(s.chefs[i])
    ensures 0 <= s.data.ovenSlots[i] < c.ovenCapacity && IsPizza(s.data.kinds[i])
    ensures s.data.memory.oven[s.data.ovenSlots[i]] == s.data.kinds[i]
    ensures k < c.chefs && k != i && Bakes(s.chefs[k]) ==> s.data.ovenSlots[k] != s.data.ovenSlots[i]
  {
    assert V.Bakes(a.chefs[i]) && V.OwnsSlot(s.data, i);
  }

  /** The branch "the pizzeria burnt down" is not taken, and `find_empty_slot` finds an oven slot. */
  lemma OvenHasRoom(c: Config, s: P.State, i: nat)
    requires PosixReaches(c, s) && i < |s.chefs| && s.chefs[i].PutPizza?
    ensures s.data.memory.ovenCount < c.ovenCapacity && FirstEmptyFrom(s.data.memory.oven, 0) != -1
  {
    var a := Abstraction(c, s);
    V.PutSucceeds(c, a, i);
  }

  /** The branch "the table gave way" is not taken, and `find_empty_slot` finds a place on the table. */
  lemma TableHasRoom(c: Config, s: P.State, i: nat)
    requires PosixReaches(c, s) && i < |s.chefs| && s.chefs[i].MovePizza?
    ensures s.data.memory.tableCount < c.tableCapacity && FirstEmptyFrom(s.data.memory.table, 0) != -1
  {
    AccountsHold(c, s);
    ReachableShaped(c, s);
    CountsDecideSearch(s.data.memory.table);
    assert s.chefs[i] in multiset(s.chefs);
  }

  /** Hence no run ever takes a branch that "should never happen". */
  lemma NoFault(c: Config, s: P.State)
    requires PosixReaches(c, s)
    ensures !s.data.fault
  {
    ReachableAbsInv(c, s);
  }

  /** A deliverer with the lock finds a pizza, carries one until it hands it over, and what it hands
      over is a pizza. */
  lemma DeliverersFindPizzas(c: Config, s: P.State, j: nat)
    requires PosixReaches(c, s) && j < |s.deliverers|
    ensures P.Shaped(c, s)
    ensures s.deliverers[j].TakePizza? ==> FirstFilledFrom(s.data.memory.table, 0) != -1
    ensures s.deliverers[j].UnlockTake? || s.deliverers[j].WaitDelivery? || s.deliverers[j].GivePizza?
            <==> s.data.carried[j] != EMPTY_SLOT
    ensures s.data.carried[j] != EMPTY_SLOT ==> IsPizza(s.data.carried[j])
  {
    var a := Abstraction(c, s);
    assert a.deliverers[j] == AbsDeliverer(s.deliverers[j]);
    if s.deliverers[j].TakePizza? {
      V.TakeSucceeds(c, a, j);
    }
  }

  /** No two chefs are in a critical section at once, */
  lemma ChefsExclude(c: Config, s: P.State, i: nat, k: nat)
    requires PosixReaches(c, s) && i < k < |s.chefs|
    ensures !(ChefHoldsLock(s.chefs[i]) && ChefHoldsLock(s.chefs[k]))
  {
    AccountsHold(c, s);
    TwoOccurrences(s.chefs, i, k);
  }

  /** no two deliverers, */
  lemma DeliverersExclude(c: Config, s: P.State, j: nat, l: nat)
    requires PosixReaches(c, s) && j < l < |s.deliverers|
    ensures !(DelivererHoldsLock(s.deliverers[j]) && DelivererHoldsLock(s.deliverers[l]))
  {
    AccountsHold(c, s);
    TwoOccurrences(s.deliverers, j, l);
  }

  /** and no chef together with a deliverer. */
  lemma ChefAndDelivererExclude(c: Config, s: P.State, i: nat, j: nat)
    requires PosixReaches(c, s) && i < |s.chefs| && j < |s.deliverers|
    ensures !(ChefHoldsLock(s.chefs[i]) && DelivererHoldsLock(s.deliverers[j]))
  {
    AccountsHold(c, s);
    assert multiset(s.chefs)[s.chefs[i]] >= 1 && multiset(s.deliverers)[s.deliverers[j]] >= 1 by {
      assert s.chefs[i] in multiset(s.chefs) && s.deliverers[j] in multiset(s.deliverers);
    }
  }

  lemma TwoOccurrences<T>(xs: seq<T>, i: nat, k: nat)
    requires i < k < |xs|
    ensures multiset(xs)[xs[i]] >= 1 && multiset(xs)[xs[k]] >= 1
    ensures xs[i] == xs[k] ==> multiset(xs)[xs[i]] >= 2
  {
    assert xs == xs[..k] + [xs[k]] + xs[k + 1..];
    assert xs[i] == xs[..k][i] && xs[i] in multiset(xs[..k]);
  }

  // ---------------------------------------------------------------- progress

  /** The lock holder never blocks. */
  lemma ChefHolderNeverBlocks(c: Config, s: P.State, i: nat, kind: int)
    requires PosixReaches(c, s) && i < |s.chefs| && ChefHoldsLock(s.chefs[i])
    ensures P.Enabled(s, Chef(i, kind))
  {
    ReachableShaped(c, s);
  }

  /** A deliverer blocks neither as the lock holder nor when it finishes its delivery. */
  lemma DelivererHolderNeverBlocks(c: Config, s: P.State, j: nat)
    requires PosixReaches(c, s) && j < |s.deliverers|
    requires DelivererHoldsLock(s.deliverers[j]) || s.deliverers[j].WaitDelivery?
    ensures P.Enabled(s, Deliverer(j))
  {
    ReachableShaped(c, s);
    AccountsHold(c, s);
    HolderSteps(c, s, j);
  }

  lemma HolderSteps(c: Config, s: P.State, j: nat)
    requires P.Shaped(c, s) && Accounts(c, s) && j < c.deliverers
    requires DelivererHoldsLock(s.deliverers[j]) || s.deliverers[j].WaitDelivery?
    ensures P.Enabled(s, Deliverer(j))
  {
    assert s.deliverers[j] in multiset(s.deliverers);
  }

  /** With somebody in both trades and room for at least one pizza in both places, some process can
      always step. */
  lemma NoDeadlock(c: Config, s: P.State) returns (step: Step)
    requires c.chefs >= 1 && c.deliverers >= 1 && c.ovenCapacity >= 1 && c.tableCapacity >= 1
    requires PosixReaches(c, s)
    ensures P.Enabled(s, step)
  {
    ReachableShaped(c, s);
    AccountsHold(c, s);
    step := SomebodySteps(c, s);
  }

  lemma SomebodySteps(c: Config, s: P.State) returns (step: Step)
    requires c.chefs >= 1 && c.deliverers >= 1 && c.ovenCapacity >= 1 && c.tableCapacity >= 1
    requires P.Shaped(c, s) && Accounts(c, s)
    ensures P.Enabled(s, step)
  {
    if i :| 0 <= i < c.chefs && (ChefHoldsLock(s.chefs[i]) || s.chefs[i].Choosing?) {
      step := Chef(i, MIN_PIZZA_TYPE);
    } else if j :| 0 <= j < c.deliverers
                   && (DelivererHoldsLock(s.deliverers[j]) || s.deliverers[j].WaitDelivery?
                       || s.deliverers[j].GivePizza?) {
      step := Deliverer(j);
      if !s.deliverers[j].GivePizza? {
        HolderSteps(c, s, j);
      }
    } else {
      step := NobodyHoldsLock(c, s);
    }
  }

  /** Nobody holds the lock or is busy: everybody waits for the lock, a place or a pizza. */
  lemma NobodyHoldsLock(c: Config, s: P.State) returns (step: Step)
    requires c.chefs >= 1 && c.deliverers >= 1 && c.ovenCapacity >= 1 && c.tableCapacity >= 1
    requires P.Shaped(c, s) && Accounts(c, s)
    requires forall i :: 0 <= i < c.chefs ==>
               s.chefs[i].WaitOven? || s.chefs[i].LockToPut? || s.chefs[i].WaitTable? || s.chefs[i].LockToMove?
    requires forall j :: 0 <= j < c.deliverers ==> s.deliverers[j].WaitWaiting? || s.deliverers[j].LockToTake?
    ensures P.Enabled(s, step)
  {
    assert LockHolders(s) == 0 && s.sems.lock == 1;
    if i :| 0 <= i < c.chefs && (s.chefs[i].LockToPut? || s.chefs[i].LockToMove?) {
      step := Chef(i, MIN_PIZZA_TYPE);
    } else if j :| 0 <= j < c.deliverers && s.deliverers[j].LockToTake? {
      step := Deliverer(j);
    } else if s.sems.waiting > 0 {
      step := Deliverer(0);
    } else {
      assert s.deliverers[0].WaitWaiting?;
      assert s.sems.table == c.tableCapacity;
      step := Chef(0, MIN_PIZZA_TYPE);
      if s.chefs[0].WaitOven? && s.sems.oven == 0 {
        var i :| 0 <= i < c.chefs && s.chefs[i].WaitTable?;
        step := Chef(i, MIN_PIZZA_TYPE);
      }
    }
  }
}
