/** Lab 7: the POSIX pizzeria and the System V pizzeria have the same runs, up to the steps in which
    a POSIX process takes a permit before the lock or posts one after it. */
module PosixRefinesSystemV {
  import opened Options
  import opened Kitchen
  import opened Staff
  import V = SystemV
  import P = Posix

  // ---------------------------------------------------------------- refinement mapping

  /** The System V step fires when the lock is acquired: a chef that holds a permit but not yet the
      lock is still waiting to call semop. */
  function AbsChef(pc: P.ChefPc): V.ChefPc {
    match pc
    case Choosing => V.Preparing
    case WaitOven => V.WantsOven
    case LockToPut => V.WantsOven
    case PutPizza => V.Placing
    case UnlockPut => V.Placed
    case WaitTable => V.Baking
    case LockToMove => V.Baking
    case PostOven => V.Moving
    case PostWaiting => V.Moving
    case MovePizza => V.Moving
    case UnlockMove => V.Moved
  }

  function AbsDeliverer(pc: P.DelivererPc): V.DelivererPc {
    match pc
    case WaitWaiting => V.WantsPizza
    case LockToTake => V.WantsPizza
    case PostTable => V.Taking
    case PostDelivery => V.Taking
    case TakePizza => V.Taking
    case UnlockTake => V.Taken
    case WaitDelivery => V.Travelling
    case GivePizza => V.Delivering
  }

  ghost function Chefs(s: P.State, pc: P.ChefPc): nat { multiset(s.chefs)[pc] }
  ghost function Deliverers(s: P.State, pc: P.DelivererPc): nat { multiset(s.deliverers)[pc] }

  /** Permits taken by a process that has not got the lock yet count as free; permits that the lock
      holder is about to post count as posted. */
  ghost function AbsSemaphores(s: P.State): Semaphores {
    Semaphores(
      s.sems.oven + Chefs(s, P.LockToPut) + Chefs(s, P.PostOven),
      s.sems.table + Chefs(s, P.LockToMove) + Deliverers(s, P.PostTable),
      s.sems.waiting + Deliverers(s, P.LockToTake) + Chefs(s, P.PostOven) + Chefs(s, P.PostWaiting),
      s.sems.delivery + Deliverers(s, P.PostTable) + Deliverers(s, P.PostDelivery),
      s.sems.lock)
  }

  ghost function AbsChefs(chefs: seq<P.ChefPc>): seq<V.ChefPc> {
    seq(|chefs|, i requires 0 <= i < |chefs| => AbsChef(chefs[i]))
  }

  ghost function AbsDeliverers(deliverers: seq<P.DelivererPc>): seq<V.DelivererPc> {
    seq(|deliverers|, j requires 0 <= j < |deliverers| => AbsDeliverer(deliverers[j]))
  }

  ghost function Abs(s: P.State): V.State {
    V.State(AbsSemaphores(s), s.data, AbsChefs(s.chefs), AbsDeliverers(s.deliverers))
  }

  /** Steps with no System V counterpart: taking a permit before the lock, posting one after it. */
  predicate SilentChef(pc: P.ChefPc) {
    pc.WaitOven? || pc.WaitTable? || pc.PostOven? || pc.PostWaiting?
  }

  predicate SilentDeliverer(pc: P.DelivererPc) {
    pc.WaitWaiting? || pc.PostTable? || pc.PostDelivery?
  }

  predicate Silent(s: P.State, step: Step)
    requires P.Enabled(s, step)
  {
    match step
    case Chef(i, _) => SilentChef(s.chefs[i])
    case Deliverer(j) => SilentDeliverer(s.deliverers[j])
  }

  // ---------------------------------------------------------------- one step

  lemma AbsChefSemaphores(s: P.State, s': P.State, i: nat)
    requires i < |s.chefs|
    requires s'.chefs == s.chefs[i := P.NextChef(s.chefs[i])] && s'.deliverers == s.deliverers
    requires s'.sems == s.sems.Plus(P.ChefCall(s.chefs[i]))
    ensures AbsSemaphores(s') == if SilentChef(s.chefs[i]) then AbsSemaphores(s)
                                 else AbsSemaphores(s).Plus(V.ChefCall(AbsChef(s.chefs[i])))
  {
    var x := P.NextChef(s.chefs[i]);
    V.CountAfter(s.chefs, i, x, P.LockToPut);
    V.CountAfter(s.chefs, i, x, P.LockToMove);
    V.CountAfter(s.chefs, i, x, P.PostOven);
    V.CountAfter(s.chefs, i, x, P.PostWaiting);
  }

  lemma AbsDelivererSemaphores(s: P.State, s': P.State, j: nat)
    requires j < |s.deliverers|
    requires s'.deliverers == s.deliverers[j := P.NextDeliverer(s.deliverers[j])] && s'.chefs == s.chefs
    requires s'.sems == s.sems.Plus(P.DelivererCall(s.deliverers[j]))
    ensures AbsSemaphores(s') == if SilentDeliverer(s.deliverers[j]) then AbsSemaphores(s)
                                 else AbsSemaphores(s).Plus(V.DelivererCall(AbsDeliverer(s.deliverers[j])))
  {
    var x := P.NextDeliverer(s.deliverers[j]);
    V.CountAfter(s.deliverers, j, x, P.LockToTake);
    V.CountAfter(s.deliverers, j, x, P.PostTable);
    V.CountAfter(s.deliverers, j, x, P.PostDelivery);
  }

  /** The two programs agree: a silent point stays at the same abstract point and does no work, every
      other point does the work of its abstract point and moves on with it. */
  lemma ProgramsAgree(pc: P.ChefPc, dpc: P.DelivererPc)
    ensures AbsChef(P.NextChef(pc)) == if SilentChef(pc) then AbsChef(pc) else V.NextChef(AbsChef(pc))
    ensures P.ChefTask(pc) == if SilentChef(pc) then Idle else V.ChefTask(AbsChef(pc))
    ensures pc.Choosing? <==> AbsChef(pc).Preparing?
    ensures AbsDeliverer(P.NextDeliverer(dpc))
         == if SilentDeliverer(dpc) then AbsDeliverer(dpc) else V.NextDeliverer(AbsDeliverer(dpc))
    ensures P.DelivererTask(dpc) == if SilentDeliverer(dpc) then Idle else V.DelivererTask(AbsDeliverer(dpc))
  {
  }

  lemma ChefRefines(s: P.State, i: nat, kind: int)
    requires P.Enabled(s, Chef(i, kind))
    ensures var s' := P.Apply(s, Chef(i, kind));
            && s'.sems.NonNegative()
            && AbsSemaphores(s') == (if SilentChef(s.chefs[i]) then AbsSemaphores(s)
                                     else AbsSemaphores(s).Plus(V.ChefCall(AbsChef(s.chefs[i]))))
            && s'.data == (if SilentChef(s.chefs[i]) then s.data
                           else ChefWork(s.data, i, V.ChefTask(AbsChef(s.chefs[i])), kind))
            && AbsChefs(s'.chefs) == (if SilentChef(s.chefs[i]) then AbsChefs(s.chefs)
                                      else AbsChefs(s.chefs)[i := V.NextChef(AbsChef(s.chefs[i]))])
            && s'.deliverers == s.deliverers
  {
    var s' := P.Apply(s, Chef(i, kind));
    ProgramsAgree(s.chefs[i], P.WaitWaiting);
    AbsChefSemaphores(s, s', i);
    assert AbsChefs(s'.chefs) == AbsChefs(s.chefs)[i := AbsChef(P.NextChef(s.chefs[i]))];
    assert AbsChefs(s.chefs) == AbsChefs(s.chefs)[i := AbsChef(s.chefs[i])];
  }

  lemma DelivererRefines(s: P.State, j: nat)
    requires P.Enabled(s, Deliverer(j))
    ensures var s' := P.Apply(s, Deliverer(j));
            && s'.sems.NonNegative()
            && AbsSemaphores(s') == (if SilentDeliverer(s.deliverers[j]) then AbsSemaphores(s)
                                     else AbsSemaphores(s).Plus(V.DelivererCall(AbsDeliverer(s.deliverers[j]))))
            && s'.data == (if SilentDeliverer(s.deliverers[j]) then s.data
                           else DelivererWork(s.data, j, V.DelivererTask(AbsDeliverer(s.deliverers[j]))))
            && AbsDeliverers(s'.deliverers) ==
               (if SilentDeliverer(s.deliverers[j]) then AbsDeliverers(s.deliverers)
                else AbsDeliverers(s.deliverers)[j := V.NextDeliverer(AbsDeliverer(s.deliverers[j]))])
            && s'.chefs == s.chefs
  {
    var s' := P.Apply(s, Deliverer(j));
    ProgramsAgree(P.Choosing, s.deliverers[j]);
    AbsDelivererSemaphores(s, s', j);
    assert AbsDeliverers(s'.deliverers)
        == AbsDeliverers(s.deliverers)[j := AbsDeliverer(P.NextDeliverer(s.deliverers[j]))];
    assert AbsDeliverers(s.deliverers) == AbsDeliverers(s.deliverers)[j := AbsDeliverer(s.deliverers[j])];
  }

  /** A silent step changes nothing in the abstract state; every other step is the System V step of the
      same process. */
  lemma StepRefines(s: P.State, step: Step)
    requires P.Enabled(s, step)
    ensures if Silent(s, step) then Abs(P.Apply(s, step)) == Abs(s)
            else V.Enabled(Abs(s), step) && V.Apply(Abs(s), step) == Abs(P.Apply(s, step))
  {
    match step
    case Chef(i, kind) =>
      ChefRefines(s, i, kind);
      ProgramsAgree(s.chefs[i], P.WaitWaiting);
    case Deliverer(j) =>
      DelivererRefines(s, j);
      ProgramsAgree(P.Choosing, s.deliverers[j]);
  }

  // ---------------------------------------------------------------- whole runs

  /** The schedule without its silent steps. */
  function Visible(s: P.State, steps: seq<Step>): seq<Step>
    requires P.Exec(s, steps).Some?
    decreases |steps|
  {
    if steps == [] then []
    else
      var front := steps[..|steps| - 1];
      var step := steps[|steps| - 1];
      if Silent(P.Exec(s, front).value, step) then Visible(s, front) else Visible(s, front) + [step]
  }

  lemma AbsInit(c: Config)
    ensures Abs(P.Init(c)) == V.Init(c)
  {
    var s := P.Init(c);
    assert forall pc :: pc in multiset(s.chefs) ==> pc == P.Choosing;
    assert forall pc :: pc in multiset(s.deliverers) ==> pc == P.WaitWaiting;
    assert AbsChefs(s.chefs) == V.Init(c).chefs;
    assert AbsDeliverers(s.deliverers) == V.Init(c).deliverers;
  }

  /** Every run of the POSIX pizzeria is a run of the System V pizzeria: leave out the silent steps. */
  lemma {:induction false} RunRefines(c: Config, steps: seq<Step>)
    requires P.Exec(P.Init(c), steps).Some?
    ensures V.Exec(V.Init(c), Visible(P.Init(c), steps)) == Some(Abs(P.Exec(P.Init(c), steps).value))
    decreases |steps|
  {
    if steps == [] {
      AbsInit(c);
    } else {
      var front, step := steps[..|steps| - 1], steps[|steps| - 1];
      RunRefines(c, front);
      StepRefines(P.Exec(P.Init(c), front).value, step);
      if !Silent(P.Exec(P.Init(c), front).value, step) {
        var visible := Visible(P.Init(c), steps);
        assert visible[..|visible| - 1] == Visible(P.Init(c), front);
      }
    }
  }

  // ---------------------------------------------------------------- and back

  function ConcChef(pc: V.ChefPc): P.ChefPc {
    match pc
    case Preparing => P.Choosing
    case WantsOven => P.WaitOven
    case Placing => P.PutPizza
    case Placed => P.UnlockPut
    case Baking => P.WaitTable
    case Moving => P.MovePizza
    case Moved => P.UnlockMove
  }

  function ConcDeliverer(pc: V.DelivererPc): P.DelivererPc {
    match pc
    case WantsPizza => P.WaitWaiting
    case Taking => P.TakePizza
    case Taken => P.UnlockTake
    case Travelling => P.WaitDelivery
    case Delivering => P.GivePizza
  }

  /** The POSIX state in which no process is between two operations of one semop call. */
  ghost function Conc(s: V.State): P.State {
    P.State(s.sems, s.data,
            seq(|s.chefs|, i requires 0 <= i < |s.chefs| => ConcChef(s.chefs[i])),
            seq(|s.deliverers|, j requires 0 <= j < |s.deliverers| => ConcDeliverer(s.deliverers[j])))
  }

  lemma AbsConc(s: V.State)
    ensures Abs(Conc(s)) == s
  {
    var p := Conc(s);
    assert forall pc :: pc in multiset(p.chefs) ==>
        pc != P.LockToPut && pc != P.LockToMove && pc != P.PostOven && pc != P.PostWaiting;
    assert forall pc :: pc in multiset(p.deliverers) ==>
        pc != P.LockToTake && pc != P.PostTable && pc != P.PostDelivery;
    assert AbsChefs(p.chefs) == s.chefs && AbsDeliverers(p.deliverers) == s.deliverers;
  }

  ghost predicate Link(p: P.State, step: Step, p': P.State) {
    P.Enabled(p, step) && P.Apply(p, step) == p'
  }

  /** One more step at the end of a run. */
  lemma Extend(c: Config, steps: seq<Step>, p: P.State, step: Step, p': P.State)
    requires P.Exec(P.Init(c), steps) == Some(p) && Link(p, step, p')
    ensures P.Exec(P.Init(c), steps + [step]) == Some(p')
  {
    assert (steps + [step])[..|steps|] == steps;
  }

  /** Where one semop call is one POSIX operation, or none is made. */
  lemma SingleRealised(s: V.State, step: Step)
    requires V.Enabled(s, step)
    requires step.Chef? ==> !s.chefs[step.i].WantsOven? && !s.chefs[step.i].Baking?
    requires step.Deliverer? ==> !s.deliverers[step.j].WantsPizza?
    ensures Link(Conc(s), step, Conc(V.Apply(s, step)))
  {
    var p, p' := P.Apply(Conc(s), step), Conc(V.Apply(s, step));
    assert p.chefs == p'.chefs && p.deliverers == p'.deliverers;
  }

  /** wait(oven); wait(lock) for semop {lock -1, oven -1}. */
  lemma PutRealised(s: V.State, i: nat, kind: int) returns (p1: P.State)
    requires s.sems.NonNegative() && V.Enabled(s, Chef(i, kind)) && s.chefs[i].WantsOven?
    ensures Link(Conc(s), Chef(i, kind), p1)
    ensures Link(p1, Chef(i, kind), Conc(V.Apply(s, Chef(i, kind))))
  {
    p1 := P.Apply(Conc(s), Chef(i, kind));
    assert P.Apply(p1, Chef(i, kind)).chefs == Conc(V.Apply(s, Chef(i, kind))).chefs;
  }

  /** wait(table); wait(lock); post(oven); post(waiting) for
      semop {lock -1, oven +1, table -1, waiting +1}. */
  lemma MoveRealised(s: V.State, i: nat, kind: int) returns (p1: P.State, p2: P.State, p3: P.State)
    requires s.sems.NonNegative() && V.Enabled(s, Chef(i, kind)) && s.chefs[i].Baking?
    ensures Link(Conc(s), Chef(i, kind), p1) && Link(p1, Chef(i, kind), p2) && Link(p2, Chef(i, kind), p3)
    ensures Link(p3, Chef(i, kind), Conc(V.Apply(s, Chef(i, kind))))
  {
    p1 := P.Apply(Conc(s), Chef(i, kind));
    p2 := P.Apply(p1, Chef(i, kind));
    p3 := P.Apply(p2, Chef(i, kind));
    assert P.Apply(p3, Chef(i, kind)).chefs == Conc(V.Apply(s, Chef(i, kind))).chefs;
  }

  /** wait(waiting); wait(lock); post(table); post(delivery) for
      semop {lock -1, table +1, waiting -1, delivery +1}. */
  lemma TakeRealised(s: V.State, j: nat) returns (p1: P.State, p2: P.State, p3: P.State)
    requires s.sems.NonNegative() && V.Enabled(s, Deliverer(j)) && s.deliverers[j].WantsPizza?
    ensures Link(Conc(s), Deliverer(j), p1) && Link(p1, Deliverer(j), p2) && Link(p2, Deliverer(j), p3)
    ensures Link(p3, Deliverer(j), Conc(V.Apply(s, Deliverer(j))))
  {
    p1 := P.Apply(Conc(s), Deliverer(j));
    p2 := P.Apply(p1, Deliverer(j));
    p3 := P.Apply(p2, Deliverer(j));
    assert P.Apply(p3, Deliverer(j)).deliverers == Conc(V.Apply(s, Deliverer(j))).deliverers;
  }

  lemma ExtendFour(c: Config, steps: seq<Step>, p0: P.State, step: Step,
                   p1: P.State, p2: P.State, p3: P.State, p4: P.State)
    requires P.Exec(P.Init(c), steps) == Some(p0)
    requires Link(p0, step, p1) && Link(p1, step, p2) && Link(p2, step, p3) && Link(p3, step, p4)
    ensures P.Exec(P.Init(c), steps + [step] + [step] + [step] + [step]) == Some(p4)
  {
    Extend(c, steps, p0, step, p1);
    Extend(c, steps + [step], p1, step, p2);
    Extend(c, steps + [step] + [step], p2, step, p3);
    Extend(c, steps + [step] + [step] + [step], p3, step, p4);
  }

  /** The POSIX steps for one System V step. */
  lemma StepRealised(c: Config, steps: seq<Step>, s: V.State, step: Step) returns (more: seq<Step>)
    requires P.Exec(P.Init(c), steps) == Some(Conc(s)) && s.sems.NonNegative() && V.Enabled(s, step)
    ensures P.Exec(P.Init(c), more) == Some(Conc(V.Apply(s, step)))
  {
    var p := Conc(s);
    var p' := Conc(V.Apply(s, step));
    if step.Chef? && s.chefs[step.i].WantsOven? {
      var p1 := PutRealised(s, step.i, step.kind);
      Extend(c, steps, p, step, p1);
      Extend(c, steps + [step], p1, step, p');
      more := steps + [step] + [step];
    } else if step.Chef? && s.chefs[step.i].Baking? {
      var p1, p2, p3 := MoveRealised(s, step.i, step.kind);
      ExtendFour(c, steps, p, step, p1, p2, p3, p');
      more := steps + [step] + [step] + [step] + [step];
    } else if step.Deliverer? && s.deliverers[step.j].WantsPizza? {
      var p1, p2, p3 := TakeRealised(s, step.j);
      ExtendFour(c, steps, p, step, p1, p2, p3, p');
      more := steps + [step] + [step] + [step] + [step];
    } else {
      SingleRealised(s, step);
      Extend(c, steps, p, step, p');
      more := steps + [step];
    }
  }

  /** Every run of the System V pizzeria is what some run of the POSIX pizzeria looks like. */
  lemma {:induction false} RunRealised(c: Config, steps: seq<Step>) returns (more: seq<Step>)
    requires V.Exec(V.Init(c), steps).Some?
    ensures P.Exec(P.Init(c), more) == Some(Conc(V.Exec(V.Init(c), steps).value))
    decreases |steps|
  {
    if steps == [] {
      more := [];
      assert Conc(V.Init(c)) == P.Init(c);
    } else {
      var front, step := steps[..|steps| - 1], steps[|steps| - 1];
      var s := V.Exec(V.Init(c), front).value;
      V.ExecKeepsInv(c, front);
      more := RunRealised(c, front);
      more := StepRealised(c, more, s, step);
    }
  }

  ghost predicate SystemVReaches(c: Config, s: V.State) {
    exists steps :: V.Exec(V.Init(c), steps) == Some(s)
  }

  ghost predicate PosixReaches(c: Config, p: P.State) {
    exists steps :: P.Exec(P.Init(c), steps) == Some(p)
  }

  /** The two pizzerias reach the same states, seen through the mapping. */
  lemma SameReachableStates(c: Config, s: V.State)
    ensures SystemVReaches(c, s) <==> exists p :: PosixReaches(c, p) && Abs(p) == s
  {
    if SystemVReaches(c, s) {
      var steps :| V.Exec(V.Init(c), steps) == Some(s);
      var more := RunRealised(c, steps);
      AbsConc(s);
      assert PosixReaches(c, Conc(s)) && Abs(Conc(s)) == s;
    }
    if p :| PosixReaches(c, p) && Abs(p) == s {
      var steps :| P.Exec(P.Init(c), steps) == Some(p);
      RunRefines(c, steps);
    }
  }
}
