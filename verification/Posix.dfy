/** Lab 7, zad2: the pizzeria over POSIX semaphores.  Every sem_wait and sem_post is a step of its own,
    so a process can be interrupted between any two of them. */
module Posix {
  import opened Options
  import opened Kitchen
  import opened Staff
  import V = SystemV

  datatype ChefPc =
    | Choosing        // choose_pizza_type
    | WaitOven        // sem_wait(available_places_in_oven)
    | LockToPut       // sem_wait(memory_lock)
    | PutPizza        // critical section
    | UnlockPut       // sem_post(memory_lock)
    | WaitTable       // sem_wait(available_places_on_the_table)
    | LockToMove      // sem_wait(memory_lock)
    | PostOven        // sem_post(available_places_in_oven)
    | PostWaiting     // sem_post(no_waiting_pizzas)
    | MovePizza       // critical section
    | UnlockMove      // sem_post(memory_lock)

  datatype DelivererPc =
    | WaitWaiting     // sem_wait(no_waiting_pizzas)
    | LockToTake      // sem_wait(memory_lock)
    | PostTable       // sem_post(available_places_on_the_table)
    | PostDelivery    // sem_post(no_pizzas_in_delivery)
    | TakePizza       // critical section
    | UnlockTake      // sem_post(memory_lock)
    | WaitDelivery    // sem_wait(no_pizzas_in_delivery)
    | GivePizza       // end of finish_delivery

  datatype State = State(sems: Semaphores, data: Data, chefs: seq<ChefPc>, deliverers: seq<DelivererPc>)

  function Init(c: Config): State {
    State(InitialSemaphores(c), InitialData(c), seq(c.chefs, _ => Choosing), seq(c.deliverers, _ => WaitWaiting))
  }

  predicate Shaped(c: Config, s: State) {
    DataShaped(c, s.data) && |s.chefs| == c.chefs && |s.deliverers| == c.deliverers
  }

  // ---------------------------------------------------------------- the programs

  function NextChef(pc: ChefPc): ChefPc {
    match pc
    case Choosing => WaitOven
    case WaitOven => LockToPut
    case LockToPut => PutPizza
    case PutPizza => UnlockPut
    case UnlockPut => WaitTable
    case WaitTable => LockToMove
    case LockToMove => PostOven
    case PostOven => PostWaiting
    case PostWaiting => MovePizza
    case MovePizza => UnlockMove
    case UnlockMove => Choosing
  }

  /** The change to the one semaphore named at a program point. */
  function ChefCall(pc: ChefPc): Semaphores {
    match pc
    case WaitOven => Semaphores(-1, 0, 0, 0, 0)
    case LockToPut => Semaphores(0, 0, 0, 0, -1)
    case UnlockPut => Semaphores(0, 0, 0, 0, 1)
    case WaitTable => Semaphores(0, -1, 0, 0, 0)
    case LockToMove => Semaphores(0, 0, 0, 0, -1)
    case PostOven => Semaphores(1, 0, 0, 0, 0)
    case PostWaiting => Semaphores(0, 0, 1, 0, 0)
    case UnlockMove => Semaphores(0, 0, 0, 0, 1)
    case _ => Semaphores(0, 0, 0, 0, 0)
  }

  function ChefTask(pc: ChefPc): Work {
    match pc
    case Choosing => Choose
    case PutPizza => Put
    case MovePizza => Move
    case _ => Idle
  }

  function NextDeliverer(pc: DelivererPc): DelivererPc {
    match pc
    case WaitWaiting => LockToTake
    case LockToTake => PostTable
    case PostTable => PostDelivery
    case PostDelivery => TakePizza
    case TakePizza => UnlockTake
    case UnlockTake => WaitDelivery
    case WaitDelivery => GivePizza
    case GivePizza => WaitWaiting
  }

  function DelivererCall(pc: DelivererPc): Semaphores {
    match pc
    case WaitWaiting => Semaphores(0, 0, -1, 0, 0)
    case LockToTake => Semaphores(0, 0, 0, 0, -1)
    case PostTable => Semaphores(0, 1, 0, 0, 0)
    case PostDelivery => Semaphores(0, 0, 0, 1, 0)
    case UnlockTake => Semaphores(0, 0, 0, 0, 1)
    case WaitDelivery => Semaphores(0, 0, 0, -1, 0)
    case _ => Semaphores(0, 0, 0, 0, 0)
  }

  function DelivererTask(pc: DelivererPc): Work {
    match pc
    case TakePizza => Take
    case GivePizza => HandOver
    case _ => Idle
  }

  // ---------------------------------------------------------------- steps and runs

  predicate Enabled(s: State, step: Step) {
    match step
    case Chef(i, kind) =>
      && i < |s.chefs| == |s.data.kinds| == |s.data.ovenSlots|
      && s.sems.Plus(ChefCall(s.chefs[i])).NonNegative()
      && (s.chefs[i].Choosing? ==> IsPizza(kind))
    case Deliverer(j) =>
      && j < |s.deliverers| == |s.data.carried|
      && s.sems.Plus(DelivererCall(s.deliverers[j])).NonNegative()
  }

  function Apply(s: State, step: Step): State
    requires Enabled(s, step)
  {
    match step
    case Chef(i, kind) =>
      var pc := s.chefs[i];
      State(s.sems.Plus(ChefCall(pc)), ChefWork(s.data, i, ChefTask(pc), kind), s.chefs[i := NextChef(pc)],
            s.deliverers)
    case Deliverer(j) =>
      var pc := s.deliverers[j];
      State(s.sems.Plus(DelivererCall(pc)), DelivererWork(s.data, j, DelivererTask(pc)), s.chefs,
            s.deliverers[j := NextDeliverer(pc)])
  }

  function Exec(s: State, steps: seq<Step>): Option<State>
    decreases |steps|
  {
    if steps == [] then Some(s)
    else
      var before := Exec(s, steps[..|steps| - 1]);
      var step := steps[|steps| - 1];
      if before.Some? && Enabled(before.value, step) then Some(Apply(before.value, step)) else None
  }
}
