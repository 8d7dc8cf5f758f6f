/** Lab 7, what both versions of the pizzeria share: the five semaphores, the data the processes keep,
    and the effect of the code between the semaphore operations on that data. */
module Staff {
  import opened Kitchen

  datatype Config = Config(ovenCapacity: nat, tableCapacity: nat, chefs: nat, deliverers: nat)

  /** Semaphore values; also the change that one call asks for. */
  datatype Semaphores = Semaphores(oven: int, table: int, waiting: int, delivery: int, lock: int) {
    function Plus(change: Semaphores): Semaphores {
      Semaphores(oven + change.oven, table + change.table, waiting + change.waiting,
                 delivery + change.delivery, lock + change.lock)
    }

    predicate NonNegative() {
      oven >= 0 && table >= 0 && waiting >= 0 && delivery >= 0 && lock >= 0
    }
  }

  /** Initial values: free places equal the capacities, the lock is open. */
  function InitialSemaphores(c: Config): Semaphores {
    Semaphores(c.ovenCapacity, c.tableCapacity, 0, 0, 1)
  }

  /** Everything but semaphores and program counters: the shared memory, each chef's pizza type and
      oven slot, each deliverer's pizza.  `baked` and `delivered` record the history of the run; `fault`
      is set by a branch the program treats as impossible. */
  datatype Data = Data(
    memory: Memory,
    kinds: seq<int>,
    ovenSlots: seq<int>,
    carried: seq<int>,
    baked: multiset<int>,
    delivered: multiset<int>,
    fault: bool)

  predicate DataShaped(c: Config, d: Data) {
    && |d.kinds| == |d.ovenSlots| == c.chefs
    && |d.carried| == c.deliverers
    && |d.memory.oven| == c.ovenCapacity
    && |d.memory.table| == c.tableCapacity
  }

  function InitialData(c: Config): Data {
    Data(InitialMemory(c.ovenCapacity, c.tableCapacity),
         seq(c.chefs, _ => EMPTY_SLOT), seq(c.chefs, _ => EMPTY_SLOT), seq(c.deliverers, _ => EMPTY_SLOT),
         multiset{}, multiset{}, false)
  }

  /** One scheduling decision; `kind` is the type a chef draws when it is about to prepare a pizza. */
  datatype Step = Chef(i: nat, kind: int) | Deliverer(j: nat)

  /** The code a process runs between two semaphore operations. */
  datatype Work = Idle | Choose | Put | Move | Take | HandOver

  function ChefWork(d: Data, i: nat, work: Work, kind: int): Data
    requires i < |d.kinds| == |d.ovenSlots|
  {
    match work
    case Choose => d.(kinds := d.kinds[i := kind])
    case Put =>
      (match PutInOven(d.memory, d.kinds[i])
       case Broken(_) => d.(fault := true)
       case Ok((m, slot)) =>
         d.(memory := m, ovenSlots := d.ovenSlots[i := slot], baked := d.baked + multiset{d.kinds[i]}))
    case Move =>
      (match MoveToTable(d.memory, d.ovenSlots[i])
       case Broken(_) => d.(fault := true)
       case Ok(m) => d.(memory := m))
    case _ => d
  }

  function DelivererWork(d: Data, j: nat, work: Work): Data
    requires j < |d.carried|
  {
    match work
    case Take =>
      var r := TakeFromTable(d.memory, d.carried[j]);
      d.(memory := r.0, carried := d.carried[j := r.1])
    case HandOver =>
      d.(carried := d.carried[j := EMPTY_SLOT], delivered := d.delivered + multiset{d.carried[j]})
    case _ => d
  }
}
