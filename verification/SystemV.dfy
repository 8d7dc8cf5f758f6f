/** Lab 7, zad1: the pizzeria over System V semaphores.  One `semop` call changes up to four
    semaphores in a single atomic step. */
module SystemV {
  import opened Options
  import opened Kitchen
  import opened Staff

  datatype ChefPc =
    | Preparing     // choose_pizza_type
    | WantsOven     // semop {lock -1, oven -1}
    | Placing       // critical section of put_pizza_in_oven
    | Placed        // semop {lock +1}
    | Baking        // semop {lock -1, oven +1, table -1, waiting +1}
    | Moving        // critical section of take_pizza_out_of_the_oven_and_put_on_the_table
    | Moved         // semop {lock +1}

  datatype DelivererPc =
    | WantsPizza    // semop {lock -1, table +1, waiting -1, delivery +1}
    | Taking        // critical section of get_pizza_from_the_table
    | Taken         // semop {lock +1}
    | Travelling    // semop {delivery -1}
    | Delivering    // end of finish_delivery

  datatype State = State(sems: Semaphores, data: Data, chefs: seq<ChefPc>, deliverers: seq<DelivererPc>)

  predicate Shaped(c: Config, s: State) {
    DataShaped(c, s.data) && |s.chefs| == c.chefs && |s.deliverers| == c.deliverers
  }

  function Init(c: Config): State {
    State(InitialSemaphores(c), InitialData(c), seq(c.chefs, _ => Preparing), seq(c.deliverers, _ => WantsPizza))
  }

  // ---------------------------------------------------------------- the programs

  function NextChef(pc: ChefPc): ChefPc {
    match pc
    case Preparing => WantsOven
    case WantsOven => Placing
    case Placing => Placed
    case Placed => Baking
    case Baking => Moving
    case Moving => Moved
    case Moved => Preparing
  }

  /** The operations of the semop call at a program point; no call names a semaphore twice. */
  function ChefCall(pc: ChefPc): Semaphores {
    match pc
    case WantsOven => Semaphores(-1, 0, 0, 0, -1)
    case Placed => Semaphores(0, 0, 0, 0, 1)
    case Baking => Semaphores(1, -1, 1, 0, -1)
    case Moved => Semaphores(0, 0, 0, 0, 1)
    case _ => Semaphores(0, 0, 0, 0, 0)
  }

  function ChefTask(pc: ChefPc): Work {
    match pc
    case Preparing => Choose
    case Placing => Put
    case Moving => Move
    case _ => Idle
  }

  function NextDeliverer(pc: DelivererPc): DelivererPc {
    match pc
    case WantsPizza => Taking
    case Taking => Taken
    case Taken => Travelling
    case Travelling => Delivering
    case Delivering => WantsPizza
  }

  function DelivererCall(pc: DelivererPc): Semaphores {
    match pc
    case WantsPizza => Semaphores(0, 1, -1, 1, -1)
    case Taken => Semaphores(0, 0, 0, 0, 1)
    case Travelling => Semaphores(0, 0, 0, -1, 0)
    case _ => Semaphores(0, 0, 0, 0, 0)
  }

  function DelivererTask(pc: DelivererPc): Work {
    match pc
    case Taking => Take
    case Delivering => HandOver
    case _ => Idle
  }

  // ---------------------------------------------------------------- steps and runs

  /** A call whose operations cannot all be carried out at once blocks and changes nothing. */
  predicate Enabled(s: State, step: Step) {
    match step
    case Chef(i, kind) =>
      && i < |s.chefs| == |s.data.kinds| == |s.data.ovenSlots|
      && s.sems.Plus(ChefCall(s.chefs[i])).NonNegative()
      && (s.chefs[i].Preparing? ==> IsPizza(kind))
    case Deliverer(j) =>
      && j < |s.deliverers| == |s.data.carried|
      && s.sems.Plus(DelivererCall(s.deliverers[j])).NonNegative()
  }

  function Apply(s: State, step: Step): State
    requires Enabled(s, step)
  {
    match step
    case Chef(i, kind) =>
      var pc := s.chefs[i];
      State(s.sems.Plus(ChefCall(pc)), ChefWork(s.data, i, ChefTask(pc), kind), s.chefs[i := NextChef(pc)],
            s.deliverers)
    case Deliverer(j) =>
      var pc := s.deliverers[j];
      State(s.sems.Plus(DelivererCall(pc)), DelivererWork(s.data, j, DelivererTask(pc)), s.chefs,
            s.deliverers[j := NextDeliverer(pc)])
  }

  /** The state after a schedule, or None when some step of it was blocked. */
  function Exec(s: State, steps: seq<Step>): Option<State>
    decreases |steps|
  {
    if steps == [] then Some(s)
    else
      var before := Exec(s, steps[..|steps| - 1]);
      var step := steps[|steps| - 1];
      if before.Some? && Enabled(before.value, step) then Some(Apply(before.value, step)) else None
  }

  // ---------------------------------------------------------------- accounting

  ghost function Chefs(s: State, pc: ChefPc): nat { multiset(s.chefs)[pc] }
  ghost function Deliverers(s: State, pc: DelivererPc): nat { multiset(s.deliverers)[pc] }

  /** How many processes hold the memory lock. */
  ghost function InSection(s: State): nat {
    Chefs(s, Placing) + Chefs(s, Placed) + Chefs(s, Moving) + Chefs(s, Moved)
    + Deliverers(s, Taking) + Deliverers(s, Taken)
  }

  ghost predicate SemaphoresAccount(c: Config, s: State) {
    && s.sems.NonNegative()
    && s.sems.lock + InSection(s) == 1
    && s.sems.oven + Chefs(s, Placing) + Chefs(s, Placed) + Chefs(s, Baking) == c.ovenCapacity
    && s.sems.table + s.sems.waiting == c.tableCapacity
    && s.sems.delivery == Deliverers(s, Taking) + Deliverers(s, Taken) + Deliverers(s, Travelling)
  }

  /** The counters of the memory against the program counters. */
  ghost predicate CountersAccount(s: State) {
    && s.data.memory.ovenCount == Chefs(s, Placed) + Chefs(s, Baking) + Chefs(s, Moving)
    && s.data.memory.tableCount == s.sems.waiting - Chefs(s, Moving) + Deliverers(s, Taking)
  }

  /** The counters of the memory against the slots. */
  ghost predicate SlotsAccount(m: Memory) {
    m.ovenCount == Filled(m.oven) && m.tableCount == Filled(m.table)
  }

  predicate Bakes(pc: ChefPc) { pc.Placed? || pc.Baking? || pc.Moving? }

  predicate Carries(pc: DelivererPc) { pc.Taken? || pc.Travelling? || pc.Delivering? }

  predicate OwnsSlot(d: Data, i: nat)
    requires i < |d.kinds| == |d.ovenSlots|
  {
    0 <= d.ovenSlots[i] < |d.memory.oven| && d.memory.oven[d.ovenSlots[i]] == d.kinds[i]
  }

  /** Every baking chef owns an oven slot holding its own pizza, no two the same slot. */
  ghost predicate SlotsOwned(chefs: seq<ChefPc>, d: Data)
    requires |chefs| == |d.kinds| == |d.ovenSlots|
  {
    && (forall i :: 0 <= i < |chefs| && Bakes(chefs[i]) ==> OwnsSlot(d, i))
    && (forall i, k :: 0 <= i < k < |chefs| && Bakes(chefs[i]) && Bakes(chefs[k]) ==>
                         d.ovenSlots[i] != d.ovenSlots[k])
  }

  /** Past the choice a chef has a pizza. */
  ghost predicate ChefsTyped(chefs: seq<ChefPc>, d: Data)
    requires |chefs| == |d.kinds|
  {
    forall i :: 0 <= i < |chefs| && !chefs[i].Preparing? ==> IsPizza(d.kinds[i])
  }

  /** The table holds nothing but pizzas; a deliverer carries one exactly from the table to the client. */
  ghost predicate DeliveriesTyped(deliverers: seq<DelivererPc>, d: Data)
    requires |deliverers| == |d.carried|
  {
    && (forall k :: 0 <= k < |d.memory.table| ==> d.memory.table[k] == EMPTY_SLOT || IsPizza(d.memory.table[k]))
    && (forall j :: 0 <= j < |deliverers| ==>
                      if Carries(deliverers[j]) then IsPizza(d.carried[j]) else d.carried[j] == EMPTY_SLOT)
  }

  /** Every pizza put in the oven is in the oven, on the table, on its way, or delivered. */
  ghost predicate Conserved(d: Data) {
    d.baked == Contents(d.memory.oven) + Contents(d.memory.table) + Contents(d.carried) + d.delivered
  }

  ghost predicate Inv(c: Config, s: State) {
    && Shaped(c, s)
    && !s.data.fault
    && SemaphoresAccount(c, s)
    && CountersAccount(s)
    && SlotsAccount(s.data.memory)
    && SlotsOwned(s.chefs, s.data)
    && ChefsTyped(s.chefs, s.data)
    && DeliveriesTyped(s.deliverers, s.data)
    && Conserved(s.data)
  }

  // ---------------------------------------------------------------- every step keeps the invariant

  lemma InitInv(c: Config)
    ensures Inv(c, Init(c))
  {
    var s := Init(c);
    assert forall x :: x in multiset(s.chefs) ==> x == Preparing;
    assert forall x :: x in multiset(s.deliverers) ==> x == WantsPizza;
    AllEmpty(c.ovenCapacity);
    AllEmpty(c.tableCapacity);
    AllEmpty(c.deliverers);
  }

  lemma {:induction false} AllEmpty(n: nat)
    ensures var s := seq(n, _ => EMPTY_SLOT); Contents(s) == multiset{} && Filled(s) == 0
  {
    if n > 0 {
      AllEmpty(n - 1);
      assert seq(n, _ => EMPTY_SLOT) == seq(n - 1, _ => EMPTY_SLOT) + [EMPTY_SLOT];
    }
  }

  lemma Recount<T>(xs: seq<T>, i: nat, x: T)
    requires i < |xs|
    ensures multiset(xs)[xs[i]] >= 1
    ensures forall p :: multiset(xs[i := x])[p]
                        == multiset(xs)[p] - (if xs[i] == p then 1 else 0) + (if x == p then 1 else 0)
  {
    assert xs[i] in multiset(xs);
    assert multiset(xs[i := x]) == multiset(xs) - multiset{xs[i]} + multiset{x};
  }

  /** What a step does to the memory counters, by the work it does. */
  function OvenGain(work: Work): int { if work.Put? then 1 else if work.Move? then -1 else 0 }
  function TableGain(work: Work): int { if work.Move? then 1 else if work.Take? then -1 else 0 }

  ghost predicate CountersMove(m: Memory, m': Memory, work: Work) {
    m'.ovenCount == m.ovenCount + OvenGain(work) && m'.tableCount == m.tableCount + TableGain(work)
  }

  /** What one replacement does to one count. */
  lemma CountAfter<T>(xs: seq<T>, i: nat, x: T, p: T)
    requires i < |xs|
    ensures multiset(xs[i := x])[p] == multiset(xs)[p] - (if xs[i] == p then 1 else 0) + (if x == p then 1 else 0)
  {
    Recount(xs, i, x);
  }

  predicate ChefInSection(pc: ChefPc) {
    pc.Placing? || pc.Placed? || pc.Moving? || pc.Moved?
  }

  predicate ChefHoldsOven(pc: ChefPc) {
    pc.Placing? || pc.Placed? || pc.Baking?
  }

  lemma ChefSections(s: State, s': State, i: nat)
    requires i < |s.chefs| && s'.deliverers == s.deliverers
    requires s'.chefs == s.chefs[i := NextChef(s.chefs[i])]
    ensures InSection(s') == InSection(s) - (if ChefInSection(s.chefs[i]) then 1 else 0)
                             + (if ChefInSection(NextChef(s.chefs[i])) then 1 else 0)
  {
    var x := NextChef(s.chefs[i]);
    CountAfter(s.chefs, i, x, Placing);
    CountAfter(s.chefs, i, x, Placed);
    CountAfter(s.chefs, i, x, Moving);
    CountAfter(s.chefs, i, x, Moved);
  }

  lemma ChefOvenPlaces(s: State, s': State, i: nat)
    requires i < |s.chefs| && s'.chefs == s.chefs[i := NextChef(s.chefs[i])]
    ensures Chefs(s', Placing) + Chefs(s', Placed) + Chefs(s', Baking)
         == Chefs(s, Placing) + Chefs(s, Placed) + Chefs(s, Baking) - (if ChefHoldsOven(s.chefs[i]) then 1 else 0)
            + (if ChefHoldsOven(NextChef(s.chefs[i])) then 1 else 0)
  {
    var x := NextChef(s.chefs[i]);
    CountAfter(s.chefs, i, x, Placing);
    CountAfter(s.chefs, i, x, Placed);
    CountAfter(s.chefs, i, x, Baking);
  }

  lemma ChefKeepsSemaphores(c: Config, s: State, s': State, i: nat)
    requires SemaphoresAccount(c, s) && i < |s.chefs|
    requires s'.chefs == s.chefs[i := NextChef(s.chefs[i])] && s'.deliverers == s.deliverers
    requires s'.sems == s.sems.Plus(ChefCall(s.chefs[i])) && s'.sems.NonNegative()
    ensures SemaphoresAccount(c, s')
  {
    ChefSections(s, s', i);
    ChefOvenPlaces(s, s', i);
  }

  lemma ChefKeepsCounters(s: State, s': State, i: nat)
    requires CountersAccount(s) && i < |s.chefs|
    requires s'.chefs == s.chefs[i := NextChef(s.chefs[i])] && s'.deliverers == s.deliverers
    requires s'.sems == s.sems.Plus(ChefCall(s.chefs[i]))
    requires CountersMove(s.data.memory, s'.data.memory, ChefTask(s.chefs[i]))
    ensures CountersAccount(s')
  {
    var x := NextChef(s.chefs[i]);
    CountAfter(s.chefs, i, x, Placed);
    CountAfter(s.chefs, i, x, Baking);
    CountAfter(s.chefs, i, x, Moving);
  }

  lemma DelivererKeepsSemaphores(c: Config, s: State, s': State, j: nat)
    requires SemaphoresAccount(c, s) && j < |s.deliverers|
    requires s'.deliverers == s.deliverers[j := NextDeliverer(s.deliverers[j])] && s'.chefs == s.chefs
    requires s'.sems == s.sems.Plus(DelivererCall(s.deliverers[j])) && s'.sems.NonNegative()
    ensures SemaphoresAccount(c, s')
  {
    var x := NextDeliverer(s.deliverers[j]);
    CountAfter(s.deliverers, j, x, Taking);
    CountAfter(s.deliverers, j, x, Taken);
    CountAfter(s.deliverers, j, x, Travelling);
  }

  lemma DelivererKeepsCounters(s: State, s': State, j: nat)
    requires CountersAccount(s) && j < |s.deliverers|
    requires s'.deliverers == s.deliverers[j := NextDeliverer(s.deliverers[j])] && s'.chefs == s.chefs
    requires s'.sems == s.sems.Plus(DelivererCall(s.deliverers[j]))
    requires CountersMove(s.data.memory, s'.data.memory, DelivererTask(s.deliverers[j]))
    ensures CountersAccount(s')
  {
    CountAfter(s.deliverers, j, NextDeliverer(s.deliverers[j]), Taking);
  }

  /** A chef about to place its pizza finds an empty oven slot. */
  lemma PutSucceeds(c: Config, s: State, i: nat)
    requires Inv(c, s) && i < c.chefs && s.chefs[i].Placing?
    ensures s.data.memory.ovenCount < |s.data.memory.oven|
    ensures FirstEmptyFrom(s.data.memory.oven, 0) != -1
  {
    CountsDecideSearch(s.data.memory.oven);
    Recount(s.chefs, i, Placed);
  }

  /** A chef about to move its pizza finds an empty place on the table. */
  lemma MoveSucceeds(c: Config, s: State, i: nat)
    requires Inv(c, s) && i < c.chefs && s.chefs[i].Moving?
    ensures s.data.memory.tableCount < |s.data.memory.table|
    ensures FirstEmptyFrom(s.data.memory.table, 0) != -1
    ensures OwnsSlot(s.data, i)
  {
    CountsDecideSearch(s.data.memory.table);
    Recount(s.chefs, i, Moved);
  }

  /** A deliverer always finds a pizza. */
  lemma TakeSucceeds(c: Config, s: State, j: nat)
    requires Inv(c, s) && j < c.deliverers && s.deliverers[j].Taking?
    ensures FirstFilledFrom(s.data.memory.table, 0) != -1
  {
    CountsDecideSearch(s.data.memory.table);
    Recount(s.deliverers, j, Taken);
  }

  // What the critical sections do to the counters and to the pizzas.

  lemma PutAccounts(d: Data, i: nat, kind: int, slot: nat)
    requires i < |d.kinds| == |d.ovenSlots| && IsPizza(d.kinds[i]) && SlotsAccount(d.memory) && Conserved(d)
    requires d.memory.ovenCount < |d.memory.oven| && slot == FirstEmptyFrom(d.memory.oven, 0)
    ensures var d' := ChefWork(d, i, Put, kind);
            && d' == d.(memory := d'.memory, ovenSlots := d.ovenSlots[i := slot],
                        baked := d.baked + multiset{d.kinds[i]})
            && d'.memory == d.memory.(oven := d.memory.oven[slot := d.kinds[i]], ovenCount := d.memory.ovenCount + 1)
            && SlotsAccount(d'.memory) && Conserved(d')
  {
    FillSlot(d.memory.oven, slot, d.kinds[i]);
  }

  /** A pizza that goes from one place to another is still there. */
  lemma PassOn(here: multiset<int>, there: multiset<int>, rest: multiset<int>, k: int)
    requires k in here
    ensures here + there + rest == (here - multiset{k}) + (there + multiset{k}) + rest
  {
  }

  lemma Regroup(a: multiset<int>, b: multiset<int>, c: multiset<int>, d: multiset<int>)
    ensures a + b + c + d == a + b + (c + d)
  {
  }

  lemma MoveWorks(d: Data, i: nat, kind: int, slot: nat)
    requires i < |d.kinds| == |d.ovenSlots| && OwnsSlot(d, i)
    requires d.memory.tableCount < |d.memory.table| && slot == FirstEmptyFrom(d.memory.table, 0)
    ensures ChefWork(d, i, Move, kind) ==
            d.(memory := Memory(d.memory.ovenCount - 1, d.memory.oven[d.ovenSlots[i] := EMPTY_SLOT],
                                d.memory.tableCount + 1, d.memory.table[slot := d.kinds[i]]))
  {
  }

  lemma MoveAccounts(d: Data, i: nat, kind: int, slot: nat)
    requires i < |d.kinds| == |d.ovenSlots| && IsPizza(d.kinds[i]) && SlotsAccount(d.memory) && Conserved(d)
    requires OwnsSlot(d, i)
    requires d.memory.tableCount < |d.memory.table| && slot == FirstEmptyFrom(d.memory.table, 0)
    ensures var d' := ChefWork(d, i, Move, kind);
            && d' == d.(memory := Memory(d.memory.ovenCount - 1, d.memory.oven[d.ovenSlots[i] := EMPTY_SLOT],
                                         d.memory.tableCount + 1, d.memory.table[slot := d.kinds[i]]))
            && SlotsAccount(d'.memory) && Conserved(d')
  {
    var k := d.kinds[i];
    MoveWorks(d, i, kind, slot);
    EmptySlot(d.memory.oven, d.ovenSlots[i]);
    FillSlot(d.memory.table, slot, k);
    PassOn(Contents(d.memory.oven), Contents(d.memory.table), Contents(d.carried) + d.delivered, k);
    Regroup(Contents(d.memory.oven), Contents(d.memory.table), Contents(d.carried), d.delivered);
    Regroup(Contents(d.memory.oven) - multiset{k}, Contents(d.memory.table) + multiset{k}, Contents(d.carried),
            d.delivered);
  }

  lemma TakeAccounts(d: Data, j: nat, slot: nat)
    requires j < |d.carried| && d.carried[j] == EMPTY_SLOT && SlotsAccount(d.memory) && Conserved(d)
    requires slot == FirstFilledFrom(d.memory.table, 0)
    ensures var d' := DelivererWork(d, j, Take);
            && d' == d.(memory := d'.memory, carried := d.carried[j := d.memory.table[slot]])
            && d'.memory == d.memory.(table := d.memory.table[slot := EMPTY_SLOT],
                                      tableCount := d.memory.tableCount - 1)
            && SlotsAccount(d'.memory) && Conserved(d')
  {
    EmptySlot(d.memory.table, slot);
    FillSlot(d.carried, j, d.memory.table[slot]);
  }

  lemma HandOverAccounts(d: Data, j: nat, work: Work)
    requires j < |d.carried| && Conserved(d) && !work.Take?
    ensures var d' := DelivererWork(d, j, work);
            && d' == d.(carried := d'.carried, delivered := d'.delivered)
            && d'.carried == (if work.HandOver? then d.carried[j := EMPTY_SLOT] else d.carried)
            && (work.HandOver? && d.carried[j] != EMPTY_SLOT ==> Conserved(d'))
            && (!work.HandOver? ==> d' == d)
  {
    if d.carried[j] != EMPTY_SLOT {
      EmptySlot(d.carried, j);
    }
  }

  // What the critical sections do to the ownership of oven slots.

  lemma PutOwns(chefs: seq<ChefPc>, d: Data, i: nat, slot: nat, d': Data)
    requires i < |chefs| == |d.kinds| == |d.ovenSlots| && SlotsOwned(chefs, d) && ChefsTyped(chefs, d)
    requires slot < |d.memory.oven| && d.memory.oven[slot] == EMPTY_SLOT
    requires d'.kinds == d.kinds && d'.ovenSlots == d.ovenSlots[i := slot]
    requires d'.memory.oven == d.memory.oven[slot := d.kinds[i]]
    ensures SlotsOwned(chefs[i := Placed], d')
  {
    forall k | 0 <= k < |chefs| && k != i && Bakes(chefs[k])
      ensures OwnsSlot(d', k) && d.ovenSlots[k] != slot
    {
      assert OwnsSlot(d, k);
    }
  }

  lemma MoveOwns(chefs: seq<ChefPc>, d: Data, i: nat, d': Data)
    requires i < |chefs| == |d.kinds| == |d.ovenSlots| && SlotsOwned(chefs, d) && Bakes(chefs[i])
    requires d'.kinds == d.kinds && d'.ovenSlots == d.ovenSlots
    requires OwnsSlot(d, i) && d'.memory.oven == d.memory.oven[d.ovenSlots[i] := EMPTY_SLOT]
    ensures SlotsOwned(chefs[i := Moved], d')
  {
    forall k | 0 <= k < |chefs| && k != i && Bakes(chefs[k])
      ensures OwnsSlot(d', k)
    {
      assert OwnsSlot(d, k) && d.ovenSlots[k] != d.ovenSlots[i];
    }
  }

  lemma PassOwns(chefs: seq<ChefPc>, d: Data, chefs': seq<ChefPc>, d': Data)
    requires |chefs'| == |chefs| == |d.kinds| == |d.ovenSlots| == |d'.kinds| && SlotsOwned(chefs, d)
    requires forall k :: 0 <= k < |chefs| && Bakes(chefs'[k]) ==> Bakes(chefs[k]) && d'.kinds[k] == d.kinds[k]
    requires d'.ovenSlots == d.ovenSlots && d'.memory.oven == d.memory.oven
    ensures SlotsOwned(chefs', d')
  {
    forall k | 0 <= k < |chefs| && Bakes(chefs'[k])
      ensures OwnsSlot(d', k)
    {
      assert OwnsSlot(d, k);
    }
  }

  /** The part of the invariant that speaks of pizzas. */
  ghost predicate PizzasOk(chefs: seq<ChefPc>, deliverers: seq<DelivererPc>, d: Data) {
    && |chefs| == |d.kinds| == |d.ovenSlots| && |deliverers| == |d.carried|
    && !d.fault
    && SlotsAccount(d.memory)
    && SlotsOwned(chefs, d)
    && ChefsTyped(chefs, d)
    && DeliveriesTyped(deliverers, d)
    && Conserved(d)
  }

  lemma PutKeepsPizzas(chefs: seq<ChefPc>, deliverers: seq<DelivererPc>, d: Data, i: nat, kind: int)
    requires PizzasOk(chefs, deliverers, d) && i < |chefs| && chefs[i].Placing?
    requires d.memory.ovenCount < |d.memory.oven| && FirstEmptyFrom(d.memory.oven, 0) != -1
    ensures var d' := ChefWork(d, i, Put, kind);
            && PizzasOk(chefs[i := Placed], deliverers, d') && CountersMove(d.memory, d'.memory, Put)
            && SameShape(d, d')
  {
    var slot := FirstEmptyFrom(d.memory.oven, 0);
    PutAccounts(d, i, kind, slot);
    PutOwns(chefs, d, i, slot, ChefWork(d, i, Put, kind));
  }

  predicate SameShape(d: Data, d': Data) {
    && |d'.memory.oven| == |d.memory.oven| && |d'.memory.table| == |d.memory.table|
    && |d'.kinds| == |d.kinds| && |d'.ovenSlots| == |d.ovenSlots| && |d'.carried| == |d.carried|
  }

  lemma MoveKeepsPizzas(chefs: seq<ChefPc>, deliverers: seq<DelivererPc>, d: Data, i: nat, kind: int)
    requires PizzasOk(chefs, deliverers, d) && i < |chefs| && chefs[i].Moving?
    requires d.memory.tableCount < |d.memory.table| && FirstEmptyFrom(d.memory.table, 0) != -1
    ensures var d' := ChefWork(d, i, Move, kind);
            && PizzasOk(chefs[i := Moved], deliverers, d') && CountersMove(d.memory, d'.memory, Move)
            && SameShape(d, d')
  {
    var slot := FirstEmptyFrom(d.memory.table, 0);
    assert OwnsSlot(d, i);
    MoveAccounts(d, i, kind, slot);
    MoveOwns(chefs, d, i, ChefWork(d, i, Move, kind));
    MoveKeepsTypes(deliverers, d, ChefWork(d, i, Move, kind), slot, d.kinds[i]);
  }

  lemma MoveKeepsTypes(deliverers: seq<DelivererPc>, d: Data, d': Data, slot: nat, k: int)
    requires |deliverers| == |d.carried| && DeliveriesTyped(deliverers, d) && IsPizza(k) && d'.carried == d.carried
    requires slot < |d.memory.table| && d'.memory.table == d.memory.table[slot := k]
    ensures DeliveriesTyped(deliverers, d')
  {
  }

  lemma ChefPassKeepsPizzas(chefs: seq<ChefPc>, deliverers: seq<DelivererPc>, d: Data, i: nat, kind: int)
    requires PizzasOk(chefs, deliverers, d) && i < |chefs| && !chefs[i].Placing? && !chefs[i].Moving?
    requires chefs[i].Preparing? ==> IsPizza(kind)
    ensures var d' := ChefWork(d, i, ChefTask(chefs[i]), kind);
            && PizzasOk(chefs[i := NextChef(chefs[i])], deliverers, d')
            && CountersMove(d.memory, d'.memory, ChefTask(chefs[i])) && SameShape(d, d')
  {
    PassOwns(chefs, d, chefs[i := NextChef(chefs[i])], ChefWork(d, i, ChefTask(chefs[i]), kind));
  }

  lemma TakeKeepsPizzas(chefs: seq<ChefPc>, deliverers: seq<DelivererPc>, d: Data, j: nat)
    requires PizzasOk(chefs, deliverers, d) && j < |deliverers| && deliverers[j].Taking?
    requires FirstFilledFrom(d.memory.table, 0) != -1
    ensures var d' := DelivererWork(d, j, Take);
            && PizzasOk(chefs, deliverers[j := Taken], d') && CountersMove(d.memory, d'.memory, Take)
            && SameShape(d, d')
  {
    TakeAccounts(d, j, FirstFilledFrom(d.memory.table, 0));
    PassOwns(chefs, d, chefs, DelivererWork(d, j, Take));
  }

  lemma DelivererPassKeepsPizzas(chefs: seq<ChefPc>, deliverers: seq<DelivererPc>, d: Data, j: nat)
    requires PizzasOk(chefs, deliverers, d) && j < |deliverers| && !deliverers[j].Taking?
    ensures var d' := DelivererWork(d, j, DelivererTask(deliverers[j]));
            && PizzasOk(chefs, deliverers[j := NextDeliverer(deliverers[j])], d')
            && CountersMove(d.memory, d'.memory, DelivererTask(deliverers[j])) && SameShape(d, d')
  {
    HandOverAccounts(d, j, DelivererTask(deliverers[j]));
    PassOwns(chefs, d, chefs, DelivererWork(d, j, DelivererTask(deliverers[j])));
  }

  lemma WorkKeepsPizzas(chefs: seq<ChefPc>, deliverers: seq<DelivererPc>, d: Data, i: nat, kind: int)
    requires PizzasOk(chefs, deliverers, d) && i < |chefs| && (chefs[i].Preparing? ==> IsPizza(kind))
    requires chefs[i].Placing? ==> d.memory.ovenCount < |d.memory.oven| && FirstEmptyFrom(d.memory.oven, 0) != -1
    requires chefs[i].Moving? ==> d.memory.tableCount < |d.memory.table| && FirstEmptyFrom(d.memory.table, 0) != -1
    ensures var d' := ChefWork(d, i, ChefTask(chefs[i]), kind);
            && PizzasOk(chefs[i := NextChef(chefs[i])], deliverers, d')
            && CountersMove(d.memory, d'.memory, ChefTask(chefs[i])) && SameShape(d, d')
  {
    if chefs[i].Placing? {
      PutKeepsPizzas(chefs, deliverers, d, i, kind);
    } else if chefs[i].Moving? {
      MoveKeepsPizzas(chefs, deliverers, d, i, kind);
    } else {
      ChefPassKeepsPizzas(chefs, deliverers, d, i, kind);
    }
  }

  lemma ChefKeepsPizzas(c: Config, s: State, i: nat, kind: int)
    requires Inv(c, s) && Enabled(s, Chef(i, kind))
    ensures var s' := Apply(s, Chef(i, kind));
            && PizzasOk(s'.chefs, s'.deliverers, s'.data) && SameShape(s.data, s'.data)
            && CountersMove(s.data.memory, s'.data.memory, ChefTask(s.chefs[i]))
  {
    if s.chefs[i].Placing? {
      PutSucceeds(c, s, i);
    }
    if s.chefs[i].Moving? {
      MoveSucceeds(c, s, i);
    }
    WorkKeepsPizzas(s.chefs, s.deliverers, s.data, i, kind);
  }

  lemma DelivererKeepsPizzas(c: Config, s: State, j: nat)
    requires Inv(c, s) && Enabled(s, Deliverer(j))
    ensures var s' := Apply(s, Deliverer(j));
            && PizzasOk(s'.chefs, s'.deliverers, s'.data) && SameShape(s.data, s'.data)
            && CountersMove(s.data.memory, s'.data.memory, DelivererTask(s.deliverers[j]))
  {
    assert PizzasOk(s.chefs, s.deliverers, s.data);
    if s.deliverers[j].Taking? {
      TakeSucceeds(c, s, j);
      TakeKeepsPizzas(s.chefs, s.deliverers, s.data, j);
    } else {
      DelivererPassKeepsPizzas(s.chefs, s.deliverers, s.data, j);
    }
  }

  lemma ChefKeepsInv(c: Config, s: State, i: nat, kind: int)
    requires Inv(c, s) && Enabled(s, Chef(i, kind))
    ensures Inv(c, Apply(s, Chef(i, kind)))
  {
    var s' := Apply(s, Chef(i, kind));
    ChefKeepsPizzas(c, s, i, kind);
    ChefKeepsSemaphores(c, s, s', i);
    ChefKeepsCounters(s, s', i);
  }

  lemma DelivererKeepsInv(c: Config, s: State, j: nat)
    requires Inv(c, s) && Enabled(s, Deliverer(j))
    ensures Inv(c, Apply(s, Deliverer(j)))
  {
    var s' := Apply(s, Deliverer(j));
    DelivererKeepsPizzas(c, s, j);
    DelivererKeepsSemaphores(c, s, s', j);
    DelivererKeepsCounters(s, s', j);
  }

  lemma StepKeepsInv(c: Config, s: State, step: Step)
    requires Inv(c, s) && Enabled(s, step)
    ensures Inv(c, Apply(s, step))
  {
    match step
    case Chef(i, kind) => ChefKeepsInv(c, s, i, kind);
    case Deliverer(j) => DelivererKeepsInv(c, s, j);
  }

  lemma {:induction false} ExecKeepsInv(c: Config, steps: seq<Step>)
    requires Exec(Init(c), steps).Some?
    ensures Inv(c, Exec(Init(c), steps).value)
    decreases |steps|
  {
    if steps == [] {
      InitInv(c);
    } else {
      ExecKeepsInv(c, steps[..|steps| - 1]);
      StepKeepsInv(c, Exec(Init(c), steps[..|steps| - 1]).value, steps[|steps| - 1]);
    }
  }
}
