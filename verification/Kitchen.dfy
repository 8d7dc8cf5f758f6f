/** Lab 7, the memory of the pizzeria: an oven and a table of fixed size, shared by all chefs and
    deliverers.  The class updates it in place as the C code does; the functions on `Memory` values
    say what each update computes, and the step systems of `SystemV` and `Posix` are built on them. */
module Kitchen {

  const EMPTY_SLOT := -1
  const MIN_PIZZA_TYPE := 0
  const MAX_PIZZA_TYPE := 9

  predicate IsPizza(kind: int) {
    MIN_PIZZA_TYPE <= kind < MAX_PIZZA_TYPE
  }

  /** What `randint` makes of a random number. */
  function RandInt(a: int, b: int, random: nat): int
    requires a < b
  {
    a + random % (b - a)
  }

  /** The types that chefs draw: never MAX_PIZZA_TYPE itself. */
  lemma DrawnTypes(kind: int)
    ensures IsPizza(kind) <==> exists random: nat :: kind == RandInt(MIN_PIZZA_TYPE, MAX_PIZZA_TYPE, random)
    ensures !IsPizza(MAX_PIZZA_TYPE)
  {
    if IsPizza(kind) {
      assert kind == RandInt(MIN_PIZZA_TYPE, MAX_PIZZA_TYPE, kind - MIN_PIZZA_TYPE);
    }
  }

  datatype Memory = Memory(ovenCount: int, oven: seq<int>, tableCount: int, table: seq<int>)

  /** The branches the program treats as impossible, and a slot index outside its array. */
  datatype Fault = OvenBurnt | TableCollapsed | BadSlot

  datatype Result<T> = Ok(value: T) | Broken(fault: Fault)

  // ---------------------------------------------------------------- slots

  /** The pizzas lying in the slots. */
  function Contents(slots: seq<int>): multiset<int> {
    multiset(slots)[EMPTY_SLOT := 0]
  }

  function Filled(slots: seq<int>): int {
    |slots| - multiset(slots)[EMPTY_SLOT]
  }

  function FirstEmptyFrom(slots: seq<int>, i: nat): (r: int)
    requires i <= |slots|
    requires forall k :: 0 <= k < i ==> slots[k] != EMPTY_SLOT
    ensures -1 <= r < |slots|
    ensures r >= 0 ==> slots[r] == EMPTY_SLOT && forall k :: 0 <= k < r ==> slots[k] != EMPTY_SLOT
    ensures r == -1 <==> EMPTY_SLOT !in slots
    decreases |slots| - i
  {
    if i == |slots| then -1
    else if slots[i] == EMPTY_SLOT then i
    else FirstEmptyFrom(slots, i + 1)
  }

  function FirstFilledFrom(slots: seq<int>, i: nat): (r: int)
    requires i <= |slots|
    requires forall k :: 0 <= k < i ==> slots[k] == EMPTY_SLOT
    ensures -1 <= r < |slots|
    ensures r >= 0 ==> slots[r] != EMPTY_SLOT && forall k :: 0 <= k < r ==> slots[k] == EMPTY_SLOT
    ensures r == -1 <==> forall k :: 0 <= k < |slots| ==> slots[k] == EMPTY_SLOT
    decreases |slots| - i
  {
    if i == |slots| then -1
    else if slots[i] != EMPTY_SLOT then i
    else FirstFilledFrom(slots, i + 1)
  }

  /** Writing one slot changes the contents by exactly that slot. */
  lemma WriteSlot(slots: seq<int>, i: nat, x: int)
    requires i < |slots|
    ensures Contents(slots[i := x]) + Contents([slots[i]]) == Contents(slots) + Contents([x])
    ensures Filled(slots[i := x]) + Filled([slots[i]]) == Filled(slots) + Filled([x])
  {
    assert multiset(slots[i := x]) + multiset{slots[i]} == multiset(slots) + multiset{x};
    assert multiset([slots[i]]) == multiset{slots[i]} && multiset([x]) == multiset{x};
  }

  lemma FillSlot(slots: seq<int>, i: nat, x: int)
    requires i < |slots| && slots[i] == EMPTY_SLOT && x != EMPTY_SLOT
    ensures Contents(slots[i := x]) == Contents(slots) + multiset{x}
    ensures Filled(slots[i := x]) == Filled(slots) + 1
  {
    WriteSlot(slots, i, x);
    OneSlot(x);
    OneSlot(EMPTY_SLOT);
  }

  lemma EmptySlot(slots: seq<int>, i: nat)
    requires i < |slots| && slots[i] != EMPTY_SLOT
    ensures slots[i] in Contents(slots)
    ensures Contents(slots[i := EMPTY_SLOT]) == Contents(slots) - multiset{slots[i]}
    ensures Filled(slots[i := EMPTY_SLOT]) == Filled(slots) - 1
  {
    WriteSlot(slots, i, EMPTY_SLOT);
    OneSlot(slots[i]);
    OneSlot(EMPTY_SLOT);
  }

  lemma OneSlot(x: int)
    ensures Contents([x]) == if x == EMPTY_SLOT then multiset{} else multiset{x}
    ensures Filled([x]) == if x == EMPTY_SLOT then 0 else 1
  {
    assert multiset([x]) == multiset{x};
  }

  /** The counting argument behind both slot searches: a search that the counters promise to succeed
      succeeds. */
  lemma {:induction false} CountsDecideSearch(slots: seq<int>)
    ensures 0 <= Filled(slots) <= |slots|
    ensures Filled(slots) < |slots| <==> FirstEmptyFrom(slots, 0) != -1
    ensures Filled(slots) > 0 <==> FirstFilledFrom(slots, 0) != -1
  {
    if slots != [] {
      var front, last := slots[..|slots| - 1], slots[|slots| - 1];
      assert slots == front + [last];
      CountsDecideSearch(front);
      assert multiset(slots) == multiset(front) + multiset{last};
    }
  }

  // ---------------------------------------------------------------- what the critical sections compute

  /** chef.c: put the pizza into the first empty oven slot. */
  function PutInOven(m: Memory, kind: int): Result<(Memory, nat)> {
    if m.ovenCount == |m.oven| then Broken(OvenBurnt)
    else
      var slot := FirstEmptyFrom(m.oven, 0);
      if slot == -1 then Broken(BadSlot)
      else Ok((m.(oven := m.oven[slot := kind], ovenCount := m.ovenCount + 1), slot))
  }

  /** chef.c: move the pizza of an oven slot to the first empty slot of the table. */
  function MoveToTable(m: Memory, ovenSlot: int): Result<Memory> {
    if !(0 <= ovenSlot < |m.oven|) then Broken(BadSlot)
    else if m.tableCount == |m.table| then Broken(TableCollapsed)
    else
      var slot := FirstEmptyFrom(m.table, 0);
      if slot == -1 then Broken(BadSlot)
      else Ok(Memory(m.ovenCount - 1, m.oven[ovenSlot := EMPTY_SLOT],
                     m.tableCount + 1, m.table[slot := m.oven[ovenSlot]]))
  }

  /** deliverer.c: take the first pizza found on the table; when there is none the loop ends without
      an error and leaves the deliverer's pizza as it was. */
  function TakeFromTable(m: Memory, carried: int): (Memory, int) {
    var slot := FirstFilledFrom(m.table, 0);
    if slot == -1 then (m, carried)
    else (m.(table := m.table[slot := EMPTY_SLOT], tableCount := m.tableCount - 1), m.table[slot])
  }

  // ---------------------------------------------------------------- the shared structure itself

  method FillArray(a: array<int>, value: int)
    modifies a
    ensures forall k :: 0 <= k < a.Length ==> a[k] == value
  {
    for i := 0 to a.Length
      invariant forall k :: 0 <= k < i ==> a[k] == value
    {
      a[i] := value;
    }
  }

  method FindEmptySlot(a: array<int>) returns (r: int)
    ensures r == FirstEmptyFrom(a[..], 0)
    ensures r == -1 <==> EMPTY_SLOT !in a[..]
    ensures r != -1 ==> 0 <= r < a.Length && a[r] == EMPTY_SLOT
  {
    for i := 0 to a.Length
      invariant forall k :: 0 <= k < i ==> a[k] != EMPTY_SLOT
    {
      if a[i] == EMPTY_SLOT {
        return i;
      }
    }
    return -1;
  }

  class Pizzeria {
    var ovenCount: int
    const oven: array<int>
    var tableCount: int
    const table: array<int>

    ghost function View(): Memory
      reads this, oven, table
    {
      Memory(ovenCount, oven[..], tableCount, table[..])
    }

    /** Fresh shared memory: the counters are zero because the segment is new, the slots are cleared. */
    constructor (ovenCapacity: nat, tableCapacity: nat)
      ensures fresh(oven) && fresh(table) && oven != table
      ensures View() == InitialMemory(ovenCapacity, tableCapacity)
    {
      ovenCount, tableCount := 0, 0;
      var o := new int[ovenCapacity](_ => 0);
      var t := new int[tableCapacity](_ => 0);
      oven, table := o, t;
      new;
      Clear();
    }

    /** Resets the slots and leaves the counters alone. */
    method Clear()
      requires oven != table
      modifies oven, table
      ensures View() == Memory(old(ovenCount), seq(oven.Length, _ => EMPTY_SLOT),
                               old(tableCount), seq(table.Length, _ => EMPTY_SLOT))
    {
      FillArray(oven, EMPTY_SLOT);
      FillArray(table, EMPTY_SLOT);
    }

    method PutPizzaInOven(kind: int) returns (r: Result<nat>)
      requires oven != table
      modifies this`ovenCount, oven
      ensures match PutInOven(old(View()), kind)
              case Broken(f) => r == Broken(f) && View() == old(View())
              case Ok((m, slot)) => r == Ok(slot) && View() == m
    {
      if ovenCount == oven.Length {
        return Broken(OvenBurnt);
      }
      var slot := FindEmptySlot(oven);
      if slot == -1 {
        return Broken(BadSlot);
      }
      oven[slot] := kind;
      ovenCount := ovenCount + 1;
      return Ok(slot);
    }

    /** The chef calls this with the slot it stored when it put its own pizza in. */
    method MovePizzaToTable(ovenSlot: nat) returns (r: Result<int>)
      requires oven != table && ovenSlot < oven.Length
      modifies this, oven, table
      ensures match MoveToTable(old(View()), ovenSlot)
              case Broken(f) =>
                r == Broken(f) && View() == old(View()).(oven := old(oven[..])[ovenSlot := EMPTY_SLOT],
                                                         ovenCount := old(ovenCount) - 1)
              case Ok(m) => r == Ok(old(oven[ovenSlot])) && View() == m
    {
      var kind := oven[ovenSlot];
      oven[ovenSlot] := EMPTY_SLOT;
      ovenCount := ovenCount - 1;
      if tableCount == table.Length {
        return Broken(TableCollapsed);
      }
      var slot := FindEmptySlot(table);
      if slot == -1 {
        return Broken(BadSlot);
      }
      table[slot] := kind;
      tableCount := tableCount + 1;
      return Ok(kind);
    }

    method GetPizzaFromTable(carried: int) returns (kind: int)
      requires oven != table
      modifies this`tableCount, table
      ensures (View(), kind) == TakeFromTable(old(View()), carried)
    {
      kind := carried;
      for i := 0 to table.Length
        invariant View() == old(View()) && kind == carried
        invariant forall k :: 0 <= k < i ==> table[k] == EMPTY_SLOT
      {
        if table[i] != EMPTY_SLOT {
          assert FirstFilledFrom(old(table[..]), 0) == i;
          kind := table[i];
          table[i] := EMPTY_SLOT;
          tableCount := tableCount - 1;
          break;
        }
      }
    }
  }

  function InitialMemory(ovenCapacity: nat, tableCapacity: nat): Memory {
    Memory(0, seq(ovenCapacity, _ => EMPTY_SLOT), 0, seq(tableCapacity, _ => EMPTY_SLOT))
  }
}
