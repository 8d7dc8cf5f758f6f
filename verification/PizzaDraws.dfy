/** Lab 7: every pizza that a chef draws is the pizza that it bakes, and any pizzas can be drawn and delivered.
    The choosing steps of a schedule carry the drawn types. */
module PizzaDraws {
  import opened Options
  import opened Kitchen
  import opened Staff
  import V = SystemV
  import P = Posix
  import opened PosixRefinesSystemV
  import PosixSafety

  // ---------------------------------------------------------------- pizzas in the hands of chefs

  /** The types of the marked chefs. */
  ghost function Marked(marks: seq<bool>, kinds: seq<int>): multiset<int>
    requires |marks| == |kinds|
  {
    if marks == [] then multiset{}
    else Marked(marks[..|marks| - 1], kinds[..|kinds| - 1]) + One(marks[|marks| - 1], kinds[|kinds| - 1])
  }

  ghost function One(mark: bool, kind: int): multiset<int> {
    if mark then multiset{kind} else multiset{}
  }

  lemma {:induction false} MarkedAfter(marks: seq<bool>, kinds: seq<int>, i: nat, mark: bool, kind: int)
    requires |marks| == |kinds| && i < |marks|
    ensures Marked(marks[i := mark], kinds[i := kind]) + One(marks[i], kinds[i])
         == Marked(marks, kinds) + One(mark, kind)
  {
    var last := |marks| - 1;
    if i < last {
      MarkedAfter(marks[..last], kinds[..last], i, mark, kind);
      assert marks[i := mark][..last] == marks[..last][i := mark];
      assert kinds[i := kind][..last] == kinds[..last][i := kind];
      Exchange(Marked(marks[..last][i := mark], kinds[..last][i := kind]), One(marks[i], kinds[i]),
               Marked(marks[..last], kinds[..last]), One(mark, kind), One(marks[last], kinds[last]));
    } else {
      assert marks[i := mark][..last] == marks[..last] && kinds[i := kind][..last] == kinds[..last];
    }
  }

  lemma Exchange(a: multiset<int>, b: multiset<int>, c: multiset<int>, d: multiset<int>, rest: multiset<int>)
    requires a + b == c + d
    ensures a + rest + b == c + rest + d
  {
    assert a + rest + b == (a + b) + rest && c + rest + d == (c + d) + rest;
  }

  /** A System V chef has drawn a type and not put it in yet. */
  predicate HoldsDough(pc: V.ChefPc) {
    pc.WantsOven? || pc.Placing?
  }

  /** The same for a POSIX chef. */
  predicate HasDrawn(pc: P.ChefPc) {
    pc.WaitOven? || pc.LockToPut? || pc.PutPizza?
  }

  function DoughMarks(chefs: seq<V.ChefPc>): seq<bool> {
    seq(|chefs|, i requires 0 <= i < |chefs| => HoldsDough(chefs[i]))
  }

  function DrawnMarks(chefs: seq<P.ChefPc>): seq<bool> {
    seq(|chefs|, i requires 0 <= i < |chefs| => HasDrawn(chefs[i]))
  }

  // ---------------------------------------------------------------- System V

  /** The type that a step draws, if it is a choosing step. */
  ghost function DoughAt(s: V.State, step: Step): multiset<int>
    requires V.Enabled(s, step)
  {
    match step
    case Chef(i, kind) => One(s.chefs[i].Preparing?, kind)
    case Deliverer(_) => multiset{}
  }

  /** The types drawn by the executed choosing steps of a schedule. */
  ghost function DoughDrawn(s: V.State, steps: seq<Step>): multiset<int>
    requires V.Exec(s, steps).Some?
    decreases |steps|
  {
    if steps == [] then multiset{}
    else
      var front, step := steps[..|steps| - 1], steps[|steps| - 1];
      DoughDrawn(s, front) + DoughAt(V.Exec(s, front).value, step)
  }

  ghost predicate DrawsFit(s: V.State, drawn: multiset<int>) {
    |s.chefs| == |s.data.kinds| && drawn == s.data.baked + Marked(DoughMarks(s.chefs), s.data.kinds)
  }

  /** What the chef's work does to the types and to what was baked. */
  lemma WorkDraws(d: Data, i: nat, work: Work, kind: int)
    requires i < |d.kinds| == |d.ovenSlots|
    requires work.Put? ==> d.memory.ovenCount < |d.memory.oven| && FirstEmptyFrom(d.memory.oven, 0) != -1
    ensures var d' := ChefWork(d, i, work, kind);
            && d'.kinds == d.kinds[i := if work.Choose? then kind else d.kinds[i]]
            && d'.baked == d.baked + One(work.Put?, d.kinds[i])
  {
  }

  lemma MarksMove(chefs: seq<V.ChefPc>, d: Data, i: nat, kind: int, d': Data, drawn: multiset<int>)
    requires i < |chefs| == |d.kinds| && drawn == d.baked + Marked(DoughMarks(chefs), d.kinds)
    requires d'.kinds == d.kinds[i := if chefs[i].Preparing? then kind else d.kinds[i]]
    requires d'.baked == d.baked + One(chefs[i].Placing?, d.kinds[i])
    ensures drawn + One(chefs[i].Preparing?, kind)
         == d'.baked + Marked(DoughMarks(chefs[i := V.NextChef(chefs[i])]), d'.kinds)
  {
    var k := if chefs[i].Preparing? then kind else d.kinds[i];
    var mark := HoldsDough(V.NextChef(chefs[i]));
    assert DoughMarks(chefs[i := V.NextChef(chefs[i])]) == DoughMarks(chefs)[i := mark];
    MarkedAfter(DoughMarks(chefs), d.kinds, i, mark, k);
    Balance(d.baked, Marked(DoughMarks(chefs), d.kinds), Marked(DoughMarks(chefs)[i := mark], d'.kinds),
            One(DoughMarks(chefs)[i], d.kinds[i]), One(mark, k),
            One(chefs[i].Placing?, d.kinds[i]), One(chefs[i].Preparing?, kind));
  }

  /** Hands that change from `before` to `after`, with what is put in and what is drawn in between. */
  lemma Balance(baked: multiset<int>, hands: multiset<int>, hands': multiset<int>, before: multiset<int>,
                after: multiset<int>, put: multiset<int>, draw: multiset<int>)
    requires hands' + before == hands + after && draw + before == put + after
    ensures baked + hands + draw == baked + put + hands'
  {
    forall x
      ensures hands[x] + draw[x] == put[x] + hands'[x]
    {
      assert (hands' + before)[x] == (hands + after)[x] && (draw + before)[x] == (put + after)[x];
    }
  }

  lemma ChefStepFits(c: Config, s: V.State, i: nat, kind: int, drawn: multiset<int>)
    requires V.Inv(c, s) && V.Enabled(s, Chef(i, kind)) && DrawsFit(s, drawn)
    ensures DrawsFit(V.Apply(s, Chef(i, kind)), drawn + One(s.chefs[i].Preparing?, kind))
  {
    if s.chefs[i].Placing? {
      V.PutSucceeds(c, s, i);
    }
    var work := V.ChefTask(s.chefs[i]);
    WorkDraws(s.data, i, work, kind);
    MarksMove(s.chefs, s.data, i, kind, ChefWork(s.data, i, work, kind), drawn);
  }

  lemma DelivererStepFits(s: V.State, j: nat, drawn: multiset<int>)
    requires V.Enabled(s, Deliverer(j)) && DrawsFit(s, drawn)
    ensures DrawsFit(V.Apply(s, Deliverer(j)), drawn)
  {
  }

  lemma {:induction false} DrawsBecomePizzas(c: Config, steps: seq<Step>)
    requires V.Exec(V.Init(c), steps).Some?
    ensures DrawsFit(V.Exec(V.Init(c), steps).value, DoughDrawn(V.Init(c), steps))
    decreases |steps|
  {
    if steps == [] {
      NobodyMarked(DoughMarks(V.Init(c).chefs), V.Init(c).data.kinds);
    } else {
      var front, step := steps[..|steps| - 1], steps[|steps| - 1];
      var s := V.Exec(V.Init(c), front).value;
      DrawsBecomePizzas(c, front);
      V.ExecKeepsInv(c, front);
      if step.Chef? {
        ChefStepFits(c, s, step.i, step.kind, DoughDrawn(V.Init(c), front));
      } else {
        DelivererStepFits(s, step.j, DoughDrawn(V.Init(c), front));
      }
    }
  }

  lemma {:induction false} NobodyMarked(marks: seq<bool>, kinds: seq<int>)
    requires |marks| == |kinds| && forall i :: 0 <= i < |marks| ==> !marks[i]
    ensures Marked(marks, kinds) == multiset{}
  {
    if marks != [] {
      NobodyMarked(marks[..|marks| - 1], kinds[..|kinds| - 1]);
    }
  }

  // ---------------------------------------------------------------- POSIX

  ghost function DrawnAt(s: P.State, step: Step): multiset<int>
    requires P.Enabled(s, step)
  {
    match step
    case Chef(i, kind) => One(s.chefs[i].Choosing?, kind)
    case Deliverer(_) => multiset{}
  }

  ghost function Drawn(s: P.State, steps: seq<Step>): multiset<int>
    requires P.Exec(s, steps).Some?
    decreases |steps|
  {
    if steps == [] then multiset{}
    else
      var front, step := steps[..|steps| - 1], steps[|steps| - 1];
      Drawn(s, front) + DrawnAt(P.Exec(s, front).value, step)
  }

  lemma SameDraw(s: P.State, step: Step)
    requires P.Enabled(s, step)
    ensures Silent(s, step) ==> DrawnAt(s, step) == multiset{}
    ensures !Silent(s, step) ==> V.Enabled(Abs(s), step) && DoughAt(Abs(s), step) == DrawnAt(s, step)
  {
    StepRefines(s, step);
    if step.Chef? {
      ProgramsAgree(s.chefs[step.i], P.WaitWaiting);
    }
  }

  lemma OneMoreDough(s: V.State, steps: seq<Step>, step: Step, last: V.State)
    requires V.Exec(s, steps) == Some(last) && V.Enabled(last, step)
    ensures V.Exec(s, steps + [step]).Some?
    ensures DoughDrawn(s, steps + [step]) == DoughDrawn(s, steps) + DoughAt(last, step)
  {
    assert (steps + [step])[..|steps|] == steps;
  }

  /** Leaving out the silent steps leaves out no draw. */
  lemma {:induction false} SameDraws(c: Config, steps: seq<Step>)
    requires P.Exec(P.Init(c), steps).Some?
    ensures V.Exec(V.Init(c), Visible(P.Init(c), steps)).Some?
    ensures DoughDrawn(V.Init(c), Visible(P.Init(c), steps)) == Drawn(P.Init(c), steps)
    decreases |steps|
  {
    RunRefines(c, steps);
    if steps != [] {
      var front, step := steps[..|steps| - 1], steps[|steps| - 1];
      SameDraws(c, front);
      RunRefines(c, front);
      var s := P.Exec(P.Init(c), front).value;
      SameDraw(s, step);
      if !Silent(s, step) {
        OneMoreDough(V.Init(c), Visible(P.Init(c), front), step, Abs(s));
      }
    }
  }

  /** For every schedule: the types drawn are those baked and those of the chefs between choosing and
      putting. */
  lemma EveryDrawIsBaked(c: Config, steps: seq<Step>)
    requires P.Exec(P.Init(c), steps).Some?
    ensures var s := P.Exec(P.Init(c), steps).value;
            && |s.chefs| == |s.data.kinds|
            && Drawn(P.Init(c), steps) == s.data.baked + Marked(DrawnMarks(s.chefs), s.data.kinds)
  {
    var s := P.Exec(P.Init(c), steps).value;
    RunRefines(c, steps);
    SameDraws(c, steps);
    DrawsBecomePizzas(c, Visible(P.Init(c), steps));
    SameMarks(s, Drawn(P.Init(c), steps));
  }

  lemma SameMarks(s: P.State, drawn: multiset<int>)
    requires DrawsFit(Abs(s), drawn)
    ensures |s.chefs| == |s.data.kinds| && drawn == s.data.baked + Marked(DrawnMarks(s.chefs), s.data.kinds)
  {
    assert DoughMarks(AbsChefs(s.chefs)) == DrawnMarks(s.chefs);
  }

  /** Hence every type drawn is in the hands of its chef, in the oven, on the table, on its way or
      delivered, and nothing else is. */
  lemma EveryDrawArrives(c: Config, steps: seq<Step>)
    requires P.Exec(P.Init(c), steps).Some?
    ensures var s := P.Exec(P.Init(c), steps).value;
            && |s.chefs| == |s.data.kinds|
            && Drawn(P.Init(c), steps) ==
               Contents(s.data.memory.oven) + Contents(s.data.memory.table) + Contents(s.data.carried)
               + s.data.delivered + Marked(DrawnMarks(s.chefs), s.data.kinds)
  {
    EveryDrawIsBaked(c, steps);
    PosixSafety.PizzasConserved(c, P.Exec(P.Init(c), steps).value);
  }

  // ---------------------------------------------------------------- any pizzas can be delivered

  /** A chef that chooses can draw exactly the types of pizza. */
  lemma AnyTypeCanBeDrawn(c: Config, s: P.State, i: nat, kind: int)
    requires PosixReaches(c, s) && i < |s.chefs| && s.chefs[i].Choosing?
    ensures P.Enabled(s, Chef(i, kind)) <==> MIN_PIZZA_TYPE <= kind < MAX_PIZZA_TYPE
  {
    PosixSafety.ReachableShaped(c, s);
  }

  ghost predicate Link(s: V.State, step: Step, s': V.State) {
    V.Enabled(s, step) && V.Apply(s, step) == s'
  }

  lemma Continue(c: Config, s: V.State, step: Step, s': V.State)
    requires SystemVReaches(c, s) && Link(s, step, s')
    ensures SystemVReaches(c, s')
  {
    var steps :| V.Exec(V.Init(c), steps) == Some(s);
    assert (steps + [step])[..|steps|] == steps;
    assert V.Exec(V.Init(c), steps + [step]) == Some(s');
  }

  ghost predicate AllEmpty(slots: seq<int>) {
    forall k :: 0 <= k < |slots| ==> slots[k] == EMPTY_SLOT
  }

  /** Nobody is at work, oven and table are empty, and these pizzas have been delivered. */
  ghost predicate Closed(c: Config, s: V.State, delivered: multiset<int>) {
    && V.Shaped(c, s) && s.sems == InitialSemaphores(c)
    && s.data.memory.ovenCount == 0 && AllEmpty(s.data.memory.oven)
    && s.data.memory.tableCount == 0 && AllEmpty(s.data.memory.table)
    && (forall i :: 0 <= i < c.chefs ==> s.chefs[i].Preparing?)
    && (forall j :: 0 <= j < c.deliverers ==> s.deliverers[j].WantsPizza?)
    && s.data.delivered == delivered
  }

  /** Chef 0 has just put a pizza of the type on the table. */
  ghost predicate OnTable(c: Config, s: V.State, delivered: multiset<int>, kind: int) {
    && V.Shaped(c, s) && s.sems == Semaphores(c.ovenCapacity, c.tableCapacity - 1, 1, 0, 1)
    && s.data.memory.ovenCount == 0 && AllEmpty(s.data.memory.oven) && c.tableCapacity > 0
    && s.data.memory.tableCount == 1 && AllEmpty(s.data.memory.table[0 := EMPTY_SLOT]) && s.data.memory.table[0] == kind
    && (forall i :: 0 <= i < c.chefs ==> s.chefs[i].Preparing?)
    && (forall j :: 0 <= j < c.deliverers ==> s.deliverers[j].WantsPizza?)
    && s.data.delivered == delivered
  }

  lemma ChefPuts(c: Config, s: V.State, done: multiset<int>, kind: int) returns (s1: V.State, s2: V.State, s3: V.State)
    requires Closed(c, s, done) && IsPizza(kind) && c.chefs >= 1 && c.ovenCapacity >= 1 && c.tableCapacity >= 1
    ensures Link(s, Chef(0, kind), s1) && Link(s1, Chef(0, kind), s2) && Link(s2, Chef(0, kind), s3)
    ensures s3.chefs == s.chefs[0 := V.Placed] && s3.deliverers == s.deliverers && DataShaped(c, s3.data)
    ensures s3.sems == Semaphores(c.ovenCapacity - 1, c.tableCapacity, 0, 0, 0)
    ensures s3.data.ovenSlots[0] == 0 && s3.data.memory.oven == s.data.memory.oven[0 := kind]
    ensures s3.data.memory.ovenCount == 1 && s3.data.delivered == done
    ensures s3.data.memory.table == s.data.memory.table && s3.data.memory.tableCount == 0
  {
    s1 := V.Apply(s, Chef(0, kind));
    s2 := V.Apply(s1, Chef(0, kind));
    assert FirstEmptyFrom(s2.data.memory.oven, 0) == 0;
    s3 := V.Apply(s2, Chef(0, kind));
  }

  lemma ChefMoves(c: Config, s: V.State, s3: V.State, done: multiset<int>, kind: int)
    returns (s4: V.State, s5: V.State, s6: V.State, s7: V.State)
    requires Closed(c, s, done) && c.chefs >= 1 && c.ovenCapacity >= 1 && c.tableCapacity >= 1
    requires s3.chefs == s.chefs[0 := V.Placed] && s3.deliverers == s.deliverers && DataShaped(c, s3.data)
    requires s3.sems == Semaphores(c.ovenCapacity - 1, c.tableCapacity, 0, 0, 0)
    requires s3.data.ovenSlots[0] == 0 && s3.data.memory.oven == s.data.memory.oven[0 := kind]
    requires s3.data.memory.ovenCount == 1 && s3.data.delivered == done
    requires s3.data.memory.table == s.data.memory.table && s3.data.memory.tableCount == 0
    ensures Link(s3, Chef(0, kind), s4) && Link(s4, Chef(0, kind), s5)
    ensures Link(s5, Chef(0, kind), s6) && Link(s6, Chef(0, kind), s7)
    ensures OnTable(c, s7, done, kind)
  {
    s4 := V.Apply(s3, Chef(0, kind));
    s5 := V.Apply(s4, Chef(0, kind));
    assert FirstEmptyFrom(s5.data.memory.table, 0) == 0;
    s6 := V.Apply(s5, Chef(0, kind));
    s7 := V.Apply(s6, Chef(0, kind));
  }

  lemma DelivererDelivers(c: Config, s: V.State, done: multiset<int>, kind: int)
    returns (s1: V.State, s2: V.State, s3: V.State, s4: V.State, s5: V.State)
    requires OnTable(c, s, done, kind) && IsPizza(kind) && c.deliverers >= 1
    ensures Link(s, Deliverer(0), s1) && Link(s1, Deliverer(0), s2) && Link(s2, Deliverer(0), s3)
    ensures Link(s3, Deliverer(0), s4) && Link(s4, Deliverer(0), s5)
    ensures Closed(c, s5, done + multiset{kind})
  {
    s1 := V.Apply(s, Deliverer(0));
    assert FirstFilledFrom(s1.data.memory.table, 0) == 0;
    s2 := V.Apply(s1, Deliverer(0));
    s3 := V.Apply(s2, Deliverer(0));
    s4 := V.Apply(s3, Deliverer(0));
    s5 := V.Apply(s4, Deliverer(0));
  }

  /** One more pizza, of any type. */
  lemma OneMoreDelivery(c: Config, s: V.State, done: multiset<int>, kind: int) returns (s': V.State)
    requires SystemVReaches(c, s) && Closed(c, s, done) && IsPizza(kind)
    requires c.chefs >= 1 && c.deliverers >= 1 && c.ovenCapacity >= 1 && c.tableCapacity >= 1
    ensures SystemVReaches(c, s') && Closed(c, s', done + multiset{kind})
  {
    var s1, s2, s3 := ChefPuts(c, s, done, kind);
    Continue(c, s, Chef(0, kind), s1);
    Continue(c, s1, Chef(0, kind), s2);
    Continue(c, s2, Chef(0, kind), s3);
    var s4, s5, s6, s7 := ChefMoves(c, s, s3, done, kind);
    Continue(c, s3, Chef(0, kind), s4);
    Continue(c, s4, Chef(0, kind), s5);
    Continue(c, s5, Chef(0, kind), s6);
    Continue(c, s6, Chef(0, kind), s7);
    var t1, t2, t3, t4, t5 := DelivererDelivers(c, s7, done, kind);
    Continue(c, s7, Deliverer(0), t1);
    Continue(c, t1, Deliverer(0), t2);
    Continue(c, t2, Deliverer(0), t3);
    Continue(c, t3, Deliverer(0), t4);
    Continue(c, t4, Deliverer(0), t5);
    s' := t5;
  }

  lemma StartsClosed(c: Config) returns (s: V.State)
    ensures SystemVReaches(c, s) && Closed(c, s, multiset{})
  {
    s := V.Init(c);
    assert V.Exec(V.Init(c), []) == Some(s);
  }

  lemma {:induction false} DeliveriesReachable(c: Config, kinds: seq<int>) returns (s: V.State)
    requires forall k :: 0 <= k < |kinds| ==> IsPizza(kinds[k])
    requires c.chefs >= 1 && c.deliverers >= 1 && c.ovenCapacity >= 1 && c.tableCapacity >= 1
    ensures SystemVReaches(c, s) && Closed(c, s, multiset(kinds))
  {
    if kinds == [] {
      s := StartsClosed(c);
    } else {
      var front, last := kinds[..|kinds| - 1], kinds[|kinds| - 1];
      s := DeliveriesReachable(c, front);
      s := OneMoreDelivery(c, s, multiset(front), last);
      assert kinds == front + [last];
    }
  }

  /** Any pizzas can be ordered: some run of the POSIX pizzeria delivers them and leaves nothing behind. */
  lemma AnyPizzasDelivered(c: Config, kinds: seq<int>) returns (steps: seq<Step>)
    requires forall k :: 0 <= k < |kinds| ==> IsPizza(kinds[k])
    requires c.chefs >= 1 && c.deliverers >= 1 && c.ovenCapacity >= 1 && c.tableCapacity >= 1
    ensures P.Exec(P.Init(c), steps).Some?
    ensures P.Exec(P.Init(c), steps).value.data.delivered == multiset(kinds)
    ensures AllEmpty(P.Exec(P.Init(c), steps).value.data.memory.oven)
    ensures AllEmpty(P.Exec(P.Init(c), steps).value.data.memory.table)
  {
    var s := DeliveriesReachable(c, kinds);
    var visible :| V.Exec(V.Init(c), visible) == Some(s);
    steps := RunRealised(c, visible);
  }
}
