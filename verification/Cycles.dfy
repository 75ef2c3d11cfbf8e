// The cycles of the data pool, which of them is selected, and the table of
// their names, which is kept beside them.

module Cycles {

  type Items = map<string, string>  // the values of the items of one cycle

  // A cycle keeps its identity when the ones around it come and go.
  datatype Cycle = Cycle(id: nat, items: Items)

  // --------------------------------------------------------- the reference

  datatype Named = Named(cycle: Cycle, name: string)

  // The cycles with their names, and the one that is selected.
  datatype Shelf = Shelf(cycles: seq<Named>, current: int, created: nat) {

    // What every run keeps.
    ghost predicate Sound() {
      0 <= current < |cycles| &&
      (forall i | 0 <= i < |cycles| :: cycles[i].cycle.id < created) &&
      forall i, j | 0 <= i < j < |cycles| :: cycles[i].cycle.id != cycles[j].cycle.id
    }

    function Selected(): Named
      requires 0 <= current < |cycles|
    {
      cycles[current]
    }
  }

  const NO_NAME := "<no name>"

  // A copy of the selected cycle, behind the others and selected.
  function New(s: Shelf, title: string): Shelf
    requires 0 <= s.current < |s.cycles|
  {
    var copy := Named(Cycle(s.created, s.Selected().cycle.items), title);
    Shelf(s.cycles + [copy], |s.cycles|, s.created + 1)
  }

  function Select(s: Shelf, num: int): Shelf {
    if 0 <= num < |s.cycles| then s.(current := num) else s
  }

  // The later cycles move up. A selected cycle that moves stays selected; if it
  // goes, its predecessor is selected, or the first one.
  function Remove(s: Shelf, num: int): Shelf {
    if |s.cycles| <= 1 || num < 0 || num >= |s.cycles| then s
    else
      var current := if s.current < num then s.current else if s.current > 0 then s.current - 1 else 0;
      Shelf(s.cycles[..num] + s.cycles[num + 1..], current, s.created)
  }

  datatype Operation =
    | NewCycle(title: string)
    | NextCycle
    | FirstCycle
    | LastCycle
    | GoCycle(num: int)
    | RemoveCycle(num: int)

  // The cycles after an operation, and its answer.
  function Step(s: Shelf, op: Operation): (Shelf, bool)
    requires 0 <= s.current < |s.cycles|
  {
    match op
    case NewCycle(title) => (New(s, if title == "" then NO_NAME else title), true)
    case NextCycle => if s.current + 1 < |s.cycles| then (Select(s, s.current + 1), true) else (New(s, NO_NAME), false)
    case FirstCycle => (Select(s, 0), s.current > 0)
    case LastCycle => (Select(s, |s.cycles| - 1), s.current + 1 != |s.cycles|)
    case GoCycle(num) => (Select(s, num), num < |s.cycles|)
    case RemoveCycle(num) => (Remove(s, num), |s.cycles| > 1 && num == s.current)
  }

  const BASE := Shelf([Named(Cycle(0, map[]), "Base")], 0, 1)

  // ------------------------------------------------ properties of each step

  lemma NewKeeps(s: Shelf, title: string)
    requires s.Sound()
    ensures New(s, title).Sound()
  {
  }

  lemma RemoveKeeps(s: Shelf, num: int)
    requires s.Sound()
    ensures Remove(s, num).Sound()
  {
  }

  lemma StepKeeps(s: Shelf, op: Operation)
    requires s.Sound()
    ensures 0 <= s.current < |s.cycles| && Step(s, op).0.Sound()
  {
    hide New, Remove;
    match op {
      case NewCycle(title) => NewKeeps(s, if title == "" then NO_NAME else title);
      case NextCycle => NewKeeps(s, NO_NAME);
      case RemoveCycle(num) => RemoveKeeps(s, num);
      case _ =>
    }
  }

  // A cycle that survives an operation keeps its name and its items.
  lemma SurvivorsStay(s: Shelf, op: Operation, i: nat, j: nat)
    requires s.Sound() && i < |s.cycles| && j < |Step(s, op).0.cycles|
    requires s.cycles[i].cycle.id == Step(s, op).0.cycles[j].cycle.id
    ensures s.cycles[i] == Step(s, op).0.cycles[j]
  {
    hide Step;
    var from := Origin(s, op, j);
  }

  // No cycle overtakes another.
  lemma OrderStays(s: Shelf, op: Operation, i: nat, j: nat, k: nat, l: nat)
    requires s.Sound() && i < j < |s.cycles| && k < |Step(s, op).0.cycles| && l < |Step(s, op).0.cycles|
    requires s.cycles[i] == Step(s, op).0.cycles[k] && s.cycles[j] == Step(s, op).0.cycles[l]
    ensures k < l
  {
    var from, to := Origin(s, op, k), Origin(s, op, l);
  }

  // Only a removed cycle goes.
  lemma OnlyRemovedGoes(s: Shelf, op: Operation, i: nat)
    requires s.Sound() && i < |s.cycles|
    ensures s.cycles[i] !in Step(s, op).0.cycles <==> op == RemoveCycle(i) && |s.cycles| > 1
  {
    var t := Step(s, op).0;
    if op != RemoveCycle(i) || |s.cycles| <= 1 {
      var j := if op.RemoveCycle? && 0 <= op.num < i then i - 1 else i;
      assert t.cycles[j] == s.cycles[i];
    }
  }

  // The old position of a cycle, or one behind the last for a new cycle.
  function Origin(s: Shelf, op: Operation, j: nat): (i: nat)
    requires s.Sound() && j < |Step(s, op).0.cycles|
    ensures i < |s.cycles| ==> s.cycles[i] == Step(s, op).0.cycles[j]
    ensures i >= |s.cycles| ==> i == j == |s.cycles| && Step(s, op).0.cycles[j].cycle.id == s.created
  {
    if op.RemoveCycle? && |s.cycles| > 1 && 0 <= op.num <= j then j + 1 else j
  }

  // One place lies behind another.
  predicate Behind(s: Shelf, i: int, j: int) {
    0 <= j < i < |s.cycles|
  }

  // Going to the last cycle selects the one behind which there is none, and
  // answers whether that is another one than before.
  lemma LastIsBehindAll(s: Shelf)
    requires s.Sound()
    ensures
      var (t, ok) := Step(s, LastCycle);
      t.cycles == s.cycles && t.created == s.created && t.Sound() &&
      (forall i :: !Behind(s, i, t.current)) && (ok <==> t.Selected() != s.Selected())
  {
  }

  // Going to the first cycle selects the one ahead of which there is none.
  lemma FirstIsAheadOfAll(s: Shelf)
    requires s.Sound()
    ensures
      var (t, ok) := Step(s, FirstCycle);
      t.cycles == s.cycles && t.created == s.created && t.Sound() &&
      (forall i :: !Behind(s, t.current, i)) && (ok <==> t.Selected() != s.Selected())
  {
  }

  // Going on selects the one right behind the selected one, as long as there is
  // one; behind the last it adds a cycle without a name.
  lemma NextIsRightBehind(s: Shelf)
    requires s.Sound()
    ensures
      var (t, ok) := Step(s, NextCycle);
      (ok <==> exists i :: Behind(s, i, s.current)) &&
      (ok ==>
        t.cycles == s.cycles && t.created == s.created && t.Sound() && Behind(s, t.current, s.current) &&
        forall i | Behind(s, i, s.current) :: !Behind(s, t.current, i)) &&
      (!ok ==> Adds(s, t, "<no name>"))
  {
    assert s.current + 1 < |s.cycles| ==> Behind(s, s.current + 1, s.current);
  }

  // A new cycle stands behind the others, is selected, and starts with the items
  // of the one that was selected.
  ghost predicate Adds(s: Shelf, t: Shelf, name: string) {
    s.Sound() && t.Sound() && |t.cycles| == |s.cycles| + 1 && s.cycles <= t.cycles && t.current == |s.cycles| &&
    t.Selected().name == name && t.Selected().cycle.items == s.Selected().cycle.items
  }

  // It carries the title it was given, or the stand-in for an empty one.
  lemma NewIsTitled(s: Shelf, title: string)
    requires s.Sound()
    ensures
      var (t, ok) := Step(s, NewCycle(title));
      ok && (if title == "" then Adds(s, t, "<no name>") else Adds(s, t, title))
  {
  }

  // Going to a cycle changes no cycle.
  lemma GoKeepsCycles(s: Shelf, num: int)
    requires s.Sound()
    ensures
      var (t, ok) := Step(s, GoCycle(num));
      t.cycles == s.cycles && t.created == s.created && t.Sound() &&
      t.current == if 0 <= num < |s.cycles| then num else s.current
  {
  }

  // Removing answers true exactly when another cycle is selected afterwards.
  lemma RemoveAnswers(s: Shelf, num: int)
    requires s.Sound() && |s.cycles| > 1 && 0 <= num < |s.cycles|
    ensures
      var (t, switched) := Step(s, RemoveCycle(num));
      switched <==> t.Selected().cycle.id != s.Selected().cycle.id
  {
  }

  // The selection follows its cycle; if that goes, the one before it is
  // selected, or the first of those that are left.
  lemma SelectionFollows(s: Shelf, num: int)
    requires s.Sound() && |s.cycles| > 1
    ensures
      var t := Step(s, RemoveCycle(num)).0;
      t.Sound() && t.Selected() == if num != s.current then s.Selected() else s.cycles[if num > 0 then num - 1 else 1]
  {
    StepKeeps(s, RemoveCycle(num));
  }

  // Removing a new cycle undoes its creation exactly when the last cycle was
  // selected before.
  lemma RemoveUndoesNew(s: Shelf, title: string)
    requires s.Sound()
    ensures
      var t := Step(Step(s, NewCycle(title)).0, RemoveCycle(|s.cycles|)).0;
      t.cycles == s.cycles && (t.current == s.current <==> s.current == |s.cycles| - 1)
  {
  }

  // Going to a cycle answers whether it is selected afterwards, but for
  // negative numbers: those answer true and select nothing.
  lemma GoAnswersExactly(s: Shelf, num: int)
    requires s.Sound()
    ensures
      var (t, ok) := Step(s, GoCycle(num));
      (ok <==> t.current == num) <==> num >= 0
    ensures num < 0 ==> Step(s, GoCycle(num)) == (s, true)
  {
  }

  // ------------------------------------------------------------ every run

  function After(s: Shelf, ops: seq<Operation>): (t: Shelf)
    requires s.Sound()
    ensures t.Sound() && 0 <= t.current < |t.cycles|
  {
    if ops == [] then s
    else
      var before := After(s, ops[..|ops| - 1]);
      StepKeeps(before, ops[|ops| - 1]);
      Step(before, ops[|ops| - 1]).0
  }

  // Over any run a cycle has one name and the same items.
  lemma {:induction false} NamedForLife(s: Shelf, ops: seq<Operation>, i: nat, j: nat)
    requires s.Sound() && i < |s.cycles| && j < |After(s, ops).cycles|
    requires s.cycles[i].cycle.id == After(s, ops).cycles[j].cycle.id
    ensures s.cycles[i] == After(s, ops).cycles[j]
  {
    hide Step;
    if ops != [] {
      var before, op := After(s, ops[..|ops| - 1]), ops[|ops| - 1];
      var from := Origin(before, op, j);
      CountsUp(s, ops[..|ops| - 1]);
      NamedForLife(s, ops[..|ops| - 1], i, from);
    }
  }

  lemma {:induction false} CountsUp(s: Shelf, ops: seq<Operation>)
    requires s.Sound()
    ensures After(s, ops).created >= s.created
  {
    if ops != [] {
      CountsUp(s, ops[..|ops| - 1]);
    }
  }

  // ---------------------------------------------------------- the objects

  function Label(cycles: seq<Cycle>, names: map<int, string>): (labelled: seq<Named>)
    requires forall i | 0 <= i < |cycles| :: i in names
    ensures |labelled| == |cycles| && forall i | 0 <= i < |cycles| :: labelled[i] == Named(cycles[i], names[i])
  {
    seq(|cycles|, i requires 0 <= i < |cycles| => Named(cycles[i], names[i]))
  }

  lemma LabelOneMore(cycles: seq<Cycle>, c: Cycle, names: map<int, string>, name: string)
    requires forall i | 0 <= i < |cycles| :: i in names
    ensures Label(cycles + [c], names[|cycles| := name]) == Label(cycles, names) + [Named(c, name)]
  {
    hide Label;
  }

  lemma LabelOneLess(cycles: seq<Cycle>, names: map<int, string>, num: nat, left: map<int, string>)
    requires num < |cycles| && forall i | 0 <= i < |cycles| :: i in names
    requires forall i | 0 <= i < |cycles| - 1 :: i in left && left[i] == names[if i < num then i else i + 1]
    ensures Label(cycles[..num] + cycles[num + 1..], left) ==
      Label(cycles, names)[..num] + Label(cycles, names)[num + 1..]
  {
    hide Label;
  }

  class DataPool {
    var cycles: seq<Cycle>
    var actualCycle: int
    var created: nat

    constructor ()
      ensures cycles == [] && actualCycle == -1 && created == 0
    {
      cycles, actualCycle, created := [], -1, 0;
    }

    // Without any cycle the first one is made from the dictionary.
    method NewCycle() returns (i: int)
      requires -1 <= actualCycle < |cycles|
      modifies this
      ensures i == actualCycle == |old(cycles)| && created == old(created) + 1
      ensures cycles ==
        old(cycles) + [Cycle(old(created), if old(actualCycle) < 0 then map[] else old(cycles[actualCycle].items))]
    {
      i := |cycles|;
      var items := map[];
      if actualCycle >= 0 {
        items := cycles[actualCycle].items;
      }
      cycles := cycles + [Cycle(created, items)];
      created := created + 1;
      actualCycle := i;
    }

    method SetCycle(cycleIndex: int) returns (ok: bool)
      modifies this`actualCycle
      ensures ok <==> cycleIndex == old(actualCycle) || 0 <= cycleIndex < |cycles|
      ensures actualCycle == if 0 <= cycleIndex < |cycles| then cycleIndex else old(actualCycle)
    {
      if cycleIndex == actualCycle {
        return true;
      }
      if cycleIndex < 0 || cycleIndex >= |cycles| {
        return false;
      }
      actualCycle := cycleIndex;
      return true;
    }

    method RemoveCycle(cycleIndex: int) returns (ok: bool)
      modifies this`cycles, this`actualCycle
      ensures ok <==> 0 <= cycleIndex < |old(cycles)|
      ensures !ok ==> cycles == old(cycles) && actualCycle == old(actualCycle)
      ensures ok ==>
        cycles == old(cycles[..cycleIndex] + cycles[cycleIndex + 1..]) &&
        actualCycle ==
        if old(actualCycle) < cycleIndex then old(actualCycle)
        else if old(actualCycle) == 0 && |old(cycles)| > 1 then 0 else old(actualCycle) - 1
    {
      if cycleIndex < 0 || cycleIndex >= |cycles| {
        return false;
      }
      cycles := cycles[..cycleIndex] + cycles[cycleIndex + 1..];
      if actualCycle >= cycleIndex {
        actualCycle := actualCycle - 1;
        if actualCycle < 0 && |cycles| > 0 {
          actualCycle := 0;
        }
      }
      return true;
    }
  }

  class DataPoolIntens {
    const datapool: DataPool
    var cycleNames: map<int, string>  // a stored name may outlive its cycle

    // Every cycle has a name in the table, and the cycles are sound.
    ghost predicate Valid()
      reads this, datapool
    {
      (forall i | 0 <= i < |datapool.cycles| :: i in cycleNames) && Contents().Sound()
    }

    ghost function Contents(): Shelf
      reads this, datapool
      requires forall i | 0 <= i < |datapool.cycles| :: i in cycleNames
    {
      Shelf(Label(datapool.cycles, cycleNames), datapool.actualCycle, datapool.created)
    }

    // The data pool with its base cycle.
    constructor ()
      ensures Valid() && fresh(datapool) && Contents() == BASE
    {
      datapool := new DataPool();
      cycleNames := map[];
      new;
      var _ := datapool.NewCycle();
      SetCycleName(0, "Base");
    }

    method SetCycleName(num: int, name: string)
      modifies this`cycleNames
      ensures cycleNames == old(cycleNames)[num := name]
    {
      cycleNames := cycleNames[num := name];
    }

    method NewCycle(title: string)
      requires Valid()
      modifies this, datapool
      ensures Valid() && Contents() == Step(old(Contents()), Operation.NewCycle(title)).0
    {
      hide Label, Shelf.Sound;
      StepKeeps(Contents(), Operation.NewCycle(title));
      ghost var name := if title == "" then NO_NAME else title;
      LabelOneMore(datapool.cycles, Cycle(datapool.created, datapool.cycles[datapool.actualCycle].items), cycleNames,
                   name);
      var _ := datapool.NewCycle();
      var current := datapool.actualCycle;
      if title == "" {
        SetCycleName(current, NO_NAME);
      } else {
        SetCycleName(current, title);
      }
    }

    method FirstCycle() returns (ok: bool)
      requires Valid()
      modifies datapool
      ensures Valid() && (Contents(), ok) == Step(old(Contents()), Operation.FirstCycle)
    {
      hide Label, Shelf.Sound;
      StepKeeps(Contents(), Operation.FirstCycle);
      if datapool.actualCycle > 0 {
        var _ := datapool.SetCycle(0);
        return true;
      }
      return false;
    }

    method LastCycle() returns (ok: bool)
      requires Valid()
      modifies datapool
      ensures Valid() && (Contents(), ok) == Step(old(Contents()), Operation.LastCycle)
    {
      hide Label, Shelf.Sound;
      StepKeeps(Contents(), Operation.LastCycle);
      var current, num := datapool.actualCycle, |datapool.cycles|;
      if current + 1 != num {
        var _ := datapool.SetCycle(num - 1);
        return true;
      }
      return false;
    }

    method NextCycle() returns (ok: bool)
      requires Valid()
      modifies this, datapool
      ensures Valid() && (Contents(), ok) == Step(old(Contents()), Operation.NextCycle)
    {
      hide Label, Shelf.Sound;
      StepKeeps(Contents(), Operation.NextCycle);
      var current, num := datapool.actualCycle + 1, |datapool.cycles|;
      if current < num {
        var _ := datapool.SetCycle(current);
        return true;
      }
      LabelOneMore(datapool.cycles, Cycle(datapool.created, datapool.cycles[datapool.actualCycle].items), cycleNames,
                   NO_NAME);
      var _ := datapool.NewCycle();
      SetCycleName(num, NO_NAME);
      return false;
    }

    method GoCycle(num: int) returns (ok: bool)
      requires Valid()
      modifies datapool
      ensures Valid() && (Contents(), ok) == Step(old(Contents()), Operation.GoCycle(num))
    {
      hide Label, Shelf.Sound;
      StepKeeps(Contents(), Operation.GoCycle(num));
      if num < |datapool.cycles| {
        var _ := datapool.SetCycle(num);
        return true;
      }
      return false;
    }

    method RemoveCycle(num: int) returns (switched: bool)
      requires Valid()
      modifies this, datapool
      ensures Valid() && (Contents(), switched) == Step(old(Contents()), Operation.RemoveCycle(num))
    {
      hide Label, Shelf.Sound;
      StepKeeps(Contents(), Operation.RemoveCycle(num));
      if |datapool.cycles| <= 1 {
        return false;
      }
      var current := datapool.actualCycle;
      var removed := datapool.RemoveCycle(num);
      if !removed {
        return false;
      }
      RemoveCycleName(num);
      LabelOneLess(old(datapool.cycles), old(cycleNames), num, cycleNames);
      return num == current;
    }

    // Moves the names behind a removed cycle up. The name in the last place stays.
    method RemoveCycleName(num: int)
      requires 0 <= num <= |datapool.cycles| && forall i | 0 <= i <= |datapool.cycles| :: i in cycleNames
      modifies this`cycleNames
      ensures forall i | 0 <= i < num :: i in cycleNames && cycleNames[i] == old(cycleNames[i])
      ensures forall i | num <= i < |datapool.cycles| :: i in cycleNames && cycleNames[i] == old(cycleNames[i + 1])
    {
      for i := num to |datapool.cycles|
        invariant forall k | 0 <= k <= |datapool.cycles| :: k in cycleNames
        invariant forall k | num <= k < i :: cycleNames[k] == old(cycleNames[k + 1])
        invariant forall k | 0 <= k <= |datapool.cycles| && !(num <= k < i) :: cycleNames[k] == old(cycleNames[k])
      {
        var value := if i + 1 in cycleNames then cycleNames[i + 1] else "";
        cycleNames := cycleNames[i := value];
      }
    }
  }

  method Perform(pool: DataPoolIntens, op: Operation) returns (ok: bool)
    requires pool.Valid()
    modifies pool, pool.datapool
    ensures pool.Valid() && pool.Contents() == Step(old(pool.Contents()), op).0
    ensures ok == Step(old(pool.Contents()), op).1
  {
    hide Select, New, Remove, Shelf.Sound, Label;
    match op {
      case NewCycle(title) => pool.NewCycle(title); ok := true;
      case NextCycle => ok := pool.NextCycle();
      case FirstCycle => ok := pool.FirstCycle();
      case LastCycle => ok := pool.LastCycle();
      case GoCycle(num) => ok := pool.GoCycle(num);
      case RemoveCycle(num) => ok := pool.RemoveCycle(num);
    }
  }

  method Run(ops: seq<Operation>) returns (pool: DataPoolIntens, answers: seq<bool>)
    ensures fresh(pool) && pool.Valid() && pool.Contents() == After(BASE, ops)
    ensures |answers| == |ops|
    ensures forall k | 0 <= k < |ops| :: answers[k] == Step(After(BASE, ops[..k]), ops[k]).1
  {
    hide Step, Shelf.Sound, Label;
    pool := new DataPoolIntens();
    answers := [];
    for k := 0 to |ops|
      invariant fresh(pool) && fresh(pool.datapool) && pool.Valid() && pool.Contents() == After(BASE, ops[..k])
      invariant |answers| == k && forall i | 0 <= i < k :: answers[i] == Step(After(BASE, ops[..i]), ops[i]).1
    {
      assert ops[..k + 1][..k] == ops[..k];
      var ok := Perform(pool, ops[k]);
      answers := answers + [ok];
    }
    assert ops[..|ops|] == ops;
  }
}
