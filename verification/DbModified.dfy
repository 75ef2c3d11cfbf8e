// Whether data was modified since it was last loaded from the database: one
// visitor stamps items with a transaction number, another one compares.

module DbModified {

  type TransactionNumber = nat

  // The variable part of an item.
  datatype Stamps = Stamps(hasContainer: bool, db: TransactionNumber, full: TransactionNumber, value: TransactionNumber)

  class DataItem {
    const transient: bool
    const isStruct: bool
    var hasContainer: bool
    var dbTimestamp: TransactionNumber  // 0 as long as the item has no attribute
    var fullUpdated: TransactionNumber
    var valueUpdated: TransactionNumber

    constructor (transient: bool, isStruct: bool)
      ensures this.transient == transient && this.isStruct == isStruct && State() == Stamps(false, 0, 0, 0)
    {
      this.transient, this.isStruct := transient, isStruct;
      hasContainer, dbTimestamp, fullUpdated, valueUpdated := false, 0, 0, 0;
    }

    function State(): Stamps
      reads this
    {
      Stamps(hasContainer, dbTimestamp, fullUpdated, valueUpdated)
    }
  }

  // An item with the items of its structure, over all elements.
  datatype Tree = Tree(item: DataItem, kids: seq<Tree>)

  type Path = seq<nat>

  ghost predicate IsPath(t: Tree, p: Path) {
    p == [] || (p[0] < |t.kids| && IsPath(t.kids[p[0]], p[1..]))
  }

  // The part of the tree at the end of a path.
  function Sub(t: Tree, p: Path): Tree
    requires IsPath(t, p)
    decreases p
  {
    if p == [] then t else Sub(t.kids[p[0]], p[1..])
  }

  ghost function Items(t: Tree): set<DataItem> {
    {t.item} + set k, i | 0 <= k < |t.kids| && i in Items(t.kids[k]) :: i
  }

  // Only structures hold items.
  ghost predicate NestsOnlyStructs(t: Tree) {
    forall w | IsPath(t, w) :: Sub(t, w).kids != [] ==> Sub(t, w).item.isStruct
  }

  // Every item has one place.
  ghost predicate OnePlace(t: Tree) {
    forall v, w | IsPath(t, v) && IsPath(t, w) && Sub(t, v).item == Sub(t, w).item :: v == w
  }

  // ------------------------------------------------------ the state of a tree

  type Snapshot = map<DataItem, Stamps>

  ghost function Snap(items: set<DataItem>): (s: Snapshot)
    reads items
    ensures s.Keys == items
  {
    map i | i in items :: i.State()
  }

  // Whether an item counts as modified. Structures and items without data are
  // judged by the time of the last full update alone.
  ghost predicate Newer(i: DataItem, s: Stamps) {
    s.db < s.full || (!i.isStruct && s.hasContainer && s.db < s.value)
  }

  // The items that both visitors reach below the last level of a path.
  ghost function Visible(t: Tree, s: Snapshot): (v: set<DataItem>)
    requires Items(t) <= s.Keys
    ensures v <= Items(t)
    decreases t, |t.kids| + 1
  {
    if t.item.transient then {}
    else if t.item.isStruct && s[t.item].hasContainer then {t.item} + VisibleKids(t, |t.kids|, s)
    else {t.item}
  }

  ghost function VisibleKids(t: Tree, n: nat, s: Snapshot): (v: set<DataItem>)
    requires n <= |t.kids| && Items(t) <= s.Keys
    ensures v <= Items(t)
    decreases t, n
  {
    assert forall k | 0 <= k < n :: Items(t.kids[k]) <= Items(t);
    set k, i | 0 <= k < n && i in Visible(t.kids[k], s) :: i
  }

  // The items that the first visitor stamps, and those the second one compares.
  ghost function Stamped(t: Tree, p: Path, s: Snapshot): set<DataItem>
    requires IsPath(t, p) && Items(t) <= s.Keys
    decreases p
  {
    if p == [] then Visible(t, s)
    else if t.item.transient || !s[t.item].hasContainer then {}
    else
      assert Items(t.kids[p[0]]) <= Items(t);
      Stamped(t.kids[p[0]], p[1..], s)
  }

  ghost function Compared(t: Tree, p: Path, s: Snapshot): (c: set<DataItem>)
    requires IsPath(t, p) && Items(t) <= s.Keys
    ensures c <= Items(t)
    decreases p
  {
    if p == [] then Visible(t, s)
    else if t.item.transient then {}
    else if !s[t.item].hasContainer then {t.item}
    else
      assert Items(t.kids[p[0]]) <= Items(t);
      Compared(t.kids[p[0]], p[1..], s)
  }

  ghost function Stamp(s: Snapshot, items: set<DataItem>, ts: TransactionNumber): Snapshot {
    map i | i in s :: if i in items then s[i].(db := ts) else s[i]
  }

  ghost predicate AnyNewer(items: set<DataItem>, s: Snapshot)
    requires items <= s.Keys
  {
    exists i | i in items :: Newer(i, s[i])
  }

  ghost predicate Modified(t: Tree, p: Path, s: Snapshot)
    requires IsPath(t, p) && Items(t) <= s.Keys
  {
    AnyNewer(Compared(t, p, s), s)
  }

  // ----------------------------------------------------------- the visitors

  class DataPool {
    var transaction: TransactionNumber

    constructor ()
      ensures transaction == 0
    {
      transaction := 0;
    }

    method NewTransaction() returns (ts: TransactionNumber)
      modifies this
      ensures ts == transaction == old(transaction) + 1
    {
      transaction := transaction + 1;
      return transaction;
    }
  }

  class DataAlterSetDbModified {
    const datapool: DataPool
    const dbTimestamp: TransactionNumber
    const newTransaction: bool

    // Without a number the current transaction is taken.
    constructor (datapool: DataPool, trans: TransactionNumber, newTransaction: bool)
      ensures this.datapool == datapool && this.newTransaction == newTransaction
      ensures dbTimestamp == if trans == 0 then datapool.transaction else trans
    {
      this.datapool, this.newTransaction := datapool, newTransaction;
      dbTimestamp := if trans == 0 then datapool.transaction else trans;
    }

    method Epilog()
      modifies datapool
      ensures datapool.transaction == old(datapool.transaction) + if newTransaction then 1 else 0
    {
      if newTransaction {
        var _ := datapool.NewTransaction();
      }
    }

    method AlterItem(item: DataItem, lastLevel: bool, final: bool) returns (further: bool)
      modifies item
      ensures further <==> !item.transient && if lastLevel then item.isStruct else !final
      ensures item.State() ==
        if item.transient || !lastLevel then old(item.State()) else old(item.State()).(db := dbTimestamp)
    {
      if item.transient {
        return false;
      }
      if !lastLevel {
        if final {
          return false;
        }
        return true;
      }
      item.dbTimestamp := dbTimestamp;
      if !item.isStruct {
        return false;
      }
      return true;
    }
  }

  class DataAlterGetDbModified {
    var dbModified: bool

    constructor ()
      ensures !dbModified
    {
      dbModified := false;
    }

    predicate AllStructItems()
      reads this
    {
      !dbModified
    }

    method AlterItem(item: DataItem, lastLevel: bool, final: bool) returns (further: bool)
      modifies this
      ensures final ==>
        !further && (dbModified <==> old(dbModified) || (!item.transient && item.dbTimestamp < item.fullUpdated))
      ensures !final && !lastLevel ==> (further <==> !item.transient) && dbModified == old(dbModified)
      ensures !final && lastLevel ==>
        (further <==> !item.transient && item.isStruct && item.dbTimestamp >= item.fullUpdated) &&
        (dbModified <==>
          old(dbModified) ||
          (!item.transient &&
           (item.dbTimestamp < item.fullUpdated || (!item.isStruct && item.dbTimestamp < item.valueUpdated))))
    {
      if item.transient {
        return false;
      }
      var db := item.dbTimestamp;
      if final {
        if db < item.fullUpdated {
          dbModified := true;
        }
        return false;
      }
      if !lastLevel {
        return true;
      }
      if db < item.fullUpdated {
        dbModified := true;
        return false;
      }
      if item.isStruct {
        return true;
      }
      if db < item.valueUpdated {
        dbModified := true;
        return false;
      }
      return false;
    }
  }

  // --------------------------------------------------------- the traversal

  lemma VisibleAfterStamp(t: Tree, s: Snapshot, items: set<DataItem>, ts: TransactionNumber)
    requires Items(t) <= s.Keys
    ensures Visible(t, Stamp(s, items, ts)) == Visible(t, s)
  {
    var u := Stamp(s, items, ts);
    forall k | 0 <= k < |t.kids|
      ensures Items(t.kids[k]) <= Items(t) && Visible(t.kids[k], u) == Visible(t.kids[k], s)
    {
      KidItems(t, k);
      VisibleAfterStamp(t.kids[k], s, items, ts);
    }
  }

  lemma KidItems(t: Tree, k: nat)
    requires k < |t.kids|
    ensures Items(t.kids[k]) <= Items(t)
  {
  }

  lemma StampMore(s: Snapshot, a: set<DataItem>, b: set<DataItem>, ts: TransactionNumber)
    ensures Stamp(Stamp(s, a, ts), b, ts) == Stamp(s, a + b, ts)
  {
  }

  lemma VisibleKidsOneMore(t: Tree, n: nat, s: Snapshot)
    requires n < |t.kids| && Items(t) <= s.Keys
    ensures Items(t.kids[n]) <= Items(t) && VisibleKids(t, n + 1, s) == VisibleKids(t, n, s) + Visible(t.kids[n], s)
  {
    KidItems(t, n);
  }

  lemma VisibleIs(t: Tree, s: Snapshot)
    requires Items(t) <= s.Keys
    ensures t.item in Items(t)
    ensures Visible(t, s) ==
      if t.item.transient then {}
      else if t.item.isStruct && s[t.item].hasContainer then {t.item} + VisibleKids(t, |t.kids|, s) else {t.item}
    ensures VisibleKids(t, 0, s) == {}
  {
  }

  // The first visitor on one item, among others.
  method SetItem(func: DataAlterSetDbModified, item: DataItem, lastLevel: bool, final: bool, ghost all: set<DataItem>)
    returns (further: bool)
    requires item in all
    modifies item
    ensures further <==> !item.transient && if lastLevel then item.isStruct else !final
    ensures Snap(all) == Stamp(old(Snap(all)), if item.transient || !lastLevel then {} else {item}, func.dbTimestamp)
  {
    ghost var s := Snap(all);
    further := func.AlterItem(item, lastLevel, final);
    forall i | i in all && i != item ensures i.State() == s[i] {
    }
  }

  // Stamps the items below the last level of a path.
  method AlterSet(func: DataAlterSetDbModified, t: Tree, ghost all: set<DataItem>)
    requires Items(t) <= all
    modifies all
    ensures Snap(all) == Stamp(old(Snap(all)), Visible(t, old(Snap(all))), func.dbTimestamp)
    decreases t
  {
    hide Stamp, Visible, VisibleKids, Items, Snap;
    ghost var s := Snap(all);
    VisibleIs(t, s);
    assert s[t.item].hasContainer == t.item.hasContainer by { SnapAt(all, t.item); }
    if !t.item.hasContainer {
      var _ := SetItem(func, t.item, true, true, all);
      return;
    }
    var further := SetItem(func, t.item, true, false, all);
    if !further {
      return;
    }
    assert {t.item} + {} == {t.item};
    for k := 0 to |t.kids|
      invariant Snap(all) == Stamp(s, {t.item} + VisibleKids(t, k, s), func.dbTimestamp)
    {
      ghost var before := {t.item} + VisibleKids(t, k, s);
      VisibleKidsOneMore(t, k, s);
      VisibleAfterStamp(t.kids[k], s, before, func.dbTimestamp);
      AlterSet(func, t.kids[k], all);
      StampMore(s, before, Visible(t.kids[k], s), func.dbTimestamp);
      assert before + Visible(t.kids[k], s) == {t.item} + VisibleKids(t, k + 1, s);
    }
  }

  lemma SnapAt(items: set<DataItem>, i: DataItem)
    requires i in items
    ensures Snap(items)[i] == i.State()
  {
  }

  method AlterSetAlong(func: DataAlterSetDbModified, t: Tree, p: Path, ghost all: set<DataItem>)
    requires IsPath(t, p) && Items(t) <= all
    modifies all
    ensures Snap(all) == Stamp(old(Snap(all)), Stamped(t, p, old(Snap(all))), func.dbTimestamp)
    decreases p
  {
    hide Stamp, Visible, VisibleKids, Items, Snap;
    ghost var s := Snap(all);
    VisibleIs(t, s);
    SnapAt(all, t.item);
    StampNone(s, func.dbTimestamp);
    if p == [] {
      AlterSet(func, t, all);
      return;
    }
    if !t.item.hasContainer {
      var _ := SetItem(func, t.item, false, true, all);
      return;
    }
    var further := SetItem(func, t.item, false, false, all);
    if !further {
      return;
    }
    KidItems(t, p[0]);
    AlterSetAlong(func, t.kids[p[0]], p[1..], all);
  }

  lemma StampNone(s: Snapshot, ts: TransactionNumber)
    ensures Stamp(s, {}, ts) == s
  {
  }

  lemma AnyNewerMore(a: set<DataItem>, b: set<DataItem>, s: Snapshot)
    requires a <= s.Keys && b <= s.Keys
    ensures AnyNewer(a + b, s) <==> AnyNewer(a, s) || AnyNewer(b, s)
  {
  }

  lemma OneNewer(i: DataItem, s: Snapshot)
    requires i in s
    ensures AnyNewer({i}, s) <==> Newer(i, s[i])
    ensures !AnyNewer({}, s)
  {
  }

  // Compares the items below the last level of a path, until one is modified.
  method AlterGet(func: DataAlterGetDbModified, t: Tree, ghost all: set<DataItem>)
    requires Items(t) <= all && !func.dbModified
    modifies func
    ensures func.dbModified <==> AnyNewer(Visible(t, Snap(all)), Snap(all))
    decreases t
  {
    hide Visible, VisibleKids, Items, Snap, AnyNewer;
    ghost var s := Snap(all);
    VisibleIs(t, s);
    SnapAt(all, t.item);
    OneNewer(t.item, s);
    if !t.item.hasContainer {
      var _ := func.AlterItem(t.item, true, true);
      return;
    }
    var further := func.AlterItem(t.item, true, false);
    if t.item.isStruct && !t.item.transient {
      AnyNewerMore({t.item}, VisibleKids(t, |t.kids|, s), s);
    }
    if !further {
      return;
    }
    var k := 0;
    while k < |t.kids| && func.AllStructItems()
      invariant k <= |t.kids| && (func.dbModified <==> AnyNewer(VisibleKids(t, k, s), s))
    {
      VisibleKidsOneMore(t, k, s);
      AnyNewerMore(VisibleKids(t, k, s), Visible(t.kids[k], s), s);
      AlterGet(func, t.kids[k], all);
      k := k + 1;
    }
    if k < |t.kids| {
      NewerStays(t, k, |t.kids|, s);
    }
  }

  lemma {:induction false} NewerStays(t: Tree, k: nat, n: nat, s: Snapshot)
    requires k <= n <= |t.kids| && Items(t) <= s.Keys && AnyNewer(VisibleKids(t, k, s), s)
    ensures AnyNewer(VisibleKids(t, n, s), s)
  {
    hide VisibleKids, Items, AnyNewer, Visible;
    if k < n {
      NewerStays(t, k, n - 1, s);
      VisibleKidsOneMore(t, n - 1, s);
      AnyNewerMore(VisibleKids(t, n - 1, s), Visible(t.kids[n - 1], s), s);
    }
  }

  method AlterGetAlong(func: DataAlterGetDbModified, t: Tree, p: Path, ghost all: set<DataItem>)
    requires IsPath(t, p) && Items(t) <= all && !func.dbModified
    modifies func
    ensures func.dbModified <==> AnyNewer(Compared(t, p, Snap(all)), Snap(all))
    decreases p
  {
    hide Visible, VisibleKids, Items, Snap, AnyNewer;
    ghost var s := Snap(all);
    VisibleIs(t, s);
    SnapAt(all, t.item);
    OneNewer(t.item, s);
    if p == [] {
      AlterGet(func, t, all);
      return;
    }
    if !t.item.hasContainer {
      var _ := func.AlterItem(t.item, false, true);
      return;
    }
    var further := func.AlterItem(t.item, false, false);
    if !further {
      return;
    }
    KidItems(t, p[0]);
    AlterGetAlong(func, t.kids[p[0]], p[1..], all);
  }

  // The two operations on a reference into the tree.
  method SetDbModified(datapool: DataPool, t: Tree, p: Path, trans: TransactionNumber, newTransaction: bool)
    requires IsPath(t, p)
    modifies datapool, Items(t)
    ensures
      var s, ts := old(Snap(Items(t))), if trans == 0 then old(datapool.transaction) else trans;
      Snap(Items(t)) == Stamp(s, Stamped(t, p, s), ts)
    ensures datapool.transaction == old(datapool.transaction) + if newTransaction then 1 else 0
  {
    hide Stamp, Stamped, Visible, VisibleKids, Items;
    ghost var all, s := Items(t), Snap(Items(t));
    var func := new DataAlterSetDbModified(datapool, trans, newTransaction);
    assert Snap(all) == s;
    AlterSetAlong(func, t, p, all);
    ghost var u := Snap(all);
    func.Epilog();
    assert Snap(all) == u;
  }

  method GetDbModified(t: Tree, p: Path) returns (modified: bool)
    requires IsPath(t, p)
    ensures modified <==> Modified(t, p, Snap(Items(t)))
  {
    hide Visible, VisibleKids, Items;
    var func := new DataAlterGetDbModified();
    AlterGetAlong(func, t, p, Items(t));
    modified := func.dbModified;
  }

  // ------------------------------------------------------ places in the tree

  // All structures above the end of a path have data.
  ghost predicate Opens(t: Tree, w: Path, s: Snapshot)
    requires IsPath(t, w) && Items(t) <= s.Keys
    decreases w
  {
    w == [] || (
      KidItems(t, w[0]);
      s[t.item].hasContainer && Opens(t.kids[w[0]], w[1..], s))
  }

  // No item on a path is transient.
  ghost predicate Clear(t: Tree, w: Path)
    requires IsPath(t, w)
    decreases w
  {
    !t.item.transient && (w == [] || Clear(t.kids[w[0]], w[1..]))
  }

  // The items on a path, without its end.
  ghost function Above(t: Tree, w: Path): set<DataItem>
    requires IsPath(t, w)
    decreases w
  {
    if w == [] then {} else {t.item} + Above(t.kids[w[0]], w[1..])
  }

  lemma {:induction false} SubItems(t: Tree, w: Path)
    requires IsPath(t, w)
    ensures Items(Sub(t, w)) <= Items(t) && Sub(t, w).item in Items(t)
    decreases w
  {
    hide Items;
    RootItem(Sub(t, w));
    if w != [] {
      SubItems(t.kids[w[0]], w[1..]);
      KidItems(t, w[0]);
    }
  }

  lemma RootItem(t: Tree)
    ensures t.item in Items(t)
  {
  }

  lemma {:induction false} SubOfSub(t: Tree, v: Path, w: Path)
    requires IsPath(t, v)
    ensures IsPath(t, v + w) <==> IsPath(Sub(t, v), w)
    ensures IsPath(t, v + w) ==> Sub(t, v + w) == Sub(Sub(t, v), w)
    decreases v
  {
    if v == [] {
      assert v + w == w;
    } else {
      SubOfSub(t.kids[v[0]], v[1..], w);
      assert (v + w)[1..] == v[1..] + w;
    }
  }

  lemma KidNests(t: Tree, k: nat)
    requires NestsOnlyStructs(t) && k < |t.kids|
    ensures NestsOnlyStructs(t.kids[k]) && t.item.isStruct
  {
    assert IsPath(t, []) && Sub(t, []) == t;
    forall w | IsPath(t.kids[k], w) ensures Sub(t.kids[k], w).kids != [] ==> Sub(t.kids[k], w).item.isStruct {
      assert ([k] + w)[1..] == w;
      assert IsPath(t, [k] + w) && Sub(t, [k] + w) == Sub(t.kids[k], w);
    }
  }

  lemma WhichKid(t: Tree, n: nat, s: Snapshot, i: DataItem) returns (k: nat)
    requires n <= |t.kids| && Items(t) <= s.Keys && i in VisibleKids(t, n, s)
    ensures k < n && Items(t.kids[k]) <= s.Keys && i in Visible(t.kids[k], s)
  {
    k :| 0 <= k < n && (KidItems(t, k); i in Visible(t.kids[k], s));
    KidItems(t, k);
  }

  lemma OfKid(t: Tree, k: nat, s: Snapshot, i: DataItem)
    requires k < |t.kids| && Items(t) <= s.Keys
    ensures Items(t.kids[k]) <= s.Keys
    ensures i in Visible(t.kids[k], s) ==> i in VisibleKids(t, |t.kids|, s)
  {
    KidItems(t, k);
  }

  // The visitors reach an item exactly by an open path without transient items.
  lemma {:induction false} VisibleHasPath(t: Tree, s: Snapshot, i: DataItem) returns (w: Path)
    requires Items(t) <= s.Keys && i in Visible(t, s)
    ensures IsPath(t, w) && Opens(t, w, s) && Clear(t, w) && Sub(t, w).item == i
    decreases t
  {
    hide Items, Visible, VisibleKids;
    VisibleIs(t, s);
    if i == t.item {
      w := [];
    } else {
      var k := WhichKid(t, |t.kids|, s, i);
      var v := VisibleHasPath(t.kids[k], s, i);
      w := [k] + v;
      assert w[1..] == v;
    }
  }

  lemma {:induction false} PathIsVisible(t: Tree, s: Snapshot, w: Path)
    requires Items(t) <= s.Keys && NestsOnlyStructs(t)
    requires IsPath(t, w) && Opens(t, w, s) && Clear(t, w)
    ensures Sub(t, w).item in Visible(t, s)
    decreases w
  {
    hide Items, Visible, VisibleKids, NestsOnlyStructs;
    VisibleIs(t, s);
    if w != [] {
      KidNests(t, w[0]);
      OfKid(t, w[0], s, Sub(t, w).item);
      PathIsVisible(t.kids[w[0]], s, w[1..]);
    }
  }

  lemma {:induction false} ComparedHasPath(t: Tree, p: Path, s: Snapshot, i: DataItem) returns (w: Path)
    requires IsPath(t, p) && Items(t) <= s.Keys && Opens(t, p, s) && i in Compared(t, p, s)
    ensures p <= w && IsPath(t, w) && Opens(t, w, s) && Clear(t, w) && Sub(t, w).item == i
    decreases p
  {
    hide Items, Visible;
    if p == [] {
      w := VisibleHasPath(t, s, i);
    } else {
      KidItems(t, p[0]);
      var v := ComparedHasPath(t.kids[p[0]], p[1..], s, i);
      w := [p[0]] + v;
      assert w[1..] == v;
    }
  }

  lemma {:induction false} PathIsCompared(t: Tree, p: Path, s: Snapshot, w: Path)
    requires IsPath(t, p) && Items(t) <= s.Keys && NestsOnlyStructs(t)
    requires p <= w && IsPath(t, w) && Opens(t, w, s) && Clear(t, w)
    ensures Sub(t, w).item in Compared(t, p, s) && Sub(t, w).item in Stamped(t, p, s)
    decreases p
  {
    hide Items, Visible, NestsOnlyStructs;
    if p == [] {
      PathIsVisible(t, s, w);
    } else {
      KidItems(t, p[0]);
      KidNests(t, p[0]);
      PathIsCompared(t.kids[p[0]], p[1..], s, w[1..]);
    }
  }

  // -------------------------------------------------------------- writing

  // A new value, a full update such as an assignment, and the next transaction.
  datatype Operation = Value(path: Path) | Full(path: Path) | Tick

  // A write marks the items on the way, and gives them data.
  ghost function Marked(s: Snapshot, way: set<DataItem>, now: TransactionNumber): Snapshot {
    map i | i in s :: if i in way then s[i].(hasContainer := true, value := now) else s[i]
  }

  ghost predicate Valid(t: Tree, op: Operation) {
    op.Tick? || (IsPath(t, op.path) && (op.Value? ==> !Sub(t, op.path).item.isStruct))
  }

  ghost function Apply(t: Tree, s: Snapshot, now: TransactionNumber, op: Operation): (u: Snapshot)
    requires Valid(t, op) && Items(t) <= s.Keys
    ensures u.Keys == s.Keys
  {
    match op
    case Tick => s
    case Value(w) =>
      SubItems(t, w);
      var u, i := Marked(s, Above(t, w), now), Sub(t, w).item;
      u[i := u[i].(hasContainer := true, value := now)]
    case Full(w) =>
      SubItems(t, w);
      var u, i := Marked(s, Above(t, w), now), Sub(t, w).item;
      u[i := u[i].(full := now, value := now)]
  }

  datatype Db = Db(s: Snapshot, now: TransactionNumber)

  ghost function Run(t: Tree, db: Db, ops: seq<Operation>): (r: Db)
    requires Items(t) <= db.s.Keys && forall op | op in ops :: Valid(t, op)
    ensures r.s.Keys == db.s.Keys && r.now >= db.now
  {
    if ops == [] then db
    else
      var before, op := Run(t, db, ops[..|ops| - 1]), ops[|ops| - 1];
      Db(Apply(t, before.s, before.now, op), if op.Tick? then before.now + 1 else before.now)
  }

  ghost predicate WrittenAt(ops: seq<Operation>, w: Path) {
    exists op | op in ops :: !op.Tick? && op.path == w
  }

  // ------------------------------------------------- what is true at loading

  // No stamp lies in the future.
  ghost predicate Clocked(s: Snapshot, now: TransactionNumber) {
    forall i | i in s :: s[i].db <= now && s[i].full <= now && s[i].value <= now
  }

  // Where a structure has no data nothing was written in it.
  ghost predicate Untouched(t: Tree, s: Snapshot)
    requires Items(t) <= s.Keys
  {
    forall w | IsPath(t, w) && !Opens(t, w, s) :: SubItems(t, w); s[Sub(t, w).item].full == 0 == s[Sub(t, w).item].value
  }

  lemma {:induction false} AboveStructs(t: Tree, w: Path)
    requires IsPath(t, w) && NestsOnlyStructs(t)
    ensures Above(t, w) <= Items(t) && forall i | i in Above(t, w) :: i.isStruct
    decreases w
  {
    hide NestsOnlyStructs, Items;
    RootItem(t);
    if w != [] {
      KidItems(t, w[0]);
      KidNests(t, w[0]);
      AboveStructs(t.kids[w[0]], w[1..]);
    }
  }

  // An end of a path does not lie above itself.
  lemma NotAboveItself(t: Tree, w: Path, v: Path)
    requires IsPath(t, w) && |v| >= |w| && IsPath(t, v) && OnePlace(t)
    ensures Sub(t, v).item !in Above(t, w)
  {
    if Sub(t, v).item in Above(t, w) {
      var u := AboveHasPath(t, w, Sub(t, v).item);
    }
  }

  lemma {:induction false} AboveHasPath(t: Tree, w: Path, i: DataItem) returns (v: Path)
    requires IsPath(t, w) && i in Above(t, w)
    ensures |v| < |w| && IsPath(t, v) && Sub(t, v).item == i
    decreases w
  {
    if i == t.item {
      v := [];
    } else {
      var u := AboveHasPath(t.kids[w[0]], w[1..], i);
      v := [w[0]] + u;
      assert v[1..] == u;
    }
  }

  lemma {:induction false} OpensIfAbove(t: Tree, w: Path, s: Snapshot)
    requires IsPath(t, w) && Items(t) <= s.Keys
    requires forall i | i in Above(t, w) :: i in s && s[i].hasContainer
    ensures Opens(t, w, s)
    decreases w
  {
    hide Items;
    if w != [] {
      KidItems(t, w[0]);
      OpensIfAbove(t.kids[w[0]], w[1..], s);
    }
  }

  lemma {:induction false} OpensStays(t: Tree, w: Path, s: Snapshot, u: Snapshot)
    requires IsPath(t, w) && Items(t) <= s.Keys && Opens(t, w, s)
    requires s.Keys == u.Keys && forall i | i in s :: s[i].hasContainer ==> u[i].hasContainer
    ensures Opens(t, w, u)
    decreases w
  {
    hide Items;
    RootItem(t);
    if w != [] {
      KidItems(t, w[0]);
      OpensStays(t.kids[w[0]], w[1..], s, u);
    }
  }

  // What one operation means for the item at a path.
  lemma ApplyAt(t: Tree, s: Snapshot, now: TransactionNumber, op: Operation, w: Path)
    requires Valid(t, op) && Items(t) <= s.Keys && NestsOnlyStructs(t) && OnePlace(t) && IsPath(t, w)
    ensures Sub(t, w).item in s
    ensures
      var i, u := Sub(t, w).item, Apply(t, s, now, op);
      u[i].db == s[i].db &&
      (op.Tick? || op.path != w ==> (Newer(i, u[i]) <==> Newer(i, s[i]))) &&
      (!op.Tick? && op.path == w && s[i].db < now ==> Newer(i, u[i]) && Opens(t, w, u))
    ensures forall i | i in s && s[i].hasContainer :: Apply(t, s, now, op)[i].hasContainer
  {
    hide NestsOnlyStructs, Items;
    SubItems(t, w);
    if !op.Tick? {
      SubItems(t, op.path);
      AboveStructs(t, op.path);
      if op.path == w {
        NotAboveItself(t, w, w);
        OpensIfAbove(t, w, Apply(t, s, now, op));
      } else {
        assert Sub(t, w).item != Sub(t, op.path).item;
      }
    }
  }

  // After a run an item is modified exactly if it was before, or the run wrote it;
  // the structures above it have data then.
  lemma {:induction false} RunAt(t: Tree, db: Db, ops: seq<Operation>, w: Path)
    requires Items(t) <= db.s.Keys && NestsOnlyStructs(t) && OnePlace(t) && IsPath(t, w)
    requires forall op | op in ops :: Valid(t, op)
    requires Sub(t, w).item in db.s && db.s[Sub(t, w).item].db < db.now
    ensures
      var i, r := Sub(t, w).item, Run(t, db, ops);
      r.s[i].db == db.s[i].db && (Newer(i, r.s[i]) <==> Newer(i, db.s[i]) || WrittenAt(ops, w)) &&
      (WrittenAt(ops, w) ==> Opens(t, w, r.s))
    ensures forall i | i in db.s && db.s[i].hasContainer :: Run(t, db, ops).s[i].hasContainer
  {
    hide NestsOnlyStructs, OnePlace, Items, Apply, Newer, Valid;
    if ops != [] {
      var front, op := ops[..|ops| - 1], ops[|ops| - 1];
      RunAt(t, db, front, w);
      var before := Run(t, db, front);
      ApplyAt(t, before.s, before.now, op, w);
      assert ops == front + [op];
      if WrittenAt(front, w) {
        OpensStays(t, w, before.s, Run(t, db, ops).s);
      }
    }
  }

  // The place where a path ends too early: the first structure without data.
  ghost predicate ClosedAt(t: Tree, p: Path, q: Path, s: Snapshot)
    requires Items(t) <= s.Keys
  {
    q < p && IsPath(t, q) && Opens(t, q, s) && (SubItems(t, q); !s[Sub(t, q).item].hasContainer)
  }

  // There is such a place exactly if the path is not open, and its item is all
  // that is compared then.
  lemma {:induction false} ComparedIfClosed(t: Tree, p: Path, s: Snapshot)
    requires IsPath(t, p) && Items(t) <= s.Keys
    ensures !Opens(t, p, s) <==> exists q :: ClosedAt(t, p, q, s)
    ensures forall q | ClosedAt(t, p, q, s) :: Compared(t, p, s) == if Clear(t, q) then {Sub(t, q).item} else {}
    decreases p
  {
    hide Items, Visible;
    RootItem(t);
    if p != [] {
      var kid, rest := t.kids[p[0]], p[1..];
      KidItems(t, p[0]);
      ComparedIfClosed(kid, rest, s);
      assert !s[t.item].hasContainer ==> ClosedAt(t, p, [], s);
      forall q | s[t.item].hasContainer && ClosedAt(t, p, q, s)
        ensures q != [] && ClosedAt(kid, rest, q[1..], s) && (Clear(t, q) ==> Sub(t, q) == Sub(kid, q[1..]))
      {
      }
      forall q | s[t.item].hasContainer && ClosedAt(kid, rest, q, s) ensures ClosedAt(t, p, [p[0]] + q, s) {
        assert ([p[0]] + q)[1..] == q;
      }
    }
  }

  // After loading, in a new transaction, data counts as modified exactly if an
  // item was written below the path that has no transient item on its way. If
  // the path has no data still, the item where it ends is judged alone, and not
  // by what happened since loading.
  lemma ModifiedExactly(t: Tree, p: Path, s: Snapshot, now: TransactionNumber, ops: seq<Operation>)
    requires NestsOnlyStructs(t) && OnePlace(t) && IsPath(t, p) && Items(t) <= s.Keys
    requires Clocked(s, now) && Untouched(t, s)
    requires forall op | op in ops :: Valid(t, op)
    ensures
      var r := Run(t, Db(Stamp(s, Stamped(t, p, s), now), now + 1), ops);
      (Opens(t, p, r.s) ==>
        (Modified(t, p, r.s) <==> exists op | op in ops :: !op.Tick? && p <= op.path && Clear(t, op.path))) &&
      forall q | ClosedAt(t, p, q, r.s) ::
        Sub(t, q).item in s &&
        (Modified(t, p, r.s) <==>
         Clear(t, q) && (Newer(Sub(t, q).item, s[Sub(t, q).item]) || WrittenAt(ops, q)))
  {
    hide NestsOnlyStructs, OnePlace, Items, Visible, Newer, Run, Stamped, Compared;
    var r := Run(t, Db(Stamp(s, Stamped(t, p, s), now), now + 1), ops);
    if Opens(t, p, r.s) {
      ModifiedIfOpen(t, p, s, now, ops);
    }
    forall q | ClosedAt(t, p, q, r.s)
      ensures
        Sub(t, q).item in s &&
        (Modified(t, p, r.s) <==>
         Clear(t, q) && (Newer(Sub(t, q).item, s[Sub(t, q).item]) || WrittenAt(ops, q)))
    {
      ModifiedIfClosed(t, p, q, s, now, ops);
    }
  }

  lemma ModifiedIfOpen(t: Tree, p: Path, s: Snapshot, now: TransactionNumber, ops: seq<Operation>)
    requires NestsOnlyStructs(t) && OnePlace(t) && IsPath(t, p) && Items(t) <= s.Keys
    requires Clocked(s, now) && Untouched(t, s)
    requires forall op | op in ops :: Valid(t, op)
    requires Opens(t, p, Run(t, Db(Stamp(s, Stamped(t, p, s), now), now + 1), ops).s)
    ensures
      var r := Run(t, Db(Stamp(s, Stamped(t, p, s), now), now + 1), ops);
      Modified(t, p, r.s) <==> exists op | op in ops :: !op.Tick? && p <= op.path && Clear(t, op.path)
  {
    hide NestsOnlyStructs, OnePlace, Items, Visible, Newer, Run, Stamped, Compared;
    var s1 := Stamp(s, Stamped(t, p, s), now);
    var r := Run(t, Db(s1, now + 1), ops);
    if Modified(t, p, r.s) {
      var i :| i in Compared(t, p, r.s) && Newer(i, r.s[i]);
      var w := ComparedHasPath(t, p, r.s, i);
      LoadedAt(t, p, s, now, w);
      RunAt(t, Db(s1, now + 1), ops, w);
    }
    forall op | op in ops && !op.Tick? && p <= op.path && Clear(t, op.path) ensures Modified(t, p, r.s) {
      LoadedAt(t, p, s, now, op.path);
      RunAt(t, Db(s1, now + 1), ops, op.path);
      PathIsCompared(t, p, r.s, op.path);
    }
  }

  lemma ModifiedIfClosed(t: Tree, p: Path, q: Path, s: Snapshot, now: TransactionNumber, ops: seq<Operation>)
    requires NestsOnlyStructs(t) && OnePlace(t) && IsPath(t, p) && Items(t) <= s.Keys && Clocked(s, now)
    requires forall op | op in ops :: Valid(t, op)
    requires ClosedAt(t, p, q, Run(t, Db(Stamp(s, Stamped(t, p, s), now), now + 1), ops).s)
    ensures
      var r := Run(t, Db(Stamp(s, Stamped(t, p, s), now), now + 1), ops);
      Sub(t, q).item in s &&
      (Modified(t, p, r.s) <==>
       Clear(t, q) && (Newer(Sub(t, q).item, s[Sub(t, q).item]) || WrittenAt(ops, q)))
  {
    hide NestsOnlyStructs, OnePlace, Items, Visible, Newer, Run, Stamped, Compared;
    var s1, i := Stamp(s, Stamped(t, p, s), now), Sub(t, q).item;
    var r := Run(t, Db(s1, now + 1), ops);
    SubItems(t, q);
    ComparedIfClosed(t, p, r.s);
    if Opens(t, p, s) {
      RunGrows(t, Db(s1, now + 1), ops);
      OpensStays(t, p, s, r.s);
    }
    ComparedIfOpen(t, p, s);
    StampNone(s, now);
    RunAt(t, Db(s1, now + 1), ops, q);
  }

  // Right after loading the item at a path below p is not modified.
  lemma LoadedAt(t: Tree, p: Path, s: Snapshot, now: TransactionNumber, w: Path)
    requires NestsOnlyStructs(t) && IsPath(t, p) && IsPath(t, w) && p <= w && Items(t) <= s.Keys
    requires Clocked(s, now) && Untouched(t, s)
    ensures
      var s1, i := Stamp(s, Stamped(t, p, s), now), Sub(t, w).item;
      i in s1 && s1[i].db <= now && (Clear(t, w) ==> !Newer(i, s1[i]))
  {
    hide NestsOnlyStructs, Items, Visible, Stamped;
    SubItems(t, w);
    if Clear(t, w) && Opens(t, w, s) {
      PathIsCompared(t, p, s, w);
    }
  }

  lemma {:induction false} RunGrows(t: Tree, db: Db, ops: seq<Operation>)
    requires Items(t) <= db.s.Keys && forall op | op in ops :: Valid(t, op)
    ensures forall i | i in db.s && db.s[i].hasContainer :: Run(t, db, ops).s[i].hasContainer
  {
    hide Items;
    if ops != [] {
      RunGrows(t, db, ops[..|ops| - 1]);
    }
  }

  lemma {:induction false} ComparedIfOpen(t: Tree, p: Path, s: Snapshot)
    requires IsPath(t, p) && Items(t) <= s.Keys
    ensures Opens(t, p, s) ==> Compared(t, p, s) == Stamped(t, p, s)
    ensures !Opens(t, p, s) ==> Stamped(t, p, s) == {}
    decreases p
  {
    hide Items, Visible;
    if p != [] {
      KidItems(t, p[0]);
      ComparedIfOpen(t.kids[p[0]], p[1..], s);
    }
  }

  // The first visitor settles the question exactly if the data on the path
  // exist. Otherwise it stamps nothing, and the second visitor still judges the
  // item where the path ends too early.
  lemma LoadingSettles(t: Tree, p: Path, s: Snapshot, now: TransactionNumber)
    requires IsPath(t, p) && Items(t) <= s.Keys && Clocked(s, now)
    ensures !Modified(t, p, Stamp(s, Stamped(t, p, s), now)) <==> Opens(t, p, s) || !Modified(t, p, s)
  {
    hide Items, Visible, Opens, Stamped, Compared;
    ComparedIfOpen(t, p, s);
    if Opens(t, p, s) {
      var s1 := Stamp(s, Stamped(t, p, s), now);
      OpensStays(t, p, s, s1);
      ComparedIfOpen(t, p, s1);
      StampedAfterStamp(t, p, s, Stamped(t, p, s), now);
    } else {
      StampNone(s, now);
    }
  }

  lemma {:induction false} StampedAfterStamp(t: Tree, p: Path, s: Snapshot, items: set<DataItem>, ts: TransactionNumber)
    requires IsPath(t, p) && Items(t) <= s.Keys
    ensures Stamped(t, p, Stamp(s, items, ts)) == Stamped(t, p, s)
    decreases p
  {
    hide Items, Visible;
    RootItem(t);
    if p == [] {
      VisibleAfterStamp(t, s, items, ts);
    } else {
      KidItems(t, p[0]);
      StampedAfterStamp(t.kids[p[0]], p[1..], s, items, ts);
    }
  }

  // Without a new transaction, writes to data that were loaded go unnoticed.
  lemma SameTransactionMissed(t: Tree, p: Path, s: Snapshot, now: TransactionNumber, ops: seq<Operation>)
    requires NestsOnlyStructs(t) && OnePlace(t) && IsPath(t, p) && Items(t) <= s.Keys
    requires Clocked(s, now) && Untouched(t, s) && Opens(t, p, s)
    requires forall op | op in ops :: Valid(t, op) && !op.Tick? && Opens(t, op.path, s)
    ensures !Modified(t, p, Run(t, Db(Stamp(s, Stamped(t, p, s), now), now), ops).s)
  {
    hide NestsOnlyStructs, OnePlace, Items, Visible, Newer, Run, Stamped, Compared;
    var db := Db(Stamp(s, Stamped(t, p, s), now), now);
    var r := Run(t, db, ops);
    RunGrows(t, db, ops);
    OpensStays(t, p, s, r.s);
    if Modified(t, p, r.s) {
      var i :| i in Compared(t, p, r.s) && Newer(i, r.s[i]);
      var w := ComparedHasPath(t, p, r.s, i);
      LoadedAt(t, p, s, now, w);
      if Opens(t, w, s) {
        PathIsCompared(t, p, s, w);
        RunInOneTransaction(t, db, ops, i);
        NotNewer(i, r.s[i], now);
      } else {
        NotWrittenAt(t, db, ops, w);
      }
    }
  }

  lemma NotNewer(i: DataItem, s: Stamps, now: TransactionNumber)
    requires s.db == now && s.full <= now && s.value <= now
    ensures !Newer(i, s)
  {
  }

  lemma {:induction false} RunInOneTransaction(t: Tree, db: Db, ops: seq<Operation>, i: DataItem)
    requires Items(t) <= db.s.Keys && i in db.s && forall op | op in ops :: Valid(t, op) && !op.Tick?
    requires db.s[i].full <= db.now && db.s[i].value <= db.now
    ensures
      var r := Run(t, db, ops);
      r.now == db.now && r.s[i].db == db.s[i].db && r.s[i].full <= db.now && r.s[i].value <= db.now
  {
    hide Items;
    if ops != [] {
      RunInOneTransaction(t, db, ops[..|ops| - 1], i);
    }
  }

  lemma {:induction false} NotWrittenAt(t: Tree, db: Db, ops: seq<Operation>, w: Path)
    requires Items(t) <= db.s.Keys && NestsOnlyStructs(t) && OnePlace(t) && IsPath(t, w)
    requires forall op | op in ops :: Valid(t, op) && (op.Tick? || op.path != w)
    ensures Sub(t, w).item in db.s
    ensures Newer(Sub(t, w).item, Run(t, db, ops).s[Sub(t, w).item]) <==> Newer(Sub(t, w).item, db.s[Sub(t, w).item])
  {
    hide NestsOnlyStructs, OnePlace, Items, Apply, Newer;
    SubItems(t, w);
    if ops != [] {
      var front, op := ops[..|ops| - 1], ops[|ops| - 1];
      NotWrittenAt(t, db, front, w);
      ApplyAt(t, Run(t, db, front).s, Run(t, db, front).now, op, w);
    }
  }

  // ------------------------------------------------ histories of loading

  // A write, or marking the data along a path as loaded: with the number of a
  // transaction, or the current one for 0, and followed by a new one or not.
  datatype Event = Write(op: Operation) | Load(path: Path, trans: TransactionNumber, newTransaction: bool)

  ghost predicate Possible(t: Tree, db: Db, e: Event) {
    Items(t) <= db.s.Keys && if e.Write? then Valid(t, e.op) else IsPath(t, e.path) && e.trans <= db.now
  }

  ghost function Next(t: Tree, db: Db, e: Event): (r: Db)
    requires Possible(t, db, e)
    ensures r.s.Keys == db.s.Keys
  {
    match e
    case Write(op) => Db(Apply(t, db.s, db.now, op), if op.Tick? then db.now + 1 else db.now)
    case Load(p, trans, newTransaction) =>
      Db(Stamp(db.s, Stamped(t, p, db.s), if trans == 0 then db.now else trans),
         if newTransaction then db.now + 1 else db.now)
  }

  ghost function NoData(t: Tree): Snapshot {
    map i | i in Items(t) :: Stamps(false, 0, 0, 0)
  }

  // Any run of writes and loads, from items without data on.
  ghost predicate History(t: Tree, dbs: seq<Db>, events: seq<Event>) {
    |dbs| == |events| + 1 && dbs[0].s == NoData(t) &&
    forall k | 0 <= k < |events| :: Possible(t, dbs[k], events[k]) && dbs[k + 1] == Next(t, dbs[k], events[k])
  }

  lemma {:induction false} AboveOpens(t: Tree, w: Path, s: Snapshot, i: DataItem) returns (v: Path)
    requires IsPath(t, w) && Items(t) <= s.Keys && Opens(t, w, s) && i in Above(t, w)
    ensures IsPath(t, v) && Sub(t, v).item == i && Opens(t, v, s)
    decreases w
  {
    hide Items;
    if i == t.item {
      v := [];
    } else {
      KidItems(t, w[0]);
      var u := AboveOpens(t.kids[w[0]], w[1..], s, i);
      v := [w[0]] + u;
      assert v[1..] == u;
    }
  }

  // Where an operation wrote, the data above exist.
  lemma WrittenOpens(t: Tree, s: Snapshot, now: TransactionNumber, op: Operation, w: Path)
    requires Valid(t, op) && !op.Tick? && Items(t) <= s.Keys && NestsOnlyStructs(t) && OnePlace(t) && IsPath(t, w)
    requires Sub(t, w).item in Above(t, op.path) || Sub(t, w).item == Sub(t, op.path).item
    ensures Opens(t, w, Apply(t, s, now, op))
  {
    hide NestsOnlyStructs, Items;
    var u := Apply(t, s, now, op);
    SubItems(t, op.path);
    AboveStructs(t, op.path);
    OpensIfAbove(t, op.path, u);
    if Sub(t, w).item in Above(t, op.path) {
      var v := AboveOpens(t, op.path, u, Sub(t, w).item);
    }
  }

  lemma ApplyKeeps(t: Tree, s: Snapshot, now: TransactionNumber, op: Operation)
    requires Valid(t, op) && Items(t) <= s.Keys && NestsOnlyStructs(t) && OnePlace(t)
    requires Clocked(s, now) && Untouched(t, s)
    ensures Clocked(Apply(t, s, now, op), now) && Untouched(t, Apply(t, s, now, op))
  {
    hide NestsOnlyStructs, OnePlace, Items;
    var u := Apply(t, s, now, op);
    if !op.Tick? {
      SubItems(t, op.path);
      forall w | IsPath(t, w) && !Opens(t, w, u)
        ensures Sub(t, w).item in u && u[Sub(t, w).item].full == 0 == u[Sub(t, w).item].value
      {
        SubItems(t, w);
        if Opens(t, w, s) {
          OpensStays(t, w, s, u);
        }
        if Sub(t, w).item in Above(t, op.path) || Sub(t, w).item == Sub(t, op.path).item {
          WrittenOpens(t, s, now, op, w);
        }
      }
    }
  }

  lemma StampKeeps(t: Tree, s: Snapshot, items: set<DataItem>, ts: TransactionNumber, now: TransactionNumber)
    requires Items(t) <= s.Keys && Clocked(s, now) && Untouched(t, s) && ts <= now
    ensures Clocked(Stamp(s, items, ts), now) && Untouched(t, Stamp(s, items, ts))
  {
    hide Items;
    var u := Stamp(s, items, ts);
    forall w | IsPath(t, w) && !Opens(t, w, u)
      ensures Sub(t, w).item in u && u[Sub(t, w).item].full == 0 == u[Sub(t, w).item].value
    {
      SubItems(t, w);
      if Opens(t, w, s) {
        OpensStays(t, w, s, u);
      }
    }
  }

  // In every state of a history no stamp lies in the future, and where there are
  // no data nothing was written.
  lemma {:induction false} HistoryKeeps(t: Tree, dbs: seq<Db>, events: seq<Event>, k: nat)
    requires NestsOnlyStructs(t) && OnePlace(t) && History(t, dbs, events) && k <= |events|
    ensures Items(t) <= dbs[k].s.Keys && Clocked(dbs[k].s, dbs[k].now) && Untouched(t, dbs[k].s)
  {
    hide NestsOnlyStructs, OnePlace, Items, Clocked, Untouched, Apply, Stamp, Stamped;
    if k == 0 {
      NothingYet(t, dbs[0].now);
    } else {
      HistoryKeeps(t, dbs, events, k - 1);
      var db, e := dbs[k - 1], events[k - 1];
      assert dbs[k - 1 + 1] == Next(t, db, e);
      match e {
        case Write(op) => ApplyKeeps(t, db.s, db.now, op);
        case Load(p, trans, _) =>
          StampKeeps(t, db.s, Stamped(t, p, db.s), if trans == 0 then db.now else trans, db.now);
      }
      LaterClock(dbs[k].s, db.now, dbs[k].now);
    }
  }

  lemma NothingYet(t: Tree, now: TransactionNumber)
    ensures Items(t) <= NoData(t).Keys && Clocked(NoData(t), now) && Untouched(t, NoData(t))
  {
    hide Items;
    forall w | IsPath(t, w) ensures Sub(t, w).item in NoData(t) {
      SubItems(t, w);
    }
  }

  lemma LaterClock(s: Snapshot, now: TransactionNumber, later: TransactionNumber)
    requires Clocked(s, now) && now <= later
    ensures Clocked(s, later)
  {
  }

  // After any history, loading along a path and any later run of writes, data is
  // reported modified as `ModifiedExactly` says.
  lemma ModifiedAfterHistory(t: Tree, dbs: seq<Db>, events: seq<Event>, p: Path, ops: seq<Operation>)
    requires NestsOnlyStructs(t) && OnePlace(t) && History(t, dbs, events) && IsPath(t, p)
    requires forall op | op in ops :: Valid(t, op)
    ensures Possible(t, dbs[|events|], Load(p, 0, true))
    ensures
      var s, r := dbs[|events|].s, Run(t, Next(t, dbs[|events|], Load(p, 0, true)), ops);
      (Opens(t, p, r.s) ==>
        (Modified(t, p, r.s) <==> exists op | op in ops :: !op.Tick? && p <= op.path && Clear(t, op.path))) &&
      forall q | ClosedAt(t, p, q, r.s) ::
        Sub(t, q).item in s &&
        (Modified(t, p, r.s) <==>
         Clear(t, q) && (Newer(Sub(t, q).item, s[Sub(t, q).item]) || WrittenAt(ops, q)))
  {
    hide NestsOnlyStructs, OnePlace, Items, Visible, Newer, Run, Stamped, Compared, Untouched, Clocked;
    HistoryKeeps(t, dbs, events, |events|);
    ModifiedExactly(t, p, dbs[|events|].s, dbs[|events|].now, ops);
  }

  method CreateData(item: DataItem, ghost all: set<DataItem>)
    requires item in all
    modifies item
    ensures Snap(all) == old(Snap(all))[item := old(item.State()).(hasContainer := true)]
  {
    ghost var s := Snap(all);
    item.hasContainer := true;
    forall i | i in all && i != item ensures i.State() == s[i] {
    }
  }

  method SetValueUpdated(item: DataItem, now: TransactionNumber, ghost all: set<DataItem>)
    requires item in all
    modifies item
    ensures Snap(all) == old(Snap(all))[item := old(item.State()).(value := now)]
  {
    ghost var s := Snap(all);
    item.valueUpdated := now;
    forall i | i in all && i != item ensures i.State() == s[i] {
    }
  }

  // Writing a value: data are created on the way down, marked on the way back.
  method AlterValue(datapool: DataPool, t: Tree, p: Path, ghost all: set<DataItem>)
    requires Valid(t, Value(p)) && Items(t) <= all
    modifies all
    ensures Snap(all) == Apply(t, old(Snap(all)), datapool.transaction, Value(p))
    decreases p
  {
    hide Items, Apply, Sub, Snap;
    RootItem(t);
    ghost var s, now := Snap(all), datapool.transaction;
    SnapAt(all, t.item);
    CreateData(t.item, all);
    ghost var s1 := Snap(all);
    ghost var s2 := s1;
    if p != [] {
      KidItems(t, p[0]);
      ValidBelow(t, p);
      AlterValue(datapool, t.kids[p[0]], p[1..], all);
      s2 := Apply(t.kids[p[0]], s1, now, Value(p[1..]));
    }
    SnapAt(all, t.item);
    SetValueUpdated(t.item, datapool.transaction, all);
    MarkOneMore(t, p, s, now, s2);
  }

  lemma ValidBelow(t: Tree, p: Path)
    requires Valid(t, Value(p)) && p != []
    ensures IsPath(t, p) && Valid(t.kids[p[0]], Value(p[1..]))
  {
  }

  // Marking the way below the first structure and then the structure itself
  // marks the whole way.
  lemma MarkOneMore(t: Tree, p: Path, s: Snapshot, now: TransactionNumber, s2: Snapshot)
    requires Valid(t, Value(p)) && Items(t) <= s.Keys && t.item in s
    requires
      var s1 := s[t.item := s[t.item].(hasContainer := true)];
      if p == [] then s2 == s1
      else
        Items(t.kids[p[0]]) <= Items(t) && Valid(t.kids[p[0]], Value(p[1..])) &&
        s2 == Apply(t.kids[p[0]], s1, now, Value(p[1..]))
    ensures t.item in s2 && Apply(t, s, now, Value(p)) == s2[t.item := s2[t.item].(value := now)]
  {
    hide Items, Apply;
    WrittenIs(t, p, s, now);
    if p == [] {
      assert Way(t, p) == {t.item};
    } else {
      WrittenIs(t.kids[p[0]], p[1..], s[t.item := s[t.item].(hasContainer := true)], now);
      assert Way(t, p) == {t.item} + Way(t.kids[p[0]], p[1..]);
    }
  }

  ghost function Way(t: Tree, p: Path): set<DataItem>
    requires IsPath(t, p)
  {
    Above(t, p) + {Sub(t, p).item}
  }

  lemma WrittenIs(t: Tree, p: Path, s: Snapshot, now: TransactionNumber)
    requires Valid(t, Value(p)) && Items(t) <= s.Keys
    ensures Apply(t, s, now, Value(p)) == Marked(s, Way(t, p), now)
  {
    hide Items;
    SubItems(t, p);
  }
}
