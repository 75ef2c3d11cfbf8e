// Streams that feed other streams. Clearing the targets of a stream walks the
// graph of streams, which may have cycles, and invalidates what depends on it.

module StreamGraph {

  const INVALID := -1

  // ------------------------------------------------------------- the graph

  // The streams that a stream passes its clearing on to, and the streams that
  // share its items. A stream whose data are as new as the clearing passes on
  // nothing.
  datatype Graph = Graph(all: set<BasicStream>, targets: map<BasicStream, set<BasicStream>>,
                         items: map<BasicStream, set<BasicStream>>) {
    ghost predicate Valid() {
      targets.Keys == all && items.Keys == all && forall s | s in all :: targets[s] <= all && items[s] <= all
    }
  }

  ghost predicate ItemTargetsIn(g: Graph, s: BasicStream, c: set<BasicStream>)
    requires g.Valid() && s in g.all
  {
    forall i | i in g.items[s] :: g.targets[i] <= c
  }

  // Whoever is in c passes its clearing on within c.
  ghost predicate ClosedUnder(g: Graph, c: set<BasicStream>)
    requires g.Valid()
  {
    forall s | s in g.all && s in c :: g.targets[s] <= c && ItemTargetsIn(g, s, c)
  }

  // -------------------------------------------------------------- the marks

  // The streams whose items, and whose targets, carry the mark of a clearing.
  datatype Marks = Marks(items: set<BasicStream>, targets: set<BasicStream>)

  function Both(m: Marks): set<BasicStream> {
    m.items * m.targets
  }

  function MarkItems(m: Marks, s: BasicStream): Marks {
    m.(items := m.items + {s})
  }

  function MarkTargets(m: Marks, s: BasicStream): Marks {
    m.(targets := m.targets + {s})
  }

  // Marks grow from m to n: only streams of c get marks, and every stream with
  // new marks has passed them on.
  ghost predicate Progress(g: Graph, c: set<BasicStream>, m: Marks, n: Marks)
    requires g.Valid()
  {
    m.items <= n.items <= m.items + c && m.targets <= n.targets <= m.targets + c &&
    n.items <= g.all && n.targets <= g.all &&
    (forall s | s in n.items && s !in m.items :: s in n.targets && ItemTargetsIn(g, s, Both(n))) &&
    (forall s | s in n.targets && s !in m.targets :: s in n.items && g.targets[s] <= Both(n))
  }

  lemma ProgressGoesOn(g: Graph, c: set<BasicStream>, m: Marks, n: Marks, o: Marks)
    requires g.Valid() && Progress(g, c, m, n) && Progress(g, c, n, o)
    ensures Progress(g, c, m, o) && Both(n) <= Both(o)
  {
  }

  // One stream: its items, if they were not marked, and then its targets.
  lemma ProgressOfStream(g: Graph, c: set<BasicStream>, x: BasicStream, m: Marks, n: Marks, o: Marks)
    requires g.Valid() && x in g.all && x in c && m.items <= g.all && m.targets <= g.all
    requires if x in m.items then n == m else Progress(g, c, MarkItems(m, x), n) && ItemTargetsIn(g, x, Both(n))
    requires if x in n.targets then o == n else Progress(g, c, MarkTargets(n, x), o) && g.targets[x] <= Both(o)
    ensures Progress(g, c, m, o) && x in Both(o)
  {
  }

  // ---------------------------------------------------------- termination

  function Left(g: Graph, m: Marks): nat {
    |g.all - m.items| + |g.all - m.targets|
  }

  lemma SubsetSize(a: set<BasicStream>, b: set<BasicStream>)
    requires a <= b
    ensures |a| <= |b| && (a != b ==> |a| < |b|)
  {
    assert b == a + (b - a);
  }

  lemma LeftShrinks(g: Graph, m: Marks, n: Marks)
    requires m.items <= n.items && m.targets <= n.targets
    ensures Left(g, n) <= Left(g, m)
    ensures forall x | x in g.all && ((x in n.items && x !in m.items) || (x in n.targets && x !in m.targets)) ::
      Left(g, n) < Left(g, m)
  {
    SubsetSize(g.all - n.items, g.all - m.items);
    SubsetSize(g.all - n.targets, g.all - m.targets);
  }

  // ---------------------------------------------------------- the streams

  class BasicStream {
    var targetStreams: seq<BasicStream>
    var itemStreams: seq<BasicStream>
    var sourceIds: seq<int>  // the transactions in which its data were read
    var dataValid: int
    var itemsAreCleared: nat
    var targetsAreCleared: nat

    constructor ()
      ensures targetStreams == [] && itemStreams == [] && sourceIds == []
      ensures dataValid == itemsAreCleared == targetsAreCleared == 0
    {
      targetStreams, itemStreams, sourceIds := [], [], [];
      dataValid, itemsAreCleared, targetsAreCleared := 0, 0, 0;
    }

    method SetDataItemsInvalid(ghost g: Graph, ts: nat)
      requires this in g.all
      modifies this`dataValid
      ensures MarksOf(g, ts) == old(MarksOf(g, ts)) && ValidOf(g) == Invalidated(old(ValidOf(g)), {this})
    {
      dataValid := INVALID;
    }

    method SetItemsAreCleared(ghost g: Graph, ts: nat)
      requires this in g.all
      modifies this`itemsAreCleared
      ensures MarksOf(g, ts) == MarkItems(old(MarksOf(g, ts)), this)
    {
      itemsAreCleared := ts;
    }

    method SetTargetsAreCleared(ghost g: Graph, ts: nat)
      requires this in g.all
      modifies this`targetsAreCleared
      ensures MarksOf(g, ts) == MarkTargets(old(MarksOf(g, ts)), this)
    {
      targetsAreCleared := ts;
    }

    // Clears a stream that depends on cleared data: its items and its targets.
    method ClearItemsAndTargets(ts: nat, ghost g: Graph, ghost c: set<BasicStream>)
      requires ts > 0 && g.Valid() && Depicts(g, ts) && this in g.all && this in c && ClosedUnder(g, c)
      modifies g.all`itemsAreCleared, g.all`targetsAreCleared, g.all`dataValid
      ensures Depicts(g, ts) && this in Both(MarksOf(g, ts))
      ensures Cleared(g, c, old(MarksOf(g, ts)), old(ValidOf(g)), MarksOf(g, ts), ValidOf(g))
      decreases Left(g, MarksOf(g, ts)), 0
    {
      hide Cleared, ClosedUnder, Left, Depicts, MarksOf, ValidOf, Invalidated, ItemTargetsIn;
      ghost var m, v, u := MarksOf(g, ts), ValidOf(g), ValidOf(g);
      MarkedAt(g, ts, this);
      ClosedAt(g, c, this);
      if itemsAreCleared != ts || (itemsAreCleared == 0 && ts == 0) {
        SetItemsAreCleared(g, ts);
        LeftShrinks(g, m, MarkItems(m, this));
        ClearItemStreams(ts, g, c);
        ClearedGrows(g, c, MarkItems(m, this), v, MarksOf(g, ts), ValidOf(g));
        u := ValidOf(g);
        SetDataItemsInvalid(g, ts);
      }
      ghost var n, w := MarksOf(g, ts), ValidOf(g);
      MarkedAt(g, ts, this);
      if targetsAreCleared != ts {
        SetTargetsAreCleared(g, ts);
        LeftShrinks(g, m, n);
        LeftShrinks(g, n, MarkTargets(n, this));
        ClearTargets(ts, g, c);
      }
      StreamIsCleared(g, c, this, m, v, u, n, w, MarksOf(g, ts), ValidOf(g));
    }

    method ClearItemStreams(ts: nat, ghost g: Graph, ghost c: set<BasicStream>)
      requires ts > 0 && g.Valid() && Depicts(g, ts) && this in g.all && ItemTargetsIn(g, this, c) && ClosedUnder(g, c)
      modifies g.all`itemsAreCleared, g.all`targetsAreCleared, g.all`dataValid
      ensures Depicts(g, ts) && ItemTargetsIn(g, this, Both(MarksOf(g, ts)))
      ensures Cleared(g, c, old(MarksOf(g, ts)), old(ValidOf(g)), MarksOf(g, ts), ValidOf(g))
      decreases Left(g, MarksOf(g, ts)), 2
    {
      hide Cleared, ClosedUnder, Left, Depicts, MarksOf, ValidOf, Invalidated, Both;
      ghost var m, v := MarksOf(g, ts), ValidOf(g);
      MarkedAt(g, ts, this);
      NothingCleared(g, c, m, v);
      ItemStreamsAre(g, ts, this);
      for k := 0 to |itemStreams|
        invariant Depicts(g, ts) && Cleared(g, c, m, v, MarksOf(g, ts), ValidOf(g))
        invariant forall i | i in itemStreams[..k] :: g.targets[i] <= Both(MarksOf(g, ts))
      {
        ghost var n, w := MarksOf(g, ts), ValidOf(g);
        ClearedGrows(g, c, m, v, n, w);
        LeftShrinks(g, m, n);
        itemStreams[k].ClearTargets(ts, g, c);
        ClearedGrows(g, c, n, w, MarksOf(g, ts), ValidOf(g));
        ClearedGoesOn(g, c, m, v, n, w, MarksOf(g, ts), ValidOf(g));
      }
      assert itemStreams[..|itemStreams|] == itemStreams;
    }

    method ClearTargets(ts: nat, ghost g: Graph, ghost c: set<BasicStream>)
      requires ts > 0 && g.Valid() && Depicts(g, ts) && this in g.all && g.targets[this] <= c && ClosedUnder(g, c)
      modifies g.all`itemsAreCleared, g.all`targetsAreCleared, g.all`dataValid
      ensures Depicts(g, ts) && g.targets[this] <= Both(MarksOf(g, ts))
      ensures Cleared(g, c, old(MarksOf(g, ts)), old(ValidOf(g)), MarksOf(g, ts), ValidOf(g))
      decreases Left(g, MarksOf(g, ts)), 1
    {
      hide Cleared, ClosedUnder, Left, Depicts, MarksOf, ValidOf, Invalidated, Both, ItemTargetsIn;
      ghost var m, v := MarksOf(g, ts), ValidOf(g);
      MarkedAt(g, ts, this);
      NothingCleared(g, c, m, v);
      TargetsAre(g, ts, this);
      for k := 0 to |targetStreams|
        invariant Depicts(g, ts) && Cleared(g, c, m, v, MarksOf(g, ts), ValidOf(g))
        invariant ts !in sourceIds ==> forall t | t in targetStreams[..k] :: t in Both(MarksOf(g, ts))
      {
        if ts in sourceIds {
          continue;
        }
        ghost var n, w := MarksOf(g, ts), ValidOf(g);
        ClearedGrows(g, c, m, v, n, w);
        LeftShrinks(g, m, n);
        targetStreams[k].ClearItemsAndTargets(ts, g, c);
        ClearedGrows(g, c, n, w, MarksOf(g, ts), ValidOf(g));
        ClearedGoesOn(g, c, m, v, n, w, MarksOf(g, ts), ValidOf(g));
      }
      assert targetStreams[..|targetStreams|] == targetStreams;
    }
  }

  lemma MarkedAt(g: Graph, ts: nat, s: BasicStream)
    requires s in g.all
    ensures s in MarksOf(g, ts).items <==> s.itemsAreCleared == ts
    ensures s in MarksOf(g, ts).targets <==> s.targetsAreCleared == ts
    ensures MarksOf(g, ts).items <= g.all && MarksOf(g, ts).targets <= g.all && ValidOf(g).Keys == g.all
  {
  }

  lemma ItemStreamsAre(g: Graph, ts: nat, s: BasicStream)
    requires g.Valid() && Depicts(g, ts) && s in g.all
    ensures forall i :: i in s.itemStreams <==> i in g.items[s]
    ensures forall i | i in s.itemStreams :: i in g.all
  {
  }

  lemma TargetsAre(g: Graph, ts: nat, s: BasicStream)
    requires g.Valid() && Depicts(g, ts) && s in g.all
    ensures forall t | t in s.targetStreams :: t in g.all
    ensures if ts in s.sourceIds then g.targets[s] == {} else forall t :: t in s.targetStreams <==> t in g.targets[s]
  {
  }

  // Marks grow, and exactly the streams with new marks on their items become
  // invalid.
  ghost predicate Cleared(g: Graph, c: set<BasicStream>, m: Marks, v: map<BasicStream, int>, n: Marks,
                          w: map<BasicStream, int>)
    requires g.Valid()
  {
    Progress(g, c, m, n) && w == Invalidated(v, n.items - m.items)
  }

  lemma NothingCleared(g: Graph, c: set<BasicStream>, m: Marks, v: map<BasicStream, int>)
    requires g.Valid() && m.items <= g.all && m.targets <= g.all
    ensures Cleared(g, c, m, v, m, v)
  {
  }

  lemma ClearedGrows(g: Graph, c: set<BasicStream>, m: Marks, v: map<BasicStream, int>, n: Marks,
                     w: map<BasicStream, int>)
    requires g.Valid() && Cleared(g, c, m, v, n, w)
    ensures m.items <= n.items && m.targets <= n.targets && Both(m) <= Both(n)
  {
  }

  lemma ClearedGoesOn(g: Graph, c: set<BasicStream>, m: Marks, v: map<BasicStream, int>, n: Marks,
                      w: map<BasicStream, int>, o: Marks, x: map<BasicStream, int>)
    requires g.Valid() && Cleared(g, c, m, v, n, w) && Cleared(g, c, n, w, o, x)
    ensures Cleared(g, c, m, v, o, x)
  {
    hide Progress;
    ProgressGoesOn(g, c, m, n, o);
    ProgressGrows(g, c, m, n);
    ProgressGrows(g, c, n, o);
    InvalidatedMore(v, n.items - m.items, o.items - n.items);
    assert n.items - m.items + (o.items - n.items) == o.items - m.items;
  }

  lemma InvalidatedMore(v: map<BasicStream, int>, a: set<BasicStream>, b: set<BasicStream>)
    ensures Invalidated(Invalidated(v, a), b) == Invalidated(v, a + b)
  {
  }

  lemma StreamIsCleared(g: Graph, c: set<BasicStream>, s: BasicStream, m: Marks, v: map<BasicStream, int>,
                        u: map<BasicStream, int>,
                        n: Marks, w: map<BasicStream, int>, o: Marks, x: map<BasicStream, int>)
    requires g.Valid() && s in g.all && s in c && m.items <= g.all && m.targets <= g.all
    requires
      if s in m.items then n == m && w == v
      else ItemTargetsIn(g, s, Both(n)) && Cleared(g, c, MarkItems(m, s), v, n, u) && w == Invalidated(u, {s})
    requires
      if s in n.targets then o == n && x == w
      else g.targets[s] <= Both(o) && Cleared(g, c, MarkTargets(n, s), w, o, x)
    ensures Cleared(g, c, m, v, o, x) && s in Both(o)
  {
    hide Progress, ItemTargetsIn, Invalidated;
    ProgressOfStream(g, c, s, m, n, o);
    ProgressGrows(g, c, m, o);
    if s !in m.items {
      ProgressGrows(g, c, MarkItems(m, s), n);
      InvalidatedMore(v, n.items - MarkItems(m, s).items, {s});
      assert n.items - MarkItems(m, s).items + {s} == n.items - m.items;
    } else {
      InvalidatedNone(v);
      assert n.items - m.items == {};
    }
    if s !in n.targets {
      ProgressGrows(g, c, MarkTargets(n, s), o);
      InvalidatedMore(v, n.items - m.items, o.items - n.items);
      assert n.items - m.items + (o.items - n.items) == o.items - m.items;
    }
  }

  lemma InvalidatedNone(v: map<BasicStream, int>)
    ensures Invalidated(v, {}) == v
  {
  }

  lemma ClosedAt(g: Graph, c: set<BasicStream>, s: BasicStream)
    requires g.Valid() && ClosedUnder(g, c) && s in g.all && s in c
    ensures g.targets[s] <= c && ItemTargetsIn(g, s, c)
  {
  }

  lemma ProgressGrows(g: Graph, c: set<BasicStream>, m: Marks, n: Marks)
    requires g.Valid() && Progress(g, c, m, n)
    ensures m.items <= n.items && m.targets <= n.targets
  {
  }

  // The graph as the streams hold it, seen by a clearing with number ts.
  ghost predicate Depicts(g: Graph, ts: nat)
    requires g.Valid()
    reads g.all`targetStreams, g.all`itemStreams, g.all`sourceIds
  {
    forall s | s in g.all ::
      (forall t | t in s.targetStreams :: t in g.all) && g.items[s] == (set i | i in s.itemStreams) &&
      g.targets[s] == if ts in s.sourceIds then {} else set t | t in s.targetStreams
  }

  ghost function MarksOf(g: Graph, ts: nat): Marks
    reads g.all`itemsAreCleared, g.all`targetsAreCleared
  {
    Marks(set s | s in g.all && s.itemsAreCleared == ts, set s | s in g.all && s.targetsAreCleared == ts)
  }

  ghost function ValidOf(g: Graph): map<BasicStream, int>
    reads g.all`dataValid
  {
    map s | s in g.all :: s.dataValid
  }

  ghost function Invalidated(v: map<BasicStream, int>, cleared: set<BasicStream>): map<BasicStream, int> {
    map s | s in v :: if s in cleared then INVALID else v[s]
  }

  // -------------------------------------------------------- what is cleared

  // What clearing reaches from some streams: they lie in it, it passes clearing
  // on within itself, and no smaller set does.
  ghost function Reach(g: Graph, start: set<BasicStream>): set<BasicStream>
    requires g.Valid()
  {
    set s | s in g.all && forall c | c <= g.all && start <= c && ClosedUnder(g, c) :: s in c
  }

  lemma ReachIsClosed(g: Graph, start: set<BasicStream>)
    requires g.Valid() && start <= g.all
    ensures start <= Reach(g, start) <= g.all && ClosedUnder(g, Reach(g, start))
  {
    var r := Reach(g, start);
    forall s | s in r ensures g.targets[s] <= r && ItemTargetsIn(g, s, r) {
      forall t | t in g.targets[s] ensures t in r {
        forall c | c <= g.all && start <= c && ClosedUnder(g, c) ensures t in c {
        }
      }
      forall i, t | i in g.items[s] && t in g.targets[i] ensures t in r {
        forall c | c <= g.all && start <= c && ClosedUnder(g, c) ensures t in c {
          ClosedAt(g, c, s);
        }
      }
    }
  }

  lemma ReachIsLeast(g: Graph, start: set<BasicStream>, c: set<BasicStream>)
    requires g.Valid() && c <= g.all && start <= c && ClosedUnder(g, c)
    ensures Reach(g, start) <= c
  {
  }

  // From no marks at all: both marks then lie on what is reached.
  lemma ClearedIsReached(g: Graph, start: set<BasicStream>, n: Marks)
    requires g.Valid() && start <= g.all && Progress(g, Reach(g, start), Marks({}, {}), n) && start <= Both(n)
    ensures n == Marks(Reach(g, start), Reach(g, start))
  {
    hide Reach;
    assert n.items == n.targets == Both(n);
    ReachIsLeast(g, start, n.items);
  }

  // A number that no stream carries, neither as a mark nor as its source.
  ghost predicate IsNew(g: Graph, ts: nat)
    reads g.all
  {
    forall s | s in g.all :: s.itemsAreCleared != ts && s.targetsAreCleared != ts && ts !in s.sourceIds
  }

  // Clearing a stream invalidates exactly what depends on it, itself included.
  method ClearAsTargetStream(s: BasicStream, ts: nat, ghost g: Graph)
    requires ts > 0 && g.Valid() && Depicts(g, ts) && s in g.all && MarksOf(g, ts) == Marks({}, {})
    modifies g.all`itemsAreCleared, g.all`targetsAreCleared, g.all`dataValid
    ensures MarksOf(g, ts) == Marks(Reach(g, {s}), Reach(g, {s}))
    ensures ValidOf(g) == Invalidated(old(ValidOf(g)), Reach(g, {s}))
  {
    hide Reach, Cleared, Depicts, MarksOf, ValidOf, Invalidated, ClosedUnder;
    ghost var v := ValidOf(g);
    ReachIsClosed(g, {s});
    s.ClearItemsAndTargets(ts, g, Reach(g, {s}));
    ClearedMeans(g, {s}, v, MarksOf(g, ts), ValidOf(g));
  }

  // Clearing the targets of an input stream; its own data become old.
  method ClearTargetStreams(s: BasicStream, ts: nat, ghost g: Graph, ghost c: set<BasicStream>)
    requires ts > 0 && g.Valid() && Depicts(g, ts) && s in g.all && ClosedUnder(g, c) && g.targets[s] <= c &&
      ts !in s.sourceIds
    modifies g.all`itemsAreCleared, g.all`targetsAreCleared, g.all`dataValid, s`sourceIds
    ensures Depicts(g, ts) && g.targets[s] <= Both(MarksOf(g, ts))
    ensures Cleared(g, c, old(MarksOf(g, ts)), old(ValidOf(g)), MarksOf(g, ts), ValidOf(g))
    ensures ts !in s.sourceIds
  {
    hide Cleared, Depicts, MarksOf, ValidOf, Invalidated, ClosedUnder, Both;
    s.ClearTargets(ts, g, c);
    SetSourceInvalid(s, ts, g);
  }

  method SetSourceInvalid(s: BasicStream, ts: nat, ghost g: Graph)
    requires g.Valid() && Depicts(g, ts) && s in g.all && ts !in s.sourceIds
    modifies s`sourceIds
    ensures Depicts(g, ts) && ts !in s.sourceIds
    ensures s.sourceIds == if old(s.sourceIds) == [] then [INVALID] else old(s.sourceIds)[0 := INVALID]
  {
    if s.sourceIds == [] {
      s.sourceIds := [INVALID];
    } else {
      s.sourceIds := s.sourceIds[0 := INVALID];
    }
  }

  // The targets of some streams.
  ghost function Starts(g: Graph, streams: seq<BasicStream>): set<BasicStream>
    requires g.Valid()
  {
    set s, t | s in streams && s in g.all && t in g.targets[s] :: t
  }

  // Clearing the targets of all streams of an item, with one new number.
  method ClearAllTargetStreams(streams: seq<BasicStream>, ts: nat, ghost g: Graph)
    requires ts > 0 && g.Valid() && Depicts(g, ts) && IsNew(g, ts) && forall s | s in streams :: s in g.all
    modifies g.all`itemsAreCleared, g.all`targetsAreCleared, g.all`dataValid, g.all`sourceIds
    ensures MarksOf(g, ts) == Marks(Reach(g, Starts(g, streams)), Reach(g, Starts(g, streams)))
    ensures ValidOf(g) == Invalidated(old(ValidOf(g)), Reach(g, Starts(g, streams)))
  {
    hide Reach, Cleared, Depicts, MarksOf, ValidOf, Invalidated, ClosedUnder, Both, Starts, IsNew, Progress;
    ghost var start, m, v := Starts(g, streams), MarksOf(g, ts), ValidOf(g);
    ghost var c := Reach(g, start);
    StartsInside(g, streams);
    ReachIsClosed(g, start);
    NewMeans(g, ts);
    NothingCleared(g, c, m, v);
    for k := 0 to |streams|
      invariant Depicts(g, ts) && Cleared(g, c, m, v, MarksOf(g, ts), ValidOf(g))
      invariant forall s | s in g.all :: ts !in s.sourceIds
      invariant Starts(g, streams[..k]) <= Both(MarksOf(g, ts))
    {
      ghost var n, w := MarksOf(g, ts), ValidOf(g);
      StartsOneMore(g, streams, k);
      ClearTargetStreams(streams[k], ts, g, c);
      ClearedGrows(g, c, n, w, MarksOf(g, ts), ValidOf(g));
      ClearedGoesOn(g, c, m, v, n, w, MarksOf(g, ts), ValidOf(g));
    }
    assert streams[..|streams|] == streams;
    ClearedMeans(g, start, v, MarksOf(g, ts), ValidOf(g));
  }

  lemma ClearedMeans(g: Graph, start: set<BasicStream>, v: map<BasicStream, int>, n: Marks, w: map<BasicStream, int>)
    requires g.Valid() && start <= g.all && start <= Both(n) && Cleared(g, Reach(g, start), Marks({}, {}), v, n, w)
    ensures n == Marks(Reach(g, start), Reach(g, start)) && w == Invalidated(v, Reach(g, start))
  {
    hide Reach, Invalidated;
    ClearedIsReached(g, start, n);
    assert Reach(g, start) - {} == Reach(g, start);
  }

  lemma NewMeans(g: Graph, ts: nat)
    requires IsNew(g, ts)
    ensures MarksOf(g, ts) == Marks({}, {}) && forall s | s in g.all :: ts !in s.sourceIds
  {
  }

  lemma StartsInside(g: Graph, streams: seq<BasicStream>)
    requires g.Valid()
    ensures Starts(g, streams) <= g.all && Starts(g, []) == {}
  {
  }

  lemma StartsOneMore(g: Graph, streams: seq<BasicStream>, k: nat)
    requires g.Valid() && k < |streams| && streams[k] in g.all
    ensures Starts(g, streams[..k + 1]) == Starts(g, streams[..k]) + g.targets[streams[k]]
    ensures g.targets[streams[k]] <= Starts(g, streams)
  {
    assert streams[..k + 1] == streams[..k] + [streams[k]];
  }
}
