// The target streams of data items. A lookup walks the dotted prefixes of a
// name and merges their lists into a list that the container keeps, so lookups
// change the container they read.

module TargetStreams {
  import opened Text

  type Stream = nat  // the identity of a stream object

  // ---------------------------------------------------------- dotted names

  // The enclosing names, from the inside out.
  function Ancestors(name: string): seq<string>
    decreases |name|
  {
    var p := FindLast(name, '.');
    if p < 0 then [] else [name[..p]] + Ancestors(name[..p])
  }

  function Path(name: string): seq<string> {
    [name] + Ancestors(name)
  }

  // The walk visits every prefix that ends before a dot, and nothing else.
  lemma {:induction false} AncestorsExactly(name: string, a: string)
    ensures a in Ancestors(name) <==> exists i | 0 <= i < |name| :: name[i] == '.' && a == name[..i]
    decreases |name|
  {
    var p := FindLast(name, '.');
    if p >= 0 {
      var up := name[..p];
      AncestorsExactly(up, a);
      forall i | 0 <= i < p ensures up[..i] == name[..i] {
      }
    }
  }

  lemma {:induction false} PathsNest(name: string, a: string)
    requires a in Path(name)
    ensures forall b | b in Path(a) :: b in Path(name)
    decreases |name|
  {
    if a != name {
      PathsNest(name[..FindLast(name, '.')], a);
    }
  }

  // ------------------------------------------------------------ the lists

  ghost function Members(s: seq<Stream>): set<Stream> {
    set x | x in s
  }

  ghost predicate NoRepeats(s: seq<Stream>) {
    forall i, j | 0 <= i < j < |s| :: s[i] != s[j]
  }

  function Add(s: seq<Stream>, x: Stream): seq<Stream> {
    if x in s then s else s + [x]
  }

  // Append the streams of b that are not there yet, in their order.
  function Merge(a: seq<Stream>, b: seq<Stream>): (m: seq<Stream>)
    ensures forall x :: x in m <==> x in a || x in b
    ensures a <= m
    ensures NoRepeats(a) ==> NoRepeats(m)
  {
    if b == [] then a
    else
      assert b == b[..|b| - 1] + [b[|b| - 1]];
      Add(Merge(a, b[..|b| - 1]), b[|b| - 1])
  }

  lemma {:induction false} MergeNothingNew(a: seq<Stream>, b: seq<Stream>)
    requires forall x | x in b :: x in a
    ensures Merge(a, b) == a
  {
    if b != [] {
      MergeNothingNew(a, b[..|b| - 1]);
    }
  }

  // The container as a value: the stored list of each name.
  type Store = map<string, seq<Stream>>

  // The streams registered for each name.
  type Registry = map<string, set<Stream>>

  function Register(c: Store, name: string, s: Stream): Store {
    c[name := Add(if name in c then c[name] else [], s)]
  }

  ghost function Registered(reg: Registry, name: string, s: Stream): Registry {
    reg[name := (if name in reg then reg[name] else {}) + {s}]
  }

  // The list that a walk along the names ends up with.
  function Merged(c: Store, names: seq<string>): Option<seq<Stream>> {
    if names == [] then None
    else
      var n := |names| - 1;
      var before := Merged(c, names[..n]);
      if names[n] !in c then before
      else if before.None? then Some(c[names[n]])
      else Some(Merge(before.value, c[names[n]]))
  }

  // The name whose stored list the walk extends: the first one that has a list.
  function Owner(c: Store, names: seq<string>): (n: string)
    requires exists m :: m in names && m in c
    ensures n in names && n in c
  {
    if names[0] in c then names[0] else Owner(c, names[1..])
  }

  // The container after a walk.
  function After(c: Store, names: seq<string>): Store {
    match Merged(c, names)
    case None => c
    case Some(s) =>
      MergedSome(c, names);
      c[Owner(c, names) := s]
  }

  lemma {:induction false} MergedSome(c: Store, names: seq<string>)
    ensures Merged(c, names).Some? <==> exists n :: n in names && n in c
  {
    if names != [] {
      var n := |names| - 1;
      MergedSome(c, names[..n]);
      assert names == names[..n] + [names[n]];
    }
  }

  // -------------------------------------------------------- the invariant

  // Everything registered for a name or one of the names around it.
  ghost function Reach(reg: Registry, name: string): set<Stream> {
    set n, s | n in Path(name) && n in reg && s in reg[n] :: s
  }

  // What stays true although walks write into stored lists: a list holds what
  // was registered for its name, and at most what its walk may find.
  ghost predicate Holds(c: Store, reg: Registry) {
    c.Keys == reg.Keys &&
    forall n | n in c :: NoRepeats(c[n]) && reg[n] <= Members(c[n]) <= Reach(reg, n)
  }

  lemma ReachNests(reg: Registry, name: string, a: string)
    requires a in Path(name)
    ensures Reach(reg, a) <= Reach(reg, name)
  {
    PathsNest(name, a);
  }

  lemma ReachGrows(reg: Registry, more: Registry, name: string)
    requires forall n | n in reg :: n in more && reg[n] <= more[n]
    ensures Reach(reg, name) <= Reach(more, name)
  {
    hide Path;
    forall s | s in Reach(reg, name) ensures s in Reach(more, name) {
      var n :| n in Path(name) && n in reg && s in reg[n];
      assert s in more[n];
    }
  }

  lemma ReachIncludes(reg: Registry, name: string)
    requires name in reg
    ensures reg[name] <= Reach(reg, name)
  {
    assert name in Path(name);
  }

  lemma RegisterKeeps(c: Store, reg: Registry, name: string, s: Stream)
    requires Holds(c, reg)
    ensures Holds(Register(c, name, s), Registered(reg, name, s))
  {
    var c2, reg2 := Register(c, name, s), Registered(reg, name, s);
    forall n | n in c2 ensures NoRepeats(c2[n]) && reg2[n] <= Members(c2[n]) <= Reach(reg2, n) {
      ReachGrows(reg, reg2, n);
      ReachIncludes(reg2, n);
    }
  }

  // The streams found along a path: all that was registered there, once each.
  lemma {:induction false} MergedAlong(c: Store, reg: Registry, name: string, names: seq<string>)
    requires Holds(c, reg) && forall n | n in names :: n in Path(name)
    requires Merged(c, names).Some?
    ensures NoRepeats(Merged(c, names).value)
    ensures Members(Merged(c, names).value) <= Reach(reg, name)
    ensures forall n | n in names && n in reg :: reg[n] <= Members(Merged(c, names).value)
  {
    hide Path, Reach;
    var k := |names| - 1;
    assert names == names[..k] + [names[k]];
    if Merged(c, names[..k]).Some? {
      MergedAlong(c, reg, name, names[..k]);
    } else {
      MergedSome(c, names[..k]);
    }
    if names[k] in c {
      ReachNests(reg, name, names[k]);
    }
  }

  // A lookup finds exactly the streams of the name and of all its prefixes.
  lemma LookupIsExact(c: Store, reg: Registry, name: string)
    requires Holds(c, reg)
    ensures Merged(c, Path(name)).None? <==> forall n | n in Path(name) :: n !in reg
    ensures Merged(c, Path(name)).Some? ==>
      NoRepeats(Merged(c, Path(name)).value) && Members(Merged(c, Path(name)).value) == Reach(reg, name)
  {
    MergedSome(c, Path(name));
    if Merged(c, Path(name)).Some? {
      MergedAlong(c, reg, name, Path(name));
    }
  }

  // Names before the owner have no list, so a walk from the owner finds as much.
  lemma {:induction false} OwnerReaches(c: Store, reg: Registry, name: string)
    requires c.Keys == reg.Keys && exists n :: n in Path(name) && n in c
    ensures Reach(reg, Owner(c, Path(name))) == Reach(reg, name)
    decreases |name|
  {
    if name !in c {
      var up := name[..FindLast(name, '.')];
      assert Path(name)[1..] == Path(up);
      assert forall n :: n in Path(name) <==> n == name || n in Path(up);
      OwnerReaches(c, reg, up);
    }
  }

  lemma LookupKeeps(c: Store, reg: Registry, name: string)
    requires Holds(c, reg)
    ensures Holds(After(c, Path(name)), reg)
  {
    LookupIsExact(c, reg, name);
    MergedSome(c, Path(name));
    if Merged(c, Path(name)).Some? {
      var owner := Owner(c, Path(name));
      OwnerReaches(c, reg, name);
      ReachIncludes(reg, owner);
    }
  }

  // --------------------------------------------------- looking up again

  lemma {:induction false} MergedIncludes(c: Store, names: seq<string>)
    requires Merged(c, names).Some?
    ensures forall n, x | n in names && n in c && x in c[n] :: x in Merged(c, names).value
  {
    var k := |names| - 1;
    assert names == names[..k] + [names[k]];
    if Merged(c, names[..k]).Some? {
      MergedIncludes(c, names[..k]);
    } else {
      MergedSome(c, names[..k]);
    }
  }

  lemma {:induction false} OwnerAt(c: Store, names: seq<string>, k: nat)
    requires k < |names| && names[k] in c && forall i | 0 <= i < k :: names[i] !in c
    ensures Owner(c, names) == names[k]
  {
    if k > 0 {
      OwnerAt(c, names[1..], k - 1);
    }
  }

  lemma OwnerIsFirst(c: Store, names: seq<string>, k: nat)
    requires k < |names| && names[k] in c && Merged(c, names[..k]).None?
    ensures Owner(c, names) == names[k]
  {
    hide Merged, Owner;
    MergedSome(c, names[..k]);
    forall i | 0 <= i < k ensures names[i] !in c {
      assert names[i] in names[..k];
    }
    OwnerAt(c, names, k);
  }

  lemma {:induction false} WalkAgain(c: Store, names: seq<string>, k: nat)
    requires k <= |names| && Merged(c, names).Some?
    ensures Merged(c, names[..k]).None? ==> Merged(After(c, names), names[..k]).None?
    ensures Merged(c, names[..k]).Some? ==> Merged(After(c, names), names[..k]) == Merged(c, names)
  {
    hide Merge, Owner;
    MergedSome(c, names);
    if k > 0 {
      var front, n := names[..k - 1], names[k - 1];
      assert names[..k][..k - 1] == front && names[..k][k - 1] == n;
      WalkAgain(c, names, k - 1);
      MergedIncludes(c, names);
      if n in c && Merged(c, front).None? {
        OwnerIsFirst(c, names, k - 1);
      } else if n in c {
        MergeNothingNew(Merged(c, names).value, After(c, names)[n]);
      }
    }
  }

  // A second lookup of a name finds the same list and writes nothing.
  lemma LookupTwice(c: Store, names: seq<string>)
    ensures Merged(After(c, names), names) == Merged(c, names)
    ensures After(After(c, names), names) == After(c, names)
  {
    if Merged(c, names).Some? {
      WalkAgain(c, names, |names|);
      assert names[..|names|] == names;
      MergedSome(c, names);
      SameOwner(c, After(c, names), names);
    }
  }

  lemma {:induction false} SameOwner(c: Store, d: Store, names: seq<string>)
    requires c.Keys == d.Keys && exists n :: n in names && n in c
    ensures Owner(c, names) == Owner(d, names)
  {
    if names[0] !in c {
      SameOwner(c, d, names[1..]);
    }
  }

  // A lookup writes everything it finds into the first stored list on the path,
  // that of the name itself if it has one. So this list stays what was registered
  // for its name exactly if nothing else is registered along the path.
  lemma LookupLeaks(c: Store, reg: Registry, name: string)
    requires Holds(c, reg) && exists n :: n in Path(name) && n in c
    ensures
      var owner := Owner(c, Path(name));
      var after := After(c, Path(name));
      (name in c ==> owner == name) && (forall n | n in c && n != owner :: after[n] == c[n]) &&
      Members(after[owner]) == Reach(reg, name) &&
      (Members(after[owner]) == reg[owner] <==> forall n | n in Path(name) && n in reg :: reg[n] <= reg[owner])
  {
    hide Path, Owner;
    LookupIsExact(c, reg, name);
    MergedSome(c, Path(name));
    if name in c {
      OwnName(c, name);
    }
    var owner := Owner(c, Path(name));
    assert reg[owner] <= Reach(reg, name);
  }

  lemma OwnName(c: Store, name: string)
    requires name in c
    ensures name in Path(name) && Owner(c, Path(name)) == name
  {
    assert Path(name)[0] == name;
  }

  // ---------------------------------------------------------- the objects

  class StreamList {
    var streams: seq<Stream>

    constructor ()
      ensures streams == []
    {
      streams := [];
    }
  }

  class TargetContainer {
    var lists: map<string, StreamList>

    constructor ()
      ensures Valid() && lists == map[] && Contents() == map[]
    {
      lists := map[];
    }

    // No two names share a list.
    ghost predicate Valid()
      reads this
    {
      forall m, n | m in lists && n in lists && m != n :: lists[m] != lists[n]
    }

    ghost function Contents(): Store
      reads this, lists.Values
    {
      map n | n in lists :: lists[n].streams
    }

    method SetTargetStream(name: string, stream: Stream)
      requires Valid()
      modifies this, lists.Values
      ensures Valid() && fresh(lists.Values - old(lists.Values))
      ensures Contents() == Register(old(Contents()), name, stream)
    {
      if name !in lists {
        var slist := new StreamList();
        lists := lists[name := slist];
        Insert(stream, slist);
        return;
      }
      Insert(stream, lists[name]);
    }

    method GetTargetStreamList(name: string) returns (slist: StreamList?)
      ensures slist == if name in lists then lists[name] else null
    {
      if name !in lists {
        return null;
      }
      return lists[name];
    }

    method Insert(s: Stream, slist: StreamList)
      modifies slist
      ensures slist.streams == Add(old(slist.streams), s)
    {
      for i := 0 to |slist.streams|
        invariant s !in slist.streams[..i] && slist.streams == old(slist.streams)
      {
        if slist.streams[i] == s {
          return;
        }
      }
      slist.streams := slist.streams + [s];
    }
  }

  // An item of the data pool, as far as its target streams are concerned.
  datatype Reference = Reference(fullName: string, noDependencies: bool)

  // What a stream answers when it is asked, with a transaction number, after
  // other streams: the message of a valid target, if there is one.
  type Oracle = (Stream, nat, seq<Stream>) -> Option<string>

  function Messages(asked: seq<Stream>, timestamp: nat, answer: Oracle): string {
    if asked == [] then ""
    else
      var n := |asked| - 1;
      var before := Messages(asked[..n], timestamp, answer);
      match answer(asked[n], timestamp, asked[..n])
      case None => before
      case Some(message) => before + "\n" + message
  }

  // The message is empty exactly when no stream has a valid target.
  lemma {:induction false} MessagesTell(asked: seq<Stream>, timestamp: nat, answer: Oracle)
    ensures Messages(asked, timestamp, answer) != "" <==>
      exists k | 0 <= k < |asked| :: answer(asked[k], timestamp, asked[..k]).Some?
  {
    if asked != [] {
      var n := |asked| - 1;
      MessagesTell(asked[..n], timestamp, answer);
      forall k | 0 <= k < n ensures asked[..n][..k] == asked[..k] {
      }
    }
  }

  // The text holds the message of each stream that has one, on a line of its own,
  // behind those of the streams asked before, and nothing else.
  lemma {:induction false} MessagesInOrder(asked: seq<Stream>, timestamp: nat, answer: Oracle, k: nat)
    requires k < |asked|
    ensures
      var before, message := Messages(asked[..k], timestamp, answer), answer(asked[k], timestamp, asked[..k]);
      before + (if message.Some? then "\n" + message.value else "") <= Messages(asked, timestamp, answer) &&
      (k == |asked| - 1 ==>
        Messages(asked, timestamp, answer) == before + if message.Some? then "\n" + message.value else "")
  {
    var n := |asked| - 1;
    if k < n {
      MessagesInOrder(asked[..n], timestamp, answer, k);
      assert asked[..n][..k] == asked[..k];
    }
  }

  lemma NothingAsked(timestamp: nat, answer: Oracle)
    ensures Messages([], timestamp, answer) == ""
  {
  }

  function Stamped(streams: seq<Stream>, timestamp: nat): (log: seq<(Stream, nat)>)
    ensures |log| == |streams| && forall i | 0 <= i < |streams| :: log[i] == (streams[i], timestamp)
  {
    seq(|streams|, i requires 0 <= i < |streams| => (streams[i], timestamp))
  }

  class DataPoolIntens {
    const targets: TargetContainer
    var transaction: nat
    var cleared: seq<(Stream, nat)>  // the streams told to clear their targets, in order

    constructor ()
      ensures targets.Valid() && targets.lists == map[] && targets.Contents() == map[]
      ensures fresh(targets) && transaction == 0 && cleared == []
    {
      targets := new TargetContainer();
      transaction := 0;
      cleared := [];
    }

    method NewTransaction() returns (timestamp: nat)
      modifies this`transaction
      ensures timestamp == transaction == old(transaction) + 1
    {
      transaction := transaction + 1;
      return transaction;
    }

    method SetTargetStream(ref: Reference, stream: Stream)
      requires targets.Valid()
      modifies targets, targets.lists.Values
      ensures targets.Valid() && fresh(targets.lists.Values - old(targets.lists.Values))
      ensures targets.Contents() == Register(old(targets.Contents()), ref.fullName, stream)
    {
      targets.SetTargetStream(ref.fullName, stream);
    }

    // Appends the streams of one stored list to another.
    method PushMissing(srcList: StreamList, more: StreamList)
      requires srcList != more
      modifies srcList
      ensures srcList.streams == Merge(old(srcList.streams), more.streams)
    {
      for i := 0 to |more.streams|
        invariant srcList.streams == Merge(old(srcList.streams), more.streams[..i])
      {
        assert more.streams[..i + 1][..i] == more.streams[..i];
        if more.streams[i] !in srcList.streams {
          srcList.streams := srcList.streams + [more.streams[i]];
        }
      }
      assert more.streams[..|more.streams|] == more.streams;
    }

    // The list of a name, extended by those of its prefixes, longest first. The
    // name is cut down on the way.
    method AppendParentTargetStreamList(fullName: string, list: StreamList?)
      returns (name: string, srcList: StreamList?)
      requires targets.Valid()
      requires list == if fullName in targets.lists then targets.lists[fullName] else null
      modifies targets.lists.Values
      ensures FindLast(name, '.') < 0
      ensures targets.lists == old(targets.lists) && (srcList != null ==> srcList in targets.lists.Values)
      ensures targets.Contents() == After(old(targets.Contents()), Path(fullName))
      ensures
        if srcList == null then Merged(old(targets.Contents()), Path(fullName)) == None
        else Merged(old(targets.Contents()), Path(fullName)) == Some(srcList.streams)
    {
      hide Merge, Owner, Merged, Path, Ancestors, Owned;
      ghost var c := targets.Contents();
      ghost var path, visited, owner := Path(fullName), 1, fullName;
      name, srcList := fullName, list;
      StartOfPath(c, fullName);
      while FindLast(name, '.') >= 0
        invariant OnPath(path, visited, name)
        invariant srcList == null ==> Merged(c, path[..visited]) == None
        invariant srcList != null ==>
          owner in targets.lists && srcList == targets.lists[owner] && |owner| >= |name| &&
          Owned(c, path, owner) && Merged(c, path[..visited]) == Some(srcList.streams)
        invariant forall n | n in targets.lists && targets.lists[n] != srcList :: targets.lists[n].streams == c[n]
        invariant targets.lists == old(targets.lists)
        decreases |name|
      {
        var pos := FindLast(name, '.');
        Onward(c, path, visited, name);
        name := name[..pos];
        visited := visited + 1;
        var targets2 := targets.GetTargetStreamList(name);
        if targets2 != null {
          if srcList == null {
            srcList := targets2;
            owner := name;
            continue;
          }
          PushMissing(srcList, targets2);
        }
      }
      EndOfPath(c, path, visited, name, owner);
      assert srcList == null ==> targets.Contents() == c;
      assert srcList != null ==> targets.Contents() == c[owner := srcList.streams];
    }

    method CheckTargetStreams(ref: Reference, answer: Oracle) returns (failed: bool, error: string)
      requires targets.Valid()
      modifies this`transaction, targets.lists.Values
      ensures targets.lists == old(targets.lists)
      ensures
        var found := Merged(old(targets.Contents()), Path(ref.fullName));
        if ref.noDependencies || found.None? then
          !failed && error == "" && transaction == old(transaction)
        else
          transaction == old(transaction) + 1 && error == Messages(found.value, transaction, answer) &&
          (failed <==> exists k | 0 <= k < |found.value| :: answer(found.value[k], transaction, found.value[..k]).Some?)
      ensures
        targets.Contents() ==
        if ref.noDependencies then old(targets.Contents()) else After(old(targets.Contents()), Path(ref.fullName))
    {
      hide Merge, Owner, Merged, Path, After, Messages;
      error := "";
      if ref.noDependencies {
        return false, "";
      }
      var slist := targets.GetTargetStreamList(ref.fullName);
      var _, list := AppendParentTargetStreamList(ref.fullName, slist);
      if list == null {
        return false, "";
      }
      var timestamp := NewTransaction();
      error := Ask(list.streams, timestamp, answer);
      failed := |error| > 0;
    }

    method Ask(streams: seq<Stream>, timestamp: nat, answer: Oracle) returns (error: string)
      ensures error == Messages(streams, timestamp, answer)
      ensures |error| > 0 <==> exists k | 0 <= k < |streams| :: answer(streams[k], timestamp, streams[..k]).Some?
    {
      error := "";
      for k := 0 to |streams|
        invariant error == Messages(streams[..k], timestamp, answer)
      {
        assert streams[..k + 1][..k] == streams[..k];
        var message := answer(streams[k], timestamp, streams[..k]);
        if message.Some? {
          error := error + "\n" + message.value;
        }
      }
      assert streams[..|streams|] == streams;
      MessagesTell(streams, timestamp, answer);
    }

    method ClearTargetStreams(ref: Reference)
      requires targets.Valid()
      modifies this`transaction, this`cleared, targets.lists.Values
      ensures targets.lists == old(targets.lists)
      ensures
        match Merged(old(targets.Contents()), Path(ref.fullName))
        case None => transaction == old(transaction) && cleared == old(cleared)
        case Some(found) => transaction == old(transaction) + 1 && cleared == old(cleared) + Stamped(found, transaction)
      ensures targets.Contents() == After(old(targets.Contents()), Path(ref.fullName))
    {
      hide Merge, Owner, Merged, Path, After;
      var slist := targets.GetTargetStreamList(ref.fullName);
      var _, list := AppendParentTargetStreamList(ref.fullName, slist);
      if list == null {
        return;
      }
      var timestamp := NewTransaction();
      for k := 0 to |list.streams|
        modifies this`cleared
        invariant cleared == old(cleared) + Stamped(list.streams, timestamp)[..k]
      {
        cleared := cleared + [(list.streams[k], timestamp)];
      }
    }
  }

  // -------------------------------------------- how far a walk has come

  ghost predicate Owned(c: Store, names: seq<string>, owner: string) {
    (exists n :: n in names && n in c) && owner == Owner(c, names)
  }

  ghost predicate OnPath(path: seq<string>, visited: nat, name: string) {
    visited <= |path| && path[..visited] + Ancestors(name) == path
  }

  lemma StartOfPath(c: Store, name: string)
    ensures OnPath(Path(name), 1, name)
    ensures Merged(c, Path(name)[..1]) == if name in c then Some(c[name]) else None
    ensures name in c ==> Owned(c, Path(name), name)
  {
    assert Path(name)[..1][..0] == [];
    assert Path(name)[0] == name;
  }

  lemma Onward(c: Store, path: seq<string>, visited: nat, name: string)
    requires OnPath(path, visited, name) && FindLast(name, '.') >= 0
    ensures
      var up := name[..FindLast(name, '.')];
      OnPath(path, visited + 1, up) &&
      var before, after := Merged(c, path[..visited]), Merged(c, path[..visited + 1]);
      (up !in c ==> after == before) &&
      (up in c && before == None ==> after == Some(c[up]) && Owned(c, path, up)) &&
      (up in c && before != None ==> after == Some(Merge(before.value, c[up])))
  {
    hide Merge;
    var up := name[..FindLast(name, '.')];
    assert path[visited] == up;
    assert path[..visited + 1][..visited] == path[..visited];
    if up in c && Merged(c, path[..visited]) == None {
      OwnerIsFirst(c, path, visited);
    }
  }

  lemma EndOfPath(c: Store, path: seq<string>, visited: nat, name: string, owner: string)
    requires OnPath(path, visited, name) && FindLast(name, '.') < 0
    ensures path[..visited] == path
    ensures Merged(c, path) == None ==> After(c, path) == c
    ensures Merged(c, path) != None && Owned(c, path, owner) ==> After(c, path) == c[owner := Merged(c, path).value]
  {
    MergedSome(c, path);
  }

  // ------------------------------------------------------------ every run

  datatype Operation = SetTarget(ref: Reference, stream: Stream) | Check(ref: Reference) | Clear(ref: Reference)

  function Looked(c: Store, op: Operation): Store {
    match op
    case SetTarget(ref, stream) => Register(c, ref.fullName, stream)
    case Check(ref) => if ref.noDependencies then c else After(c, Path(ref.fullName))
    case Clear(ref) => After(c, Path(ref.fullName))
  }

  function StoreOf(ops: seq<Operation>): Store {
    if ops == [] then map[] else Looked(StoreOf(ops[..|ops| - 1]), ops[|ops| - 1])
  }

  // What was registered: lookups do not count.
  ghost function RegistryOf(ops: seq<Operation>): Registry {
    if ops == [] then map[]
    else
      var before, op := RegistryOf(ops[..|ops| - 1]), ops[|ops| - 1];
      if op.SetTarget? then Registered(before, op.ref.fullName, op.stream) else before
  }

  ghost predicate IsRegistered(ops: seq<Operation>, name: string, s: Stream) {
    exists op | op in ops :: op.SetTarget? && op.ref.fullName == name && op.stream == s
  }

  lemma {:induction false} RegistryIsExact(ops: seq<Operation>, name: string, s: Stream)
    ensures name in RegistryOf(ops) && s in RegistryOf(ops)[name] <==> IsRegistered(ops, name, s)
  {
    if ops != [] {
      var n := |ops| - 1;
      RegistryIsExact(ops[..n], name, s);
      assert ops == ops[..n] + [ops[n]];
    }
  }

  lemma {:induction false} RunHolds(ops: seq<Operation>)
    ensures Holds(StoreOf(ops), RegistryOf(ops))
  {
    hide Holds, After, Path, Register, Registered;
    if ops == [] {
      NothingHolds();
    } else {
      var before, op := ops[..|ops| - 1], ops[|ops| - 1];
      RunHolds(before);
      if op.SetTarget? {
        RegisterKeeps(StoreOf(before), RegistryOf(before), op.ref.fullName, op.stream);
      } else {
        LookupKeeps(StoreOf(before), RegistryOf(before), op.ref.fullName);
      }
    }
  }

  lemma NothingHolds()
    ensures Holds(map[], map[])
  {
  }

  // After any run, a lookup finds exactly the streams registered for the name
  // or for one of the names around it, each once.
  lemma FoundAfterAnyRun(ops: seq<Operation>, name: string)
    ensures
      match Merged(StoreOf(ops), Path(name))
      case None => forall n, s | n in Path(name) :: !IsRegistered(ops, n, s)
      case Some(found) =>
        NoRepeats(found) && forall s :: s in found <==> exists n | n in Path(name) :: IsRegistered(ops, n, s)
  {
    hide IsRegistered, Merged, StoreOf, RegistryOf, Path, Holds;
    RunHolds(ops);
    LookupIsExact(StoreOf(ops), RegistryOf(ops), name);
    RegistryIs(ops);
    if Merged(StoreOf(ops), Path(name)).Some? {
      var found := Merged(StoreOf(ops), Path(name)).value;
      forall s ensures s in found <==> exists n | n in Path(name) :: IsRegistered(ops, n, s) {
        assert s in Members(found) <==> s in Reach(RegistryOf(ops), name);
      }
    }
  }

  // After any run, a lookup leaves the list it extends as registered exactly if
  // everything registered along the path is registered for the list's own name.
  lemma LeaksAfterAnyRun(ops: seq<Operation>, ref: Reference, owner: string)
    requires exists n :: n in Path(ref.fullName) && n in StoreOf(ops)
    requires owner == Owner(StoreOf(ops), Path(ref.fullName))
    ensures
      var list := StoreOf(ops + [Clear(ref)])[owner];
      (forall s | s in list :: IsRegistered(ops, owner, s)) <==>
      forall n, s | n in Path(ref.fullName) && IsRegistered(ops, n, s) :: IsRegistered(ops, owner, s)
    ensures owner in StoreOf(ops) && forall s | IsRegistered(ops, owner, s) :: s in StoreOf(ops + [Clear(ref)])[owner]
  {
    hide IsRegistered, Path, Owner, RegistryOf, Holds;
    var c, reg, name := StoreOf(ops), RegistryOf(ops), ref.fullName;
    RunHolds(ops);
    LookupLeaks(c, reg, name);
    OneMore(ops, Clear(ref));
    RegistryIs(ops);
    StoredIsRegistered(c, reg);
    var list := After(c, Path(name))[owner];
    assert forall s :: s in list <==> s in Reach(reg, name);
  }

  lemma OneMore(ops: seq<Operation>, op: Operation)
    ensures StoreOf(ops + [op]) == Looked(StoreOf(ops), op)
  {
    assert (ops + [op])[..|ops|] == ops;
  }

  lemma RegistryIs(ops: seq<Operation>)
    ensures forall n, s :: n in RegistryOf(ops) && s in RegistryOf(ops)[n] <==> IsRegistered(ops, n, s)
  {
    forall n, s ensures n in RegistryOf(ops) && s in RegistryOf(ops)[n] <==> IsRegistered(ops, n, s) {
      RegistryIsExact(ops, n, s);
    }
  }

  lemma StoredIsRegistered(c: Store, reg: Registry)
    requires Holds(c, reg)
    ensures c.Keys == reg.Keys
  {
  }

  method Run(ops: seq<Operation>, answer: Oracle) returns (pool: DataPoolIntens)
    ensures fresh(pool) && pool.targets.Valid() && pool.targets.Contents() == StoreOf(ops)
  {
    hide After, Path, Register, Merged;
    pool := new DataPoolIntens();
    for k := 0 to |ops|
      invariant fresh(pool) && fresh(pool.targets) && fresh(pool.targets.lists.Values)
      invariant pool.targets.Valid() && pool.targets.Contents() == StoreOf(ops[..k])
    {
      assert ops[..k + 1][..k] == ops[..k];
      match ops[k] {
        case SetTarget(ref, stream) => pool.SetTargetStream(ref, stream);
        case Check(ref) => var _, _ := pool.CheckTargetStreams(ref, answer);
        case Clear(ref) => pool.ClearTargetStreams(ref);
      }
    }
    assert ops[..|ops|] == ops;
  }
}
