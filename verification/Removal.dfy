/** addFile and removeNode as written: only the first child of an empty directory gets a parent link. */
module OrphanKids {
  /** One child, and whether its _parent is set; src/file/FileTree.cpp:117-128. */
  datatype Kid = Kid(name: string, parented: bool)

  datatype Op = Add(name: string) | Remove(i: nat)

  datatype State = Crashed | Kids(kids: seq<Kid>)

  /** removeNode reads _parent whatever child it is given, src/file/FileTree.cpp:150. */
  function Step(s: State, op: Op): State
  {
    match s
    case Crashed => Crashed
    case Kids(kids) =>
      match op
      case Add(name) => Kids(kids + [Kid(name, kids == [])])
      case Remove(i) =>
        if i >= |kids| then s
        else if !kids[i].parented then Crashed
        else Kids(kids[..i] + kids[i + 1..])
  }

  /** One directory's children after some operations, the first one first. */
  function Run(ops: seq<Op>): State
  {
    if ops == [] then Kids([]) else Step(Run(ops[..|ops| - 1]), ops[|ops| - 1])
  }

  /** The j-th operation takes a child out. */
  predicate TakesOut(ops: seq<Op>, j: nat)
    requires j < |ops|
  {
    ops[j].Remove? && Run(ops[..j]).Kids? && ops[j].i < |Run(ops[..j]).kids|
  }

  ghost predicate FilledFrom(ops: seq<Op>, n: nat)
  {
    n <= |ops| && Run(ops[..n]) == Kids([]) && forall j :: n <= j < |ops| ==> !TakesOut(ops, j)
  }

  /** No child has been taken out since the directory was last empty. */
  ghost predicate Filled(ops: seq<Op>) { exists n :: FilledFrom(ops, n) }

  lemma SameOut(ops: seq<Op>, j: nat)
    requires j + 1 < |ops|
    ensures TakesOut(ops[..|ops| - 1], j) == TakesOut(ops, j)
  {
    assert ops[..|ops| - 1][..j] == ops[..j];
  }

  lemma FilledLess(ops: seq<Op>, n: nat)
    requires ops != [] && n < |ops|
    ensures FilledFrom(ops, n) <==> FilledFrom(ops[..|ops| - 1], n) && !TakesOut(ops, |ops| - 1)
  {
    var front := ops[..|ops| - 1];
    assert front[..n] == ops[..n];
    forall j | n <= j < |front| ensures TakesOut(front, j) == TakesOut(ops, j) {
      SameOut(ops, j);
    }
  }

  lemma FilledFront(ops: seq<Op>)
    requires ops != [] && Run(ops).Kids? && Run(ops).kids != []
    ensures Filled(ops) <==> Filled(ops[..|ops| - 1]) && !TakesOut(ops, |ops| - 1)
  {
    assert ops[..|ops|] == ops;
    if n :| FilledFrom(ops, n) {
      FilledLess(ops, n);
    }
    var front := ops[..|ops| - 1];
    if n :| FilledFrom(front, n) {
      FilledLess(ops, n);
    }
  }

  /**
   * Only a first child can have its link, and it has it exactly when none was taken out since the directory was empty.
   */
  lemma {:induction false} ParentedIff(ops: seq<Op>, i: nat)
    requires Run(ops).Kids? && i < |Run(ops).kids|
    ensures Run(ops).kids[i].parented <==> i == 0 && Filled(ops)
  {
    var front, last := ops[..|ops| - 1], ops[|ops| - 1];
    var before := Run(front).kids;
    FilledFront(ops);
    if TakesOut(ops, |ops| - 1) {
      ParentedIff(front, last.i);
      ParentedIff(front, i + 1);
    } else if i < |before| {
      ParentedIff(front, i);
    } else if before == [] {
      assert front[..|front|] == front;
      assert FilledFrom(front, |front|);
    }
  }

  /** So a removal works exactly then, and for that child. */
  lemma RemovalWorksIff(ops: seq<Op>, i: nat)
    requires Run(ops).Kids? && i < |Run(ops).kids|
    ensures Step(Run(ops), Remove(i)).Kids? <==> i == 0 && Filled(ops)
  {
    ParentedIff(ops, i);
  }

  /** Two files in a directory: removing the second one crashes, and so does removing the first and then the other. */
  lemma SecondFileCrashes()
    ensures Run([Add("a"), Add("b"), Remove(1)]) == Crashed
    ensures Run([Add("a"), Add("b"), Remove(0), Remove(0)]) == Crashed
  {
    var two := [Add("a"), Add("b")];
    assert two[..1] == [Add("a")] && [Add("a")][..0] == [];
    assert Run(two) == Kids([Kid("a", true), Kid("b", false)]);
    var second := two + [Remove(1)];
    assert second[..2] == two;
    var first := two + [Remove(0)];
    assert first[..2] == two;
    assert Run(first) == Kids([Kid("b", false)]);
    var both := first + [Remove(0)];
    assert both[..3] == first;
    assert second == [Add("a"), Add("b"), Remove(1)] && both == [Add("a"), Add("b"), Remove(0), Remove(0)];
  }

  /** A directory that has had a child taken out, and still has one, cannot be emptied any more. */
  lemma {:induction false} NeverEmptied(ops: seq<Op>, more: seq<Op>)
    requires Run(ops).Kids? && Run(ops).kids != [] && !Filled(ops) && Run(ops + more).Kids?
    ensures Run(ops + more).kids != [] && !Filled(ops + more) && |Run(ops + more).kids| >= |Run(ops).kids|
    decreases |more|
  {
    if more == [] {
      assert ops + more == ops;
    } else {
      var less := more[..|more| - 1];
      var all := ops + more;
      assert all[..|all| - 1] == ops + less;
      NeverEmptied(ops, less);
      if TakesOut(all, |all| - 1) {
        ParentedIff(ops + less, more[|more| - 1].i);
      }
      FilledFront(all);
    }
  }
}

/**
 * addFile, removeFile and removeDir as written, with the parent links and the table's removal as written: behind the
 * first child, removeDir goes on with the next sibling of the directory itself.
 */
module WrongSibling {
  import opened Association
  import opened Namespaces
  import opened Paths
  import opened Sequences
  import opened Snapshots
  import StuckWalk

  /** A bucket lists paths with the nodes they are bound to; a node is named by the path it was added under. */
  type Bucket = seq<(string, string)>

  /** The buckets that are not empty. */
  type Table = map<nat, Bucket>

  /** The tree, the nodes whose _parent is set, and the bucket of each path: its hash modulo the table's size. */
  datatype World = World(ns: Namespace, linked: set<string>, place: string -> nat)

  /** `Fault` is the use of a null or unset pointer; at the end, the table and the nodes that removeNode took out. */
  datatype Outcome = Fault | Running | Ended(table: Table, out: set<string>)

  function BucketOf(w: World, table: Table, key: string): Bucket
  {
    if w.place(key) in table then table[w.place(key)] else []
  }

  function Find(w: World, table: Table, key: string): Option<string> { Lookup(BucketOf(w, table, key), key) }

  /** What is hung directly behind `c` in its directory. */
  function Behind(ns: Namespace, d: string, c: string): Option<string>
  {
    if d !in ns.kids then None else After(ns.kids[d], c)
  }

  function After(s: seq<string>, c: string): Option<string>
  {
    if |s| < 2 then None else if s[0] == c then Some(s[1]) else After(s[1..], c)
  }

  predicate IsFile(ns: Namespace, k: string) { k in ns.ids && ns.ids[k] != 0 }

  /** removeNode, which reads _parent whatever it is; src/file/FileTree.cpp:141-155. */
  function Unhang(w: World, path: string, r: Outcome): Outcome
  {
    match r
    case Ended(table, out) => if path in w.linked then Ended(table, out + {path}) else Fault
    case _ => r
  }

  /** The key is first or second in its bucket, so that the table's removal as written ends: see UnfiledIs. */
  predicate IsNear(w: World, table: Table, key: string)
  {
    StuckWalk.Returns(BucketOf(w, table, key), key)
  }

  /** And this is what it leaves. */
  function Erased(w: World, table: Table, key: string): Table
  {
    table[w.place(key) := Drop(BucketOf(w, table, key), key)]
  }

  /** src/file/FileTree.cpp:157-174. */
  function RemoveFile(w: World, path: string, table: Table, out: set<string>): Outcome
  {
    if Find(w, table, path).None? || !IsFile(w.ns, path) then Ended(table, out)
    else if !IsNear(w, table, path) then Running
    else Unhang(w, path, Ended(Erased(w, table, path), out))
  }

  /**
   * removeDir of a directory; Running while it has not ended after `turns` steps. `next` is remove->_next, and
   * taking out what is below the directory does not move it. src/file/FileTree.cpp:176-203.
   */
  function RemoveDir(w: World, path: string, next: Option<string>, table: Table, out: set<string>, turns: nat): Outcome
    decreases turns
  {
    if Find(w, table, path).None? || IsFile(w.ns, path) then Ended(table, out)
    else if turns == 0 || !IsNear(w, table, path) then Running
    else if path !in w.ns.kids || w.ns.kids[path] == [] then Unhang(w, path, Ended(Erased(w, table, path), out))
    else Unhang(w, path, Loop(w, path, w.ns.kids[path][0], next, Erased(w, table, path), out, turns - 1))
  }

  /** The loop: remove `path`/name of `working`, as the kind of thing that `working` is, and step. */
  function Loop(w: World, path: string, working: string, next: Option<string>, table: Table, out: set<string>,
      turns: nat): Outcome
    decreases turns
  {
    if turns == 0 then Running
    else
      var r := RemoveKid(w, path, working, table, out, turns);
      if r.Ended? && next.Some? then Loop(w, path, next.value, next, r.table, r.out, turns - 1) else r
  }

  function RemoveKid(w: World, path: string, working: string, table: Table, out: set<string>, turns: nat): Outcome
    requires turns > 0
    decreases turns, 0
  {
    var newpath := path + "/" + NameOf(working);
    if IsFile(w.ns, working) then RemoveFile(w, newpath, table, out)
    else RemoveDir(w, newpath, Behind(w.ns, path, newpath), table, out, turns - 1)
  }

  lemma LoopTurn(w: World, path: string, working: string, next: string, table: Table, out: set<string>, turns: nat)
    returns (left: Table, more: set<string>)
    requires Loop(w, path, working, Some(next), table, out, turns).Ended?
    ensures turns > 0 && Loop(w, path, next, Some(next), left, more, turns - 1).Ended?
  {
    var kid := RemoveKid(w, path, working, table, out, turns);
    left, more := kid.table, kid.out;
  }

  /** With a sibling behind it, a directory that is not empty is never done with. */
  lemma {:induction false} SpinsForever(w: World, path: string, working: string, next: string, table: Table,
      out: set<string>,
      turns: nat)
    ensures !Loop(w, path, working, Some(next), table, out, turns).Ended?
    decreases turns
  {
    if Loop(w, path, working, Some(next), table, out, turns).Ended? {
      var left, more := LoopTurn(w, path, working, next, table, out, turns);
      SpinsForever(w, path, next, next, left, more, turns - 1);
    }
  }

  function Below(ns: Namespace, path: string): set<string> { set k | k in ns.ids && Under(path, k) }

  // ---- The table ----

  /** The table binds every path of the tree but those of `gone` to its node, and nothing else. */
  ghost predicate Filed(w: World, table: Table, gone: set<string>)
  {
    && (forall i :: i in table ==> DistinctKeys(table[i]))
    && forall k {:trigger Find(w, table, k)} :: Find(w, table, k) == if k in w.ns.ids
      && k !in gone then Some(k) else None
  }

  lemma DropFiled(w: World, table: Table, gone: set<string>, key: string)
    requires Filed(w, table, gone)
    ensures Filed(w, Erased(w, table, key), gone + {key})
  {
    var bucket, left := BucketOf(w, table, key), Erased(w, table, key);
    DropDistinct(bucket, key);
    forall k ensures Find(w, left, k) == if k in w.ns.ids && k !in gone + {key} then Some(k) else None {
      assert Find(w, table, k) == if k in w.ns.ids && k !in gone then Some(k) else None;
      if k != key && w.place(k) == w.place(key) {
        LookupDropOther(bucket, key, k);
      }
    }
  }

  /**
   * HashList::remove as written, of a key that is bound: it ends exactly if the key is near, and then that key is gone.
   */
  lemma UnfiledIs(w: World, path: string, table: Table)
    requires Find(w, table, path).Some?
    ensures var bucket := BucketOf(w, table, path);
      && (IsNear(w, table, path) <==> exists turns :: StuckWalk.Remove(bucket, path, turns).Done?)
      && forall turns :: StuckWalk.Remove(bucket, path, turns).Done? ==>
           StuckWalk.Remove(bucket, path, turns) == StuckWalk.Done(true, Erased(w, table, path)[w.place(path)])
  {
    StuckWalk.RemoveReturnsIff(BucketOf(w, table, path), path);
  }

  // ---- Exactly which directories are removed ----

  /** What hangs below a directory hangs below one of its children. */
  lemma BelowKids(ns: Namespace, path: string, k: string)
    requires Wf(ns) && path in ns.ids && path != "/" && k in Below(ns, path) && k != path
    ensures exists c :: c in ns.kids[path] && k in Below(ns, c)
  {
    assert Hangs(ns, path);
    var c := ChildTowards(ns, path, k);
  }

  /** The first child, under the name that removeDir gives it. */
  lemma FirstChild(ns: Namespace, path: string) returns (c: string)
    requires Wf(ns) && path in ns.ids && path != "/" && ns.kids[path] != []
    ensures c == ns.kids[path][0] && c == path + "/" + NameOf(c) && c in ns.ids && c != "/"
    ensures Below(ns, c) <= Below(ns, path) && path in Below(ns, path) && path !in Below(ns, c) && c in Below(ns, c)
    ensures |c| > |path| && Deeper(ns, c) < Deeper(ns, path)
    ensures |ns.kids[path]| == 1 ==> Below(ns, path) == {path} + Below(ns, c) && Behind(ns, path, c).None?
    ensures IsFile(ns, c) ==> Below(ns, c) == {c}
  {
    c := ns.kids[path][0];
    ChildIsUnder(ns, path, c);
    ChildPath(c);
    ChildDeeper(ns, path, 0);
    if |ns.kids[path]| == 1 {
      forall k | k in Below(ns, path) && k != path ensures k in Below(ns, c) {
        BelowKids(ns, path, k);
      }
    }
    if IsFile(ns, c) {
      FileIsChildless(ns, c);
      forall k | k in Below(ns, c) ensures k == c {
        if k != c {
          BelowKids(ns, c, k);
        }
      }
    }
  }

  /** A later child is not below an earlier one. */
  lemma SiblingOutside(ns: Namespace, path: string)
    requires Wf(ns) && path in ns.ids && path != "/" && |ns.kids[path]| > 1
    ensures ns.kids[path][1] in Below(ns, path) && ns.kids[path][1] !in Below(ns, ns.kids[path][0])
  {
    var c, x := ns.kids[path][0], ns.kids[path][1];
    ChildIsUnder(ns, path, c);
    ChildIsUnder(ns, path, x);
    if Under(c, x) {
      UnderDir(c, x);
    }
  }

  /**
   * The directory has its link and its key is near. And it is empty, or the last of its siblings with one child, which
   * then is a file with its link and a near key, or again such a directory.
   */
  ghost predicate Goes(w: World, path: string, table: Table, last: bool)
    requires Wf(w.ns) && path in w.ns.ids && path != "/"
    decreases Deeper(w.ns, path)
  {
    path in w.linked && IsNear(w, table, path) && (
      w.ns.kids[path] == [] || (
        last && |w.ns.kids[path]| == 1 && (
          ChildDeeper(w.ns, path, 0);
          ChildIsUnder(w.ns, path, w.ns.kids[path][0]);
          var c, left := w.ns.kids[path][0], Erased(w, table, path);
          if IsFile(w.ns, c) then c in w.linked && IsNear(w, left, c) else Goes(w, c, left, true))))
  }

  /** The removal has ended, and index and tree have lost exactly the directory and what is below it. */
  ghost predicate Removed(w: World, path: string, gone: set<string>, out: set<string>, r: Outcome)
  {
    r.Ended? && r.out == out + Below(w.ns, path) && Filed(w, r.table, gone + Below(w.ns, path))
  }

  /** What the removal of the first child makes of the rest. */
  function KidResult(w: World, path: string, c: string, table: Table, out: set<string>, turns: nat): Outcome
  {
    if IsFile(w.ns, c) then RemoveFile(w, c, table, out)
    else RemoveDir(w, c, Behind(w.ns, path, c), table, out, turns)
  }

  /** In a directory without a sibling behind it, the loop takes one turn; in others it does not end. */
  lemma OneTurn(w: World, path: string, c: string, next: Option<string>, table: Table, out: set<string>, turns: nat)
    requires c == path + "/" + NameOf(c)
    ensures Loop(w, path, c, next, table, out, turns).Ended? ==> next.None? && turns > 0
    ensures next.None? && turns > 0 ==>
              Loop(w, path, c, next, table, out, turns) == KidResult(w, path, c, table, out, turns - 1)
  {
    if next.Some? {
      SpinsForever(w, path, c, next.value, table, out, turns);
    }
  }

  /** The removal of a directory that is not empty, in one step. */
  lemma DirStep(w: World, path: string, next: Option<string>, table: Table, gone: set<string>, out: set<string>,
      turns: nat)
    requires Wf(w.ns) && path in w.ns.ids && path != "/" && path !in gone && !IsFile(w.ns, path)
    requires Filed(w, table, gone)
    requires w.ns.kids[path] != []
    ensures w.ns.kids[path][0] in w.ns.ids
    ensures RemoveDir(w, path, next, table, out, turns).Ended? ==> next.None? && turns >= 2 && IsNear(w, table, path)
    ensures next.None? && turns >= 2 && IsNear(w, table, path) ==>
              RemoveDir(w, path, next, table, out, turns)
                == Unhang(w, path, KidResult(w, path, w.ns.kids[path][0], Erased(w, table, path), out, turns - 2))
  {
    var c := FirstChild(w.ns, path);
    assert Find(w, table, path) == Some(path);
    if turns > 0 {
      OneTurn(w, path, c, next, Erased(w, table, path), out, turns - 1);
    }
  }

  lemma EmptyStep(w: World, path: string, next: Option<string>, table: Table, gone: set<string>, out: set<string>,
      turns: nat)
    requires Wf(w.ns) && path in w.ns.ids && path !in gone && !IsFile(w.ns, path) && Filed(w, table, gone)
    requires w.ns.kids[path] == []
    ensures RemoveDir(w, path, next, table, out, turns).Ended? ==> turns > 0 && IsNear(w, table, path)
    ensures turns > 0 && IsNear(w, table, path) ==>
              RemoveDir(w, path, next, table, out, turns) == Unhang(w, path, Ended(Erased(w, table, path), out))
  {
    assert Find(w, table, path) == Some(path);
  }

  /** Only the binding of `path` differs. */
  lemma OthersStay(w: World, table: Table, path: string)
    ensures forall k :: k != path ==> Find(w, Erased(w, table, path), k) == Find(w, table, k)
  {
    forall k | k != path ensures Find(w, Erased(w, table, path), k) == Find(w, table, k) {
      if w.place(k) == w.place(path) {
        LookupDropOther(BucketOf(w, table, path), path, k);
      }
    }
  }

  /** Two tables that agree outside of a directory. */
  ghost predicate SameOutside(w: World, path: string, table: Table, right: Table)
  {
    forall k {:trigger Find(w, right, k)} :: !Under(path, k) ==> Find(w, right, k) == Find(w, table, k)
  }

  lemma ErasedInside(w: World, path: string, table: Table)
    ensures SameOutside(w, path, table, table) && SameOutside(w, path, table, Erased(w, table, path))
  {
    OthersStay(w, table, path);
  }

  lemma SameFurtherOut(w: World, path: string, c: string, table: Table, right: Table)
    requires SameOutside(w, c, Erased(w, table, path), right) && Under(path, c)
    ensures SameOutside(w, path, table, right)
  {
    var left := Erased(w, table, path);
    OthersStay(w, table, path);
    forall k | !Under(path, k) ensures Find(w, right, k) == Find(w, table, k) {
      if Under(c, k) {
        UnderTrans(path, c, k);
      }
      assert Find(w, right, k) == Find(w, left, k);
    }
  }

  lemma KidIsUnder(ns: Namespace, path: string)
    requires Wf(ns) && path in ns.ids && path != "/" && ns.kids[path] != []
    ensures var c := ns.kids[path][0]; c in ns.ids && c != "/" && Under(path, c)
  {
    ChildIsUnder(ns, path, ns.kids[path][0]);
  }

  /** Nothing changes outside the directory. */
  lemma {:induction false} OutsideStays(w: World, path: string, next: Option<string>, table: Table, gone: set<string>,
      out: set<string>, turns: nat, r: Outcome)
    requires Wf(w.ns) && path in w.ns.ids && path != "/" && Filed(w, table, gone)
    requires r == RemoveDir(w, path, next, table, out, turns) && r.Ended?
    ensures SameOutside(w, path, table, r.table)
    decreases turns, 1
  {
    ErasedInside(w, path, table);
    if Find(w, table, path).Some? && !IsFile(w.ns, path) {
      if w.ns.kids[path] == [] {
        EmptyStep(w, path, next, table, gone, out, turns);
      } else {
        DirStep(w, path, next, table, gone, out, turns);
        FirstKidStays(w, path, table, gone, out, turns,
                      KidResult(w, path, w.ns.kids[path][0], Erased(w, table, path), out, turns - 2));
      }
    }
  }

  lemma {:induction false} FirstKidStays(w: World, path: string, table: Table, gone: set<string>, out: set<string>,
      turns: nat, kid: Outcome)
    requires Wf(w.ns) && path in w.ns.ids && path != "/" && w.ns.kids[path] != [] && Filed(w, table, gone) && turns >= 2
    requires kid == KidResult(w, path, w.ns.kids[path][0], Erased(w, table, path), out, turns - 2) && kid.Ended?
    ensures SameOutside(w, path, table, kid.table)
    decreases turns, 0
  {
    KidIsUnder(w.ns, path);
    DropFiled(w, table, gone, path);
    KidStays(w, path, w.ns.kids[path][0], Erased(w, table, path), gone + {path}, out, turns - 2, kid);
    SameFurtherOut(w, path, w.ns.kids[path][0], table, kid.table);
  }

  lemma {:induction false} KidStays(w: World, path: string, c: string, table: Table, gone: set<string>,
      out: set<string>,
      turns: nat, r: Outcome)
    requires Wf(w.ns) && c in w.ns.ids && c != "/" && Filed(w, table, gone)
    requires r == KidResult(w, path, c, table, out, turns) && r.Ended?
    ensures SameOutside(w, c, table, r.table)
    decreases turns, 2
  {
    if IsFile(w.ns, c) {
      FileStays(w, c, table, gone, out, r);
    } else {
      OutsideStays(w, c, Behind(w.ns, path, c), table, gone, out, turns, r);
    }
  }

  lemma FileStays(w: World, path: string, table: Table, gone: set<string>, out: set<string>, r: Outcome)
    requires Filed(w, table, gone) && path in w.ns.ids && r == RemoveFile(w, path, table, out) && r.Ended?
    ensures SameOutside(w, path, table, r.table)
  {
    OthersStay(w, table, path);
  }

  lemma OnlyItself(ns: Namespace, path: string)
    requires Wf(ns) && path in ns.ids && path != "/" && ns.kids[path] == []
    ensures Below(ns, path) == {path}
  {
    forall k | k in Below(ns, path) ensures k == path {
      if k != path {
        BelowKids(ns, path, k);
      }
    }
  }

  /** What is gone with an only child. */
  lemma OnlyChildGone(ns: Namespace, path: string, gone: set<string>)
    requires Wf(ns) && path in ns.ids && path != "/" && |ns.kids[path]| == 1 && gone !! Below(ns, path)
    ensures var c := ns.kids[path][0];
      && c in ns.ids && c != "/" && Behind(ns, path, c).None?
      && gone + {path} + Below(ns, c) == gone + Below(ns, path) && (gone + {path}) !! Below(ns, c)
  {
    var c := FirstChild(ns, path);
  }

  lemma FileRemoved(w: World, path: string, table: Table, gone: set<string>, out: set<string>)
    requires Wf(w.ns) && Filed(w, table, gone) && path in w.ns.ids && path != "/" && path !in gone && IsFile(w.ns, path)
    requires path in w.linked && IsNear(w, table, path)
    ensures Removed(w, path, gone, out, RemoveFile(w, path, table, out))
  {
    assert Find(w, table, path) == Some(path);
    DropFiled(w, table, gone, path);
    FileIsChildless(w.ns, path);
    OnlyItself(w.ns, path);
  }

  /** With the only child, all below the directory is gone. */
  lemma KidRemoved(w: World, path: string, next: Option<string>, table: Table, gone: set<string>, out: set<string>,
      turns: nat, kid: Outcome, r: Outcome)
    requires Wf(w.ns) && path in w.ns.ids && path != "/" && path !in gone && !IsFile(w.ns, path)
    requires Filed(w, table, gone)
    requires |w.ns.kids[path]| == 1 && path in w.linked && IsNear(w, table, path) && next.None? && turns >= 2
    requires kid == KidResult(w, path, w.ns.kids[path][0], Erased(w, table, path), out, turns - 2)
    requires Removed(w, w.ns.kids[path][0], gone + {path}, out, kid)
    requires r == RemoveDir(w, path, next, table, out, turns)
    ensures Removed(w, path, gone, out, r)
  {
    DirStep(w, path, next, table, gone, out, turns);
    AllBelow(w.ns, path, gone, out);
  }

  lemma AllBelow(ns: Namespace, path: string, gone: set<string>, out: set<string>)
    requires Wf(ns) && path in ns.ids && path != "/" && |ns.kids[path]| == 1
    ensures gone + {path} + Below(ns, ns.kids[path][0]) == gone + Below(ns, path)
    ensures out + Below(ns, ns.kids[path][0]) + {path} == out + Below(ns, path)
  {
    var c := FirstChild(ns, path);
  }

  /** Such a directory is removed with all that is below it. */
  lemma {:induction false} GoesWell(w: World, path: string, next: Option<string>, table: Table, gone: set<string>,
      out: set<string>)
    returns (turns: nat, r: Outcome)
    requires Wf(w.ns) && path in w.ns.ids && path != "/" && !IsFile(w.ns, path)
    requires Filed(w, table, gone) && gone !! Below(w.ns, path) && Goes(w, path, table, next.None?)
    ensures r == RemoveDir(w, path, next, table, out, turns) && Removed(w, path, gone, out, r)
    decreases Deeper(w.ns, path)
  {
    assert path in Below(w.ns, path);
    if w.ns.kids[path] == [] {
      turns, r := 1, RemoveDir(w, path, next, table, out, 1);
      EmptyStep(w, path, next, table, gone, out, turns);
      DropFiled(w, table, gone, path);
      OnlyItself(w.ns, path);
    } else {
      OnlyChildGone(w.ns, path, gone);
      var c := w.ns.kids[path][0];
      ChildDeeper(w.ns, path, 0);
      DropFiled(w, table, gone, path);
      var kid;
      if IsFile(w.ns, c) {
        turns, kid := 0, RemoveFile(w, c, Erased(w, table, path), out);
        FileRemoved(w, c, Erased(w, table, path), gone + {path}, out);
      } else {
        turns, kid := GoesWell(w, c, None, Erased(w, table, path), gone + {path}, out);
      }
      turns, r := turns + 2, RemoveDir(w, path, next, table, out, turns + 2);
      KidRemoved(w, path, next, table, gone, out, turns, kid, r);
    }
  }

  lemma GoneFromChild(w: World, path: string, c: string, x: string, left: Table, right: Table, gone: set<string>)
    requires Filed(w, left, gone + {path}) && Filed(w, right, gone + Below(w.ns, path)) && gone !! Below(w.ns, path)
    requires x in Below(w.ns, path) && x != path && SameOutside(w, c, left, right)
    ensures Under(c, x)
  {
    assert Find(w, right, x) != Find(w, left, x);
  }

  /** With more than one child, one stays filed. */
  lemma OnlyOneChild(w: World, path: string, left: Table, right: Table, gone: set<string>)
    requires Wf(w.ns) && path in w.ns.ids && path != "/" && w.ns.kids[path] != [] && gone !! Below(w.ns, path)
    requires Filed(w, left, gone + {path}) && Filed(w, right, gone + Below(w.ns, path))
    requires SameOutside(w, w.ns.kids[path][0], left, right)
    ensures |w.ns.kids[path]| == 1
  {
    if |w.ns.kids[path]| > 1 {
      SiblingOutside(w.ns, path);
      ChildIsUnder(w.ns, path, w.ns.kids[path][1]);
      GoneFromChild(w, path, w.ns.kids[path][0], w.ns.kids[path][1], left, right, gone);
    }
  }

  /** No other directory is. */
  lemma {:induction false} OnlyGoes(w: World, path: string, next: Option<string>, table: Table, gone: set<string>,
      out: set<string>, turns: nat, r: Outcome)
    requires Wf(w.ns) && path in w.ns.ids && path != "/" && !IsFile(w.ns, path)
    requires Filed(w, table, gone) && gone !! Below(w.ns, path)
    requires r == RemoveDir(w, path, next, table, out, turns) && r.Ended? && Filed(w, r.table, gone + Below(w.ns, path))
    ensures Goes(w, path, table, next.None?)
    decreases turns, 0
  {
    assert path in Below(w.ns, path);
    if w.ns.kids[path] == [] {
      EmptyStep(w, path, next, table, gone, out, turns);
    } else {
      DirStep(w, path, next, table, gone, out, turns);
      var kid := KidResult(w, path, w.ns.kids[path][0], Erased(w, table, path), out, turns - 2);
      DropFiled(w, table, gone, path);
      OnlyKidGoes(w, path, Erased(w, table, path), gone, out, turns - 2, kid);
    }
  }

  lemma {:induction false} OnlyKidGoes(w: World, path: string, left: Table, gone: set<string>, out: set<string>,
      turns: nat, r: Outcome)
    requires Wf(w.ns) && path in w.ns.ids && path != "/" && w.ns.kids[path] != []
    requires Filed(w, left, gone + {path}) && gone !! Below(w.ns, path)
    requires r == KidResult(w, path, w.ns.kids[path][0], left, out, turns)
    requires r.Ended? && Filed(w, r.table, gone + Below(w.ns, path))
    ensures |w.ns.kids[path]| == 1
    ensures var c := w.ns.kids[path][0];
      && c in w.ns.ids && c != "/"
      && if IsFile(w.ns, c) then c in w.linked && IsNear(w, left, c) else Goes(w, c, left, true)
    decreases turns, 1
  {
    var c := w.ns.kids[path][0];
    KidIsUnder(w.ns, path);
    KidStays(w, path, c, left, gone + {path}, out, turns, r);
    OnlyOneChild(w, path, left, r.table, gone);
    OnlyChildGone(w.ns, path, gone);
    assert c in Below(w.ns, c);
    if IsFile(w.ns, c) {
      assert Find(w, left, c) == Some(c);
    } else {
      OnlyGoes(w, c, None, left, gone + {path}, out, turns, r);
    }
  }

  /**
   * removeDir as written ends with exactly the directory and everything below it gone from tree and table, which is
   * what Prune says, if and only if the directory's condition Goes holds.
   */
  lemma RemoveDirIff(w: World, path: string, table: Table)
    requires Wf(w.ns) && path in w.ns.ids && path != "/" && !IsFile(w.ns, path) && Filed(w, table, {})
    ensures HasSlash(path) && Prune(w.ns, path).ids.Keys == w.ns.ids.Keys - Below(w.ns, path)
    ensures var next := Behind(w.ns, DirOf(path), path);
      (exists turns :: Removed(w, path, {}, {}, RemoveDir(w, path, next, table, {}, turns)))
        <==> Goes(w, path, table, next.None?)
  {
    assert Hangs(w.ns, path);
    var next := Behind(w.ns, DirOf(path), path);
    if Goes(w, path, table, next.None?) {
      var turns, r := GoesWell(w, path, next, table, {}, {});
    }
    if turns :| Removed(w, path, {}, {}, RemoveDir(w, path, next, table, {}, turns)) {
      OnlyGoes(w, path, next, table, {}, {}, turns, RemoveDir(w, path, next, table, {}, turns));
    }
  }

  /** And then tree and table are in step again, so that the same can be said of the next call. */
  lemma RemovedFiled(w: World, path: string, r: Outcome)
    requires HasSlash(path) && Removed(w, path, {}, {}, r)
    ensures Filed(w.(ns := Prune(w.ns, path), linked := w.linked - r.out), r.table, {})
  {
    var w' := w.(ns := Prune(w.ns, path), linked := w.linked - r.out);
    forall k ensures Find(w', r.table, k) == if k in w'.ns.ids then Some(k) else None {
      assert Find(w', r.table, k) == Find(w, r.table, k);
    }
  }

  /** The root has no link, so that it is never removed: the call does not end, or uses what nothing has set. */
  lemma RootStays(w: World, next: Option<string>, table: Table, out: set<string>, turns: nat)
    requires Wf(w.ns) && Filed(w, table, {}) && "/" !in w.linked
    ensures !RemoveDir(w, "/", next, table, out, turns).Ended?
  {
    assert Find(w, table, "/") == Some("/");
  }

  // ---- How trees come about ----

  function FreshTable(place: string -> nat): Table { map[place("/") := [("/", "/")]] }

  /** addFile: only the first child of an empty directory gets its link. */
  function Linked(w: World, path: string): set<string>
    requires CanAdd(w.ns, path)
  {
    if w.ns.kids[DirOf(path)] == [] then w.linked + {path} else w.linked
  }

  function AddedTo(w: World, path: string, id: nat): World
  {
    if CanAdd(w.ns, path) then World(Add(w.ns, path, id), Linked(w, path), w.place) else w
  }

  function TableAdded(w: World, table: Table, path: string): Table
  {
    if CanAdd(w.ns, path) then table[w.place(path) := BucketOf(w, table, path) + [(path, path)]] else table
  }

  lemma FreshFiled(place: string -> nat)
    ensures Wf(EMPTY) && Filed(World(EMPTY, {}, place), FreshTable(place), {})
  {
    var w, table := World(EMPTY, {}, place), FreshTable(place);
    forall k ensures Find(w, table, k) == if k in w.ns.ids then Some(k) else None {
      assert [("/", "/")][1..] == [];
    }
  }

  lemma BoundIs(w: World, table: Table, w': World, table': Table, path: string)
    requires w'.place == w.place && forall k :: k in w'.ns.ids <==> k in w.ns.ids || k == path
    requires forall k :: Find(w, table', k) == if k == path then Some(k) else Find(w, table, k)
    requires Filed(w, table, {}) && forall i :: i in table' ==> DistinctKeys(table'[i])
    ensures Filed(w', table', {})
  {
    forall k ensures Find(w', table', k) == if k in w'.ns.ids then Some(k) else None {
      assert Find(w', table', k) == Find(w, table', k);
    }
  }

  /** Adding keeps tree and table in step. */
  lemma AddedFiled(w: World, table: Table, path: string, id: nat)
    requires Wf(w.ns) && Filed(w, table, {})
    ensures Wf(AddedTo(w, path, id).ns) && Filed(AddedTo(w, path, id), TableAdded(w, table, path), {})
  {
    AddWf(w.ns, path, id);
    if CanAdd(w.ns, path) {
      assert Find(w, table, path).None?;
      BindsOneMore(w, table, path);
      BoundIs(w, table, AddedTo(w, path, id), TableAdded(w, table, path), path);
    }
  }

  lemma BindsOneMore(w: World, table: Table, path: string)
    requires Find(w, table, path).None? && CanAdd(w.ns, path) && forall i :: i in table ==> DistinctKeys(table[i])
    ensures forall i :: i in TableAdded(w, table, path) ==> DistinctKeys(TableAdded(w, table, path)[i])
    ensures forall k :: Find(w, TableAdded(w, table, path), k) == if k == path then Some(k) else Find(w, table, k)
  {
    LookupNone(BucketOf(w, table, path), path);
    forall k ensures Find(w, TableAdded(w, table, path), k) == if k == path then Some(k) else Find(w, table, k) {
      if w.place(k) == w.place(path) {
        LookupAppend(BucketOf(w, table, path), (path, path), k);
      }
    }
  }

  // ---- Failing cases ----

  function JustA(place: string -> nat): World
  {
    World(Namespace(map["/" := 0, "/a" := 0], map["/" := ["/a"], "/a" := []]), {"/a"}, place)
  }

  /** The directories /a and /b. */
  function TwoEmpty(place: string -> nat): World
  {
    World(Namespace(map["/" := 0, "/a" := 0, "/b" := 0], map["/" := ["/a", "/b"], "/a" := [], "/b" := []]), {"/a"},
      place)
  }

  function TableOfTwo(place: string -> nat): Table
  {
    TableAdded(JustA(place), TableAdded(World(EMPTY, {}, place), FreshTable(place), "/a"), "/b")
  }

  /** They come from adding them to a fresh tree, in this order. */
  lemma TwoEmptyIs(place: string -> nat)
    ensures AddedTo(AddedTo(World(EMPTY, {}, place), "/a", 0), "/b", 0) == TwoEmpty(place)
    ensures Wf(TwoEmpty(place).ns) && Filed(TwoEmpty(place), TableOfTwo(place), {})
  {
    var w0 := World(EMPTY, {}, place);
    FreshFiled(place);
    JustAIs(w0);
    AddedFiled(w0, FreshTable(place), "/a", 0);
    BIsSecond(place);
    AddedFiled(JustA(place), TableAdded(w0, FreshTable(place), "/a"), "/b", 0);
  }

  lemma JustAIs(w0: World)
    requires w0.ns == EMPTY && w0.linked == {}
    ensures AddedTo(w0, "/a", 0) == JustA(w0.place)
  {
    assert LastSlash("/a") == 0 && CanAdd(EMPTY, "/a") && DirOf("/a") == "/";
    assert [] + ["/a"] == ["/a"];
    assert Add(EMPTY, "/a", 0) == JustA(w0.place).ns;
  }

  lemma BIsSecond(place: string -> nat)
    ensures AddedTo(JustA(place), "/b", 0) == TwoEmpty(place)
  {
    var w1 := JustA(place);
    assert LastSlash("/b") == 0 && CanAdd(w1.ns, "/b") && DirOf("/b") == "/";
    assert ["/a"] + ["/b"] == ["/a", "/b"];
    assert Add(w1.ns, "/b", 0) == TwoEmpty(place).ns;
  }

  /** Removing the empty /b there uses its unset link, if the table's removal ends at all. */
  lemma SecondCrashes(place: string -> nat, turns: nat)
    ensures var w, t := TwoEmpty(place), TableOfTwo(place);
      && Filed(w, t, {}) && !RemoveDir(w, "/b", None, t, {}, turns).Ended?
      && (IsNear(w, t, "/b") && turns > 0 ==> RemoveDir(w, "/b", None, t, {}, turns) == Fault)
  {
    var w, t := TwoEmpty(place), TableOfTwo(place);
    TwoEmptyIs(place);
    assert "/b" in w.ns.ids && !IsFile(w.ns, "/b") && w.ns.kids["/b"] == [];
    EmptyStep(w, "/b", None, t, {}, {}, turns);
  }

  /** The same with the file /a/x, added last. */
  function TwoAndFile(place: string -> nat): World { AddedTo(TwoEmpty(place), "/a/x", 7) }

  lemma TwoAndFileIs(place: string -> nat)
    ensures var w := TwoAndFile(place);
      && w.ns.kids["/"] == ["/a", "/b"] && w.ns.kids["/a"] == ["/a/x"] && {"/a", "/a/x"} == w.linked
      && Wf(w.ns) && "/a" in w.ns.ids && !IsFile(w.ns, "/a")
      && Filed(w, TableAdded(TwoEmpty(place), TableOfTwo(place), "/a/x"), {})
  {
    var w := TwoEmpty(place);
    TwoEmptyIs(place);
    LastSlashIs("/a/x", 2);
    assert "/a/x"[..2] == "/a" && CanAdd(w.ns, "/a/x");
    assert [] + ["/a/x"] == ["/a/x"];
    AddedFiled(w, TableOfTwo(place), "/a/x", 7);
  }

  /** Removing /a then, with the file in it and /b behind it, never ends, although all the links are there. */
  lemma RemovalSpins(place: string -> nat, turns: nat)
    ensures var w, t := TwoAndFile(place), TableAdded(TwoEmpty(place), TableOfTwo(place), "/a/x");
      Filed(w, t, {}) && !RemoveDir(w, "/a", Behind(w.ns, "/", "/a"), t, {}, turns).Ended?
  {
    var w, t := TwoAndFile(place), TableAdded(TwoEmpty(place), TableOfTwo(place), "/a/x");
    TwoAndFileIs(place);
    DirStep(w, "/a", Behind(w.ns, "/", "/a"), t, {}, {}, turns);
  }
}
