/** Runs of the four operations, and walking a path's components from the root. */
module Walks {
  import opened Association
  import opened Namespaces
  import opened Paths
  import opened Sequences

  // ---- Runs ----

  /** The table after `ops`, starting from the empty tree. */
  ghost function Run(ops: seq<Op>): (ns: Namespace)
    requires forall op :: op in ops ==> Askable(op)
    ensures Wf(ns)
  {
    if ops == [] then EmptyWf(); EMPTY
    else
      var before := Run(ops[..|ops| - 1]);
      StepWf(before, ops[|ops| - 1]);
      Step(before, ops[|ops| - 1])
  }

  lemma EmptyWf()
    ensures Wf(EMPTY)
  {
  }

  predicate Removes(op: Op) { op.RemoveFile? || op.RemoveDir? }

  /** What one accepted call does to every path: an add binds one new path, a removal unbinds its path and all below. */
  lemma StepEffect(ns: Namespace, op: Op, k: string)
    requires Wf(ns) && Askable(op) && Accepts(ns, op)
    ensures Removes(op) ==>
      (k in Step(ns, op).ids <==> k in ns.ids && !Under(op.path, k))
    ensures !Removes(op) ==> op.path !in ns.ids
    ensures !Removes(op) ==>
      (k in Step(ns, op).ids <==> k in ns.ids || k == op.path)
    ensures !Removes(op) ==>
      op.path in Step(ns, op).ids && Step(ns, op).ids[op.path] == if op.AddFile? then op.id else 0
    ensures k in ns.ids && k in Step(ns, op).ids ==> Step(ns, op).ids[k] == ns.ids[k]
  {
    if op.RemoveFile? {
      FileIsChildless(ns, op.path);
      DetachIsPrune(ns, op.path);
    }
  }

  ghost predicate Before<T(!new)>(s: seq<T>, x: T, y: T) { exists i, j :: 0 <= i < j < |s| && s[i] == x && s[j] == y }

  lemma CutKeepsOrder<T(!new)>(s: seq<T>, k: nat, x: T, y: T)
    requires k < |s| && s[k] != x && s[k] != y
    ensures Before(s[..k] + s[k + 1..], x, y) <==> Before(s, x, y)
  {
    var t := s[..k] + s[k + 1..];
    if Before(s, x, y) {
      var i, j :| 0 <= i < j < |s| && s[i] == x && s[j] == y;
      var i', j' := if i < k then i else i - 1, if j < k then j else j - 1;
      assert 0 <= i' < j' < |t| && t[i'] == x && t[j'] == y;
    }
    if Before(t, x, y) {
      var i, j :| 0 <= i < j < |t| && t[i] == x && t[j] == y;
      var i', j' := if i < k then i else i + 1, if j < k then j else j + 1;
      assert 0 <= i' < j' < |s| && s[i'] == x && s[j'] == y;
    }
  }

  lemma WithoutKeepsOrder(s: seq<string>, out: string, x: string, y: string)
    requires NoDup(s) && x != out && y != out
    ensures Before(Without(s, out), x, y) <==> Before(s, x, y)
  {
    if out in s {
      var k :| 0 <= k < |s| && s[k] == out;
      WithoutAt(s, k);
      CutKeepsOrder(s, k, x, y);
    } else {
      WithoutAbsent(s, out);
    }
  }

  lemma LastKeepsOrder(s: seq<string>, last: string, x: string, y: string)
    requires x != last && y != last
    ensures Before(s + [last], x, y) <==> Before(s, x, y)
    ensures x in s ==> Before(s + [last], x, last)
  {
    var t := s + [last];
    assert t[..|s|] + t[|s| + 1..] == s;
    CutKeepsOrder(t, |s|, x, y);
    if i :| 0 <= i < |s| && s[i] == x {
      assert t[i] == x && t[|s|] == last;
    }
  }

  /** Only the directory of the call's path gains or loses a child. */
  lemma StepOrder(ns: Namespace, op: Op, d: string)
    requires Wf(ns) && Askable(op) && Accepts(ns, op)
    requires d in ns.ids && d in Step(ns, op).ids
    ensures HasSlash(op.path) && d in ns.kids && d in Step(ns, op).kids
    ensures Step(ns, op).kids[d] ==
      if d != DirOf(op.path) then ns.kids[d]
      else if Removes(op) then Without(ns.kids[d], op.path)
      else ns.kids[d] + [op.path]
  {
    StepWf(ns, op);
    if Removes(op) {
      assert Hangs(ns, op.path);
    }
  }

  lemma OneChange(s: seq<string>, t: seq<string>, path: string, changes: bool, removes: bool, x: string, y: string)
    requires NoDup(s) && t == if !changes then s else if removes then Without(s, path) else s + [path]
    ensures x != path && y != path ==> (Before(t, x, y) <==> Before(s, x, y))
    ensures changes && !removes && x in s && x != path ==> Before(t, x, path)
  {
    if changes && x != path {
      if removes && y != path {
        WithoutKeepsOrder(s, path, x, y);
      } else if !removes {
        LastKeepsOrder(s, path, x, if y != path then y else x);
      }
    }
  }

  /** Children that an accepted call leaves alone stay in their order, and a new one comes behind all others. */
  lemma StepKeepsOrder(ns: Namespace, op: Op, d: string, x: string, y: string)
    requires Wf(ns) && Askable(op) && Accepts(ns, op)
    requires d in ns.ids && d in Step(ns, op).ids && d in ns.kids
    ensures d in Step(ns, op).kids && HasSlash(op.path)
    ensures x != op.path && y != op.path ==>
              (Before(Step(ns, op).kids[d], x, y) <==> Before(ns.kids[d], x, y))
    ensures !Removes(op) && d == DirOf(op.path) && x in ns.kids[d] && x != op.path ==>
        Before(Step(ns, op).kids[d], x, op.path)
  {
    StepOrder(ns, op, d);
    OneChange(ns.kids[d], Step(ns, op).kids[d], op.path, d == DirOf(op.path), Removes(op), x, y);
  }

  /** Adding a fresh path and removing it again gives back the table, order and all. */
  lemma AddThenRemove(ns: Namespace, path: string, id: nat)
    requires Wf(ns) && CanAdd(ns, path)
    ensures Wf(Add(ns, path, id))
    ensures id != 0 ==> Step(Add(ns, path, id), RemoveFile(path)) == ns
    ensures id == 0 ==> Step(Add(ns, path, id), RemoveDir(path)) == ns
  {
    AddWf(ns, path, id);
    DetachIsPrune(Add(ns, path, id), path);
    var d := DirOf(path);
    KidsAreChildren(ns, d);
    DetachAdded(ns, path, id);
  }

  lemma DetachAdded(ns: Namespace, path: string, id: nat)
    requires CanAdd(ns, path) && ns.kids.Keys == ns.ids.Keys && path !in ns.kids[DirOf(path)]
    ensures Detach(Add(ns, path, id), path) == ns
  {
    WithoutLast(ns.kids[DirOf(path)], path);
    var back := Detach(Add(ns, path, id), path);
    assert back.ids == ns.ids;
    assert back.kids == ns.kids;
  }

  lemma WithoutLast<T>(s: seq<T>, x: T)
    requires x !in s
    ensures Without(s + [x], x) == s
  {
    assert forall j :: 0 <= j < |s| ==> (s + [x])[j] != (s + [x])[|s|];
    WithoutAt(s + [x], |s|);
  }

  // ---- Walking ----

  /** The first child called `name`: FileTree::searchChild. */
  function FindChild(keys: seq<string>, name: string): Option<string>
  {
    if keys == [] then None else if NameOf(keys[0]) == name then Some(keys[0]) else FindChild(keys[1..], name)
  }

  /** Walking `comps` down from the root, one child name at a time. */
  function Walk(ns: Namespace, comps: seq<string>): Option<string>
  {
    if comps == [] then Some("/")
    else
      match Walk(ns, comps[..|comps| - 1])
      case None => None
      case Some(d) => if d in ns.kids then FindChild(ns.kids[d], comps[|comps| - 1]) else None
  }

  function JoinAll(comps: seq<string>): string
  {
    if comps == [] then "/" else Join(JoinAll(comps[..|comps| - 1]), comps[|comps| - 1])
  }

  function Components(k: string): seq<string>
    decreases |k|
  {
    if k == "/" || !HasSlash(k) then []
    else DirShorter(k); Components(DirOf(k)) + [NameOf(k)]
  }

  /** Component lists that a path can be cut into. */
  predicate Cuts(comps: seq<string>)
  {
    (forall i :: 0 <= i < |comps| ==> '/' !in comps[i]) && (comps != [] ==> comps[0] != "")
  }

  ghost predicate NoDoubledRoot(ns: Namespace) { forall k :: k in ns.ids ==> !DoubledRoot(k) }

  lemma {:induction false} FindChildFinds(keys: seq<string>, name: string)
    ensures match FindChild(keys, name)
            case None => forall c :: c in keys ==> NameOf(c) != name
            case Some(c) => c in keys && NameOf(c) == name
  {
    if keys != [] && NameOf(keys[0]) != name {
      FindChildFinds(keys[1..], name);
    }
  }

  lemma {:induction false} JoinAllShape(comps: seq<string>)
    requires Cuts(comps)
    ensures JoinAll(comps) == "/" <==> comps == []
    ensures |JoinAll(comps)| > 0 && (|JoinAll(comps)| > 1 || comps == [])
  {
    if comps != [] {
      JoinAllShape(comps[..|comps| - 1]);
      if |comps| == 1 {
        assert comps[..0] == [];
      }
    }
  }

  /** Under a tidy root, a child's path is its directory joined with its name. */
  lemma ChildIsJoined(ns: Namespace, d: string, c: string)
    requires Wf(ns) && NoDoubledRoot(ns) && d in ns.kids && c in ns.kids[d]
    ensures c in ns.ids && c == Join(d, NameOf(c))
  {
    var i :| 0 <= i < |ns.kids[d]| && ns.kids[d][i] == c;
    assert IsChild(ns, d, c);
    JoinSplit(c);
  }

  /** Walking a path's components reaches exactly the path that the index holds, and nothing when it holds none. */
  lemma {:induction false} WalkAgrees(ns: Namespace, comps: seq<string>)
    requires Wf(ns) && NoDoubledRoot(ns) && Cuts(comps)
    ensures Walk(ns, comps) == if JoinAll(comps) in ns.ids then Some(JoinAll(comps)) else None
  {
    if comps != [] {
      var front, last := comps[..|comps| - 1], comps[|comps| - 1];
      var d := JoinAll(front);
      assert Cuts(front);
      WalkAgrees(ns, front);
      JoinAllShape(front);
      JoinAllShape(comps);
      SplitJoined(d, last);
      var k := Join(d, last);
      if k in ns.ids {
        assert Hangs(ns, k);
        assert d in ns.kids && k in ns.kids[d];
      }
      if d in ns.ids {
        FindChildFinds(ns.kids[d], last);
        if FindChild(ns.kids[d], last).Some? {
          ChildIsJoined(ns, d, FindChild(ns.kids[d], last).value);
        }
      }
    }
  }

  lemma {:induction false} ComponentsJoin(ns: Namespace, k: string)
    requires Wf(ns) && NoDoubledRoot(ns) && k in ns.ids
    ensures Cuts(Components(k)) && JoinAll(Components(k)) == k
    decreases |k|
  {
    if k != "/" {
      assert Hangs(ns, k);
      DirShorter(k);
      ComponentsJoin(ns, DirOf(k));
      JoinSplit(k);
      var front := Components(DirOf(k));
      assert Components(k)[..|front|] == front;
      if front == [] {
        assert k == Join("/", NameOf(k));
        assert NameOf(k) != "";
      }
    }
  }

  /** Every path of the index is reached by walking its components. */
  ghost predicate IndexedAreReached(ns: Namespace)
  {
    forall k :: k in ns.ids ==> JoinAll(Components(k)) == k && Walk(ns, Components(k)) == Some(k)
  }

  /** And every walk ends where the index has the path that its components make, or nowhere. */
  ghost predicate ReachedAreIndexed(ns: Namespace)
  {
    forall comps :: Cuts(comps) ==> Walk(ns, comps) == if JoinAll(comps) in ns.ids then Some(JoinAll(comps)) else None
  }

  /** The index and the walk agree in both directions exactly when no path doubles the root's slash. */
  lemma IndexIsWalk(ns: Namespace)
    requires Wf(ns)
    ensures NoDoubledRoot(ns) <==> IndexedAreReached(ns) && ReachedAreIndexed(ns)
  {
    if NoDoubledRoot(ns) {
      forall comps | Cuts(comps)
        ensures Walk(ns, comps) == if JoinAll(comps) in ns.ids then Some(JoinAll(comps)) else None
      {
        WalkAgrees(ns, comps);
      }
      forall k | k in ns.ids ensures JoinAll(Components(k)) == k && Walk(ns, Components(k)) == Some(k) {
        ComponentsJoin(ns, k);
        WalkAgrees(ns, Components(k));
      }
    } else {
      var k :| k in ns.ids && DoubledRoot(k);
      assert Hangs(ns, k);
      assert DirOf(k) == "/" by { assert k[..1] == [k[0]]; }
      assert Components(k) == [NameOf(k)];
      assert JoinAll([NameOf(k)]) == Join("/", NameOf(k)) by {
        assert [NameOf(k)][..0] == [];
      }
      JoinSplit(k);
    }
  }

  /** A doubled root is accepted, and then the walk answers a path that the index does not hold. */
  lemma DoubledRootSplitsThem()
    ensures var ns := Add(EMPTY, "//a", 7);
      "//a" in ns.ids && Walk(ns, ["a"]) == Some("//a") && JoinAll(["a"]) == "/a" && "/a" !in ns.ids
  {
    LastSlashIs("//a", 1);
    assert "//a"[..1] == "/" && "//a"[2..] == "a";
    var ns := Add(EMPTY, "//a", 7);
    assert ns.kids["/"] == [] + ["//a"];
    assert ["a"][..0] == [];
    assert Walk(ns, []) == Some("/");
    assert FindChild(["//a"], "a") == Some("//a");
  }
}
