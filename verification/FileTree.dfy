/** The file table of src/file/FileTree.cpp: a linked tree shadowed by a hash table from path to node. */
module FileTrees {
  import opened Association
  import opened HashLists
  import opened Namespaces
  import opened Paths
  import opened Sequences
  import opened Snapshots
  import opened Texts

  class TreeNode {
    const isFile: bool
    const name: string
    const metaID: nat
    ghost const key: string           // the path the node was added under
    ghost const home: string          // the path of its directory
    var children: TreeNode?
    var next: TreeNode?
    var last: TreeNode?
    var parent: TreeNode?
    ghost var kids: seq<TreeNode>     // what walking `next` from `children` visits

    constructor (name: string, metaID: nat, ghost key: string, ghost home: string)
      ensures this.name == name && this.metaID == metaID && this.key == key && this.home == home
      ensures isFile == (metaID != 0)
      ensures children == next == last == parent == null && kids == []
    {
      this.name, this.metaID, this.key, this.home := name, metaID, key, home;
      this.isFile := metaID != 0;
      children, next, last, parent := null, null, null, null;
      kids := [];
    }

    /** First-child, sibling and parent links all spell out `kids`. */
    ghost predicate Linked()
      reads this`children, this`kids, kids`parent, kids`next, kids`last
    {
      children == (if kids == [] then null else kids[0]) && Chained(this, kids)
    }
  }

  ghost predicate Chained(parent: TreeNode, kids: seq<TreeNode>)
    reads kids`parent, kids`next, kids`last
  {
    && (forall i :: 0 <= i < |kids| ==> kids[i].parent == parent)
    && (forall i {:trigger kids[i].next} :: 0 <= i < |kids| - 1 ==> kids[i].next == kids[i + 1])
    && (forall i {:trigger kids[i].last} :: 0 < i < |kids| ==> kids[i].last == kids[i - 1])
    && (kids != [] ==> kids[0].last == null && kids[|kids| - 1].next == null)
  }

  /** A step that touches no part of the table leaves it valid. */
  twostate lemma TableKept(table: HashList<string, TreeNode?>)
    requires old(table.Valid()) && unchanged(table) && unchanged(old(table.Repr))
    ensures table.Valid() && table.log == old(table.log) && table.Repr == old(table.Repr)
  {
  }

  twostate lemma StillLinked(m: TreeNode)
    requires old(m.Linked()) && m.kids == old(m.kids) && m.children == old(m.children)
    requires forall c :: c in m.kids ==> c.parent == old(c.parent) && c.next == old(c.next) && c.last == old(c.last)
    ensures m.Linked()
  {
  }

  /** The linking half of addFile: walk to the last child of `dir` and append `n`. */
  method LinkChild(dir: TreeNode, n: TreeNode)
    requires dir.Linked() && NoDup(dir.kids)
    requires dir !in dir.kids && n !in dir.kids && n != dir && n.next == null && n.last == null
    modifies dir`children, dir`kids, dir.kids`next, n`last, n`parent
    ensures dir.kids == old(dir.kids) + [n] && dir.Linked()
  {
    ghost var kids := dir.kids;
    if dir.children != null {
      var insert := dir.children;
      ghost var j := 0;
      while insert.next != null
        invariant 0 <= j < |kids| && dir.Linked() && dir.kids == kids
        invariant insert == kids[j]
        decreases |kids| - j
      {
        insert, j := insert.next, j + 1;
      }
      insert.next := n;
      n.last := insert;
    } else {
      dir.children := n;
    }
    n.parent := dir;
    dir.kids := kids + [n];
  }

  /** FileTree::removeNode: close the gap that the `i`-th child of `dir` leaves. */
  method UnlinkChild(ghost dir: TreeNode, tn: TreeNode, ghost i: nat)
    requires dir.Linked() && NoDup(dir.kids) && dir !in dir.kids
    requires i < |dir.kids| && dir.kids[i] == tn
    modifies dir`children, dir`kids, dir.kids`next, dir.kids`last
    ensures dir.kids == old(dir.kids)[..i] + old(dir.kids)[i + 1..] && dir.Linked()
  {
    ghost var kids := dir.kids;
    assert tn.parent == dir;
    if tn.last != null {
      assert i > 0 && tn.last == kids[i - 1];
      tn.last.next := tn.next;
    }
    if tn.next != null {
      assert i < |kids| - 1 && tn.next == kids[i + 1];
      tn.next.last := tn.last;
    }
    if tn.parent.children == tn {
      tn.parent.children := tn.next;
    }
    dir.kids := kids[..i] + kids[i + 1..];
  }

  ghost function KeysOf(kids: seq<TreeNode>): seq<string>
  {
    seq(|kids|, i requires 0 <= i < |kids| => kids[i].key)
  }

  /** `log` binds every path of `at` to its node, except those in `pending`, which it does not bind. */
  ghost predicate Mirrors(log: seq<(string, TreeNode?)>, at: map<string, TreeNode>, pending: set<string>)
  {
    && DistinctKeys(log)
    && forall k :: Lookup(log, k) == if k in at && k !in pending then Some(at[k]) else None
  }

  lemma MirrorsAdd(log: seq<(string, TreeNode?)>, at: map<string, TreeNode>, pending: set<string>, path: string,
      n: TreeNode)
    requires Mirrors(log, at, pending) && path !in at && path !in pending
    ensures Mirrors(log + [(path, n)], at[path := n], pending)
  {
    AppendDistinct(log, (path, n as TreeNode?));
    forall k { LookupAppend(log, (path, n as TreeNode?), k); }
  }

  lemma MirrorsDrop(log: seq<(string, TreeNode?)>, at: map<string, TreeNode>, pending: set<string>, path: string)
    requires Mirrors(log, at, pending)
    ensures Mirrors(Drop(log, path), at, pending + {path})
  {
    DropDistinct(log, path);
    forall k | k != path { LookupDropOther(log, path, k); }
  }

  /** Every node but the root is labelled with the two halves of its path. */
  ghost predicate Labelled(at: map<string, TreeNode>, root: TreeNode)
  {
    && "/" in at && at["/"] == root && root.name == "/" && !root.isFile
    && forall k {:trigger Label(k, at[k])} :: k in at ==> Label(k, at[k])
  }

  ghost predicate Label(k: string, n: TreeNode)
  {
    && n.isFile == (n.metaID != 0)
    && (k != "/" ==> HasSlash(k) && n.home == DirOf(k) && n.name == NameOf(k))
  }

  lemma LabelledAdd(at: map<string, TreeNode>, root: TreeNode, path: string, n: TreeNode)
    requires Labelled(at, root) && path !in at && Label(path, n)
    ensures Labelled(at[path := n], root)
  {
  }

  lemma MirrorsForget(log: seq<(string, TreeNode?)>, at: map<string, TreeNode>, pending: set<string>, path: string)
    requires Mirrors(log, at, pending + {path}) && path !in pending
    ensures Mirrors(log, at - {path}, pending)
  {
  }

  lemma LabelledRemove(at: map<string, TreeNode>, root: TreeNode, path: string)
    requires Labelled(at, root) && path != "/"
    ensures Labelled(at - {path}, root)
  {
  }

  /** Removing a child, as a file or as a directory, is pruning it, and leaves pruning its directory as it was. */
  lemma AfterFirstKid(ns: Namespace, path: string, c: string)
    requires Wf(ns) && path != "/" && path in ns.ids && c in ns.kids[path]
    ensures HasSlash(path) && HasSlash(c)
    ensures ns.ids[c] != 0 ==> Detach(ns, c) == Prune(ns, c)
    ensures Prune(Prune(ns, c), path) == Prune(ns, path)
    ensures path in Prune(ns, c).ids && c !in Prune(ns, c).ids
  {
    ChildIsUnder(ns, path, c);
    PruneChildFirst(ns, path, c);
    if ns.ids[c] != 0 {
      FileIsChildless(ns, c);
      DetachIsPrune(ns, c);
    }
  }

  /** Nothing that waits above a directory lies below one of its children. */
  lemma PendingAbove(pending: set<string>, path: string, c: string)
    requires Under(path, c) && !Under(c, path)
    requires forall u :: u in pending ==> !Under(path, u)
    ensures forall u :: u in pending + {path} ==> !Under(c, u)
  {
    forall u | u in pending + {path} && Under(c, u) ensures false {
      UnderTrans(path, c, u);
      assert false;
    }
  }

  lemma AddIsStep(ns: Namespace, op: Op, path: string, id: nat)
    requires Wf(ns) && (op == Op.AddFile(path, id) || (op == Op.AddDir(path) && id == 0))
    ensures Askable(op) && Step(ns, op) == Add(ns, path, id) && Accepts(ns, op) == CanAdd(ns, path)
  {
  }

  lemma RemoveFileIsStep(ns: Namespace, path: string)
    requires Wf(ns)
    ensures var op := Op.RemoveFile(path);
      && Askable(op) && Accepts(ns, op) == (path in ns.ids && ns.ids[path] != 0)
      && (Accepts(ns, op) ==> HasSlash(path) && Step(ns, op) == Detach(ns, path))
      && (!Accepts(ns, op) ==> Step(ns, op) == ns)
  {
    if path in ns.ids && ns.ids[path] != 0 {
      assert Hangs(ns, path);
    }
  }

  lemma RemoveDirIsStep(ns: Namespace, path: string)
    requires Wf(ns) && path != "/"
    ensures var op := Op.RemoveDir(path);
      && Askable(op) && Accepts(ns, op) == (path in ns.ids && ns.ids[path] == 0)
      && (Accepts(ns, op) ==> HasSlash(path) && Step(ns, op) == Prune(ns, path))
      && (!Accepts(ns, op) ==> Step(ns, op) == ns)
  {
    if path in ns.ids {
      assert Hangs(ns, path);
    }
  }

  class FileTree {
    const root: TreeNode
    const fileMap: HashList<string, TreeNode?>
    ghost var at: map<string, TreeNode>     // the node of every path in the tree
    ghost var nodes: set<TreeNode>          // every node ever linked

    /** What the tree says, as a value. */
    ghost function Ns(): Namespace
      reads this, nodes
      requires Owned()
    {
      Namespace(map k | k in at :: at[k].metaID, map k | k in at :: KeysOf(at[k].kids))
    }

    /** The node of path `k`, its children and its links. */
    ghost predicate Placed(k: string)
      requires Owned() && k in at
      reads this, nodes
    {
      var n := at[k];
      && n.key == k
      && (forall c :: c in n.kids ==> c in nodes && Kid(k, c))
      && (n != root ==> n.home in at && !at[n.home].isFile && n in at[n.home].kids)
      && NoDup(n.kids)
      && n.Linked()
    }

    ghost predicate Kid(k: string, c: TreeNode)
      reads this
    {
      c.key in at && at[c.key] == c && c != root && c.key != k && c.home == k
    }

    ghost predicate Owned()
      reads this
    {
      forall k :: k in at ==> at[k] in nodes
    }

    /** Paths, nodes and links agree with each other. */
    ghost predicate Laid()
      reads this, nodes
    {
      Owned() && forall k {:trigger Placed(k)} :: k in at ==> Placed(k)
    }

    /** The tree, and the table that shadows it but for the paths in `pending`. */
    ghost predicate Valid(pending: set<string>)
      reads this, nodes, fileMap, fileMap.Repr
    {
      && Laid() && Labelled(at, root)
      && fileMap.Valid() && fileMap.none == null && Mirrors(fileMap.log, at, pending)
      && this !in fileMap.Repr && nodes !! fileMap.Repr
    }

    constructor (size: nat, hash: string -> nat)
      requires size > 0
      ensures Valid({}) && Ns() == EMPTY
      ensures fresh(nodes) && fresh(fileMap.Repr)
    {
      root := new TreeNode("/", 0, "/", "");
      fileMap := new HashList(size, hash, null);
      at, nodes := map[], {};
      new;
      MirrorsAdd([], map[], {}, "/", root);
      fileMap.Add("/", root);
      at, nodes := map[]["/" := root], {root};
      RootAlone();
    }

    lemma RootAlone()
      requires at == map[]["/" := root] && nodes == {root}
      requires root.key == root.name == "/" && root.metaID == 0 && !root.isFile && root.kids == [] && root.Linked()
      ensures Laid() && Labelled(at, root) && Ns() == EMPTY
    {
    }

    /** FileTree::searchDir, the lookup every operation starts with. */
    method SearchDir(path: string, ghost pending: set<string>) returns (n: TreeNode?)
      requires Valid(pending)
      ensures Valid(pending) && Ns() == old(Ns())
      ensures n == if path in at && path !in pending then at[path] else null
    {
      n := fileMap.GetValue(path);
    }

    method AddFile(path: string, metaID: nat) returns (ok: bool)
      requires Valid({})
      modifies this, nodes, fileMap.Repr
      ensures Valid({}) && fresh(nodes - old(nodes)) && fresh(fileMap.Repr - old(fileMap.Repr))
      ensures ok == CanAdd(old(Ns()), path)
      ensures Ns() == Add(old(Ns()), path, metaID)
      ensures forall k :: k in old(at) ==> k in at && at[k] == old(at)[k]
    {
      ghost var was := Ns();
      var insert := RoomFor(path);
      ok := insert != null;
      if ok {
        Enter(insert, path, NameOf(path), metaID);
      } else {
        assert Add(was, path, metaID) == was;
      }
    }

    /** The checks of addFile: the directory's node, or none where the path is there, or has no directory to go to. */
    method RoomFor(path: string) returns (insert: TreeNode?)
      requires Valid({})
      ensures Valid({}) && Ns() == old(Ns()) && (insert != null <==> CanAdd(Ns(), path))
      ensures insert != null ==> insert == at[DirOf(path)]
    {
      var present := SearchDir(path, {});
      if present != null {
        return null;
      }
      if LastSlash(path) == -1 {
        return null;
      }
      var dir := if LastSlash(path) == 0 then "/" else path[..LastSlash(path)];
      insert := SearchDir(dir, {});
      if insert == null {
        return null;
      }
      assert insert.isFile == (Ns().ids[dir] != 0) by {
        assert Label(dir, insert);
      }
      if insert.isFile {
        return null;
      }
    }

    lemma MirrorsHere()
      requires Valid({})
      ensures Mirrors(fileMap.log, at, {}) && fileMap.Valid() && Laid()
    {
    }

    /** The committing half of addFile: make the node, link it and file it. */
    method Enter(insert: TreeNode, path: string, name: string, metaID: nat)
      requires Valid({}) && CanAdd(Ns(), path) && insert == at[DirOf(path)] && name == NameOf(path)
      modifies this, nodes, fileMap.Repr
      ensures Valid({}) && fresh(nodes - old(nodes)) && fresh(fileMap.Repr - old(fileMap.Repr))
      ensures Ns() == Add(old(Ns()), path, metaID)
      ensures forall k :: k in old(at) ==> k in at && at[k] == old(at)[k]
    {
      MirrorsHere();
      ghost var pairs, paths := fileMap.log, at;
      var n := Grow(insert, path, name, metaID);
      ghost var grown := Ns();
      FileOnly(path, n, pairs, paths);
      assert Ns() == grown;
    }

    /** A step that touches no node leaves the tree as it was. */
    twostate lemma TreeKept()
      requires unchanged(this) && unchanged(old(nodes)) && old(Laid())
      ensures Laid() && Ns() == old(Ns())
    {
    }

    /** Making and linking the node, before it is filed. */
    method Grow(insert: TreeNode, path: string, name: string, metaID: nat) returns (n: TreeNode)
      requires Laid() && Labelled(at, root) && CanAdd(Ns(), path)
      requires insert == at[DirOf(path)] && name == NameOf(path)
      requires fileMap.Valid() && this !in fileMap.Repr && nodes !! fileMap.Repr
      modifies this, nodes
      ensures fresh(n) && at == old(at)[path := n] && Laid() && Labelled(at, root)
      ensures Ns() == Add(old(Ns()), path, metaID)
      ensures nodes == old(nodes) + {n} && nodes !! fileMap.Repr
      ensures fileMap.Valid() && fileMap.log == old(fileMap.log) && fileMap.Repr == old(fileMap.Repr)
    {
      n := new TreeNode(name, metaID, path, DirOf(path));
      LabelledAdd(at, root, path, n);
      TreeKept();
      assert Placed(DirOf(path)) && Label(DirOf(path), insert);
      InsertOnly(insert, n);
    }

    /** Filing a node touches nothing of the tree. */
    method FileOnly(path: string, n: TreeNode, ghost pairs: seq<(string, TreeNode?)>, ghost paths: map<string,
        TreeNode>)
      requires Laid() && Labelled(at, root) && nodes !! fileMap.Repr && this !in fileMap.Repr
      requires fileMap.Valid() && fileMap.none == null
      requires Mirrors(pairs, paths, {}) && path !in paths && fileMap.log == pairs && at == paths[path := n]
      modifies fileMap.Repr
      ensures Valid({}) && Ns() == old(Ns())
      ensures fresh(fileMap.Repr - old(fileMap.Repr))
    {
      MirrorsAdd(pairs, paths, {}, path, n);
      fileMap.Add(path, n);
      TreeKept();
    }

    /** Linking a node touches nothing of the table. */
    method InsertOnly(insert: TreeNode, n: TreeNode)
      requires Laid() && n.key !in at && n.home in at && insert == at[n.home] && !insert.isFile
      requires root in nodes && n !in nodes && n.kids == [] && n.Linked() && n.next == n.last == null
      requires fileMap.Valid() && this !in fileMap.Repr && nodes !! fileMap.Repr && n !in fileMap.Repr
      requires CanAdd(Ns(), n.key) && n.home == DirOf(n.key)
      modifies this, nodes, n
      ensures at == old(at)[n.key := n] && Laid() && Ns() == Add(old(Ns()), n.key, n.metaID)
      ensures nodes == old(nodes) + {n} && nodes !! fileMap.Repr
      ensures fileMap.Valid() && fileMap.log == old(fileMap.log) && fileMap.Repr == old(fileMap.Repr)
    {
      Insert(insert, n);
      LaidAfterAppend(n.key, n);
      NsAfterAppend(n.key, n);
      TableKept(fileMap);
    }

    /** A node has one parent: the children of `d` are no other path's children, and not `d`'s own node. */
    twostate lemma ApartFrom(d: string)
      requires old(Laid()) && d in old(at)
      ensures old(at)[d] !in old(at[d].kids)
      ensures forall k, c :: k in old(at) && k != d && c in old(at[k].kids) ==> c !in old(at[d].kids)
      ensures forall k :: k in old(at) && k != d ==> old(at)[k] != old(at)[d]
    {
      assert old(Placed(d));
      forall k | k in old(at) && k != d
        ensures old(at)[k] != old(at)[d]
        ensures forall c :: c in old(at[k].kids) ==> c !in old(at[d].kids)
      {
        assert old(Placed(k));
      }
    }

    /** The children of `d` are relinked, the other nodes' sibling and child links stand. */
    twostate predicate OnlyUnder(d: string)
      requires d in old(at)
      reads *
    {
      && (forall o: TreeNode :: o in old(nodes) && o != old(at)[d] ==>
            o.kids == old(o.kids) && o.children == old(o.children))
      && (forall o: TreeNode :: o in old(nodes) && o !in old(at[d].kids) ==>
            o.next == old(o.next) && o.last == old(o.last) && o.parent == old(o.parent))
    }

    twostate lemma OthersLinked(d: string)
      requires old(Laid()) && d in old(at) && OnlyUnder(d)
      ensures forall k :: k in old(at) && k != d ==> old(at)[k].kids == old(at[k].kids) && old(at)[k].Linked()
    {
      ApartFrom(d);
      forall k | k in old(at) && k != d ensures old(at)[k].kids == old(at[k].kids) && old(at)[k].Linked() {
        assert old(Placed(k));
        StillLinked(old(at)[k]);
      }
    }

    method Insert(insert: TreeNode, n: TreeNode)
      requires Laid() && n.key !in at && n.home in at && insert == at[n.home] && !insert.isFile
      requires root in nodes && n !in nodes && n.kids == [] && n.Linked() && n.next == n.last == null
      modifies this, nodes, n
      ensures Appended(n.key, n)
    {
      assert Placed(n.home);
      ApartFrom(n.home);
      at, nodes := at[n.key := n], nodes + {n};
      LinkChild(insert, n);
      OthersLinked(n.home);
    }

    /** What a step that appends the fresh, childless `n` to its directory leaves behind. */
    twostate predicate Appended(path: string, new n: TreeNode)
      requires old(Owned()) && n.home in old(at)
      reads *
    {
      && path !in old(at) && at == old(at)[path := n] && n.key == path
      && n !in old(nodes) && nodes == old(nodes) + {n}
      && n.kids == [] && n.Linked()
      && (var dir := old(at)[n.home]; dir.kids == old(dir.kids) + [n] && dir.Linked())
      && (forall k :: k in old(at) && k != n.home ==>
            old(at)[k].kids == old(at[k].kids) && old(at)[k].Linked())
    }

    twostate lemma LaidAfterAppend(path: string, new n: TreeNode)
      requires old(Laid()) && n.home in old(at) && Appended(path, n) && !old(at)[n.home].isFile
      requires root in old(nodes) && n.home != path
      ensures Laid()
    {
      assert root != n && at[path] == n;
      forall k | k in at && k != path ensures Placed(k) {
        assert old(Placed(k));
        forall c | c in at[k].kids ensures c in nodes && Kid(k, c) {
          assert c == n || c in old(at[k].kids);
          assert at[c.key] == c;
        }
      }
    }

    twostate lemma NsAfterAppend(path: string, new n: TreeNode)
      requires old(Owned()) && Owned() && n.home in old(at) && path !in old(at)
      requires at == old(at)[path := n] && n.key == path && n.kids == []
      requires var dir := old(at)[n.home]; dir.kids == old(dir.kids) + [n]
      requires forall k :: k in old(at) && k != n.home ==> old(at)[k].kids == old(at[k].kids)
      ensures var was := old(Ns());
        Ns() == Namespace(was.ids[path := n.metaID], was.kids[n.home := was.kids[n.home] + [path]][path := []])
    {
      var was := old(Ns());
      assert Ns().ids == was.ids[path := n.metaID];
      var then_ := was.kids[n.home := was.kids[n.home] + [path]][path := []];
      forall k | k in at ensures k in then_ && KeysOf(at[k].kids) == then_[k] {
        var m := at[k];
        if k == n.home {
          assert KeysOf(m.kids) == KeysOf(old(m.kids)) + [path];
        }
      }
      assert Ns().kids == then_;
    }

    // ---- Removal ----

    /** What a step that unlinks the `i`-th child of `d`, the childless node of `path`, leaves behind. */
    twostate predicate Unhung(path: string, new d: string, new i: int)
      requires 0 <= i && old(Owned()) && d in old(at)
      reads *
    {
      && path in old(at) && at == old(at) - {path} && nodes == old(nodes) && d != path
      && (var dir := old(at)[d];
          && i < |old(dir.kids)| && old(dir.kids)[i] == old(at)[path]
          && dir.kids == old(dir.kids)[..i] + old(dir.kids)[i + 1..] && dir.Linked())
      && (forall k :: k in old(at) && k != d ==> old(at)[k].kids == old(at[k].kids) && old(at)[k].Linked())
    }

    /** The lists of children afterwards: the old ones without the node that is unlinked. */
    twostate predicate Shrunk(tn: TreeNode)
      requires old(Owned()) && Owned()
      reads *
    {
      && (forall k :: k in at ==> k in old(at) && at[k] == old(at)[k] && NoDup(at[k].kids) && at[k].Linked())
      && (forall k, c :: k in at && c in at[k].kids ==> c in old(at[k].kids) && c != tn)
      && (forall k, c :: k in at && c in old(at[k].kids) && c != tn ==> c in at[k].kids)
    }

    twostate lemma ListsAfterUnhang(path: string, new d: string, new i: int)
      requires 0 <= i && old(Laid()) && d in old(at) && Unhung(path, d, i)
      ensures Owned() && Shrunk(old(at)[path])
    {
      assert old(Placed(path)) && old(Placed(d));
      CutOut(old(at[d].kids), i);
      forall k | k in at
        ensures NoDup(at[k].kids) && at[k].Linked()
        ensures forall c :: c in at[k].kids <==> c in old(at[k].kids) && c != old(at)[path]
      {
        assert old(Placed(k));
      }
    }

    twostate lemma LaidAfterUnhang(path: string)
      requires old(Laid()) && Owned() && path in old(at) && at == old(at) - {path} && nodes == old(nodes)
      requires Shrunk(old(at)[path]) && old(at)[path] != root && old(at[path].kids) == []
      ensures Laid()
    {
      assert old(Placed(path));
      forall k | k in at ensures Placed(k) {
        assert old(Placed(k));
        if at[k] != root {
          assert old(at)[at[k].home] != old(at)[path];
        }
      }
    }

    lemma CutKeys(kids: seq<TreeNode>, i: nat)
      requires i < |kids| && NoDup(KeysOf(kids))
      ensures KeysOf(kids[..i] + kids[i + 1..]) == Without(KeysOf(kids), kids[i].key)
    {
      var keys := KeysOf(kids);
      WithoutAt(keys, i);
      assert KeysOf(kids[..i] + kids[i + 1..]) == keys[..i] + keys[i + 1..];
    }

    twostate lemma NsAfterUnhang(path: string, new d: string, new i: int)
      requires 0 <= i && old(Owned()) && Owned() && d in old(at) && path in old(at) && d != path
      requires at == old(at) - {path} && old(at)[path].key == path
      requires var dir := old(at)[d];
        && i < |old(dir.kids)| && old(dir.kids)[i] == old(at)[path] && NoDup(KeysOf(old(dir.kids)))
        && dir.kids == old(dir.kids)[..i] + old(dir.kids)[i + 1..]
      requires forall k :: k in old(at) && k != d ==> old(at)[k].kids == old(at[k].kids)
      ensures var was := old(Ns());
        Ns() == Namespace(was.ids - {path}, (was.kids - {path})[d := Without(was.kids[d], path)])
    {
      var was := old(Ns());
      assert Ns().ids == was.ids - {path};
      CutKeys(old(at[d].kids), i);
      var then_ := (was.kids - {path})[d := Without(was.kids[d], path)];
      forall k | k in at ensures k in then_ && KeysOf(at[k].kids) == then_[k] {
        assert k != path;
      }
      assert Ns().kids == then_;
    }

    method Unhang(tn: TreeNode, ghost i: nat)
      requires Laid() && tn.key in at && at[tn.key] == tn && tn != root && tn.kids == []
      requires tn.home in at && i < |at[tn.home].kids| && at[tn.home].kids[i] == tn
      modifies this, nodes
      ensures Unhung(tn.key, tn.home, i)
    {
      ghost var d := tn.home;
      assert Placed(tn.key) && Placed(d);
      ApartFrom(d);
      ghost var dir := at[d];
      at := at - {tn.key};
      UnlinkChild(dir, tn, i);
      OthersLinked(d);
    }

    /** removeNode on a childless node that the table no longer binds. */
    method RemoveNode(tn: TreeNode, ghost pending: set<string>)
      requires Valid(pending + {tn.key}) && tn.key !in pending
      requires tn.key in at && at[tn.key] == tn && tn != root && tn.kids == []
      modifies this, nodes
      ensures Valid(pending) && nodes == old(nodes) && at == old(at) - {tn.key}
      ensures HasSlash(tn.key) && Ns() == Detach(old(Ns()), tn.key)
    {
      ghost var path := tn.key;
      PathSplit(tn);
      MirrorsForget(fileMap.log, at, pending, path);
      LabelledRemove(at, root, path);
      UnhangOnly(tn);
    }

    /** Unlinking a node touches nothing of the table. */
    method UnhangOnly(tn: TreeNode)
      requires Laid() && tn.key in at && at[tn.key] == tn && tn != root && tn.kids == []
      requires HasSlash(tn.key) && tn.home == DirOf(tn.key)
      requires fileMap.Valid() && this !in fileMap.Repr && nodes !! fileMap.Repr
      modifies this, nodes
      ensures Laid() && nodes == old(nodes) && at == old(at) - {tn.key}
      ensures Ns() == Detach(old(Ns()), tn.key)
      ensures fileMap.Valid() && fileMap.log == old(fileMap.log) && fileMap.Repr == old(fileMap.Repr)
    {
      ghost var path, d := tn.key, tn.home;
      assert Placed(path) && Placed(d);
      ghost var i :| 0 <= i < |at[d].kids| && at[d].kids[i] == tn;
      DistinctKeysOf(d);
      Unhang(tn, i);
      AfterUnhang(path, d, i);
      TableKept(fileMap);
    }

    twostate lemma AfterUnhang(path: string, new d: string, new i: int)
      requires 0 <= i && old(Laid()) && d in old(at) && Unhung(path, d, i)
      requires old(at)[path].key == path && old(at)[path] != root && old(at[path].kids) == []
      requires HasSlash(path) && d == DirOf(path) && NoDup(KeysOf(old(at[d].kids)))
      ensures Laid() && Ns() == Detach(old(Ns()), path)
    {
      ListsAfterUnhang(path, d, i);
      LaidAfterUnhang(path);
      NsAfterUnhang(path, d, i);
      DetachSplit(old(Ns()), path);
    }

    lemma PathSplit(tn: TreeNode)
      requires Laid() && Labelled(at, root) && tn.key in at && at[tn.key] == tn && tn != root
      ensures tn.key != "/" && HasSlash(tn.key) && tn.home == DirOf(tn.key)
    {
      assert Label(tn.key, tn);
    }

    lemma DistinctKeysOf(d: string)
      requires Laid() && d in at
      ensures NoDup(KeysOf(at[d].kids))
    {
      assert Placed(d);
      ghost var kids := at[d].kids;
      forall i, j | 0 <= i < j < |kids| ensures kids[i].key != kids[j].key {
        assert Kid(d, kids[i]) && Kid(d, kids[j]) && kids[i] != kids[j];
      }
    }

    /** Unfiling a path touches nothing of the tree. */
    method Unfile(path: string, ghost pending: set<string>) returns (found: bool)
      requires Valid(pending)
      modifies fileMap.Repr
      ensures Valid(pending + {path}) && Ns() == old(Ns()) && fileMap.Repr == old(fileMap.Repr)
      ensures found == (path in at && path !in pending)
    {
      MirrorsDrop(fileMap.log, at, pending, path);
      found := fileMap.Remove(path);
    }

    method RemoveFile(path: string, ghost pending: set<string> := {}) returns (ok: bool)
      requires Valid(pending)
      modifies this, nodes, fileMap.Repr
      ensures Valid(pending) && nodes == old(nodes) && fileMap.Repr == old(fileMap.Repr)
      ensures ok == (path in old(at) && path !in pending && old(at)[path].isFile)
      ensures ok ==> HasSlash(path) && Ns() == Detach(old(Ns()), path) && at == old(at) - {path}
      ensures !ok ==> Ns() == old(Ns()) && at == old(at)
    {
      var remove := SearchDir(path, pending);
      if remove == null {
        return false;
      }
      if !remove.isFile {
        return false;
      }
      RemoveFiled(remove, path, pending);
      ok := true;
    }

    method RemoveFiled(remove: TreeNode, path: string, ghost pending: set<string>)
      requires Valid(pending) && path in at && path !in pending && remove == at[path] && remove.isFile
      modifies this, nodes, fileMap.Repr
      ensures Valid(pending) && nodes == old(nodes) && fileMap.Repr == old(fileMap.Repr)
      ensures HasSlash(path) && Ns() == Detach(old(Ns()), path) && at == old(at) - {path}
    {
      LeafFile(path);
      var found := Unfile(path, pending);
      assert found;
      RemoveNode(remove, pending);
    }

    lemma ParentIsDir(path: string)
      requires Laid() && path in at && at[path].kids != []
      ensures !at[path].isFile
    {
      assert Placed(path);
      var c := at[path].kids[0];
      assert Kid(path, c) && Placed(c.key);
    }

    lemma LeafFile(path: string)
      requires Laid() && Labelled(at, root) && path in at && at[path].isFile
      ensures at[path].key == path && at[path] != root && at[path].kids == []
    {
      assert Placed(path);
      if at[path].kids != [] {
        ParentIsDir(path);
      }
    }

    /** A laid-out, labelled tree reads as a well-formed namespace. */
    lemma ReadsWellFormed()
      requires Laid() && Labelled(at, root)
      ensures Wf(Ns())
    {
      var ns := Ns();
      assert Label("/", root);
      assert Placed("/") && root.key == "/";
      forall k | k in ns.ids && k != "/" ensures Hangs(ns, k) {
        assert Placed(k) && Label(k, at[k]) && Placed(at[k].home) && Label(at[k].home, at[at[k].home]);
        HangsByKids(k);
      }
      forall k, i | k in ns.kids && 0 <= i < |ns.kids[k]| ensures IsChild(ns, k, ns.kids[k][i]) {
        var c := at[k].kids[i];
        assert Placed(k) && Kid(k, c) && Placed(c.key) && Label(c.key, c);
      }
      forall k | k in ns.kids ensures NoDup(ns.kids[k]) {
        DistinctKeysOf(k);
      }
    }

    lemma HangsByKids(k: string)
      requires Laid() && k in at && at[k] != root
      ensures at[k].home in at && k in Ns().kids[at[k].home]
    {
      assert Placed(k);
      var n := at[k];
      var i :| 0 <= i < |at[n.home].kids| && at[n.home].kids[i] == n;
      assert KeysOf(at[n.home].kids)[i] == k;
    }

    lemma RootIsSlash(path: string)
      requires Laid() && Labelled(at, root) && path in at && path != "/"
      ensures at[path] != root && at[path].key == path
    {
      assert Placed(path) && Placed("/");
    }

    ghost function Longer(path: string): set<string>
      reads this
    {
      set k | k in at && |k| > |path|
    }

    /** The source's removeDir, stepping to the first child that is left instead of to its own next sibling. */
    method RemoveDir(path: string, ghost pending: set<string> := {}) returns (ok: bool)
      requires Valid(pending) && path != "/"
      requires forall u :: u in pending ==> !Under(path, u)
      modifies this, nodes, fileMap.Repr
      ensures Valid(pending) && nodes == old(nodes) && fileMap.Repr == old(fileMap.Repr)
      ensures ok == (path in old(at) && !old(at)[path].isFile)
      ensures ok ==> HasSlash(path) && Ns() == Prune(old(Ns()), path)
      ensures !ok ==> Ns() == old(Ns())
      ensures forall k :: k in at ==> k in old(at) && at[k] == old(at)[k]
      decreases Longer(path), 2
    {
      var remove := SearchDir(path, pending);
      if remove == null {
        return false;
      }
      if remove.isFile {
        return false;
      }
      RootIsSlash(path);
      var found := Unfile(path, pending);
      assert found;   // the table's refusal, which the source checks for, cannot happen
      RemoveTree(remove, path, pending);
      ok := true;
    }

    /** The children of a directory that is no longer filed, and the directory. */
    method RemoveTree(remove: TreeNode, path: string, ghost pending: set<string>)
      requires Valid(pending + {path}) && path in at && remove == at[path] && remove != root && path !in pending
      requires forall u :: u in pending ==> !Under(path, u)
      modifies this, nodes, fileMap.Repr
      ensures Valid(pending) && nodes == old(nodes) && fileMap.Repr == old(fileMap.Repr)
      ensures HasSlash(path) && Ns() == Prune(old(Ns()), path)
      ensures forall k :: k in at ==> k in old(at) && at[k] == old(at)[k]
      decreases Longer(path), 1, 1
    {
      RemoveKids(remove, path, pending);
      assert remove.key == path by {
        assert Placed(path);
      }
      RemoveNode(remove, pending);
    }

    /** The loop of removeDir over the children of a directory that is no longer filed. */
    method RemoveKids(remove: TreeNode, path: string, ghost pending: set<string>)
      requires Valid(pending + {path}) && path in at && remove == at[path] && remove != root
      requires forall u :: u in pending ==> !Under(path, u)
      modifies this, nodes, fileMap.Repr
      ensures Valid(pending + {path}) && nodes == old(nodes) && fileMap.Repr == old(fileMap.Repr)
      ensures path in at && remove == at[path] && remove.kids == []
      ensures HasSlash(path) && Detach(Ns(), path) == Prune(old(Ns()), path)
      ensures forall k :: k in at ==> k in old(at) && at[k] == old(at)[k]
      decreases Longer(path), 1, 0
    {
      assert Placed(path);
      PathSplit(remove);
      while remove.children != null
        invariant Valid(pending + {path}) && nodes == old(nodes) && fileMap.Repr == old(fileMap.Repr)
        invariant path in at && remove == at[path]
        invariant Prune(Ns(), path) == Prune(old(Ns()), path)
        invariant forall k :: k in at ==> k in old(at) && at[k] == old(at)[k]
        decreases at.Keys
      {
        RemoveFirstKid(remove, path, pending);
      }
      Emptied(path);
    }

    lemma Emptied(path: string)
      requires Laid() && Labelled(at, root) && path in at && at[path] != root && at[path].children == null
      ensures at[path].kids == [] && HasSlash(path) && Detach(Ns(), path) == Prune(Ns(), path)
    {
      assert Placed(path) && Placed("/");
      ReadsWellFormed();
      DetachIsPrune(Ns(), path);
    }

    method RemoveFirstKid(remove: TreeNode, path: string, ghost pending: set<string>)
      requires Valid(pending + {path}) && path in at && remove == at[path] && remove != root
      requires remove.children != null && HasSlash(path)
      requires forall u :: u in pending ==> !Under(path, u)
      modifies this, nodes, fileMap.Repr
      ensures Valid(pending + {path}) && nodes == old(nodes) && fileMap.Repr == old(fileMap.Repr)
      ensures path in at && remove == at[path]
      ensures Prune(Ns(), path) == Prune(old(Ns()), path)
      ensures forall k :: k in at ==> k in old(at) && at[k] == old(at)[k]
      ensures at.Keys < old(at).Keys
      decreases Longer(path), 0
    {
      var next := remove.children;
      var newpath := path + "/" + next.name;
      FirstKid(path);
      AfterFirstKid(Ns(), path, newpath);
      PendingAbove(pending, path, newpath);
      assert newpath in Longer(path) && Longer(newpath) <= Longer(path);
      assert Label(newpath, next);
      RemoveKid(next, newpath, pending + {path});
      assert path in Ns().ids && newpath !in Ns().ids && newpath in old(Ns()).ids;
    }

    /** What removeDir does with one child. */
    method RemoveKid(next: TreeNode, newpath: string, ghost pending: set<string>)
      requires Valid(pending) && newpath in at && newpath !in pending && next == at[newpath] && newpath != "/"
      requires forall u :: u in pending ==> !Under(newpath, u)
      requires HasSlash(newpath) && (next.isFile ==> Detach(Ns(), newpath) == Prune(Ns(), newpath))
      modifies this, nodes, fileMap.Repr
      ensures Valid(pending) && nodes == old(nodes) && fileMap.Repr == old(fileMap.Repr)
      ensures Ns() == Prune(old(Ns()), newpath)
      ensures forall k :: k in at ==> k in old(at) && at[k] == old(at)[k]
      decreases Longer(newpath), 3
    {
      if next.isFile {
        var done := RemoveFile(newpath, pending);
      } else {
        var done := RemoveDir(newpath, pending);
      }
    }

    /** The path that removeDir builds for a child is the path the child was added under. */
    lemma FirstKid(path: string)
      requires Laid() && Labelled(at, root) && path in at && at[path] != root && at[path].children != null
      ensures var c := at[path].children;
        && c.key == path + "/" + c.name && c.key in at && at[c.key] == c && c.key != "/" && HasSlash(c.key)
        && c.key in Ns().kids[path] && path != "/" && !Under(c.key, path)
      ensures Wf(Ns())
    {
      assert Placed(path) && Placed("/");
      var c := at[path].kids[0];
      assert Kid(path, c) && Placed(c.key) && Label(c.key, c);
      assert KeysOf(at[path].kids)[0] == c.key;
      ReadsWellFormed();
      ChildPath(c.key);
      ChildIsUnder(Ns(), path, c.key);
    }

    method AddDir(path: string) returns (ok: bool)
      requires Valid({})
      modifies this, nodes, fileMap.Repr
      ensures Valid({}) && fresh(nodes - old(nodes)) && fresh(fileMap.Repr - old(fileMap.Repr))
      ensures ok == CanAdd(old(Ns()), path)
      ensures Ns() == Add(old(Ns()), path, 0)
    {
      ok := AddFile(path, 0);
    }

    /** Every call answers and acts as the namespace says it should. */
    method Apply(op: Op) returns (ok: bool)
      requires Valid({}) && Askable(op)
      modifies this, nodes, fileMap.Repr
      ensures Valid({}) && fresh(nodes - old(nodes)) && fresh(fileMap.Repr - old(fileMap.Repr))
      ensures Wf(old(Ns())) && Ns() == Step(old(Ns()), op)
      ensures ok == Accepts(old(Ns()), op)
    {
      ReadsWellFormed();
      match op
      case AddFile(path, id) => ok := ApplyAdd(op, path, id);
      case AddDir(path) => ok := ApplyAdd(op, path, 0);
      case RemoveFile(path) => ok := ApplyRemoveFile(path);
      case RemoveDir(path) => ok := ApplyRemoveDir(path);
    }

    method ApplyAdd(ghost op: Op, path: string, id: nat) returns (ok: bool)
      requires Valid({}) && Wf(Ns()) && (op == Op.AddFile(path, id) || (op == Op.AddDir(path) && id == 0))
      modifies this, nodes, fileMap.Repr
      ensures Valid({}) && fresh(nodes - old(nodes)) && fresh(fileMap.Repr - old(fileMap.Repr))
      ensures Ns() == Step(old(Ns()), op) && ok == Accepts(old(Ns()), op)
    {
      AddIsStep(Ns(), op, path, id);
      ok := AddFile(path, id);
    }

    method ApplyRemoveFile(path: string) returns (ok: bool)
      requires Valid({}) && Wf(Ns())
      modifies this, nodes, fileMap.Repr
      ensures Valid({}) && nodes == old(nodes) && fileMap.Repr == old(fileMap.Repr)
      ensures Ns() == Step(old(Ns()), Op.RemoveFile(path)) && ok == Accepts(old(Ns()), Op.RemoveFile(path))
    {
      FilesHaveIDs();
      RemoveFileIsStep(Ns(), path);
      ok := RemoveFile(path);
    }

    method ApplyRemoveDir(path: string) returns (ok: bool)
      requires Valid({}) && Wf(Ns()) && path != "/"
      modifies this, nodes, fileMap.Repr
      ensures Valid({}) && nodes == old(nodes) && fileMap.Repr == old(fileMap.Repr)
      ensures Ns() == Step(old(Ns()), Op.RemoveDir(path)) && ok == Accepts(old(Ns()), Op.RemoveDir(path))
    {
      FilesHaveIDs();
      RemoveDirIsStep(Ns(), path);
      ok := RemoveDir(path);
    }

    lemma FilesHaveIDs()
      requires Owned() && Labelled(at, root)
      ensures forall k :: k in at ==> at[k].isFile == (Ns().ids[k] != 0)
    {
      forall k | k in at ensures at[k].isFile == (Ns().ids[k] != 0) {
        assert Label(k, at[k]);
      }
    }

    // ---- Reading ----

    /** FileTree::getMetaID. */
    method GetMetaID(path: string) returns (id: nat)
      requires Valid({})
      ensures id == if path in Ns().ids then Ns().ids[path] else 0
    {
      var tn := SearchDir(path, {});
      id := if tn == null then 0 else tn.metaID;
    }

    /** FileTree::getChildren: newest child first, a slash behind every directory. */
    method GetChildren(path: string) returns (result: seq<string>)
      requires Valid({})
      ensures result == if path in Ns().kids then Listing(Ns(), Ns().kids[path]) else []
      ensures var kids := if path in Ns().kids then Ns().kids[path] else [];
        && |result| == |kids|
        && forall j :: 0 <= j < |kids| ==>
             kids[j] in Ns().ids
             && result[|kids| - 1 - j] == NameOf(kids[j]) + if Ns().ids[kids[j]] == 0 then "/" else ""
    {
      ReadsWellFormed();
      var tn := SearchDir(path, {});
      result := [];
      if tn != null {
        ListingOf(path);
        ListingSays(Ns(), path);
        result := ListKids(tn, Ns());
      }
    }

    /** The loop of getChildren over the children of one node. */
    static method ListKids(tn: TreeNode, ghost ns: Namespace) returns (result: seq<string>)
      requires tn.Linked()
      requires forall c :: c in tn.kids ==> Shown(ns, c.key) == if c.isFile then c.name else c.name + "/"
      ensures result == Listing(ns, KeysOf(tn.kids))
    {
      result := [];
      var working := tn.children;
      ghost var kids, keys, j := tn.kids, KeysOf(tn.kids), 0;
      while working != null
        invariant 0 <= j <= |kids| && Chained(tn, kids)
        invariant working == if j < |kids| then kids[j] else null
        invariant result == Listing(ns, keys[..j])
        decreases |kids| - j
      {
        var entry := if working.isFile then working.name else working.name + "/";
        ListingNext(ns, keys, j);
        result := [entry] + result;
        working, j := working.next, j + 1;
      }
      assert keys[..j] == keys;
    }

    lemma ListingOf(path: string)
      requires Laid() && Labelled(at, root) && path in at
      ensures at[path].Linked() && Ns().kids[path] == KeysOf(at[path].kids)
      ensures forall c :: c in at[path].kids ==>
        Shown(Ns(), c.key) == if c.isFile then c.name else c.name + "/"
    {
      assert Placed(path);
      forall c | c in at[path].kids
        ensures c.key in Ns().ids && c.isFile == (Ns().ids[c.key] != 0) && c.name == NameOf(c.key)
      {
        assert Kid(path, c) && Label(c.key, c) && Placed("/");
      }
    }

    /** FileTree::getTotalTree. */
    method GetTotalTree() returns (dump: string)
      requires Valid({})
      ensures Wf(old(Ns())) && dump == Dump(old(Ns()))
    {
      ReadsWellFormed();
      assert Placed("/");
      dump := GetTotalNode(root, "", Ns());
    }

    /** `ns` is what the tree says. */
    ghost predicate Says(ns: Namespace)
      reads this, nodes
    {
      Laid() && Labelled(at, root) && Wf(ns) && Ns() == ns
    }

    /** FileTree::getTotalNode; `ns` is what the tree says throughout. */
    method GetTotalNode(tn: TreeNode, dir: string, ghost ns: Namespace) returns (name: string)
      requires Says(ns) && tn.key in at && at[tn.key] == tn
      ensures Says(ns)
      ensures name == PrintNode(ns, tn.key, dir)
      decreases Deeper(ns, tn.key), 1
    {
      NodeLabel(tn);
      name := dir + tn.name;
      var nextDir := if name != "/" then name + "/" else name;
      name := name + ":";
      name := name + Decimal(if tn.isFile then tn.metaID else 0);
      name := name + "\n";
      name := AppendKids(tn, nextDir, name, ns);
    }

    /** The loop of getTotalNode over the children. */
    method AppendKids(tn: TreeNode, nextDir: string, sofar: string, ghost ns: Namespace) returns (name: string)
      requires Says(ns) && tn.key in at && at[tn.key] == tn
      ensures Says(ns)
      ensures name == sofar + PrintKids(ns, tn.key, 0, nextDir)
      decreases Deeper(ns, tn.key), 0, 1
    {
      NodeLabel(tn);
      name := sofar;
      var working := tn.children;
      ghost var k, j := tn.key, 0;
      ghost var whole := sofar + PrintKids(ns, k, 0, nextDir);
      while working != null
        invariant Says(ns)
        invariant 0 <= j <= |ns.kids[k]| && Working(tn, j, working)
        invariant name + PrintKids(ns, k, j, nextDir) == whole
        decreases |ns.kids[k]| - j
      {
        name, working := AppendKid(tn, working, j, nextDir, name, ns);
        j := j + 1;
      }
      PrintKidsEnd(ns, k, j, nextDir, name);
    }

    /** One turn of it. */
    method AppendKid(tn: TreeNode, working: TreeNode, ghost j: nat, nextDir: string, sofar: string, ghost ns: Namespace)
        returns (name: string, next: TreeNode?)
      requires Says(ns) && tn.key in at && at[tn.key] == tn
      requires j < |ns.kids[tn.key]| == |tn.kids| && Working(tn, j, working)
      ensures Says(ns) && Working(tn, j + 1, next)
      ensures name + PrintKids(ns, tn.key, j + 1, nextDir) == sofar + PrintKids(ns, tn.key, j, nextDir)
      decreases Deeper(ns, tn.key), 0, 0
    {
      KidOf(tn, j);
      PrintKidsNext(ns, tn.key, j, nextDir, sofar);
      var below := GetTotalNode(working, nextDir, ns);
      name, next := sofar + below, working.next;
    }

    ghost predicate Working(tn: TreeNode, j: nat, working: TreeNode?)
      reads tn`kids
    {
      j <= |tn.kids| && working == if j < |tn.kids| then tn.kids[j] else null
    }

    lemma NodeLabel(tn: TreeNode)
      requires Laid() && Labelled(at, root) && tn.key in at && at[tn.key] == tn
      ensures tn.name == NodeName(tn.key) && Ns().ids[tn.key] == (if tn.isFile then tn.metaID else 0)
      ensures tn.Linked() && Ns().kids[tn.key] == KeysOf(tn.kids)
    {
      assert Placed(tn.key) && Label(tn.key, tn) && Placed("/");
    }

    lemma KidOf(tn: TreeNode, j: nat)
      requires Laid() && tn.key in at && at[tn.key] == tn && j < |tn.kids|
      ensures var c := tn.kids[j];
        && c.key in at && at[c.key] == c && j < |Ns().kids[tn.key]| && Ns().kids[tn.key][j] == c.key
        && Working(tn, j + 1, c.next)
    {
      assert Placed(tn.key) && Kid(tn.key, tn.kids[j]);
    }
  }

  /** FileManager::loadSnapshot on the file table; false when stol throws. */
  method LoadSnapshot(fileMap: FileTree, dump: string) returns (ok: bool)
    requires fileMap.Valid({})
    modifies fileMap, fileMap.nodes, fileMap.fileMap.Repr
    ensures fileMap.Valid({})
    ensures ok <==> Load(dump, old(fileMap.Ns())).Some?
    ensures ok ==> Load(dump, old(fileMap.Ns())) == Some(fileMap.Ns())
  {
    var alldump := dump;
    while Find(alldump, '\n') != |alldump|
      invariant fileMap.Valid({})
      invariant fresh(fileMap.nodes - old(fileMap.nodes)) && fresh(fileMap.fileMap.Repr - old(fileMap.fileMap.Repr))
      invariant Load(alldump, fileMap.Ns()) == Load(dump, old(fileMap.Ns()))
      decreases |alldump|
    {
      var p := Find(alldump, '\n');
      var done := LoadOne(fileMap, alldump[..p]);
      if !done {
        return false;
      }
      alldump := alldump[p + 1..];
    }
    ok := true;
  }

  /** One turn of the loop of loadSnapshot. */
  method LoadOne(fileMap: FileTree, record: string) returns (ok: bool)
    requires fileMap.Valid({})
    modifies fileMap, fileMap.nodes, fileMap.fileMap.Repr
    ensures fileMap.Valid({}) && fresh(fileMap.nodes - old(fileMap.nodes))
    ensures fresh(fileMap.fileMap.Repr - old(fileMap.fileMap.Repr))
    ensures ok <==> LoadRecord(record, old(fileMap.Ns())).Some?
    ensures ok ==> LoadRecord(record, old(fileMap.Ns())) == Some(fileMap.Ns())
  {
    var filename := RecordName(record);
    if filename == "/" {
      return true;
    }
    var id := Stol(RecordID(record));
    if id.None? {
      return false;
    }
    var done := Replayed(fileMap, filename, ToID(id.value));
    ok := true;
  }

  /** The add that loadSnapshot makes of one record; its answer is ignored. */
  method Replayed(fileMap: FileTree, filename: string, id: nat) returns (done: bool)
    requires fileMap.Valid({})
    modifies fileMap, fileMap.nodes, fileMap.fileMap.Repr
    ensures fileMap.Valid({}) && fresh(fileMap.nodes - old(fileMap.nodes))
    ensures fresh(fileMap.fileMap.Repr - old(fileMap.fileMap.Repr))
    ensures fileMap.Ns() == Add(old(fileMap.Ns()), filename, id)
  {
    if id == 0 {
      done := fileMap.AddDir(filename);
    } else {
      done := fileMap.AddFile(filename, id);
    }
  }

  /** A restart of the server: dump one table, load the text into a fresh one, and the two say the same. */
  method SaveAndLoad(saved: FileTree, hash: string -> nat) returns (loaded: FileTree, ok: bool)
    requires saved.Valid({})
    ensures loaded.Valid({})
    ensures Portable(old(saved.Ns())) ==> ok && loaded.Ns() == old(saved.Ns())
  {
    var dump := saved.GetTotalTree();
    loaded, ok := LoadFresh(hash, dump);
    if Portable(old(saved.Ns())) {
      DumpLoads(old(saved.Ns()));
    }
  }

  method LoadFresh(hash: string -> nat, dump: string) returns (loaded: FileTree, ok: bool)
    ensures loaded.Valid({})
    ensures ok <==> Load(dump, EMPTY).Some?
    ensures ok ==> Load(dump, EMPTY) == Some(loaded.Ns())
  {
    loaded := new FileTree(3000, hash);
    ok := LoadSnapshot(loaded, dump);
  }
}
