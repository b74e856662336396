/** Path strings, cut at the last slash as src/file/FileTree.cpp cuts them. */
module Paths {
  /** string::find_last_of("/"), with -1 for npos. */
  function LastSlash(path: string): (p: int)
    ensures -1 <= p < |path|
    ensures p >= 0 ==> path[p] == '/'
    ensures forall i :: p < i < |path| ==> path[i] != '/'
  {
    if path == [] then -1
    else if path[|path| - 1] == '/' then |path| - 1
    else LastSlash(path[..|path| - 1])
  }

  predicate HasSlash(path: string) { LastSlash(path) >= 0 }

  /** The directory that addFile looks up for `path`. */
  function DirOf(path: string): string
    requires HasSlash(path)
  {
    if LastSlash(path) == 0 then "/" else path[..LastSlash(path)]
  }

  function NameOf(path: string): string { path[LastSlash(path) + 1..] }

  /** The path that removeDir and getTotalNode build for a child. */
  function Join(dir: string, name: string): string
  {
    if dir == "/" then "/" + name else dir + "/" + name
  }

  /** Two slashes in front and none after: the one shape whose directory is "/" although the cut is not at 0. */
  predicate DoubledRoot(path: string) { LastSlash(path) == 1 && path[0] == '/' }

  /** `k` is `path` or lies below it. */
  predicate Under(path: string, k: string) { k == path || path + "/" <= k }

  /** The last slash is where a slash is followed by none. */
  lemma LastSlashIs(path: string, p: nat)
    requires p < |path| && path[p] == '/'
    requires forall i :: p < i < |path| ==> path[i] != '/'
    ensures LastSlash(path) == p
  {
  }

  lemma SplitJoined(dir: string, name: string)
    requires '/' !in name
    requires dir == "/" || dir == "" || dir[0] != '/' || |dir| > 1
    ensures HasSlash(Join(dir, name)) && NameOf(Join(dir, name)) == name
    ensures dir != "" ==> DirOf(Join(dir, name)) == dir
  {
    LastSlashIs(Join(dir, name), if dir == "/" then 0 else |dir|);
  }

  /** Cutting at the last slash and joining again gives the path back, except for a doubled root. */
  lemma JoinSplit(path: string)
    requires HasSlash(path)
    ensures Join(DirOf(path), NameOf(path)) == path <==> !DoubledRoot(path)
  {
    var p := LastSlash(path);
    assert path == path[..p] + "/" + path[p + 1..];
    if p == 1 {
      assert path[..1] == [path[0]];
    }
  }

  /** A child of a directory other than "/" is that directory, a slash and the child's name. */
  lemma ChildPath(path: string)
    requires HasSlash(path) && DirOf(path) != "/"
    ensures path == DirOf(path) + "/" + NameOf(path)
  {
    var p := LastSlash(path);
    assert path == path[..p] + "/" + path[p + 1..];
  }

  /** Going one step up from below `path` stays under it. */
  lemma UnderDir(path: string, k: string)
    requires HasSlash(path) && path != "/" && k != path
    requires Under(path, k)
    ensures HasSlash(k) && |DirOf(k)| < |k| && Under(path, DirOf(k)) && DirOf(k) != "/"
  {
    var p := LastSlash(k);
    assert k[|path|] == '/';
    assert k[..p][..|path|] == path;
  }

  lemma DirShorter(k: string)
    requires HasSlash(k) && k != "/"
    ensures |DirOf(k)| < |k|
  {
    assert LastSlash(k) == 0 && |k| == 1 ==> k == "/";
  }

  lemma RootNotUnder(path: string)
    requires HasSlash(path) && path != "/"
    ensures !Under(path, "/")
  {
    assert Under(path, "/") ==> |path + "/"| <= 1;
  }

  lemma UnderTrans(a: string, b: string, c: string)
    requires Under(a, b) && Under(b, c)
    ensures Under(a, c)
  {
  }
}

/** The file table as a value: what every path is bound to, and each directory's children in order. */
module Namespaces {
  import opened Paths
  import opened Sequences

  /** `ids[p]` is 0 for a directory and the meta block's ID for a file; `kids[p]` are the children's paths. */
  datatype Namespace = Namespace(ids: map<string, nat>, kids: map<string, seq<string>>)

  const EMPTY := Namespace(map["/" := 0], map["/" := []])

  /** Every path but "/" hangs from its directory, once; files have no children. */
  ghost predicate Wf(ns: Namespace)
  {
    && ns.kids.Keys == ns.ids.Keys
    && "/" in ns.ids && ns.ids["/"] == 0
    && (forall k :: k in ns.ids && k != "/" ==> Hangs(ns, k))
    && (forall k, i :: k in ns.kids && 0 <= i < |ns.kids[k]| ==> IsChild(ns, k, ns.kids[k][i]))
    && (forall k :: k in ns.kids ==> NoDup(ns.kids[k]))
  }

  ghost predicate Hangs(ns: Namespace, k: string)
  {
    && HasSlash(k) && DirOf(k) in ns.ids && ns.ids[DirOf(k)] == 0
    && DirOf(k) in ns.kids && k in ns.kids[DirOf(k)]
  }

  ghost predicate IsChild(ns: Namespace, k: string, c: string)
  {
    c in ns.ids && c != "/" && HasSlash(c) && DirOf(c) == k
  }

  /** How a client sees one child: a directory's name ends in a slash. */
  function Shown(ns: Namespace, k: string): string
  {
    if k in ns.ids && ns.ids[k] != 0 then NameOf(k) else NameOf(k) + "/"
  }

  /** What a client is told about `keys`, the last one first. */
  function Listing(ns: Namespace, keys: seq<string>): seq<string>
  {
    if keys == [] then [] else [Shown(ns, keys[|keys| - 1])] + Listing(ns, keys[..|keys| - 1])
  }

  /** The children are told from the last to the first. */
  lemma {:induction false} ListingAt(ns: Namespace, keys: seq<string>, j: nat)
    requires j < |keys|
    ensures |Listing(ns, keys)| == |keys| && Listing(ns, keys)[|keys| - 1 - j] == Shown(ns, keys[j])
  {
    var n, front := |keys| - 1, keys[..|keys| - 1];
    ListingSize(ns, keys);
    if j < n {
      ListingAt(ns, front, j);
      Behind(Shown(ns, keys[n]), Listing(ns, front), n - j);
    }
  }

  lemma Behind<T>(x: T, s: seq<T>, i: nat)
    requires 0 < i <= |s|
    ensures ([x] + s)[i] == s[i - 1]
  {
  }

  lemma ShownIs(ns: Namespace, k: string)
    requires k in ns.ids
    ensures Shown(ns, k) == NameOf(k) + if ns.ids[k] == 0 then "/" else ""
  {
    assert NameOf(k) + "" == NameOf(k);
  }

  /** Files are told by their names, and directories by theirs with a slash behind. */
  lemma ListingSays(ns: Namespace, dir: string)
    requires Wf(ns) && dir in ns.kids
    ensures var kids, result := ns.kids[dir], Listing(ns, ns.kids[dir]);
      && |result| == |kids|
      && forall j :: 0 <= j < |kids| ==>
           kids[j] in ns.ids && result[|kids| - 1 - j] == NameOf(kids[j]) + if ns.ids[kids[j]] == 0 then "/" else ""
  {
    var kids := ns.kids[dir];
    ListingSize(ns, kids);
    assert forall i :: 0 <= i < |kids| ==> IsChild(ns, dir, kids[i]);
    forall j | 0 <= j < |kids|
      ensures kids[j] in ns.ids
      ensures Listing(ns, kids)[|kids| - 1 - j] == NameOf(kids[j]) + if ns.ids[kids[j]] == 0 then "/" else ""
    {
      ListingAt(ns, kids, j);
      ShownIs(ns, kids[j]);
    }
  }

  lemma {:induction false} ListingSize(ns: Namespace, keys: seq<string>)
    ensures |Listing(ns, keys)| == |keys|
  {
    if keys != [] {
      ListingSize(ns, keys[..|keys| - 1]);
    }
  }

  lemma ListingNext(ns: Namespace, keys: seq<string>, j: nat)
    requires j < |keys|
    ensures Listing(ns, keys[..j + 1]) == [Shown(ns, keys[j])] + Listing(ns, keys[..j])
  {
    assert keys[..j + 1][..j] == keys[..j];
  }

  // ---- The four operations ----

  predicate CanAdd(ns: Namespace, path: string)
  {
    && path !in ns.ids && HasSlash(path)
    && DirOf(path) in ns.ids && ns.ids[DirOf(path)] == 0 && DirOf(path) in ns.kids
  }

  /** FileTree::addFile: append `path` to its directory's children, or refuse. */
  function Add(ns: Namespace, path: string, id: nat): Namespace
  {
    if !CanAdd(ns, path) then ns
    else
      var d := DirOf(path);
      Namespace(ns.ids[path := id], ns.kids[d := ns.kids[d] + [path]][path := []])
  }

  /** Unhang the childless `path`. */
  function Detach(ns: Namespace, path: string): Namespace
    requires HasSlash(path)
  {
    Namespace(ns.ids - {path},
              map k | k in ns.kids && k != path :: if k == DirOf(path) then Without(ns.kids[k], path) else ns.kids[k])
  }

  /** Delete `path` and everything below it, and nothing else. */
  function Prune(ns: Namespace, path: string): Namespace
    requires HasSlash(path)
  {
    Namespace(map k | k in ns.ids && !Under(path, k) :: ns.ids[k],
              map k | k in ns.kids && !Under(path, k) ::
                if k == DirOf(path) then Without(ns.kids[k], path) else ns.kids[k])
  }

  datatype Op =
    | AddFile(path: string, id: nat)
    | AddDir(path: string)
    | RemoveFile(path: string)
    | RemoveDir(path: string)

  /** What one call answers. */
  predicate Accepts(ns: Namespace, op: Op)
  {
    match op
    case AddFile(path, id) => CanAdd(ns, path)
    case AddDir(path) => CanAdd(ns, path)
    case RemoveFile(path) => path in ns.ids && ns.ids[path] != 0
    case RemoveDir(path) => path in ns.ids && ns.ids[path] == 0
  }

  /** RemoveDir of "/" reads the parent link of the root, which nothing sets; no run here asks for it. */
  predicate Askable(op: Op) { op != RemoveDir("/") }

  function Step(ns: Namespace, op: Op): Namespace
    requires Wf(ns) && Askable(op)
  {
    if !Accepts(ns, op) then ns
    else
      match op
      case AddFile(path, id) => Add(ns, path, id)
      case AddDir(path) => Add(ns, path, 0)
      case RemoveFile(path) => assert Hangs(ns, path); Detach(ns, path)
      case RemoveDir(path) => assert Hangs(ns, path); Prune(ns, path)
  }

  /** Detach as two map updates. */
  lemma DetachSplit(ns: Namespace, path: string)
    requires HasSlash(path) && DirOf(path) in ns.kids && DirOf(path) != path
    ensures Detach(ns, path)
         == Namespace(ns.ids - {path}, (ns.kids - {path})[DirOf(path) := Without(ns.kids[DirOf(path)], path)])
  {
  }

  // ---- What every operation keeps ----

  lemma AddWf(ns: Namespace, path: string, id: nat)
    requires Wf(ns)
    ensures Wf(Add(ns, path, id))
  {
    if CanAdd(ns, path) {
      var ns', d := Add(ns, path, id), DirOf(path);
      assert path != "/";
      assert path != d;
      assert ns'.kids[d] == ns.kids[d] + [path];
      forall i | 0 <= i < |ns.kids[d]| ensures ns.kids[d][i] != path {
        assert IsChild(ns, d, ns.kids[d][i]);
      }
      forall k | k in ns'.ids && k != "/" ensures Hangs(ns', k) {
        if k != path {
          assert Hangs(ns, k);
        } else {
          assert path == ns'.kids[d][|ns.kids[d]|];
        }
      }
      forall k, i | k in ns'.kids && 0 <= i < |ns'.kids[k]| ensures IsChild(ns', k, ns'.kids[k][i]) {
        if k == d && i == |ns.kids[d]| {
        } else {
          assert IsChild(ns, k, ns.kids[k][i]);
        }
      }
    }
  }

  /** Following directories up from any path below `path` meets a child of `path`. */
  lemma {:induction false} ChildTowards(ns: Namespace, path: string, k: string) returns (c: string)
    requires Wf(ns) && path != "/" && path in ns.ids && HasSlash(path)
    requires k in ns.ids && Under(path, k) && k != path
    ensures c in ns.kids[path] && Under(c, k)
    decreases |k|
  {
    UnderDir(path, k);
    assert k != "/";
    assert Hangs(ns, k);
    if DirOf(k) == path {
      c := k;
    } else {
      c := ChildTowards(ns, path, DirOf(k));
      ChildPath(k);
      UnderTrans(c, DirOf(k), k);
    }
  }

  /** A childless path has nothing below it, so detaching it is pruning it. */
  lemma DetachIsPrune(ns: Namespace, path: string)
    requires Wf(ns) && path != "/" && path in ns.ids && ns.kids[path] == []
    ensures HasSlash(path) && Detach(ns, path) == Prune(ns, path)
  {
    assert Hangs(ns, path);
    forall k | k in ns.ids && Under(path, k) ensures k == path {
      if k != path {
        var c := ChildTowards(ns, path, k);
      }
    }
    assert Detach(ns, path).ids == Prune(ns, path).ids;
    assert Detach(ns, path).kids == Prune(ns, path).kids;
  }

  lemma KidsAreChildren(ns: Namespace, k: string)
    requires Wf(ns) && k in ns.kids
    ensures forall c :: c in ns.kids[k] ==> IsChild(ns, k, c)
  {
    forall c | c in ns.kids[k] ensures IsChild(ns, k, c) {
      var i :| 0 <= i < |ns.kids[k]| && ns.kids[k][i] == c;
      assert IsChild(ns, k, ns.kids[k][i]);
    }
  }

  /** A file has no children. */
  lemma FileIsChildless(ns: Namespace, path: string)
    requires Wf(ns) && path in ns.ids && ns.ids[path] != 0
    ensures ns.kids[path] == []
  {
    assert forall i :: 0 <= i < |ns.kids[path]| ==> IsChild(ns, path, ns.kids[path][i]);
    assert forall i :: 0 <= i < |ns.kids[path]| ==> Hangs(ns, ns.kids[path][i]);
    assert ns.kids[path] != [] ==> Hangs(ns, ns.kids[path][0]);
  }

  lemma PruneWf(ns: Namespace, path: string)
    requires Wf(ns) && path != "/" && path in ns.ids
    ensures HasSlash(path) && Wf(Prune(ns, path))
  {
    assert Hangs(ns, path);
    var ns', d := Prune(ns, path), DirOf(path);
    DirShorter(path);
    RootNotUnder(path);
    forall k | k in ns'.kids
      ensures NoDup(ns'.kids[k]) && path !in ns'.kids[k]
      ensures forall y :: y in ns'.kids[k] <==> y in ns.kids[k] && y != path
    {
      WithoutKeeps(ns.kids[k], path);
      KidsAreChildren(ns, k);
    }
    forall k, i | k in ns'.kids && 0 <= i < |ns'.kids[k]| ensures IsChild(ns', k, ns'.kids[k][i]) {
      var c := ns'.kids[k][i];
      assert c in ns.kids[k];
      var j :| 0 <= j < |ns.kids[k]| && ns.kids[k][j] == c;
      assert IsChild(ns, k, c);
      if Under(path, c) {
        UnderDir(path, c);
      }
    }
    forall k | k in ns'.ids && k != "/" ensures Hangs(ns', k) {
      assert Hangs(ns, k);
      if Under(path, DirOf(k)) {
        ChildPath(k);
        UnderTrans(path, DirOf(k), k);
      }
    }
  }

  /** A child of `path` lies under it, and not the other way round. */
  lemma ChildIsUnder(ns: Namespace, path: string, c: string)
    requires Wf(ns) && path != "/" && path in ns.ids && c in ns.kids[path]
    ensures HasSlash(path) && HasSlash(c) && c != "/" && c in ns.ids && DirOf(c) == path
    ensures Under(path, c) && !Under(c, path)
    ensures forall k :: Under(c, k) ==> Under(path, k)
  {
    assert Hangs(ns, path);
    var i :| 0 <= i < |ns.kids[path]| && ns.kids[path][i] == c;
    assert IsChild(ns, path, c);
    ChildPath(c);
    forall k | Under(c, k) ensures Under(path, k) {
      UnderTrans(path, c, k);
    }
  }

  lemma PruneTwice(ns: Namespace, path: string, c: string)
    requires HasSlash(path) && HasSlash(c) && DirOf(c) == path
    requires forall k :: Under(c, k) ==> Under(path, k)
    ensures Prune(Prune(ns, c), path) == Prune(ns, path)
  {
    var once, twice := Prune(ns, path), Prune(Prune(ns, c), path);
    assert twice.ids == once.ids;
    forall k | k in once.kids ensures k in twice.kids && twice.kids[k] == once.kids[k] {
      assert Under(path, path);
    }
    assert twice.kids == once.kids;
  }

  /** Pruning a child first changes nothing about pruning its directory. */
  lemma PruneChildFirst(ns: Namespace, path: string, c: string)
    requires Wf(ns) && path != "/" && path in ns.ids && c in ns.kids[path]
    ensures HasSlash(path) && HasSlash(c)
    ensures path in Prune(ns, c).ids
    ensures Prune(Prune(ns, c), path) == Prune(ns, path)
    ensures Prune(ns, c).kids[path] == Without(ns.kids[path], c)
  {
    ChildIsUnder(ns, path, c);
    PruneTwice(ns, path, c);
  }

  lemma StepWf(ns: Namespace, op: Op)
    requires Wf(ns) && Askable(op)
    ensures Wf(Step(ns, op))
  {
    match op
    case AddFile(path, id) => AddWf(ns, path, id);
    case AddDir(path) => AddWf(ns, path, 0);
    case RemoveFile(path) =>
      if path in ns.ids && ns.ids[path] != 0 {
        FileIsChildless(ns, path);
        DetachIsPrune(ns, path);
        PruneWf(ns, path);
      }
    case RemoveDir(path) =>
      if path in ns.ids && ns.ids[path] == 0 {
        PruneWf(ns, path);
      }
  }
}
