/** Receiving a file: src/file/FileUploader.cpp over the block store of one node, as functions on values. */
module UploadSpec {
  import opened Association
  import opened BlockIDs
  import opened Bytes
  import opened Chunks
  import Downloads
  import L = MetaLayout
  import N = Namespaces
  import opened Paths
  import opened Sequences

  /** One node's block files, and its ID counter. */
  datatype Store = Store(machine: nat, disk: map<nat, seq<byte>>, max: nat)

  datatype Server = Server(store: Store, ns: N.Namespace)

  datatype Input = Describe(data: seq<byte>) | Data(bytes: seq<byte>) | End | Other

  datatype Reply = Ack | Error | Repeat

  /**
   * `Dropped` is a disconnect, `Refused` an error answer, `Overrun` a write or read past the end of a block or message.
   */
  datatype Result = Committed(id: nat) | Refused | Dropped | Overrun

  datatype Outcome = Outcome(server: Server, result: Result, replies: seq<Reply>)

  // ---- The description of a file ----

  /** What putFile sends before the data. */
  function Described(dir: seq<byte>, name: seq<byte>, t: nat, s: nat): seq<byte>
    requires dir != []
  {
    var path := Path(dir, name);
    LE(|path|, 8) + path + LE(t, 8) + LE(s, 8)
  }

  const SLASH: byte := 47

  function Path(dir: seq<byte>, name: seq<byte>): seq<byte>
    requires dir != []
  {
    if dir[|dir| - 1] != SLASH then dir + [SLASH] + name else dir + name
  }

  datatype Description = Description(name: seq<byte>, ctime: nat, size: nat)

  /** What setupMeta takes out of it. */
  function Parsed(data: seq<byte>): Option<Description>
  {
    var l := L.Word(data, 0);
    if |data| < 8 || 24 + l > |data| then None
    else Some(Description(data[8..8 + l], L.Word(data, 8 + l), L.Word(data, 16 + l)))
  }

  lemma ParsedDescribed(dir: seq<byte>, name: seq<byte>, t: nat, s: nat)
    requires dir != [] && |Path(dir, name)| < Pow256(8) && t < Pow256(8) && s < Pow256(8)
    ensures Parsed(Described(dir, name, t, s)) == Some(Description(Path(dir, name), t, s))
    ensures var base := if dir[|dir| - 1] == SLASH then dir[..|dir| - 1] else dir;
      Parsed(Described(dir, name, t, s)) == Some(Description(base + [47] + name, t, s))
  {
    PathOf(dir, name);
    var path, data := Path(dir, name), Described(dir, name, t, s);
    var l := |path|;
    LEFits(l, 8);
    LEFits(t, 8);
    LEFits(s, 8);
    assert data[0..8] == LE(l, 8);
    assert data[8..8 + l] == path;
    assert data[8 + l..16 + l] == LE(t, 8);
    assert data[16 + l..24 + l] == LE(s, 8);
  }

  /** A path as the tree has it. */
  function Text(b: seq<byte>): string { seq(|b|, i requires 0 <= i < |b| => b[i] as char) }

  /** The path that a file gets: its directory, less a closing slash, one slash, and its name. */
  lemma PathOf(dir: seq<byte>, name: seq<byte>)
    requires dir != []
    ensures var base := if dir[|dir| - 1] == 47 then dir[..|dir| - 1] else dir;
      Path(dir, name) == base + [47] + name && Text(Path(dir, name)) == Text(base) + "/" + Text(name)
  {
    var base := if dir[|dir| - 1] == 47 then dir[..|dir| - 1] else dir;
    if dir[|dir| - 1] == 47 {
      assert dir == base + [47];
    }
    var all := base + [47] + name;
    assert Path(dir, name) == all;
    forall i | 0 <= i < |all| ensures Text(all)[i] == (Text(base) + "/" + Text(name))[i] {
    }
  }

  /**
   * So it is cut into that directory and that name again, "/" being the directory of what is put there. A directory
   * means the same with and without a closing slash.
   */
  lemma PathCuts(dir: seq<byte>, name: seq<byte>)
    requires dir != [] && 47 !in name
    ensures var path, base := Text(Path(dir, name)), if dir[|dir| - 1] == 47 then dir[..|dir| - 1] else dir;
      && HasSlash(path) && Paths.NameOf(path) == Text(name)
      && DirOf(path) == if base == [] then "/" else Text(base)
    ensures dir[|dir| - 1] != 47 ==> Path(dir + [47], name) == Path(dir, name)
  {
    PathOf(dir, name);
    PathOf(dir + [47], name);
    var base := if dir[|dir| - 1] == 47 then dir[..|dir| - 1] else dir;
    assert '/' !in Text(name);
    CutAt(Text(base), Text(name));
    assert (dir + [47])[..|dir|] == dir;
  }

  lemma CutAt(base: string, name: string)
    requires '/' !in name
    ensures var path := base + "/" + name;
      HasSlash(path) && Paths.NameOf(path) == name && DirOf(path) == if base == "" then "/" else base
  {
    var path := base + "/" + name;
    forall i | |base| < i < |path| ensures path[i] != '/' {
      assert path[i] == name[i - |base| - 1];
    }
    LastSlashIs(path, |base|);
  }

  // ---- Saving and deleting ----

  function NextID(st: Store): nat { NewID(st.machine, st.max) }

  /** saveBlock of a block that has no ID yet. */
  function Saved(st: Store, block: seq<byte>): Store
  {
    st.(disk := st.disk[NextID(st) := block], max := (st.max + 1) % LOCALS)
  }

  /** deleteBlock of each, with the deletes delivered. */
  function Deleted(st: Store, ids: seq<nat>): Store { st.(disk := st.disk - ToSet(ids)) }

  /** getMetaID. */
  function MetaID(ns: N.Namespace, path: string): nat { if path in ns.ids then ns.ids[path] else 0 }

  // ---- The receive loop ----

  function Receive(server: Server, img: L.Image, inputs: seq<Input>): Outcome
    decreases inputs
  {
    if inputs == [] then
      Outcome(server.(store := Deleted(server.store, L.Read(img).ids)), Dropped, [])
    else
      var rest := inputs[1..];
      match inputs[0]
      case Other => Receive(server, img, rest)
      case Describe(data) =>
        (match Parsed(data)
         case None => Outcome(server, Overrun, [])
         case Some(d) =>
           match L.Setup(img, d.name, d.ctime, d.size)
           case None => Outcome(server, Overrun, [])
           case Some(img') =>
             var reply := if MetaID(server.ns, Text(L.NameOf(img'))) != 0 then Repeat else Ack;
             Told(reply, Receive(server, img', rest)))
      case Data(bytes) =>
        if |bytes| > BLOCK_SIZE then Outcome(server, Refused, [Error])
        else
          var server' := server.(store := Saved(server.store, Stored(bytes)));
          (match L.IDAdded(img, NextID(server.store))
           case None => Outcome(server', Overrun, [])
           case Some(img') =>
             if img.size.Null? then Outcome(server', Refused, [Error]) else Told(Ack, Receive(server', img', rest)))
      case End =>
        var id, store, path := NextID(server.store), Saved(server.store, img.bytes), Text(L.NameOf(img));
        if N.CanAdd(server.ns, path) then Outcome(Server(store, N.Add(server.ns, path, id)), Committed(id), [Ack])
        else Outcome(server.(store := store), Refused, [Error])
  }

  function Told(reply: Reply, o: Outcome): Outcome { o.(replies := [reply] + o.replies) }

  // ---- A client that follows the order of putFile ----

  function Datas(chunks: seq<seq<byte>>): seq<Input> { seq(|chunks|, i requires 0 <= i < |chunks| => Data(chunks[i])) }

  function Acks(n: nat): seq<Reply> { seq(n, _ => Ack) }

  /** Every block of this machine has a counter that has been drawn, and there are counters left for `n` more. */
  ghost predicate Tidy(st: Store, n: nat)
  {
    && 0 < st.machine < LOCALS && st.max + n < LOCALS
    && forall id :: id in st.disk ==> 0 < id && (MachineOf(id) == st.machine ==> LocalOf(id) <= st.max)
  }

  /** The IDs drawn for `n` blocks, one after another. */
  function Fresh(st: Store, n: nat): (ids: seq<nat>)
    ensures |ids| == n
    decreases n
  {
    if n == 0 then [] else [NextID(st)] + Fresh(Saved(st, []), n - 1)
  }

  function SavedAll(st: Store, chunks: seq<seq<byte>>): Store
    requires forall i :: 0 <= i < |chunks| ==> |chunks[i]| <= BLOCK_SIZE
    decreases |chunks|
  {
    if chunks == [] then st else SavedAll(Saved(st, Stored(chunks[0])), chunks[1..])
  }

  lemma SavedTidy(st: Store, block: seq<byte>, n: nat)
    requires Tidy(st, n + 1)
    ensures Tidy(Saved(st, block), n) && NextID(st) !in st.disk && 0 < NextID(st) < Pow256(8)
  {
    NextParts(st);
    Widths();
  }

  lemma NextParts(st: Store)
    requires 0 < st.machine < LOCALS && st.max + 1 < LOCALS
    ensures 0 < NextID(st) < IDS && MachineOf(NextID(st)) == st.machine && LocalOf(NextID(st)) == st.max + 1
  {
    BuildSplits(st.machine, st.max + 1);
  }

  /** What is drawn does not depend on what is stored. */
  lemma {:induction false} FreshSame(st: Store, st': Store, n: nat)
    requires st.machine == st'.machine && st.max == st'.max
    ensures Fresh(st, n) == Fresh(st', n)
    decreases n
  {
    if n > 0 {
      FreshSame(Saved(st, []), Saved(st', []), n - 1);
    }
  }

  lemma FreshNext(st: Store, block: seq<byte>, n: nat)
    ensures Fresh(st, n + 1) == [NextID(st)] + Fresh(Saved(st, block), n)
  {
    FreshSame(Saved(st, []), Saved(st, block), n);
  }

  /** The store after some blocks: those under their IDs in order, which are new, and the rest as it was. */
  ghost predicate Adds(st: Store, chunks: seq<seq<byte>>, ids: seq<nat>, st': Store)
  {
    && |ids| == |chunks| && NoDup(ids) && (forall id :: id in ids ==> id !in st.disk && 0 < id < Pow256(8))
    && st'.disk.Keys == st.disk.Keys + ToSet(ids)
    && (forall id :: id in st.disk ==> st'.disk[id] == st.disk[id])
    && forall k :: 0 <= k < |chunks| ==> |chunks[k]| <= BLOCK_SIZE && st'.disk[ids[k]] == Stored(chunks[k])
  }

  lemma AddsFront(st: Store, id: nat, next: Store, chunks: seq<seq<byte>>, ids: seq<nat>, st': Store)
    requires chunks != [] && |chunks[0]| <= BLOCK_SIZE && id !in st.disk && 0 < id < Pow256(8)
    requires next.disk == st.disk[id := Stored(chunks[0])] && Adds(next, chunks[1..], ids, st')
    ensures Adds(st, chunks, [id] + ids, st')
  {
    assert ToSet([id] + ids) == {id} + ToSet(ids);
    assert id in next.disk;
    forall k | 0 <= k < |chunks|
      ensures |chunks[k]| <= BLOCK_SIZE && ([id] + ids)[k] in st'.disk && st'.disk[([id] + ids)[k]] == Stored(chunks[k])
    {
      if k > 0 {
        assert chunks[k] == chunks[1..][k - 1] && ([id] + ids)[k] == ids[k - 1];
      }
    }
    FrontNoDup(id, ids);
  }

  lemma FrontNoDup(id: nat, ids: seq<nat>)
    requires NoDup(ids) && id !in ids
    ensures NoDup([id] + ids)
  {
  }

  lemma {:induction false} SavedAllAdds(st: Store, chunks: seq<seq<byte>>, n: nat)
    requires Tidy(st, |chunks| + n) && forall i :: 0 <= i < |chunks| ==> |chunks[i]| <= BLOCK_SIZE
    ensures Tidy(SavedAll(st, chunks), n) && Adds(st, chunks, Fresh(st, |chunks|), SavedAll(st, chunks))
    decreases |chunks|
  {
    if chunks != [] {
      var rest, next := chunks[1..], Saved(st, Stored(chunks[0]));
      SavedTidy(st, Stored(chunks[0]), |rest| + n);
      SavedAllAdds(next, rest, n);
      FreshNext(st, Stored(chunks[0]), |rest|);
      AddsFront(st, NextID(st), next, chunks, Fresh(next, |rest|), SavedAll(next, rest));
    } else {
      assert ToSet(Fresh(st, 0)) == {};
    }
  }

  /** One data message. */
  lemma DataReceived(server: Server, img: L.Image, m: L.Meta, chunk: seq<byte>, rest: seq<Input>)
    returns (img': L.Image)
    requires |chunk| <= BLOCK_SIZE && NextID(server.store) < Pow256(8)
    requires |img.bytes| < Pow256(8) && L.Holds(img, m) && L.Space(m) + 8 <= |img.bytes|
    ensures |img'.bytes| == |img.bytes| && L.Holds(img', m.(ids := m.ids + [NextID(server.store)]))
    ensures Receive(server, img, [Data(chunk)] + rest)
         == Told(Ack, Receive(server.(store := Saved(server.store, Stored(chunk))), img', rest))
  {
    L.AddHolds(img, m, NextID(server.store));
    img' := L.IDAdded(img, NextID(server.store)).value;
    var inputs := [Data(chunk)] + rest;
    assert inputs[0] == Data(chunk) && inputs[1..] == rest;
  }

  lemma Regroup(a: seq<nat>, x: nat, b: seq<nat>)
    ensures a + [x] + b == a + ([x] + b)
  {
  }

  lemma DatasFront(chunks: seq<seq<byte>>, rest: seq<Input>)
    requires chunks != []
    ensures Datas(chunks) + rest == [Data(chunks[0])] + (Datas(chunks[1..]) + rest)
  {
  }

  function ToldAll(n: nat, o: Outcome): Outcome { if n == 0 then o else Told(Ack, ToldAll(n - 1, o)) }

  /** The data messages one after another, up to whatever comes behind them. */
  lemma {:induction false} DatasReceived(server: Server, img: L.Image, m: L.Meta, chunks: seq<seq<byte>>,
      rest: seq<Input>)
    returns (img': L.Image)
    requires Tidy(server.store, |chunks|) && forall i :: 0 <= i < |chunks| ==> |chunks[i]| <= BLOCK_SIZE
    requires |img.bytes| < Pow256(8) && L.Holds(img, m) && L.Space(m) + 8 * |chunks| <= |img.bytes|
    ensures |img'.bytes| == |img.bytes| && L.Holds(img', m.(ids := m.ids + Fresh(server.store, |chunks|)))
    ensures Receive(server, img, Datas(chunks) + rest)
         == ToldAll(|chunks|, Receive(server.(store := SavedAll(server.store, chunks)), img', rest))
    decreases |chunks|
  {
    if chunks == [] {
      img' := img;
      assert Datas(chunks) + rest == rest;
      assert m.ids + Fresh(server.store, 0) == m.ids;
    } else {
      var later, id := chunks[1..], NextID(server.store);
      var next := server.(store := Saved(server.store, Stored(chunks[0])));
      SavedTidy(server.store, Stored(chunks[0]), |later|);
      FreshNext(server.store, Stored(chunks[0]), |later|);
      var mid := DataReceived(server, img, m, chunks[0], Datas(later) + rest);
      img' := DatasReceived(next, mid, m.(ids := m.ids + [id]), later, rest);
      Regroup(m.ids, id, Fresh(next.store, |later|));
      DatasFront(chunks, rest);
    }
  }

  // ---- What an upload comes to ----

  const BLANK: L.Image := L.Opened(Zeros(BLOCK_SIZE))

  /** The description is understood, fits a block together with `n` IDs, and has a name. */
  ghost predicate Describes(data: seq<byte>, d: Description, n: nat)
  {
    && Parsed(data) == Some(d) && d.name != [] && 32 + |d.name| + 8 * n <= BLOCK_SIZE
    && d.ctime < Pow256(8) && d.size < Pow256(8)
  }

  ghost predicate Sendable(chunks: seq<seq<byte>>) { forall i :: 0 <= i < |chunks| ==> |chunks[i]| <= BLOCK_SIZE }

  function MetaOf(d: Description, ids: seq<nat>): L.Meta { L.Meta(d.name, d.ctime, d.size, ids) }

  /** The block after the description. */
  lemma DescriptionHeld(data: seq<byte>, d: Description) returns (img: L.Image)
    requires Describes(data, d, 0)
    ensures L.Setup(BLANK, d.name, d.ctime, d.size) == Some(img)
    ensures |img.bytes| == BLOCK_SIZE < Pow256(8) && L.Holds(img, MetaOf(d, [])) && L.NameOf(img) == d.name
  {
    Widths();
    L.SetupHolds(BLOCK_SIZE, d.name, d.ctime, d.size);
    img := L.Setup(BLANK, d.name, d.ctime, d.size).value;
  }

  /** Everything up to whatever comes behind the data. */
  lemma SentReceived(server: Server, data: seq<byte>, d: Description, chunks: seq<seq<byte>>, tail: seq<Input>)
    returns (img: L.Image, reply: Reply)
    requires Tidy(server.store, |chunks|) && Describes(data, d, |chunks|) && Sendable(chunks)
    ensures |img.bytes| == BLOCK_SIZE < Pow256(8) && L.Holds(img, MetaOf(d, Fresh(server.store, |chunks|)))
    ensures reply == if MetaID(server.ns, Text(d.name)) != 0 then Repeat else Ack
    ensures Receive(server, BLANK, [Describe(data)] + (Datas(chunks) + tail))
         == Told(reply, ToldAll(|chunks|, Receive(server.(store := SavedAll(server.store, chunks)), img, tail)))
  {
    var first := DescriptionHeld(data, d);
    img := DatasReceived(server, first, MetaOf(d, []), chunks, tail);
    assert [] + Fresh(server.store, |chunks|) == Fresh(server.store, |chunks|);
    reply := if MetaID(server.ns, Text(d.name)) != 0 then Repeat else Ack;
    var inputs := [Describe(data)] + (Datas(chunks) + tail);
    assert inputs[0] == Describe(data) && inputs[1..] == Datas(chunks) + tail;
  }

  lemma {:induction false} ToldAllSays(n: nat, o: Outcome)
    ensures ToldAll(n, o).server == o.server && ToldAll(n, o).result == o.result
    ensures ToldAll(n, o).replies == Acks(n) + o.replies
  {
    if n > 0 {
      ToldAllSays(n - 1, o);
      assert Acks(n) == [Ack] + Acks(n - 1);
      assert [Ack] + (Acks(n - 1) + o.replies) == Acks(n) + o.replies;
    } else {
      assert Acks(0) + o.replies == o.replies;
    }
  }

  function Uploaded(server: Server, data: seq<byte>, chunks: seq<seq<byte>>, tail: seq<Input>): Outcome
  {
    Receive(server, BLANK, [Describe(data)] + (Datas(chunks) + tail))
  }

  lemma AcksAround(n: nat)
    ensures [Ack] + (Acks(n) + [Ack]) == Acks(n + 2)
  {
  }

  /** The end of an upload: the block as it was described is saved, and reads back. */
  lemma EndReceived(server: Server, img: L.Image, m: L.Meta)
    requires Tidy(server.store, 1) && L.Holds(img, m) && m.name != [] && N.CanAdd(server.ns, Text(m.name))
    ensures var id := NextID(server.store);
      && id !in server.store.disk && 0 < id < Pow256(8)
      && Receive(server, img, [End])
         == Outcome(Server(Saved(server.store, img.bytes), N.Add(server.ns, Text(m.name), id)), Committed(id), [Ack])
      && L.Read(L.Opened(img.bytes)) == m
  {
    SavedTidy(server.store, img.bytes, 0);
    L.HoldsReads(img, m);
    L.OpenedHolds(img, m);
    L.HoldsReads(L.Opened(img.bytes), m);
  }

  /** The blocks of `chunks` under `ids`, one more under `id`, all new, and the rest as it was. */
  ghost predicate Stores(before: map<nat, seq<byte>>, chunks: seq<seq<byte>>, ids: seq<nat>, id: nat, after: map<nat,
      seq<byte>>)
  {
    && |ids| == |chunks| && NoDup(ids + [id]) && (forall x :: x in ids + [id] ==> x != 0 && x !in before)
    && after.Keys == before.Keys + ToSet(ids + [id])
    && (forall x :: x in before ==> after[x] == before[x])
    && forall k :: 0 <= k < |ids| ==> |chunks[k]| <= BLOCK_SIZE && ids[k] in after && after[ids[k]] == Stored(chunks[k])
  }

  lemma AddsOneMore(st: Store, chunks: seq<seq<byte>>, ids: seq<nat>, st': Store, id: nat, block: seq<byte>)
    requires Adds(st, chunks, ids, st') && id !in st'.disk && 0 < id
    ensures Stores(st.disk, chunks, ids, id, st'.disk[id := block])
  {
    assert ToSet(ids + [id]) == ToSet(ids) + {id};
    forall x | x in ids ensures x != id && x in st'.disk {
      assert x in ToSet(ids);
    }
  }

  /**
   * A client that follows the order and has a new path: the upload commits, with its blocks in the order of the data.
   */
  lemma UploadCommits(server: Server, data: seq<byte>, d: Description, chunks: seq<seq<byte>>)
    returns (ids: seq<nat>, id: nat)
    requires Tidy(server.store, |chunks| + 1) && Describes(data, d, |chunks|) && Sendable(chunks)
    requires N.CanAdd(server.ns, Text(d.name))
    ensures var o := Uploaded(server, data, chunks, [End]);
      && o.result == Committed(id) && o.replies == Acks(|chunks| + 2)
        && o.server.ns == N.Add(server.ns, Text(d.name), id)
      && Stores(server.store.disk, chunks, ids, id, o.server.store.disk)
      && id in o.server.store.disk && L.Read(L.Opened(o.server.store.disk[id])) == MetaOf(d, ids)
  {
    SavedAllAdds(server.store, chunks, 1);
    ids := Fresh(server.store, |chunks|);
    var st := SavedAll(server.store, chunks);
    id := NextID(st);
    var img, reply := SentReceived(server, data, d, chunks, [End]);
    EndReceived(server.(store := st), img, MetaOf(d, ids));
    ToldAllSays(|chunks|, Receive(server.(store := st), img, [End]));
    AcksAround(|chunks|);
    AddsOneMore(server.store, chunks, ids, st, id, img.bytes);
  }

  lemma DeletedAdds(st: Store, chunks: seq<seq<byte>>, ids: seq<nat>, st': Store)
    requires Adds(st, chunks, ids, st')
    ensures Deleted(st', ids).disk == st.disk
  {
  }

  /** A disconnect behind any prefix of the data: all files of the store are as they were, and so is the tree. */
  lemma DisconnectRestores(server: Server, data: seq<byte>, d: Description, chunks: seq<seq<byte>>)
    requires Tidy(server.store, |chunks|) && Describes(data, d, |chunks|) && Sendable(chunks)
    ensures var o := Uploaded(server, data, chunks, []);
      o.result == Dropped && o.server.store.disk == server.store.disk && o.server.ns == server.ns
  {
    SavedAllAdds(server.store, chunks, 0);
    var ids, st := Fresh(server.store, |chunks|), SavedAll(server.store, chunks);
    var img, reply := SentReceived(server, data, d, chunks, []);
    L.HoldsReads(img, MetaOf(d, ids));
    DeletedAdds(server.store, chunks, ids, st);
    ToldAllSays(|chunks|, Receive(server.(store := st), img, []));
  }

  /** So does one before the description. */
  lemma EarlyDisconnect(server: Server)
    ensures Receive(server, BLANK, []) == Outcome(server, Dropped, [])
  {
    L.ZeroWords(BLOCK_SIZE, 0);
    assert L.Read(BLANK).ids == [];
    assert ToSet(L.Read(BLANK).ids) == {};
    assert server.store.disk - {} == server.store.disk;
  }

  // ---- Uploads that do not commit, in whatever order their messages come ----

  /** No message is refused and none ends the upload, so that the client disconnects at last. */
  predicate StaysOn(inputs: seq<Input>, described: bool)
  {
    inputs == [] ||
      match inputs[0]
      case Describe(_) => StaysOn(inputs[1..], true)
      case Data(bytes) => |bytes| <= BLOCK_SIZE && described && StaysOn(inputs[1..], described)
      case End => false
      case Other => StaysOn(inputs[1..], described)
  }

  /** A description comes after data. */
  predicate DescribedLate(inputs: seq<Input>, saved: bool)
  {
    inputs != [] &&
      match inputs[0]
      case Describe(_) => saved || DescribedLate(inputs[1..], saved)
      case Data(_) => DescribedLate(inputs[1..], true)
      case _ => DescribedLate(inputs[1..], saved)
  }

  /** No block is saved: there is no data but a message that is too long, and that comes before the end. */
  predicate SavesNothing(inputs: seq<Input>)
  {
    inputs == [] ||
      match inputs[0]
      case Data(bytes) => |bytes| > BLOCK_SIZE
      case End => false
      case _ => SavesNothing(inputs[1..])
  }

  /** The files are those of `start`, the blocks that are listed, and those that are not listed any more. */
  ghost predicate Owes(start: map<nat, seq<byte>>, disk: map<nat, seq<byte>>, listed: set<nat>, lost: set<nat>)
  {
    && disk.Keys == start.Keys + listed + lost && start.Keys !! (listed + lost) && listed !! lost
    && forall id :: id in start ==> disk[id] == start[id]
  }

  lemma OwesMore(start: map<nat, seq<byte>>, disk: map<nat, seq<byte>>, ids: seq<nat>, lost: set<nat>, id: nat,
      block: seq<byte>)
    requires Owes(start, disk, ToSet(ids), lost) && id !in disk
    ensures Owes(start, disk[id := block], ToSet(ids + [id]), lost) && disk[id := block] != start
  {
    assert ToSet(ids + [id]) == ToSet(ids) + {id};
    assert id in disk[id := block] && id !in start;
  }

  lemma OwesForgotten(start: map<nat, seq<byte>>, disk: map<nat, seq<byte>>, ids: seq<nat>, lost: set<nat>)
    requires Owes(start, disk, ToSet(ids), lost)
    ensures Owes(start, disk, ToSet([]), lost + ToSet(ids)) && (lost + ToSet(ids) == {} <==> lost == {} && ids == [])
  {
    var none: seq<nat> := [];
    assert ToSet(none) == {};
    if ids != [] {
      assert ids[0] in ToSet(ids);
    }
  }

  lemma OwesCleaned(start: map<nat, seq<byte>>, disk: map<nat, seq<byte>>, ids: seq<nat>, lost: set<nat>)
    requires Owes(start, disk, ToSet(ids), lost)
    ensures disk - ToSet(ids) == start <==> lost == {}
    ensures disk == start <==> lost == {} && ids == []
  {
    if lost == {} {
      assert disk - ToSet(ids) == start;
    } else {
      var id :| id in lost;
      assert id in disk - ToSet(ids) && id !in start;
    }
    if ids != [] {
      assert ids[0] in ToSet(ids) && ids[0] in disk && ids[0] !in start;
    }
  }

  /** What the rest of an upload comes to, from any object and any store. */
  ghost predicate Ends(server: Server, img: L.Image, inputs: seq<Input>, start: map<nat, seq<byte>>, lost: set<nat>)
  {
    var o, ids := Receive(server, img, inputs), L.Read(img).ids;
    && o.server.ns == server.ns
    && (o.result == Dropped <==> StaysOn(inputs, img.size.At?))
    && (o.server.store.disk == start <==>
          lost == {} && ((ids == [] && SavesNothing(inputs))
                         || (StaysOn(inputs, img.size.At?) && !DescribedLate(inputs, ids != []))))
  }

  lemma {:induction false} EndsSo(server: Server, img: L.Image, inputs: seq<Input>, start: map<nat, seq<byte>>,
      lost: set<nat>)
    requires Tidy(server.store, |inputs|) && L.Sound(img)
    requires Owes(start, server.store.disk, ToSet(L.Read(img).ids), lost)
    requires var o := Receive(server, img, inputs); !o.result.Committed? && o.result != Overrun
    ensures Ends(server, img, inputs, start, lost)
    decreases |inputs|
  {
    var ids := L.Read(img).ids;
    OwesCleaned(start, server.store.disk, ids, lost);
    if inputs != [] {
      match inputs[0]
      case Other => EndsSo(server, img, inputs[1..], start, lost);
      case Describe(data) => DescribeEnds(server, img, data, inputs, start, lost);
      case Data(bytes) =>
        if |bytes| <= BLOCK_SIZE {
          DataEnds(server, img, bytes, inputs, start, lost);
        }
      case End =>
        SavedTidy(server.store, img.bytes, |inputs| - 1);
        OwesMore(start, server.store.disk, ids, lost, NextID(server.store), img.bytes);
    }
  }

  lemma {:induction false} DescribeEnds(server: Server, img: L.Image, data: seq<byte>, inputs: seq<Input>,
      start: map<nat, seq<byte>>, lost: set<nat>)
    requires Tidy(server.store, |inputs|) && L.Sound(img) && inputs != [] && inputs[0] == Describe(data)
    requires Owes(start, server.store.disk, ToSet(L.Read(img).ids), lost)
    requires var o := Receive(server, img, inputs); !o.result.Committed? && o.result != Overrun
    ensures Ends(server, img, inputs, start, lost)
    decreases |inputs|, 0
  {
    var d := Parsed(data).value;
    var img' := L.Setup(img, d.name, d.ctime, d.size).value;
    L.SetupSound(img, d.name, d.ctime, d.size);
    L.SetupForgets(img, d.name, d.ctime, d.size);
    OwesForgotten(start, server.store.disk, L.Read(img).ids, lost);
    EndsSo(server, img', inputs[1..], start, lost + ToSet(L.Read(img).ids));
  }

  lemma {:induction false} DataEnds(server: Server, img: L.Image, bytes: seq<byte>, inputs: seq<Input>,
      start: map<nat, seq<byte>>, lost: set<nat>)
    requires Tidy(server.store, |inputs|) && L.Sound(img) && inputs != [] && inputs[0] == Data(bytes)
    requires |bytes| <= BLOCK_SIZE
    requires Owes(start, server.store.disk, ToSet(L.Read(img).ids), lost)
    requires var o := Receive(server, img, inputs); !o.result.Committed? && o.result != Overrun
    ensures Ends(server, img, inputs, start, lost)
    decreases |inputs|, 0
  {
    var id, server' := NextID(server.store), server.(store := Saved(server.store, Stored(bytes)));
    SavedTidy(server.store, Stored(bytes), |inputs| - 1);
    OwesMore(start, server.store.disk, L.Read(img).ids, lost, id, Stored(bytes));
    if img.size.At? {
      L.AddSound(img, id);
      L.AddLists(img, id);
      EndsSo(server', L.IDAdded(img, id).value, inputs[1..], start, lost);
    }
  }

  /**
   * An upload that does not commit, in whatever order its messages come and wherever it stops: the store is as it was
   * before exactly when the client disconnects and no description comes after data, or when nothing was saved. A
   * second description forgets the blocks listed so far, and the error returns leave all of them behind.
   */
  lemma AbortRestoresIff(server: Server, inputs: seq<Input>)
    requires Tidy(server.store, |inputs|)
    requires var o := Receive(server, BLANK, inputs); !o.result.Committed? && o.result != Overrun
    ensures var o := Receive(server, BLANK, inputs);
      && o.server.ns == server.ns && (o.result == Dropped <==> StaysOn(inputs, false))
      && (o.server.store.disk == server.store.disk <==>
            (StaysOn(inputs, false) && !DescribedLate(inputs, false)) || SavesNothing(inputs))
  {
    Widths();
    L.ZeroWords(BLOCK_SIZE, 0);
    var none: seq<nat> := L.Read(BLANK).ids;
    assert none == [] && ToSet(none) == {};
    EndsSo(server, BLANK, inputs, server.store.disk, {});
  }

  /** A description of a block that has one, and a disconnect. */
  lemma AgainDropped(server: Server, img: L.Image, data: seq<byte>, d: Description, m: L.Meta)
    requires Parsed(data) == Some(d) && d.ctime < Pow256(8) && d.size < Pow256(8)
    requires |img.bytes| < Pow256(8) && L.Holds(img, m) && 32 + |d.name| <= |img.bytes|
    ensures Receive(server, img, [Describe(data)]).result == Dropped
  {
    L.RenameHoldsIff(img, m, d.name, d.ctime, d.size);
    var rest := [Describe(data)][1..];
    assert rest == [];
  }

  /** A file described, a block of it, the same description again, and a disconnect: the block stays. */
  lemma TwiceDescribed(server: Server, data: seq<byte>, d: Description, chunk: seq<byte>)
    requires Tidy(server.store, 3) && Describes(data, d, 1) && |chunk| <= BLOCK_SIZE
    ensures var o := Uploaded(server, data, [chunk], [Describe(data)]);
      o.result == Dropped && o.server.store.disk != server.store.disk
  {
    var again := [Describe(data)];
    var img, reply := SentReceived(server, data, d, [chunk], again);
    var mid := server.(store := SavedAll(server.store, [chunk]));
    AgainDropped(mid, img, data, d, MetaOf(d, Fresh(server.store, 1)));
    ToldAllSays(1, Receive(mid, img, again));
    var inputs := [Describe(data)] + (Datas([chunk]) + again);
    assert Uploaded(server, data, [chunk], again).result == Dropped;
    AbortRestoresIff(server, inputs);
    LateSecond(data, chunk, inputs);
  }

  lemma LateSecond(data: seq<byte>, chunk: seq<byte>, inputs: seq<Input>)
    requires inputs == [Describe(data)] + (Datas([chunk]) + [Describe(data)]) && |chunk| <= BLOCK_SIZE
    ensures DescribedLate(inputs, false) && !SavesNothing(inputs)
  {
    assert inputs[1..] == [Data(chunk), Describe(data)];
    assert inputs[1..][1..] == [Describe(data)];
  }

  // ---- What the client is told ----

  /** How many messages are answered. */
  function Spoken(inputs: seq<Input>): nat
  {
    if inputs == [] then 0 else (if inputs[0].Other? then 0 else 1) + Spoken(inputs[1..])
  }

  /** The name in a stored block. */
  function NameIn(block: seq<byte>): string { Text(L.NameOf(L.Opened(block))) }

  /**
   * An end that came last: the block is stored, and if the path in it can be added it is in the tree with the block's
   * ID and the client is told so; if it cannot, the tree is as before and the client is told of an error.
   */
  ghost predicate EndsWith(ns: N.Namespace, o: Outcome, id: nat)
  {
    && id in o.server.store.disk && o.replies != []
    && var path, last := NameIn(o.server.store.disk[id]), o.replies[|o.replies| - 1];
       if N.CanAdd(ns, path) then o.result == Committed(id) && o.server.ns == N.Add(ns, path, id) && last == Ack
       else o.result == Refused && o.server.ns == ns && last == Error
  }

  /** What comes of the first `k` messages, from the tree `ns`; the others are not read. */
  ghost predicate Tells(ns: N.Namespace, inputs: seq<Input>, o: Outcome, k: nat)
  {
    && k <= |inputs| && |o.replies| == Spoken(inputs[..k])
    && (forall i :: 0 <= i < k - 1 ==> inputs[i] != End)
    && (forall i :: 0 <= i < |o.replies| - 1 ==> o.replies[i] != Error)
    && (o.result == Refused <==> o.replies != [] && o.replies[|o.replies| - 1] == Error)
    && (o.result == Dropped ==> k == |inputs| && End !in inputs)
    && if k > 0 && inputs[k - 1] == End then exists id :: EndsWith(ns, o, id)
       else o.server.ns == ns && (o.result == Dropped || (o.result == Refused && k > 0 && inputs[k - 1].Data?))
  }

  /** One message more in front. */
  lemma TellsMore(ns: N.Namespace, inputs: seq<Input>, reply: Option<Reply>, o: Outcome, k: nat)
    requires inputs != [] && inputs[0] != End && Tells(ns, inputs[1..], o, k)
    requires reply != Some(Error) && (reply == None <==> inputs[0].Other?)
    requires o.result == Refused ==> k > 0
    ensures Tells(ns, inputs, if reply.Some? then Told(reply.value, o) else o, k + 1)
  {
    var o' := if reply.Some? then Told(reply.value, o) else o;
    var rest := inputs[1..];
    assert inputs[..k + 1][0] == inputs[0] && inputs[..k + 1][1..] == rest[..k];
    forall i | 0 <= i < k ensures inputs[i] != End {
      assert i > 0 ==> inputs[i] == rest[i - 1];
    }
    if k > 0 && rest[k - 1] == End {
      var id :| EndsWith(ns, o, id);
      assert EndsWith(ns, o', id);
    }
  }

  lemma NameStored(img: L.Image)
    requires L.Sound(img) && (img.filename.Null? ==> L.NameLength(img.bytes) == 0)
    ensures NameIn(img.bytes) == Text(L.NameOf(img))
  {
  }

  /** An object keeps its name, or has none. */
  lemma StaysNamed(img: L.Image, d: Description, id: nat)
    requires L.Sound(img)
    ensures var r := L.Setup(img, d.name, d.ctime, d.size); r.Some? ==> r.value.filename.At?
    ensures var r := L.IDAdded(img, id); r.Some? ==> r.value.filename == img.filename
  {
  }

  /** The end of the receive loop, and what it has answered by then, from any object on. */
  lemma {:induction false} ReceiveTells(server: Server, img: L.Image, inputs: seq<Input>) returns (k: nat)
    requires L.Sound(img) && (img.filename.Null? ==> L.NameLength(img.bytes) == 0)
    requires Receive(server, img, inputs).result != Overrun
    ensures Tells(server.ns, inputs, Receive(server, img, inputs), k)
    ensures Receive(server, img, inputs).result == Refused ==> k > 0
    decreases inputs
  {
    var o := Receive(server, img, inputs);
    if inputs == [] {
      k := 0;
    } else {
      var rest := inputs[1..];
      assert inputs == [inputs[0]] + rest && inputs[..1] == [inputs[0]] && [inputs[0]][1..] == [];
      match inputs[0]
      case Other =>
        var j := ReceiveTells(server, img, rest);
        TellsMore(server.ns, inputs, None, o, j);
        k := j + 1;
      case Describe(data) =>
        k := DescribeTells(server, img, data, inputs);
      case Data(bytes) =>
        k := DataTells(server, img, bytes, inputs);
      case End =>
        EndTells(server, img, rest);
        k := 1;
    }
  }

  lemma EndTells(server: Server, img: L.Image, rest: seq<Input>)
    requires L.Sound(img) && (img.filename.Null? ==> L.NameLength(img.bytes) == 0)
    ensures var o := Receive(server, img, [End] + rest);
      |o.replies| == 1 && (o.result == Refused <==> o.replies[0] == Error) && o.result != Dropped
      && EndsWith(server.ns, o, NextID(server.store))
  {
    NameStored(img);
    assert ([End] + rest)[0] == End;
  }

  lemma {:induction false} DescribeTells(server: Server, img: L.Image, data: seq<byte>, inputs: seq<Input>)
    returns (k: nat)
    requires L.Sound(img) && inputs != [] && inputs[0] == Describe(data)
    requires Receive(server, img, inputs).result != Overrun
    ensures Tells(server.ns, inputs, Receive(server, img, inputs), k)
    ensures Receive(server, img, inputs).result == Refused ==> k > 0
    decreases inputs, 0
  {
    var d := Parsed(data).value;
    var img' := L.Setup(img, d.name, d.ctime, d.size).value;
    L.SetupSound(img, d.name, d.ctime, d.size);
    StaysNamed(img, d, 0);
    var reply := if MetaID(server.ns, Text(L.NameOf(img'))) != 0 then Repeat else Ack;
    var j := ReceiveTells(server, img', inputs[1..]);
    TellsMore(server.ns, inputs, Some(reply), Receive(server, img', inputs[1..]), j);
    k := j + 1;
  }

  lemma {:induction false} DataTells(server: Server, img: L.Image, bytes: seq<byte>, inputs: seq<Input>)
    returns (k: nat)
    requires L.Sound(img) && (img.filename.Null? ==> L.NameLength(img.bytes) == 0)
    requires inputs != [] && inputs[0] == Data(bytes) && Receive(server, img, inputs).result != Overrun
    ensures Tells(server.ns, inputs, Receive(server, img, inputs), k)
    ensures Receive(server, img, inputs).result == Refused ==> k > 0
    decreases inputs, 0
  {
    assert inputs[..1] == [inputs[0]] && [inputs[0]][1..] == [];
    if |bytes| > BLOCK_SIZE || img.size.Null? {
      k := 1;
    } else {
      var id, server' := NextID(server.store), server.(store := Saved(server.store, Stored(bytes)));
      var img' := L.IDAdded(img, id).value;
      L.AddSound(img, id);
      StaysNamed(img, Description([], 0, 0), id);
      var j := ReceiveTells(server', img', inputs[1..]);
      TellsMore(server.ns, inputs, Some(Ack), Receive(server', img', inputs[1..]), j);
      k := j + 1;
    }
  }

  ghost predicate Accounted(ns: N.Namespace, inputs: seq<Input>, o: Outcome) { exists k :: Tells(ns, inputs, o, k) }

  /** Every upload that overruns nothing ends as its messages say, and tells the client so. */
  lemma UploadTells(server: Server, inputs: seq<Input>)
    requires Receive(server, BLANK, inputs).result != Overrun
    ensures Accounted(server.ns, inputs, Receive(server, BLANK, inputs))
  {
    Widths();
    L.ZeroWords(BLOCK_SIZE, 0);
    var k := ReceiveTells(server, BLANK, inputs);
  }

  // ---- From one client to another ----

  /** What handleGetFile tells about a committed file, and what the servers hold for it, can be fetched as the file. */
  lemma CommittedServes(disk: map<nat, seq<byte>>, m: L.Meta, content: seq<byte>, resultLast: bool)
    returns (s: Downloads.Setup)
    requires m.size == |content| && |m.ids| == |Chunked(content)|
    requires forall k :: 0 <= k < |m.ids| ==> |Chunked(content)[k]| <= BLOCK_SIZE
    requires forall k :: 0 <= k < |m.ids| ==> m.ids[k] in disk && disk[m.ids[k]] == Stored(Chunked(content)[k])
    ensures s.blocks == seq(|m.ids|, k requires 0 <= k < |m.ids| && m.ids[k] in disk => disk[m.ids[k]])
    ensures s.wsizes == Schedule(m.size, |m.ids|) && s.resultLast == resultLast && Downloads.Serves(s, content)
  {
    s := Downloads.Setup(seq(|m.ids|, k requires 0 <= k < |m.ids| && m.ids[k] in disk => disk[m.ids[k]]),
                         Schedule(m.size, |m.ids|), resultLast);
    forall i | 0 <= i < |s.blocks| ensures s.wsizes[i] <= BLOCK_SIZE {
      ScheduleAt(m.size, |m.ids|, i);
    }
  }

  /**
   * Put and get: a file is uploaded, its meta block is opened again, and its blocks are fetched as that says, in
   * any interleaving. When all tasks have ended the client has the file.
   */
  lemma PutThenGet(server: Server, dir: seq<byte>, name: seq<byte>, t: nat, content: seq<byte>, resultLast: bool)
    returns (o: Outcome, m: L.Meta, s: Downloads.Setup)
    requires dir != [] && 32 + |Path(dir, name)| + 8 * |Chunked(content)| <= BLOCK_SIZE
    requires t < Pow256(8) && |content| < Pow256(8)
    requires Tidy(server.store, |Chunked(content)| + 1) && N.CanAdd(server.ns, Text(Path(dir, name)))
    ensures o == Uploaded(server, Described(dir, name, t, |content|), Chunked(content), [End]) && o.result.Committed?
    ensures MetaID(o.server.ns, Text(Path(dir, name))) == o.result.id && o.result.id in o.server.store.disk
    ensures m == L.Read(L.Opened(o.server.store.disk[o.result.id]))
    ensures o.replies == Acks(|Chunked(content)| + 2)
    ensures m.name == Path(dir, name) && m.ctime == t && m.size == |content|
    ensures var base := if dir[|dir| - 1] == 47 then dir[..|dir| - 1] else dir;
      m.name == base + [47] + name && MetaID(o.server.ns, Text(base) + "/" + Text(name)) == o.result.id
    ensures forall k :: 0 <= k < |m.ids| ==> m.ids[k] in o.server.store.disk
    ensures s.blocks == seq(|m.ids|, k requires 0 <= k < |m.ids|
        && m.ids[k] in o.server.store.disk => o.server.store.disk[m.ids[k]])
    ensures s.wsizes == Schedule(m.size, |m.ids|) && s.resultLast == resultLast && Downloads.SetupOK(s)
    ensures forall g :: Downloads.Reached(s, g) && Downloads.AllEnded(g) ==> g.file == content
  {
    var data, path, chunks := Described(dir, name, t, |content|), Path(dir, name), Chunked(content);
    Widths();
    ParsedDescribed(dir, name, t, |content|);
    PathOf(dir, name);
    forall i | 0 <= i < |chunks| ensures |chunks[i]| <= BLOCK_SIZE {
      ChunkedAt(content, i);
    }
    var ids, id := UploadCommits(server, data, Description(path, t, |content|), chunks);
    o := Uploaded(server, data, chunks, [End]);
    m := MetaOf(Description(path, t, |content|), ids);
    s := CommittedServes(o.server.store.disk, m, content, resultLast);
    forall g | Downloads.Reached(s, g) && Downloads.AllEnded(g) ensures g.file == content {
      Downloads.EndedIsWhole(s, content, g);
    }
  }

  // ---- What putFile returns ----

  /** What putFile sends for a file, as long as it is answered MC_FileACK. */
  function Put(dir: seq<byte>, name: seq<byte>, t: nat, content: seq<byte>): seq<Input>
    requires dir != []
  {
    [Describe(Described(dir, name, t, |content|))] + (Datas(Chunked(content)) + [End])
  }

  /** Of `total` messages `n` are sent: up to the first answer that is no Ack, and all if there is none. */
  ghost predicate Stops(total: nat, n: nat, ok: bool, replies: seq<Reply>)
  {
    && 0 < n <= total && |replies| == n
    && (forall i :: 0 <= i < n - 1 ==> replies[i] == Ack)
    && (ok <==> replies[n - 1] == Ack) && (ok ==> n == total)
  }

  /** The client sends messages as long as each is answered with Ack, returns whether all are, and disconnects. */
  ghost predicate Exchanged(server: Server, msgs: seq<Input>, n: nat, ok: bool, o: Outcome)
  {
    n <= |msgs| && o == Receive(server, BLANK, msgs[..n]) && Stops(|msgs|, n, ok, o.replies)
  }

  lemma StopsEarly(total: nat, n: nat, ok: bool, replies: seq<Reply>, reply: Reply)
    requires Stops(total, n, ok, replies) && n < total && replies == [reply] + Acks(n - 1)
    ensures n == 1 && !ok && reply != Ack
  {
  }

  /** The messages up to some of the data. */
  lemma PartSent(server: Server, data: seq<byte>, d: Description, chunks: seq<seq<byte>>, n: nat)
    requires Tidy(server.store, |chunks|) && Describes(data, d, |chunks|) && Sendable(chunks) && n <= |chunks|
    ensures var o := Receive(server, BLANK, ([Describe(data)] + (Datas(chunks) + [End]))[..n + 1]);
      && o.replies == [if MetaID(server.ns, Text(d.name)) != 0 then Repeat else Ack] + Acks(n)
      && o.result == Dropped && o.server.ns == server.ns && o.server.store.disk == server.store.disk
  {
    var part, msgs := chunks[..n], [Describe(data)] + (Datas(chunks) + [End]);
    assert msgs[..n + 1] == [Describe(data)] + (Datas(part) + []);
    DisconnectRestores(server, data, d, part);
    var img, reply := SentReceived(server, data, d, part, []);
    var rest := Receive(server.(store := SavedAll(server.store, part)), img, []);
    ToldAllSays(n, rest);
    assert Acks(n) + [] == Acks(n);
  }

  /** All of them, for a path that cannot be added: the end is refused. */
  lemma AllRefused(server: Server, data: seq<byte>, d: Description, chunks: seq<seq<byte>>)
    requires Tidy(server.store, |chunks| + 1) && Describes(data, d, |chunks|) && Sendable(chunks)
    requires !N.CanAdd(server.ns, Text(d.name)) && MetaID(server.ns, Text(d.name)) == 0
    ensures var o := Uploaded(server, data, chunks, [End]);
      && o.replies == [Ack] + (Acks(|chunks|) + [Error]) && o.result == Refused && o.server.ns == server.ns
      && o.server.store.disk != server.store.disk
  {
    SavedAllAdds(server.store, chunks, 1);
    var st := SavedAll(server.store, chunks);
    var img, reply := SentReceived(server, data, d, chunks, [End]);
    EndRefused(server.(store := st), img, MetaOf(d, Fresh(server.store, |chunks|)));
    ToldAllSays(|chunks|, Receive(server.(store := st), img, [End]));
    assert NextID(st) !in server.store.disk;
  }

  lemma EndRefused(server: Server, img: L.Image, m: L.Meta)
    requires Tidy(server.store, 1) && L.Holds(img, m) && !N.CanAdd(server.ns, Text(m.name))
    ensures NextID(server.store) !in server.store.disk
    ensures Receive(server, img, [End])
         == Outcome(Server(Saved(server.store, img.bytes), server.ns), Refused, [Error])
  {
    SavedTidy(server.store, img.bytes, 0);
    L.HoldsReads(img, m);
  }

  /** An exchange ends with the description, or goes through to the end. */
  lemma WhereItEnds(server: Server, data: seq<byte>, d: Description, chunks: seq<seq<byte>>, n: nat, ok: bool,
      o: Outcome)
    requires Tidy(server.store, |chunks| + 1) && Describes(data, d, |chunks|) && Sendable(chunks)
    requires Exchanged(server, [Describe(data)] + (Datas(chunks) + [End]), n, ok, o)
    ensures if MetaID(server.ns, Text(d.name)) != 0 then
        !ok && o.result == Dropped && o.server.ns == server.ns && o.server.store.disk == server.store.disk
      else n == |chunks| + 2 && o == Uploaded(server, data, chunks, [End])
  {
    var msgs := [Describe(data)] + (Datas(chunks) + [End]);
    if n < |msgs| {
      PartSent(server, data, d, chunks, n - 1);
      StopsEarly(|msgs|, n, ok, o.replies, if MetaID(server.ns, Text(d.name)) != 0 then Repeat else Ack);
    } else {
      assert msgs[..n] == msgs;
      FirstReply(server, data, d, chunks);
    }
  }

  lemma FirstReply(server: Server, data: seq<byte>, d: Description, chunks: seq<seq<byte>>)
    requires Tidy(server.store, |chunks| + 1) && Describes(data, d, |chunks|) && Sendable(chunks)
    ensures var replies := Uploaded(server, data, chunks, [End]).replies;
      replies != [] && replies[0] == if MetaID(server.ns, Text(d.name)) != 0 then Repeat else Ack
  {
    var img, reply := SentReceived(server, data, d, chunks, [End]);
  }

  /**
   * putFile returns true exactly when the path can be added, and then it is in the tree. When it returns false the
   * tree is as before; so is the store if the path is a file's already, and otherwise the blocks stay behind.
   */
  lemma PutFileIff(server: Server, dir: seq<byte>, name: seq<byte>, t: nat, content: seq<byte>, n: nat, ok: bool,
      o: Outcome)
    requires dir != [] && 33 + |dir| + |name| + 8 * |Chunked(content)| <= BLOCK_SIZE
    requires t < Pow256(8) && |content| < Pow256(8) && Tidy(server.store, |Chunked(content)| + 1)
    requires Exchanged(server, Put(dir, name, t, content), n, ok, o)
    ensures var base := if dir[|dir| - 1] == 47 then dir[..|dir| - 1] else dir;
      var path := Text(base) + "/" + Text(name);
      && (ok <==> N.CanAdd(server.ns, path))
      && (ok ==> o.result.Committed? && o.server.ns == N.Add(server.ns, path, o.result.id)
                 && MetaID(o.server.ns, path) == o.result.id != 0)
      && (!ok ==> o.server.ns == server.ns
                  && (o.server.store.disk == server.store.disk <==> MetaID(server.ns, path) != 0))
  {
    var data, chunks, d := PutDescribes(dir, name, t, content);
    PathOf(dir, name);
    WhereItEnds(server, data, d, chunks, n, ok, o);
    if N.CanAdd(server.ns, Text(d.name)) {
      var ids, id := UploadCommits(server, data, d, chunks);
    } else if MetaID(server.ns, Text(d.name)) == 0 {
      AllRefused(server, data, d, chunks);
    }
  }

  lemma PutDescribes(dir: seq<byte>, name: seq<byte>, t: nat, content: seq<byte>)
    returns (data: seq<byte>, chunks: seq<seq<byte>>, d: Description)
    requires dir != [] && 33 + |dir| + |name| + 8 * |Chunked(content)| <= BLOCK_SIZE
    requires t < Pow256(8) && |content| < Pow256(8)
    ensures data == Described(dir, name, t, |content|) && chunks == Chunked(content)
    ensures d == Description(Path(dir, name), t, |content|) && Describes(data, d, |chunks|) && Sendable(chunks)
  {
    data, chunks := Described(dir, name, t, |content|), Chunked(content);
    d := Description(Path(dir, name), t, |content|);
    Widths();
    ParsedDescribed(dir, name, t, |content|);
    forall i | 0 <= i < |chunks| ensures |chunks[i]| <= BLOCK_SIZE {
      ChunkedAt(content, i);
    }
  }

  /** And it does return. */
  lemma PutFileReturns(server: Server, dir: seq<byte>, name: seq<byte>, t: nat, content: seq<byte>)
    returns (n: nat, ok: bool, o: Outcome)
    requires dir != [] && 33 + |dir| + |name| + 8 * |Chunked(content)| <= BLOCK_SIZE
    requires t < Pow256(8) && |content| < Pow256(8) && Tidy(server.store, |Chunked(content)| + 1)
    ensures Exchanged(server, Put(dir, name, t, content), n, ok, o)
  {
    var data, chunks, d := PutDescribes(dir, name, t, content);
    n, ok, o := SomeExchange(server, data, d, chunks);
  }

  lemma SomeExchange(server: Server, data: seq<byte>, d: Description, chunks: seq<seq<byte>>)
    returns (n: nat, ok: bool, o: Outcome)
    requires Tidy(server.store, |chunks| + 1) && Describes(data, d, |chunks|) && Sendable(chunks)
    ensures Exchanged(server, [Describe(data)] + (Datas(chunks) + [End]), n, ok, o)
  {
    var msgs := [Describe(data)] + (Datas(chunks) + [End]);
    if MetaID(server.ns, Text(d.name)) != 0 {
      PartSent(server, data, d, chunks, 0);
      n, ok, o := 1, false, Receive(server, BLANK, msgs[..1]);
    } else {
      n, ok, o := |msgs|, N.CanAdd(server.ns, Text(d.name)), Uploaded(server, data, chunks, [End]);
      assert msgs[..n] == msgs;
      ThroughReplies(server, data, d, chunks);
    }
  }

  lemma ThroughReplies(server: Server, data: seq<byte>, d: Description, chunks: seq<seq<byte>>)
    requires Tidy(server.store, |chunks| + 1) && Describes(data, d, |chunks|) && Sendable(chunks)
    requires MetaID(server.ns, Text(d.name)) == 0
    ensures Stops(|chunks| + 2, |chunks| + 2, N.CanAdd(server.ns, Text(d.name)),
                  Uploaded(server, data, chunks, [End]).replies)
  {
    var replies := Uploaded(server, data, chunks, [End]).replies;
    if N.CanAdd(server.ns, Text(d.name)) {
      var ids, id := UploadCommits(server, data, d, chunks);
      assert replies == Acks(|chunks| + 2);
    } else {
      AllRefused(server, data, d, chunks);
      assert replies == [Ack] + (Acks(|chunks|) + [Error]);
    }
  }
}

/** FileUploader::receiveFile itself, on a MetaBlock over a fresh block. */
module Uploads {
  import opened Association
  import opened BlockIDs
  import opened Bytes
  import opened Chunks
  import L = MetaLayout
  import M = MetaBlocks
  import N = Namespaces
  import opened Sequences
  import opened UploadSpec

  class FileUploader {
    const machine: nat
    var disk: map<nat, seq<byte>>
    var max: nat
    var ns: N.Namespace

    ghost function View(): Server
      reads this
    {
      Server(Store(machine, disk, max), ns)
    }

    constructor (server: Server)
      ensures View() == server
    {
      machine, disk, max, ns := server.store.machine, server.store.disk, server.store.max, server.ns;
    }

    /** BlockManager::saveBlock of a block without an ID. */
    method SaveBlock(block: seq<byte>) returns (id: nat)
      modifies `disk, `max
      ensures id == NextID(old(View()).store) && View() == old(View()).(store := Saved(old(View()).store, block))
    {
      id := NewID(machine, max);
      max := (max + 1) % LOCALS;
      disk := disk[id := block];
    }

    /** cleanData, with every delete delivered: no list, nothing to do. */
    method CleanData(meta: M.MetaBlock)
      requires meta.Readable()
      modifies `disk
      ensures View() == old(View()).(store := Deleted(old(View()).store, L.Read(meta.View()).ids))
    {
      var nBlock := meta.GetDataBlockNumber();
      ghost var ids := L.Read(meta.View()).ids;
      var i := 0;
      while i < nBlock
        invariant 0 <= i <= nBlock == |ids| && meta.View() == old(meta.View()) && meta.Readable()
        invariant disk == old(disk) - ToSet(ids[..i])
      {
        var id := meta.GetDataBlockID(i);
        OneMoreOut(old(disk), ids, i);
        disk := disk - {id};
        i := i + 1;
      }
      assert ids[..nBlock] == ids;
    }

    method SetupMeta(meta: M.MetaBlock, data: seq<byte>) returns (ok: bool)
      requires Parsed(data).Some? && meta.data.Length >= 8
      requires var d := Parsed(data).value; L.Setup(meta.View(), d.name, d.ctime, d.size).Some?
      modifies meta, meta.data
      ensures ok
      ensures var d := Parsed(data).value; L.Setup(old(meta.View()), d.name, d.ctime, d.size) == Some(meta.View())
    {
      var d := Parsed(data).value;
      ok := meta.SetFileName(d.name);
      ok := meta.SetCreateTime(d.ctime);
      ok := meta.SetFileSize(d.size);
    }

    /** MC_UpFileMeta, and whether its path is taken. */
    method Describing(meta: M.MetaBlock, data: seq<byte>) returns (reply: Reply)
      requires Parsed(data).Some? && L.Sound(meta.View())
      requires var d := Parsed(data).value; L.Setup(meta.View(), d.name, d.ctime, d.size).Some?
      modifies meta, meta.data
      ensures var d := Parsed(data).value; L.Setup(old(meta.View()), d.name, d.ctime, d.size) == Some(meta.View())
      ensures L.Sound(meta.View()) && reply == if MetaID(ns, Text(L.NameOf(meta.View()))) != 0 then Repeat else Ack
    {
      L.SetupSound(meta.View(), Parsed(data).value.name, Parsed(data).value.ctime, Parsed(data).value.size);
      var ok := SetupMeta(meta, data);
      var name := meta.GetFileName();
      var path := Text(name);
      reply := if path in ns.ids && ns.ids[path] != 0 then Repeat else Ack;
    }

    /** setupData of a message that is not too long. */
    method SetupData(meta: M.MetaBlock, bytes: seq<byte>) returns (ok: bool)
      requires |bytes| <= BLOCK_SIZE && L.Sound(meta.View())
      requires L.IDAdded(meta.View(), NextID(View().store)).Some?
      modifies `disk, `max, meta, meta.data
      ensures ok == old(meta.View()).size.At? && L.Sound(meta.View())
      ensures View() == old(View()).(store := Saved(old(View()).store, Stored(bytes)))
      ensures L.IDAdded(old(meta.View()), NextID(old(View()).store)) == Some(meta.View())
    {
      var id := SaveBlock(Stored(bytes));
      L.AddSound(meta.View(), id);
      ok := meta.AddDataID(id);
    }

    /** MC_UpFileEnd: the block goes to the store, and its path into the tree. */
    method Finish(meta: M.MetaBlock) returns (result: Result, reply: Reply)
      requires meta.Readable()
      modifies this
      ensures Outcome(View(), result, [reply]) == Receive(old(View()), meta.View(), [End])
    {
      var name := meta.GetFileName();
      var path := Text(name);
      var id := SaveBlock(meta.data[..]);
      if !N.CanAdd(ns, path) {
        return Refused, Error;
      }
      ns := N.Add(ns, path, id);
      result, reply := Committed(id), Ack;
    }

    /** receiveFile, on a new meta block. */
    method ReceiveFile(inputs: seq<Input>) returns (result: Result, replies: seq<Reply>)
      requires Receive(View(), BLANK, inputs).result != Overrun
      modifies this
      ensures Outcome(View(), result, replies) == Receive(old(View()), BLANK, inputs)
      ensures Accounted(old(ns), inputs, Outcome(View(), result, replies))
    {
      UploadTells(View(), inputs);
      var mem := new byte[BLOCK_SIZE](_ => 0);
      assert mem[..] == Zeros(BLOCK_SIZE);
      var meta := new M.MetaBlock(mem);
      BlankSound();
      result, replies := ReceiveInto(meta, inputs);
    }

    /** Its loop; `inputs` is what socket->receive returns, and NULL behind that. */
    method ReceiveInto(meta: M.MetaBlock, inputs: seq<Input>) returns (result: Result, replies: seq<Reply>)
      requires meta.View() == BLANK && L.Sound(BLANK) && Receive(View(), BLANK, inputs).result != Overrun
      modifies this, meta, meta.data
      ensures Outcome(View(), result, replies) == Receive(old(View()), BLANK, inputs)
    {
      replies := [];
      ghost var all := Receive(View(), BLANK, inputs);
      var i := 0;
      while i < |inputs|
        invariant 0 <= i <= |inputs|
        invariant L.Sound(meta.View()) && Follows(all, replies, Receive(View(), meta.View(), inputs[i..]))
      {
        var msg, rest := inputs[i], inputs[i + 1..];
        assert inputs[i..][0] == msg && inputs[i..][1..] == rest;
        i := i + 1;
        match msg
        case Other =>
        case Describe(data) =>
          var reply := Describing(meta, data);
          FollowsOn(all, replies, reply, Receive(View(), meta.View(), rest));
          replies := replies + [reply];
        case Data(bytes) =>
          if |bytes| > BLOCK_SIZE {
            return Refused, replies + [Error];
          }
          var ok := SetupData(meta, bytes);
          if !ok {
            return Refused, replies + [Error];
          }
          FollowsOn(all, replies, Ack, Receive(View(), meta.View(), rest));
          replies := replies + [Ack];
        case End =>
          var reply;
          result, reply := Finish(meta);
          return result, replies + [reply];
      }
      CleanData(meta);
      result := Dropped;
    }
  }

  /** `all` is `o` with some replies told before. */
  ghost predicate Follows(all: Outcome, replies: seq<Reply>, o: Outcome) { all == o.(replies := replies + o.replies) }

  lemma FollowsOn(all: Outcome, replies: seq<Reply>, reply: Reply, o: Outcome)
    requires Follows(all, replies, Told(reply, o))
    ensures Follows(all, replies + [reply], o)
  {
    assert replies + ([reply] + o.replies) == replies + [reply] + o.replies;
  }

  lemma OneMoreOut(disk: map<nat, seq<byte>>, ids: seq<nat>, i: nat)
    requires i < |ids|
    ensures disk - ToSet(ids[..i]) - {ids[i]} == disk - ToSet(ids[..i + 1])
  {
    assert ToSet(ids[..i + 1]) == ToSet(ids[..i]) + {ids[i]};
  }

  lemma BlankSound()
    ensures L.Sound(BLANK)
  {
    Widths();
    L.ZeroWords(BLOCK_SIZE, 0);
  }
}
