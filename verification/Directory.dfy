/** The replica directory of a whole cluster: every node's maps, and the block messages in flight. */
module Directories {
  import opened Association
  import opened ReplicaLists
  import opened ResolverSpec
  import opened Resolvers
  import opened Sequences

  datatype Msg =
    | Ask(dest: nat, src: nat, id: nat)                     // MC_RequestBlockLocation
    | AskAck(dest: nat, id: nat, list: seq<nat>)            // MC_RequestBlockLocationACK with data
    | DoReplica(dest: nat, id: nat, list: seq<nat>)         // MC_DoReplica
    | UpdateReplica(dest: nat, id: nat, list: seq<nat>)     // MC_UpdateReplica

  datatype Dir = Dir(nodes: map<nat, Store>, msgs: set<Msg>)

  datatype Event =
    | Save(m: nat, id: nat)                                 // saveBlock at a node
    | SendAsk(m: nat, id: nat, dests: set<nat>)             // the broadcast of askRemoteBlock, as far as it gets
    | TakeAsk(msg: Msg)                                     // handleRequestBlockLocation
    | TakeAck(msg: Msg)                                     // handleRequestBlockLocationACK
    | TakeUpdate(msg: Msg)                                  // handleUpdateReplica
    | Check(m: nat, id: nat, alive: set<nat>)               // checkReplica, with the answers that come back true
    | Repair(m: nat, id: nat, list: seq<nat>, copied: seq<nat>, told: set<nat>)  // handleDoReplica
    | LoadFailed(m: nat, id: nat)                           // getData giving up on a remote block
    | Lose(msg: Msg)                                        // a message that never arrives

  /** The copies of handleDoReplica: each candidate fetches the block from `m` and saves it. */
  function Copied(nodes: map<nat, Store>, replica: nat, id: nat, cs: seq<nat>): (nodes': map<nat, Store>)
    requires forall c :: c in cs ==> c in nodes
    ensures nodes'.Keys == nodes.Keys
  {
    if cs == [] then nodes
    else
      var front := Copied(nodes, replica, id, cs[..|cs| - 1]);
      var c := cs[|cs| - 1];
      front[c := Saved(front[c], replica, c, id)]
  }

  /** A repair request for `m`: one in flight, or its own list, which checkAllReplica hands to the same handler. */
  ghost predicate Requested(d: Dir, m: nat, id: nat, list: seq<nat>)
    requires m in d.nodes
  {
    DoReplica(m, id, list) in d.msgs || (id in d.nodes[m].local && list == d.nodes[m].local[id])
  }

  /** A request goes to the first machine of its list. */
  function Sent(request: Option<seq<nat>>, id: nat): set<Msg>
  {
    if request.Some? && request.value != [] then {DoReplica(request.value[0], id, request.value)} else {}
  }

  /** The broadcast of a list. */
  function Told(told: set<nat>, id: nat, list: seq<nat>): set<Msg>
  {
    set t | t in told :: UpdateReplica(t, id, list)
  }

  ghost predicate Next(d: Dir, replica: nat, e: Event, d': Dir)
  {
    match e
    case Save(m, id) =>
      m in d.nodes && d' == d.(nodes := d.nodes[m := Saved(d.nodes[m], replica, m, id)])
    case SendAsk(m, id, dests) =>
      d' == d.(msgs := d.msgs + set t | t in dests :: Ask(t, m, id))
    case TakeAsk(msg) =>
      && msg in d.msgs && msg.Ask? && msg.dest in d.nodes
      && d' == d.(msgs := d.msgs - {msg} +
           if msg.id in d.nodes[msg.dest].local then {AskAck(msg.src, msg.id, d.nodes[msg.dest].local[msg.id])} else {})
    case TakeAck(msg) =>
      && msg in d.msgs && msg.AskAck? && msg.dest in d.nodes && msg.list != []
      && (exists s' ::
            AckHandled(d.nodes[msg.dest], replica, msg.id, msg.list, s')
            && d' == Dir(d.nodes[msg.dest := s'], d.msgs - {msg}))
    case TakeUpdate(msg) =>
      && msg in d.msgs && msg.UpdateReplica? && msg.dest in d.nodes
      && d' == Dir(d.nodes[msg.dest := UpdateHandled(d.nodes[msg.dest], msg.id, msg.list)], d.msgs - {msg})
    case Check(m, id, alive) =>
      && m in d.nodes && id in d.nodes[m].remote
      && d' == Dir(d.nodes[m := Checked(d.nodes[m], id, alive)],
                   d.msgs + Sent(CheckRequest(d.nodes[m], replica, id, alive), id))
    case Repair(m, id, list, copied, told) =>
      && m in d.nodes && Requested(d, m, id, list)
      && (id in d.nodes[m].local || id in d.nodes[m].remote)
      && NoDup(copied) && (copied != [] ==> id in d.nodes[m].disk)
      && (forall c :: c in copied ==> c in d.nodes && c != m && c !in AddAll(replica, [], list))
      && |AddAll(replica, [], list)| + |copied| <= replica
      && (var final := AddAll(replica, AddAll(replica, [], list), copied);
          var nodes := Copied(d.nodes, replica, id, copied);
          && m in nodes
          && d' == Dir(nodes[m := SetEntry(nodes[m], id, final)],
                       d.msgs - {DoReplica(m, id, list)} + Told(told, id, final)))
    case LoadFailed(m, id) =>
      m in d.nodes && d' == d.(nodes := d.nodes[m := d.nodes[m].(remote := d.nodes[m].remote - {id})])
    case Lose(msg) =>
      d' == d.(msgs := d.msgs - {msg})
  }

  // ---- The invariant ----

  /** `m` has the block: its file, and its entry. */
  ghost predicate Holds(nodes: map<nat, Store>, m: nat, id: nat)
  {
    m in nodes && id in nodes[m].disk && id in nodes[m].local
  }

  /** Non-empty, strictly ascending, bounded, and every machine on it has the block. */
  ghost predicate GoodList(nodes: map<nat, Store>, replica: nat, id: nat, list: seq<nat>)
  {
    list != [] && Ascending(list) && |list| <= replica && forall m :: m in list ==> Holds(nodes, m, id)
  }

  ghost predicate GoodStore(nodes: map<nat, Store>, replica: nat, s: Store)
  {
    && s.local.Keys <= s.disk && |s.remote| <= REMOTE_SIZE_MAX
    && (forall id :: id in s.local ==> GoodList(nodes, replica, id, s.local[id]))
    && (forall id :: id in s.remote ==> GoodList(nodes, replica, id, s.remote[id]))
  }

  ghost predicate GoodMsg(nodes: map<nat, Store>, replica: nat, msg: Msg)
  {
    msg.Ask? || GoodList(nodes, replica, msg.id, msg.list)
  }

  ghost predicate Good(d: Dir, replica: nat)
  {
    && (forall m :: m in d.nodes ==> GoodStore(d.nodes, replica, d.nodes[m]))
    && (forall msg :: msg in d.msgs ==> GoodMsg(d.nodes, replica, msg))
  }

  /** No node is lost, and no node loses a file or a local entry. */
  ghost predicate Grows(nodes: map<nat, Store>, nodes': map<nat, Store>)
  {
    forall m :: m in nodes ==>
      m in nodes' && nodes[m].disk <= nodes'[m].disk && nodes[m].local.Keys <= nodes'[m].local.Keys
  }

  lemma GoodListGrows(nodes: map<nat, Store>, nodes': map<nat, Store>, replica: nat, id: nat, list: seq<nat>)
    requires GoodList(nodes, replica, id, list) && Grows(nodes, nodes')
    ensures GoodList(nodes', replica, id, list)
  {
    forall m | m in list ensures Holds(nodes', m, id) {
      assert Holds(nodes, m, id);
    }
  }

  lemma GoodStoreGrows(nodes: map<nat, Store>, nodes': map<nat, Store>, replica: nat, s: Store)
    requires GoodStore(nodes, replica, s) && Grows(nodes, nodes')
    ensures GoodStore(nodes', replica, s)
  {
    forall id | id in s.local ensures GoodList(nodes', replica, id, s.local[id]) {
      GoodListGrows(nodes, nodes', replica, id, s.local[id]);
    }
    forall id | id in s.remote ensures GoodList(nodes', replica, id, s.remote[id]) {
      GoodListGrows(nodes, nodes', replica, id, s.remote[id]);
    }
  }

  /** One node changes to a good store without losing a block, and only good messages are added. */
  lemma StepOne(d: Dir, replica: nat, m: nat, s': Store, msgs: set<Msg>)
    requires Good(d, replica) && m in d.nodes
    requires d.nodes[m].disk <= s'.disk && d.nodes[m].local.Keys <= s'.local.Keys
    requires GoodStore(d.nodes[m := s'], replica, s')
    requires forall msg :: msg in msgs && msg !in d.msgs ==> GoodMsg(d.nodes[m := s'], replica, msg)
    ensures Good(Dir(d.nodes[m := s'], msgs), replica)
    ensures Grows(d.nodes, d.nodes[m := s'])
  {
    var nodes' := d.nodes[m := s'];
    forall k | k in nodes' ensures GoodStore(nodes', replica, nodes'[k]) {
      if k != m {
        GoodStoreGrows(d.nodes, nodes', replica, d.nodes[k]);
      }
    }
    forall msg | msg in msgs ensures GoodMsg(nodes', replica, msg) {
      if msg in d.msgs && !msg.Ask? {
        GoodListGrows(d.nodes, nodes', replica, msg.id, msg.list);
      }
    }
  }

  /** StepOne with everything new judged before the step. */
  lemma StepKeeping(d: Dir, replica: nat, m: nat, s': Store, msgs: set<Msg>)
    requires Good(d, replica) && m in d.nodes
    requires d.nodes[m].disk <= s'.disk && d.nodes[m].local.Keys <= s'.local.Keys
    requires GoodStore(d.nodes, replica, s')
    requires forall msg :: msg in msgs && msg !in d.msgs ==> GoodMsg(d.nodes, replica, msg)
    ensures Good(Dir(d.nodes[m := s'], msgs), replica)
    ensures Grows(d.nodes, d.nodes[m := s'])
  {
    var nodes' := d.nodes[m := s'];
    GoodStoreGrows(d.nodes, nodes', replica, s');
    forall msg | msg in msgs && msg !in d.msgs ensures GoodMsg(nodes', replica, msg) {
      if !msg.Ask? {
        GoodListGrows(d.nodes, nodes', replica, msg.id, msg.list);
      }
    }
    StepOne(d, replica, m, s', msgs);
  }

  /** Saving a block: the one-machine list of the node that now has it. */
  lemma SavedGood(nodes: map<nat, Store>, replica: nat, m: nat, id: nat)
    requires m in nodes && replica > 0 && GoodStore(nodes, replica, nodes[m])
    ensures var s' := Saved(nodes[m], replica, m, id);
      && nodes[m].disk <= s'.disk && nodes[m].local.Keys <= s'.local.Keys
      && GoodStore(nodes[m := s'], replica, s') && Holds(nodes[m := s'], m, id)
  {
    var s' := Saved(nodes[m], replica, m, id);
    var nodes' := nodes[m := s'];
    AddToKeeps(replica, [], m);
    assert Grows(nodes, nodes');
    GoodStoreGrows(nodes, nodes', replica, nodes[m]);
    assert Holds(nodes', m, id);
    MapMinus(nodes[m].remote, {id});
    forall k | k in s'.local ensures GoodList(nodes', replica, k, s'.local[k]) {
    }
  }

  /** Lists made of good lists are good. */
  lemma AddAllGood(nodes: map<nat, Store>, replica: nat, id: nat, list: seq<nat>, ms: seq<nat>)
    requires replica > 0 && Ascending(list) && |list| <= replica && (list != [] || ms != [])
    requires forall m :: m in list || m in ms ==> Holds(nodes, m, id)
    ensures GoodList(nodes, replica, id, AddAll(replica, list, ms))
  {
    AddAllKeeps(replica, list, ms);
  }

  lemma RoomIsRoom(remote: map<nat, seq<nat>>, kept: map<nat, seq<nat>>)
    requires Room(remote, kept) && |remote| <= REMOTE_SIZE_MAX
    ensures |kept| < REMOTE_SIZE_MAX && kept.Keys <= remote.Keys && forall id :: id in kept ==> kept[id] == remote[id]
  {
    if |remote| >= REMOTE_SIZE_MAX {
      var out: set<nat> :| out <= remote.Keys && |out| == 5 && kept == remote - out;
      MapMinus(remote, out);
    }
  }

  /** A good list for a block that is in the cache, or that has room there. */
  lemma CachedGood(nodes: map<nat, Store>, replica: nat, s: Store, kept: map<nat, seq<nat>>, id: nat, list: seq<nat>)
    requires GoodStore(nodes, replica, s) && GoodList(nodes, replica, id, list)
    requires kept.Keys <= s.remote.Keys && forall k :: k in kept ==> kept[k] == s.remote[k]
    requires |kept| < REMOTE_SIZE_MAX || (id in kept && |kept| <= REMOTE_SIZE_MAX)
    ensures GoodStore(nodes, replica, s.(remote := kept[id := list]))
  {
    BindingSize(kept, id, list);
  }

  /** A truthful answer keeps a node's maps in order. */
  lemma AckGood(nodes: map<nat, Store>, replica: nat, s: Store, id: nat, list: seq<nat>, s': Store)
    requires GoodStore(nodes, replica, s) && replica > 0 && GoodList(nodes, replica, id, list)
    requires AckHandled(s, replica, id, list, s')
    ensures s'.disk == s.disk && s'.local == s.local && GoodStore(nodes, replica, s')
  {
    if id in s.remote {
      assert GoodList(nodes, replica, id, s.remote[id]);
      AddAllGood(nodes, replica, id, s.remote[id], list);
      CachedGood(nodes, replica, s, s.remote, id, AddAll(replica, s.remote[id], list));
    } else {
      var kept :| Room(s.remote, kept) && s' == s.(remote := kept[id := AddAll(replica, [], list)]);
      RoomIsRoom(s.remote, kept);
      AddAllGood(nodes, replica, id, [], list);
      CachedGood(nodes, replica, s, kept, id, AddAll(replica, [], list));
    }
  }

  lemma UpdateGood(d: Dir, replica: nat, msg: Msg)
    requires Good(d, replica) && msg in d.msgs && msg.UpdateReplica? && msg.dest in d.nodes
    ensures var s, s' := d.nodes[msg.dest], UpdateHandled(d.nodes[msg.dest], msg.id, msg.list);
      s'.disk == s.disk && s'.local.Keys == s.local.Keys && GoodStore(d.nodes, replica, s')
  {
    var s, s' := d.nodes[msg.dest], UpdateHandled(d.nodes[msg.dest], msg.id, msg.list);
    assert GoodStore(d.nodes, replica, s) && GoodMsg(d.nodes, replica, msg);
    assert s'.remote.Keys == s.remote.Keys;
    assert |s'.remote.Keys| == |s'.remote| && |s.remote.Keys| == |s.remote|;
  }

  lemma CheckGood(nodes: map<nat, Store>, replica: nat, s: Store, id: nat, alive: set<nat>)
    requires GoodStore(nodes, replica, s) && id in s.remote
    ensures var s' := Checked(s, id, alive);
      s'.disk == s.disk && s'.local == s.local && GoodStore(nodes, replica, s')
    ensures match CheckRequest(s, replica, id, alive)
            case None => true
            case Some(list) => GoodList(nodes, replica, id, list)
  {
    var s' := Checked(s, id, alive);
    assert GoodList(nodes, replica, id, s.remote[id]);
    AliveKeeps(s.remote[id], alive);
    MapMinus(s.remote, {id});
    if Alive(s.remote[id], alive) != [] {
      assert s'.remote.Keys == s.remote.Keys;
      assert |s'.remote.Keys| == |s'.remote| && |s.remote.Keys| == |s.remote|;
    }
  }

  lemma CopyOne(mid: Dir, replica: nat, id: nat, c: nat)
    requires Good(mid, replica) && replica > 0 && c in mid.nodes
    ensures var nodes' := mid.nodes[c := Saved(mid.nodes[c], replica, c, id)];
      Grows(mid.nodes, nodes') && Good(Dir(nodes', mid.msgs), replica) && Holds(nodes', c, id)
  {
    SavedGood(mid.nodes, replica, c, id);
    StepOne(mid, replica, c, Saved(mid.nodes[c], replica, c, id), mid.msgs);
  }

  /** The copies one after another: nothing good is lost. */
  lemma {:induction false} CopiedGood(d: Dir, replica: nat, id: nat, cs: seq<nat>)
    requires Good(d, replica) && replica > 0 && forall c :: c in cs ==> c in d.nodes
    ensures Good(Dir(Copied(d.nodes, replica, id, cs), d.msgs), replica)
    ensures Grows(d.nodes, Copied(d.nodes, replica, id, cs))
  {
    if cs != [] {
      var front, c := cs[..|cs| - 1], cs[|cs| - 1];
      CopiedGood(d, replica, id, front);
      var mid := Copied(d.nodes, replica, id, front);
      CopyOne(Dir(mid, d.msgs), replica, id, c);
      GrowsOn(d.nodes, mid, mid[c := Saved(mid[c], replica, c, id)]);
    }
  }

  /** Each saver has the block then. */
  lemma {:induction false} CopiedHold(nodes: map<nat, Store>, replica: nat, id: nat, cs: seq<nat>, x: nat)
    requires (forall c :: c in cs ==> c in nodes) && x in cs
    ensures Holds(Copied(nodes, replica, id, cs), x, id)
  {
    var front := cs[..|cs| - 1];
    if x in front {
      CopiedHold(nodes, replica, id, front, x);
    } else {
      assert cs == front + [cs[|cs| - 1]];
    }
  }

  /** Only the savers change. */
  lemma {:induction false} CopiedOthers(nodes: map<nat, Store>, replica: nat, id: nat, cs: seq<nat>, m: nat)
    requires (forall c :: c in cs ==> c in nodes) && m in nodes && m !in cs
    ensures Copied(nodes, replica, id, cs)[m] == nodes[m]
  {
    if cs != [] {
      CopiedOthers(nodes, replica, id, cs[..|cs| - 1], m);
    }
  }

  lemma SetEntryGood(nodes: map<nat, Store>, replica: nat, s: Store, id: nat, list: seq<nat>)
    requires GoodStore(nodes, replica, s) && GoodList(nodes, replica, id, list)
    ensures var s' := SetEntry(s, id, list);
      s'.disk == s.disk && s'.local.Keys == s.local.Keys && GoodStore(nodes, replica, s')
  {
    var s' := SetEntry(s, id, list);
    assert s'.remote.Keys == s.remote.Keys;
    assert |s'.remote.Keys| == |s'.remote| && |s.remote.Keys| == |s.remote|;
  }

  /** What handleDoReplica publishes: good, holding the requested list, and as long as the copies make it. */
  lemma RepairList(d: Dir, replica: nat, m: nat, id: nat, list: seq<nat>, copied: seq<nat>)
    requires Good(d, replica) && replica > 0 && m in d.nodes && Requested(d, m, id, list) && NoDup(copied)
    requires forall c :: c in copied ==> c in d.nodes && c !in AddAll(replica, [], list)
    requires |AddAll(replica, [], list)| + |copied| <= replica
    ensures GoodList(d.nodes, replica, id, list)
    ensures var final := AddAll(replica, AddAll(replica, [], list), copied);
      && GoodList(Copied(d.nodes, replica, id, copied), replica, id, final)
      && (forall x :: x in list ==> x in final) && (forall c :: c in copied ==> c in final)
      && |final| == |list| + |copied|
  {
    assert GoodList(d.nodes, replica, id, list) by {
      if DoReplica(m, id, list) in d.msgs {
        assert GoodMsg(d.nodes, replica, DoReplica(m, id, list));
      } else {
        assert GoodStore(d.nodes, replica, d.nodes[m]);
      }
    }
    CopiedGood(d, replica, id, copied);
    var nodes := Copied(d.nodes, replica, id, copied);
    forall c | c in copied ensures Holds(nodes, c, id) {
      CopiedHold(d.nodes, replica, id, copied, c);
    }
    GoodListGrows(d.nodes, nodes, replica, id, list);
    RebuildFits(replica, list);
    AddAllKeeps(replica, AddAll(replica, [], list), copied);
    AddAllFits(replica, AddAll(replica, [], list), copied);
  }

  /** The end of a repair: the entry takes the final list, which is broadcast. */
  lemma PublishGood(d: Dir, replica: nat, m: nat, id: nat, final: seq<nat>, taken: Msg, told: set<nat>)
    requires Good(d, replica) && m in d.nodes && GoodList(d.nodes, replica, id, final)
    ensures var d' := Dir(d.nodes[m := SetEntry(d.nodes[m], id, final)],
                          d.msgs - {taken} + Told(told, id, final));
      Good(d', replica) && Grows(d.nodes, d'.nodes)
  {
    var msgs := d.msgs - {taken} + Told(told, id, final);
    SetEntryGood(d.nodes, replica, d.nodes[m], id, final);
    StepKeeping(d, replica, m, SetEntry(d.nodes[m], id, final), msgs);
  }

  lemma GrowsOn(a: map<nat, Store>, b: map<nat, Store>, c: map<nat, Store>)
    requires Grows(a, b) && Grows(b, c)
    ensures Grows(a, c)
  {
  }

  lemma RepairGood(d: Dir, replica: nat, e: Event, d': Dir)
    requires Good(d, replica) && replica > 0 && e.Repair? && Next(d, replica, e, d')
    ensures Good(d', replica) && Grows(d.nodes, d'.nodes)
  {
    var m, id := e.m, e.id;
    var final := AddAll(replica, AddAll(replica, [], e.list), e.copied);
    var nodes := Copied(d.nodes, replica, id, e.copied);
    RepairList(d, replica, m, id, e.list, e.copied);
    CopiedGood(d, replica, id, e.copied);
    PublishGood(Dir(nodes, d.msgs), replica, m, id, final, DoReplica(m, id, e.list), e.told);
    GrowsOn(d.nodes, nodes, d'.nodes);
  }

  /** Every step keeps the invariant, and no step loses a block. */
  lemma NextGood(d: Dir, replica: nat, e: Event, d': Dir)
    requires Good(d, replica) && replica > 0 && Next(d, replica, e, d')
    ensures Good(d', replica) && Grows(d.nodes, d'.nodes)
  {
    match e
    case Save(m, id) =>
      SavedGood(d.nodes, replica, m, id);
      StepOne(d, replica, m, Saved(d.nodes[m], replica, m, id), d.msgs);
    case SendAsk(m, id, dests) =>
    case TakeAsk(msg) =>
      assert GoodStore(d.nodes, replica, d.nodes[msg.dest]);
    case TakeAck(msg) =>
      var s' :| AckHandled(d.nodes[msg.dest], replica, msg.id, msg.list, s')
                && d' == Dir(d.nodes[msg.dest := s'], d.msgs - {msg});
      assert GoodStore(d.nodes, replica, d.nodes[msg.dest]) && GoodMsg(d.nodes, replica, msg);
      AckGood(d.nodes, replica, d.nodes[msg.dest], msg.id, msg.list, s');
      StepKeeping(d, replica, msg.dest, s', d'.msgs);
    case TakeUpdate(msg) =>
      UpdateGood(d, replica, msg);
      StepKeeping(d, replica, msg.dest, UpdateHandled(d.nodes[msg.dest], msg.id, msg.list), d'.msgs);
    case Check(m, id, alive) =>
      assert GoodStore(d.nodes, replica, d.nodes[m]);
      CheckGood(d.nodes, replica, d.nodes[m], id, alive);
      StepKeeping(d, replica, m, Checked(d.nodes[m], id, alive), d'.msgs);
    case Repair(_, _, _, _, _) =>
      RepairGood(d, replica, e, d');
    case LoadFailed(m, id) =>
      MapMinus(d.nodes[m].remote, {id});
      assert GoodStore(d.nodes, replica, d.nodes[m]);
      StepKeeping(d, replica, m, d.nodes[m].(remote := d.nodes[m].remote - {id}), d.msgs);
    case Lose(msg) =>
  }

  // ---- What steps bring about ----

  /** A machine that saves a block has it, lists only itself, and no longer has it cached; other nodes are as before. */
  lemma SavingHolds(d: Dir, replica: nat, m: nat, id: nat, d': Dir)
    requires replica > 0 && Next(d, replica, Save(m, id), d')
    ensures Holds(d'.nodes, m, id) && d'.nodes[m].local[id] == [m] && id !in d'.nodes[m].remote
    ensures d'.msgs == d.msgs && d'.nodes - {m} == d.nodes - {m}
    ensures d'.nodes[m].local - {id} == d.nodes[m].local - {id} && d'.nodes[m].remote == d.nodes[m].remote - {id}
  {
    AddToNone(replica, m);
    RebindMinus(d.nodes, m, d'.nodes[m]);
    RebindMinus(d.nodes[m].local, id, [m]);
  }

  /** A machine that gives up on a block has it no longer cached, and nothing else changes. */
  lemma FailingForgets(d: Dir, replica: nat, m: nat, id: nat, d': Dir)
    requires Next(d, replica, LoadFailed(m, id), d')
    ensures id !in d'.nodes[m].remote && d'.nodes[m].remote == d.nodes[m].remote - {id}
    ensures d'.nodes[m].local == d.nodes[m].local && d'.nodes[m].disk == d.nodes[m].disk
    ensures d'.msgs == d.msgs && d'.nodes - {m} == d.nodes - {m}
  {
    RebindMinus(d.nodes, m, d'.nodes[m]);
  }

  /**
   * A check of a cached entry: the machines that answered are left, and a request for copies goes to the first of
   * them exactly when they are too few.
   */
  lemma CheckAsks(d: Dir, replica: nat, m: nat, id: nat, alive: set<nat>, d': Dir)
    requires Good(d, replica) && Next(d, replica, Check(m, id, alive), d')
    ensures var s, s' := d.nodes[m], d'.nodes[m];
      var kept := ToSet(s.remote[id]) * alive;
      && MachinesOf(s'.remote, id) == kept && (id in s'.remote <==> kept != {})
      && s'.remote - {id} == s.remote - {id} && s'.local == s.local && s'.disk == s.disk
      && d'.nodes - {m} == d.nodes - {m}
      && (0 < |kept| < replica ==>
            Ascending(s'.remote[id]) && d'.msgs == d.msgs + {DoReplica(s'.remote[id][0], id, s'.remote[id])})
      && (kept == {} || |kept| == replica ==> d'.msgs == d.msgs)
      && |kept| <= replica
  {
    var s := d.nodes[m];
    assert GoodStore(d.nodes, replica, s);
    CheckTells(s, replica, id, alive);
    CheckShaped(s, replica, id, alive);
    RequestIff(s, replica, id, alive);
    RebindMinus(d.nodes, m, Checked(s, id, alive));
    NothingSent(d.msgs, CheckRequest(s, replica, id, alive), id);
  }

  lemma NothingSent(msgs: set<Msg>, request: Option<seq<nat>>, id: nat)
    requires request.Some? ==> request.value != []
    ensures msgs + Sent(request, id) == if request.None? then msgs
                                        else msgs + {DoReplica(request.value[0], id, request.value)}
  {
  }

  /** A machine that has a block is found: it is asked, it answers, and its list is cached. */
  lemma AskingFinds(d: Dir, replica: nat, m: nat, h: nat, id: nat) returns (d1: Dir, d2: Dir, d3: Dir)
    requires Good(d, replica) && replica > 0 && m in d.nodes && h in d.nodes && id in d.nodes[h].local
    requires id !in d.nodes[m].remote && |d.nodes[m].remote| < REMOTE_SIZE_MAX
    ensures Next(d, replica, SendAsk(m, id, {h}), d1)
    ensures Next(d1, replica, TakeAsk(Ask(h, m, id)), d2)
    ensures Next(d2, replica, TakeAck(AskAck(m, id, d.nodes[h].local[id])), d3)
    ensures d3.nodes.Keys == d.nodes.Keys && MachinesOf(d3.nodes[m].remote, id) == ToSet(d.nodes[h].local[id])
    ensures MachinesOf(d3.nodes[m].remote, id) != {}
    ensures forall x :: x in MachinesOf(d3.nodes[m].remote, id) ==> Holds(d3.nodes, x, id)
  {
    var s, list := d.nodes[m], d.nodes[h].local[id];
    assert GoodStore(d.nodes, replica, d.nodes[h]) && GoodList(d.nodes, replica, id, list);
    d1 := d.(msgs := d.msgs + set t | t in {h} :: Ask(t, m, id));
    d2 := d.(msgs := d1.msgs - {Ask(h, m, id)} + {AskAck(m, id, list)});
    var s' := s.(remote := s.remote[id := AddAll(replica, [], list)]);
    assert Room(s.remote, s.remote) && AckHandled(s, replica, id, list, s');
    d3 := Dir(d.nodes[m := s'], d2.msgs - {AskAck(m, id, list)});
    RebuildFits(replica, list);
    assert list[0] in ToSet(list);
    assert Grows(d.nodes, d3.nodes);
    GoodListGrows(d.nodes, d3.nodes, replica, id, list);
  }

  /**
   * A block with too few living copies is repaired: the check at `m` requests copies of the first living holder,
   * which has the machines `cs` copy the block and tells `m`. Then `m` has the survivors and the new ones cached, and
   * all of them have the block.
   */
  lemma CheckingRepairs(d: Dir, replica: nat, m: nat, id: nat, alive: set<nat>, cs: seq<nat>)
      returns (first: nat, list: seq<nat>, d1: Dir, d2: Dir, d3: Dir, msg: Msg)
    requires Good(d, replica) && m in d.nodes && id in d.nodes[m].remote
    requires var kept := ToSet(d.nodes[m].remote[id]) * alive;
      && kept != {} && |kept| + |cs| <= replica && cs != [] && NoDup(cs)
      && forall c :: c in cs ==> c in d.nodes && c != m && c !in kept
    ensures Next(d, replica, Check(m, id, alive), d1)
    ensures Next(d1, replica, Repair(first, id, list, cs, {m}), d2)
    ensures Next(d2, replica, TakeUpdate(msg), d3) && msg.UpdateReplica? && msg.dest == m && msg.id == id
    ensures d3.nodes.Keys == d.nodes.Keys
    ensures var kept := ToSet(d.nodes[m].remote[id]) * alive;
      && MachinesOf(d3.nodes[m].remote, id) == kept + ToSet(cs)
      && |MachinesOf(d3.nodes[m].remote, id)| == |kept| + |cs|
      && first in kept && MachinesOf(d3.nodes[first].local, id) == kept + ToSet(cs)
    ensures forall x :: x in MachinesOf(d3.nodes[m].remote, id) ==> Holds(d3.nodes, x, id)
  {
    d1, list := CheckSends(d, replica, m, id, alive);
    first := list[0];
    CopiesMade(d1, replica, first, id, list, cs, m);
    var final;
    d2, final := RepairTells(d1, replica, first, id, list, cs, m);
    NextGood(d1, replica, Repair(first, id, list, cs, {m}), d2);
    d3, msg := TellingUpdates(d2, replica, m, id, final);
  }

  lemma CheckSends(d: Dir, replica: nat, m: nat, id: nat, alive: set<nat>) returns (d': Dir, list: seq<nat>)
    requires Good(d, replica) && m in d.nodes && id in d.nodes[m].remote
    requires 0 < |MachinesOf(d.nodes[m].remote, id) * alive| < replica
    ensures Next(d, replica, Check(m, id, alive), d') && Good(d', replica) && d'.nodes.Keys == d.nodes.Keys
    ensures list != [] && DoReplica(list[0], id, list) in d'.msgs && id in d'.nodes[m].remote
    ensures ToSet(list) == MachinesOf(d.nodes[m].remote, id) * alive && |list| == |ToSet(list)|
  {
    var s := d.nodes[m];
    d' := Dir(d.nodes[m := Checked(s, id, alive)],
              d.msgs + Sent(CheckRequest(s, replica, id, alive), id));
    CheckAsks(d, replica, m, id, alive, d');
    NextGood(d, replica, Check(m, id, alive), d');
    list := d'.nodes[m].remote[id];
    DistinctCount(list);
    assert list[0] in ToSet(list) <==> list != [];
  }

  /** A requested repair that all of `cs` take part in, and of which `m` is told. */
  lemma RepairTells(d: Dir, replica: nat, first: nat, id: nat, list: seq<nat>, cs: seq<nat>, m: nat)
      returns (d': Dir, final: seq<nat>)
    requires Holds(d.nodes, first, id) && Requested(d, first, id, list) && NoDup(cs)
    requires m in d.nodes && id in d.nodes[m].remote
    requires forall c :: c in cs ==> c in d.nodes && c != first && c !in AddAll(replica, [], list)
    requires |AddAll(replica, [], list)| + |cs| <= replica
    requires var nodes := Copied(d.nodes, replica, id, cs);
      nodes[first] == d.nodes[first] && nodes[m] == d.nodes[m]
    ensures Next(d, replica, Repair(first, id, list, cs, {m}), d')
    ensures d'.nodes.Keys == d.nodes.Keys && id in d'.nodes[m].remote && UpdateReplica(m, id, final) in d'.msgs
    ensures final == AddAll(replica, AddAll(replica, [], list), cs)
    ensures MachinesOf(d'.nodes[first].local, id) == ToSet(final)
  {
    final := AddAll(replica, AddAll(replica, [], list), cs);
    var nodes := Copied(d.nodes, replica, id, cs);
    d' := Dir(nodes[first := SetEntry(nodes[first], id, final)],
              d.msgs - {DoReplica(first, id, list)} + Told({m}, id, final));
    assert nodes[first].local[id := final][id] == final;
    assert id in d'.nodes[m].remote;
  }

  lemma CopiesMade(d: Dir, replica: nat, first: nat, id: nat, list: seq<nat>, cs: seq<nat>, m: nat)
    requires Good(d, replica) && replica > 0 && DoReplica(first, id, list) in d.msgs && first in list
    requires NoDup(cs) && |list| + |cs| <= replica && forall c :: c in cs ==> c in d.nodes && c != m && c !in list
    requires m in d.nodes
    ensures Holds(d.nodes, first, id) && Requested(d, first, id, list)
    ensures var wanted, nodes := AddAll(replica, [], list), Copied(d.nodes, replica, id, cs);
      var final := AddAll(replica, wanted, cs);
      && (forall c :: c in cs ==> c !in wanted) && |wanted| + |cs| <= replica
      && nodes[first] == d.nodes[first] && nodes[m] == d.nodes[m]
      && ToSet(final) == ToSet(list) + ToSet(cs) && |ToSet(final)| == |list| + |cs|
  {
    assert GoodMsg(d.nodes, replica, DoReplica(first, id, list));
    RebuildFits(replica, list);
    var wanted := AddAll(replica, [], list);
    RepairList(d, replica, first, id, list, cs);
    AddAllKeeps(replica, wanted, cs);
    DistinctCount(AddAll(replica, wanted, cs));
    CopiedOthers(d.nodes, replica, id, cs, first);
    CopiedOthers(d.nodes, replica, id, cs, m);
  }

  lemma TellingUpdates(d: Dir, replica: nat, m: nat, id: nat, list: seq<nat>) returns (d': Dir, msg: Msg)
    requires Good(d, replica) && replica > 0 && UpdateReplica(m, id, list) in d.msgs
    requires m in d.nodes && id in d.nodes[m].remote
    ensures msg == UpdateReplica(m, id, list) && Next(d, replica, TakeUpdate(msg), d')
    ensures d'.nodes.Keys == d.nodes.Keys && MachinesOf(d'.nodes[m].remote, id) == ToSet(list)
    ensures forall x :: x in list ==> Holds(d'.nodes, x, id)
    ensures forall x :: x in d.nodes && MachinesOf(d.nodes[x].local, id) == ToSet(list) ==>
      MachinesOf(d'.nodes[x].local, id) == ToSet(list)
  {
    msg := UpdateReplica(m, id, list);
    d' := Dir(d.nodes[m := UpdateHandled(d.nodes[m], id, list)], d.msgs - {msg});
    assert GoodMsg(d.nodes, replica, msg);
    NextGood(d, replica, TakeUpdate(msg), d');
    GoodListGrows(d.nodes, d'.nodes, replica, id, list);
    assert list[0] in ToSet(list);
  }

  // ---- Runs ----

  /** Nodes that have just started on empty directories. */
  ghost predicate Start(d: Dir) { d.msgs == {} && forall m :: m in d.nodes ==> d.nodes[m] == Store({}, map[], map[]) }

  ghost predicate IsRun(run: seq<Dir>, replica: nat, events: seq<Event>)
  {
    && |run| == |events| + 1 && Start(run[0])
    && forall i :: 0 <= i < |events| ==> Next(run[i], replica, events[i], run[i + 1])
  }

  /** In every state of every run, every list anywhere is truthful and in shape, and no cache overflows. */
  lemma {:induction false} RunGood(run: seq<Dir>, replica: nat, events: seq<Event>, i: nat)
    requires IsRun(run, replica, events) && replica > 0 && i < |run|
    ensures Good(run[i], replica)
    decreases i
  {
    if i > 0 {
      RunGood(run, replica, events, i - 1);
      NextGood(run[i - 1], replica, events[i - 1], run[i]);
    }
  }

  lemma StepGrows(run: seq<Dir>, replica: nat, events: seq<Event>, i: nat)
    requires IsRun(run, replica, events) && replica > 0 && i < |events|
    ensures Grows(run[i].nodes, run[i + 1].nodes)
  {
    RunGood(run, replica, events, i);
    NextGood(run[i], replica, events[i], run[i + 1]);
  }

  lemma {:induction false} GrowingKeeps(run: seq<Dir>, i: nat, j: nat, m: nat, id: nat)
    requires i <= j < |run| && Holds(run[i].nodes, m, id)
    requires forall k :: i <= k < j ==> Grows(run[k].nodes, run[k + 1].nodes)
    ensures Holds(run[j].nodes, m, id)
    decreases j
  {
    if i < j {
      GrowingKeeps(run, i, j - 1, m, id);
      assert Grows(run[j - 1].nodes, run[j - 1 + 1].nodes);
    }
  }

  /** A machine once listed for a block keeps having it for the rest of the run. */
  lemma RunKeeps(run: seq<Dir>, replica: nat, events: seq<Event>, i: nat, j: nat, m: nat, id: nat)
    requires IsRun(run, replica, events) && replica > 0 && i <= j < |run| && Holds(run[i].nodes, m, id)
    ensures Holds(run[j].nodes, m, id)
  {
    forall k | i <= k < j ensures Grows(run[k].nodes, run[k + 1].nodes) {
      StepGrows(run, replica, events, k);
    }
    GrowingKeeps(run, i, j, m, id);
  }

  // ---- What askBlock answers ----

  /** Every answer to a remote ask that names machines is truthful, as every message of a run is. */
  ghost predicate TrueAcks(nodes: map<nat, Store>, replica: nat, acks: seq<(nat, seq<nat>)>)
  {
    forall i :: 0 <= i < |acks| ==> acks[i].1 == [] || GoodList(nodes, replica, acks[i].0, acks[i].1)
  }

  lemma {:induction false} AcksGood(nodes: map<nat, Store>, replica: nat, s: Store, acks: seq<(nat, seq<nat>)>,
      s': Store)
    requires GoodStore(nodes, replica, s) && replica > 0 && TrueAcks(nodes, replica, acks)
    requires AcksTaken(s, replica, acks, s')
    ensures s'.disk == s.disk && s'.local == s.local && GoodStore(nodes, replica, s')
  {
    if acks != [] {
      var front, last := acks[..|acks| - 1], acks[|acks| - 1];
      var mid :| AcksTaken(s, replica, front, mid) && AckTaken(mid, replica, last, s');
      AcksGood(nodes, replica, s, front, mid);
      if last.1 != [] {
        AckGood(nodes, replica, mid, last.0, last.1, s');
      }
    }
  }

  /** Whatever askBlock answers on a node, that machine has the block; and the node's maps are in order afterwards. */
  lemma AnswersAreHolders(nodes: map<nat, Store>, replica: nat, me: nat, id: nat, alive: set<nat>,
      acks: seq<(nat, seq<nat>)>, s': Store, answer: Option<nat>)
    requires me in nodes && GoodStore(nodes, replica, nodes[me]) && replica > 0 && TrueAcks(nodes, replica, acks)
    requires Answered(nodes[me], replica, me, id, alive, acks, s', answer)
    ensures GoodStore(nodes, replica, s') && s'.disk == nodes[me].disk && s'.local == nodes[me].local
    ensures answer.Some? ==> Holds(nodes, answer.value, id)
  {
    var s := nodes[me];
    if id !in s.local {
      if id in s.remote {
        CheckGood(nodes, replica, s, id, alive);
        if id !in Checked(s, id, alive).remote {
          AcksGood(nodes, replica, Checked(s, id, alive), acks, s');
        }
      } else {
        AcksGood(nodes, replica, s, acks, s');
      }
      assert id in s'.remote ==> GoodList(nodes, replica, id, s'.remote[id]);
    }
  }
}

/** handleDoReplica with the choice of its candidates: how long the published list is. */
module Repairs {
  import opened Association
  import opened Picks
  import opened ReplicaLists
  import opened Resolvers
  import opened Sequences

  lemma {:induction false} AliveOf(list: seq<nat>, alive: set<nat>)
    requires NoDup(list)
    ensures var t := Alive(list, alive);
      && NoDup(t) && (forall y :: y in t <==> y in list && y in alive)
      && ((forall y :: y in list ==> y in alive) ==> t == list)
  {
    if list != [] {
      var front, last := list[..|list| - 1], list[|list| - 1];
      assert list == front + [last];
      AliveOf(front, alive);
    }
  }

  /**
   * The list that is published, when the loop has ended in a routing table that is not empty: the requested machines
   * and the candidates that acknowledged, each once. If all acknowledge it has exactly as many machines as wanted.
   */
  lemma FullRepair(replica: nat, order: seq<nat>, list: seq<nat>, rand: seq<nat>, acked: set<nat>)
    requires Ascending(list) && |list| <= replica && order != []
    requires Pick(replica, order, list, replica - |list|, [], rand).1
    ensures var picked := Pick(replica, order, list, replica - |list|, [], rand).0;
      var published := AddAll(replica, AddAll(replica, [], list), Alive(picked, acked));
      && (forall y :: y in published <==> y in list || (y in picked && y in acked))
      && |published| == |list| + |Alive(picked, acked)|
      && |picked| == replica - |list|
      && ((forall y :: y in picked ==> y in acked) ==> |published| == replica)
  {
    var picked := Pick(replica, order, list, replica - |list|, [], rand).0;
    PickSound(replica, order, list, replica - |list|, [], rand);
    AliveOf(picked, acked);
    DistinctCount(Alive(picked, acked));
    DistinctCount(picked);
    SubsetCount(ToSet(Alive(picked, acked)), ToSet(picked));
    RebuildFits(replica, list);
    AddAllFits(replica, AddAll(replica, [], list), Alive(picked, acked));
    AddAllKeeps(replica, AddAll(replica, [], list), Alive(picked, acked));
  }

  /**
   * handleDoReplica, with `order` the routing table and `rand` the random values; `done` is false if they do not
   * suffice.
   */
  method DoReplica(resolver: BlockResolver, id: nat, list: seq<nat>, order: seq<nat>, rand: seq<nat>, acked: set<nat>)
    returns (published: seq<nat>, done: bool)
    requires id in resolver.localIDs || id in resolver.remoteIDs
    requires Ascending(list) && |list| <= resolver.replica
    modifies resolver
    ensures done && order != [] ==>
              && (forall y :: y in list ==> y in published)
              && (forall y :: y in published ==> y in list || (y in order && y in acked))
              && ((forall y :: y in order && y !in list ==> y in acked) ==> |published| == resolver.replica)
    ensures done ==>
              if id in old(resolver.localIDs) then resolver.localIDs == old(resolver.localIDs)[id := published]
              else resolver.remoteIDs == old(resolver.remoteIDs)[id := published]
  {
    published := [];
    var candidate;
    candidate, done := PickMachineBesideList(resolver.replica, order, list, resolver.replica - |list|, rand);
    if done {
      PickSound(resolver.replica, order, list, resolver.replica - |list|, [], rand);
      published := resolver.HandleDoReplica(id, list, candidate, acked);
      if order != [] {
        FullRepair(resolver.replica, order, list, rand, acked);
      }
    }
  }
}
