/** One node's block directory: src/block/BlockResolver.cpp, as functions on values and as methods. */
module ResolverSpec {
  import opened Association
  import opened ReplicaLists
  import opened Sequences

  const REMOTE_SIZE_MAX: nat := 1000

  /** `disk` is the set of block files; the maps give each known block's list of machines. */
  datatype Store = Store(disk: set<nat>, local: map<nat, seq<nat>>, remote: map<nat, seq<nat>>)

  /** forceAddLocalID on the node `me`. */
  function ForceLocal(s: Store, replica: nat, me: nat, id: nat): Store
  {
    s.(local := s.local[id := AddTo(replica, [], me)], remote := s.remote - {id})
  }

  /** BlockSaver::saveBlock of a block with an ID: the file, then the registration. */
  function Saved(s: Store, replica: nat, me: nat, id: nat): Store
  {
    ForceLocal(s.(disk := s.disk + {id}), replica, me, id)
  }

  /** cleanCache: five entries leave the cache. */
  ghost predicate Cleaned(remote: map<nat, seq<nat>>, remote': map<nat, seq<nat>>)
  {
    exists out: set<nat> :: out <= remote.Keys && |out| == 5 && remote' == remote - out
  }

  /** handleRequestBlockLocationACK for a block and a non-empty list of machines. */
  ghost predicate AckHandled(s: Store, replica: nat, id: nat, list: seq<nat>, s': Store)
  {
    if id in s.remote then s' == s.(remote := s.remote[id := AddAll(replica, s.remote[id], list)])
    else exists kept :: Room(s.remote, kept) && s' == s.(remote := kept[id := AddAll(replica, [], list)])
  }

  /** The cache before a new entry goes in: cleaned when it is full. */
  ghost predicate Room(remote: map<nat, seq<nat>>, kept: map<nat, seq<nat>>)
  {
    if |remote| >= REMOTE_SIZE_MAX then Cleaned(remote, kept) else kept == remote
  }

  /** One answer to a remote ask; a list without machines changes nothing. */
  ghost predicate AckTaken(s: Store, replica: nat, ack: (nat, seq<nat>), s': Store)
  {
    if ack.1 == [] then s' == s else AckHandled(s, replica, ack.0, ack.1, s')
  }

  /** Answers, one after another. */
  ghost predicate AcksTaken(s: Store, replica: nat, acks: seq<(nat, seq<nat>)>, s': Store)
  {
    if acks == [] then s' == s
    else
      var front, last := acks[..|acks| - 1], acks[|acks| - 1];
      exists mid :: AcksTaken(s, replica, front, mid) && AckTaken(mid, replica, last, s')
  }

  /** handleUpdateReplica: the received list replaces what the maps hold for the block. */
  function UpdateHandled(s: Store, id: nat, list: seq<nat>): Store
  {
    s.(local := if id in s.local then s.local[id := list] else s.local,
       remote := if id in s.remote then s.remote[id := list] else s.remote)
  }

  /** checkReplica on a cached block, when `alive` are the machines that answer for it. */
  function Checked(s: Store, id: nat, alive: set<nat>): Store
    requires id in s.remote
  {
    var list := Alive(s.remote[id], alive);
    s.(remote := if list == [] then s.remote - {id} else s.remote[id := list])
  }

  /** The DoReplica request that checkReplica sends to the first machine left. */
  function CheckRequest(s: Store, replica: nat, id: nat, alive: set<nat>): Option<seq<nat>>
    requires id in s.remote
  {
    var list := Alive(s.remote[id], alive);
    if list != [] && (|s.remote[id]| < replica || list != s.remote[id]) then Some(list) else None
  }

  /** What askBlock does to the maps of a node that has not the block itself. */
  ghost predicate AskedAround(s: Store, replica: nat, id: nat, alive: set<nat>, acks: seq<(nat, seq<nat>)>, s': Store)
  {
    if id in s.remote then
      var checked := Checked(s, id, alive);
      if id in checked.remote then s' == checked else AcksTaken(checked, replica, acks, s')
    else AcksTaken(s, replica, acks, s')
  }

  /** And what it answers on the node `me`: that node, or a machine of the entry that is there in the end. */
  ghost predicate Answered(s: Store, replica: nat, me: nat, id: nat, alive: set<nat>, acks: seq<(nat, seq<nat>)>,
      s': Store,
      answer: Option<nat>)
  {
    if id in s.local then s' == s && answer == Some(me)
    else
      && AskedAround(s, replica, id, alive, acks, s')
      && match answer
         case None => id !in s'.remote
         case Some(m) => id in s'.remote && m in s'.remote[id]
  }

  /** The machines of a cached entry. */
  function MachinesOf(remote: map<nat, seq<nat>>, id: nat): set<nat>
  {
    if id in remote then ToSet(remote[id]) else {}
  }

  /** The machines that answers name for a block. */
  function NamedFor(acks: seq<(nat, seq<nat>)>, id: nat): set<nat>
  {
    set i, m | 0 <= i < |acks| && acks[i].0 == id && m in acks[i].1 :: m
  }

  /** No entry for `id` has to leave while the answers are taken: the cache does not fill, or all are for `id`. */
  ghost predicate Stays(remote: map<nat, seq<nat>>, acks: seq<(nat, seq<nat>)>, id: nat)
  {
    |remote| + |acks| <= REMOTE_SIZE_MAX || forall i :: 0 <= i < |acks| && acks[i].1 != [] ==> acks[i].0 == id
  }

  /** `now` has `had` and as many machines of `all` as `replica` allows. */
  ghost predicate FilledUp(replica: nat, had: set<nat>, all: set<nat>, now: set<nat>)
  {
    had <= now <= all && |now| == if |all| <= replica then |all| else replica
  }

  /** The entry that handleDoReplica works on: the local one when there is one. */
  function SetEntry(s: Store, id: nat, list: seq<nat>): Store
  {
    if id in s.local then s.(local := s.local[id := list])
    else if id in s.remote then s.(remote := s.remote[id := list])
    else s
  }

  lemma MapMinus<V>(r: map<nat, V>, out: set<nat>)
    ensures |r - out| <= |r|
    ensures out <= r.Keys ==> |r - out| == |r| - |out|
  {
    assert (r - out).Keys == r.Keys - out;
    assert |(r - out).Keys| == |r - out| && |r.Keys| == |r|;
    SubsetCount(r.Keys - out, r.Keys);
    if out <= r.Keys {
      assert r.Keys == (r.Keys - out) + out;
    }
  }

  lemma BindingSize<V>(m: map<nat, V>, k: nat, v: V)
    ensures |m[k := v]| == if k in m then |m| else |m| + 1
  {
    assert m[k := v].Keys == m.Keys + {k};
    assert |m[k := v].Keys| == |m[k := v]| && |m.Keys| == |m|;
  }
}

module Resolvers {
  import opened Association
  import opened ReplicaLists
  import opened ResolverSpec
  import opened Sequences

  class BlockResolver {
    const replica: nat
    const machineID: nat
    var disk: set<nat>
    var localIDs: map<nat, seq<nat>>
    var remoteIDs: map<nat, seq<nat>>

    ghost function View(): Store
      reads this
    {
      Store(disk, localIDs, remoteIDs)
    }

    constructor (replica: nat, machineID: nat)
      ensures this.replica == replica && this.machineID == machineID && View() == Store({}, map[], map[])
    {
      this.replica, this.machineID, disk, localIDs, remoteIDs := replica, machineID, {}, map[], map[];
    }

    method ForceAddLocalID(id: nat)
      modifies this
      ensures View() == ForceLocal(old(View()), replica, machineID, id)
      ensures disk == old(disk) && remoteIDs == old(remoteIDs) - {id}
      ensures localIDs == old(localIDs)[id := if replica > 0 then [machineID] else []]
    {
      var attr := new BlockLocationAttr(id, replica);
      var added := attr.AddMachine(machineID);
      AddToNone(replica, machineID);
      localIDs := localIDs[id := attr.machine];
      remoteIDs := remoteIDs - {id};
    }

    method ForceAddRemoteID(m: nat, id: nat)
      modifies `remoteIDs
      ensures remoteIDs == old(remoteIDs)[id := AddTo(replica, [], m)]
    {
      var attr := new BlockLocationAttr(id, replica);
      var added := attr.AddMachine(m);
      remoteIDs := remoteIDs[id := attr.machine];
    }

    /** cleanCache, of whatever five entries come first. */
    method CleanCache()
      requires |remoteIDs| >= 5
      modifies `remoteIDs
      ensures Cleaned(old(remoteIDs), remoteIDs)
      ensures |remoteIDs| == |old(remoteIDs)| - 5
    {
      var i := 0;
      ghost var out: set<nat> := {};
      while i < 5
        invariant 0 <= i <= 5 && |out| == i && out <= old(remoteIDs).Keys
        invariant remoteIDs == old(remoteIDs) - out
        invariant |remoteIDs| == |old(remoteIDs)| - i
      {
        assert |remoteIDs.Keys| == |remoteIDs|;
        var first :| first in remoteIDs.Keys;
        assert (remoteIDs - {first}).Keys == remoteIDs.Keys - {first};
        remoteIDs, out, i := remoteIDs - {first}, out + {first}, i + 1;
        assert |remoteIDs.Keys| == |remoteIDs|;
      }
    }

    /** Adding machines one by one to one entry's list. */
    method AddMachines(list: seq<nat>, ms: seq<nat>) returns (out: seq<nat>)
      ensures out == AddAll(replica, list, ms)
    {
      var attr := new BlockLocationAttr(0, replica);
      attr.machine := list;
      var i := 0;
      while i < |ms|
        invariant 0 <= i <= |ms| && fresh(attr) && attr.replica == replica
        invariant AddAll(replica, attr.machine, ms[i..]) == AddAll(replica, list, ms)
      {
        assert ms[i..][0] == ms[i] && ms[i..][1..] == ms[i + 1..];
        var added := attr.AddMachine(ms[i]);
        i := i + 1;
      }
      out := attr.machine;
    }

    method HandleRequestBlockLocationACK(id: nat, list: seq<nat>)
      modifies this
      ensures list == [] ==> View() == old(View())
      ensures list != [] ==> AckHandled(old(View()), replica, id, list, View())
      ensures disk == old(disk) && localIDs == old(localIDs)
      ensures list != [] ==> id in remoteIDs
      ensures list != [] && Shaped(old(remoteIDs), replica) ==>
                var had := MachinesOf(old(remoteIDs), id);
                Ascending(remoteIDs[id]) && FilledUp(replica, had, had + ToSet(list), ToSet(remoteIDs[id]))
      ensures id in old(remoteIDs) || |old(remoteIDs)| < REMOTE_SIZE_MAX ==>
                remoteIDs - {id} == old(remoteIDs) - {id}
      ensures list != [] && id !in old(remoteIDs) && |old(remoteIDs)| >= REMOTE_SIZE_MAX ==>
                && |old(remoteIDs).Keys - remoteIDs.Keys| == 5
                && forall k :: k in remoteIDs && k != id ==> k in old(remoteIDs) && remoteIDs[k] == old(remoteIDs)[k]
    {
      if list == [] {
        return;
      }
      ghost var before := View();
      if id in remoteIDs {
        var out := AddMachines(remoteIDs[id], list);
        remoteIDs := remoteIDs[id := out];
      } else {
        if |remoteIDs| >= REMOTE_SIZE_MAX {
          CleanCache();
        }
        ghost var kept := remoteIDs;
        assert Room(old(remoteIDs), kept);
        ForceAddRemoteID(list[0], id);
        var out := AddMachines(remoteIDs[id], list[1..]);
        remoteIDs := remoteIDs[id := out];
        assert remoteIDs == kept[id := AddAll(replica, [], list)];
      }
      AckLeaves(before, replica, id, list, View());
      if Shaped(before.remote, replica) {
        AckTells(before, replica, id, list, View());
      }
    }

    method HandleUpdateReplica(id: nat, mids: seq<nat>)
      modifies this
      ensures View() == UpdateHandled(old(View()), id, mids)
      ensures disk == old(disk)
      ensures localIDs == if id in old(localIDs) then old(localIDs)[id := mids] else old(localIDs)
      ensures remoteIDs == if id in old(remoteIDs) then old(remoteIDs)[id := mids] else old(remoteIDs)
    {
      if id in localIDs {
        localIDs := localIDs[id := mids];
      }
      if id in remoteIDs {
        remoteIDs := remoteIDs[id := mids];
      }
    }

    /** checkReplica: `alive` are the machines whose answer comes back true. The request goes to the first one left. */
    method CheckReplica(id: nat, alive: set<nat>) returns (ok: bool, request: Option<seq<nat>>)
      requires id in remoteIDs
      modifies this
      ensures View() == Checked(old(View()), id, alive)
      ensures ok == (Alive(old(remoteIDs)[id], alive) != [])
      ensures request == CheckRequest(old(View()), replica, id, alive)
      ensures disk == old(disk) && localIDs == old(localIDs) && remoteIDs - {id} == old(remoteIDs) - {id}
      ensures var list, kept := old(remoteIDs)[id], MachinesOf(old(remoteIDs), id) * alive;
        && MachinesOf(remoteIDs, id) == kept && (ok <==> kept != {}) && (id in remoteIDs <==> ok)
        && (request.Some? <==> kept != {} && (|list| < replica || kept != ToSet(list)))
        && (request.Some? ==> ToSet(request.value) == kept && request.value == remoteIDs[id])
        && (request.Some? && Ascending(list) ==> Ascending(request.value))
    {
      var machine := remoteIDs[id];
      ghost var list := machine;
      var requestReplica := replica > |machine|;
      var i := |machine|;
      assert list[..i] == list;
      while i > 0
        invariant 0 <= i <= |list| && i <= |machine| && machine[..i] == list[..i]
        invariant Alive(list, alive) == Alive(list[..i], alive) + machine[i..]
        invariant requestReplica == (replica > |list| || |machine| < |list|)
        invariant |machine| <= |list|
      {
        i := i - 1;
        assert list[..i + 1][..i] == list[..i] && machine[i] == list[i];
        if machine[i] !in alive {
          requestReplica := true;
          machine := machine[..i] + machine[i + 1..];
        }
      }
      assert machine == Alive(list, alive);
      AliveShorter(list, alive);
      CheckTells(View(), replica, id, alive);
      if |machine| == 0 {
        remoteIDs := remoteIDs - {id};
        return false, None;
      }
      remoteIDs := remoteIDs[id := machine];
      ok, request := true, if requestReplica then Some(machine) else None;
    }

    /** Its loop over the candidates. */
    method AddAcked(wanted: seq<nat>, candidate: seq<nat>, acked: set<nat>) returns (out: seq<nat>)
      ensures out == AddAll(replica, wanted, Alive(candidate, acked))
    {
      var attr := new BlockLocationAttr(0, replica);
      attr.machine := wanted;
      var i := 0;
      while i < |candidate|
        invariant 0 <= i <= |candidate| && fresh(attr) && attr.replica == replica
        invariant attr.machine == AddAll(replica, wanted, Alive(candidate[..i], acked))
      {
        assert candidate[..i + 1][..i] == candidate[..i];
        if candidate[i] in acked {
          AddAllAppend(replica, wanted, Alive(candidate[..i], acked), candidate[i]);
          var added := attr.AddMachine(candidate[i]);
        }
        i := i + 1;
      }
      assert candidate[..i] == candidate;
      out := attr.machine;
    }

    /**
     * handleDoReplica on an entry of this node: the requested list, and the candidates of `acked` that have copied
     * the block. What it ends with is broadcast.
     */
    method HandleDoReplica(id: nat, list: seq<nat>, candidate: seq<nat>, acked: set<nat>) returns (published: seq<nat>)
      requires id in localIDs || id in remoteIDs
      modifies this
      ensures published == AddAll(replica, AddAll(replica, [], list), Alive(candidate, acked))
      ensures View() == SetEntry(old(View()), id, published)
      ensures disk == old(disk)
      ensures id in old(localIDs) ==> localIDs == old(localIDs)[id := published] && remoteIDs == old(remoteIDs)
      ensures id !in old(localIDs) ==> localIDs == old(localIDs) && remoteIDs == old(remoteIDs)[id := published]
    {
      var wanted := AddMachines([], list);
      published := AddAcked(wanted, candidate, acked);
      if id in localIDs {
        localIDs := localIDs[id := published];
      } else {
        remoteIDs := remoteIDs[id := published];
      }
    }

    /** askRemoteBlock: whatever answers come in while it waits are taken, and then it looks. */
    method AskRemoteBlock(id: nat, acks: seq<(nat, seq<nat>)>) returns (found: Option<seq<nat>>)
      requires replica > 0 && Shaped(remoteIDs, replica)
      modifies this
      ensures Shaped(remoteIDs, replica) && AcksTaken(old(View()), replica, acks, View())
      ensures found == if id in remoteIDs then Some(remoteIDs[id]) else None
      ensures disk == old(disk) && localIDs == old(localIDs)
      ensures var had := MachinesOf(old(remoteIDs), id);
        && MachinesOf(remoteIDs, id) <= had + NamedFor(acks, id)
        && (Stays(old(remoteIDs), acks, id) ==>
              FilledUp(replica, had, had + NamedFor(acks, id), MachinesOf(remoteIDs, id)))
    {
      var i := 0;
      assert acks[..0] == [];
      while i < |acks|
        invariant 0 <= i <= |acks| && Shaped(remoteIDs, replica) && AcksTaken(old(View()), replica, acks[..i], View())
        invariant disk == old(disk) && localIDs == old(localIDs)
      {
        ghost var before := View();
        HandleRequestBlockLocationACK(acks[i].0, acks[i].1);
        OneMoreAck(old(View()), replica, acks, i, before, View());
        if acks[i].1 != [] {
          AckShaped(before, replica, acks[i].0, acks[i].1, View());
        }
        i := i + 1;
      }
      assert acks[..i] == acks;
      AcksTell(old(View()), replica, acks, id, View());
      found := if id in remoteIDs then Some(remoteIDs[id]) else None;
    }

    /**
     * askBlock. A cached entry is checked every time, for the interval is 0; `alive` are the machines that answer
     * that, `acks` the answers to a remote ask, `mems` what machines report of their memory.
     */
    method AskBlock(id: nat, alive: set<nat>, acks: seq<(nat, seq<nat>)>, mems: map<nat, int>)
        returns (answer: Option<nat>, request: Option<seq<nat>>)
      requires replica > 0 && Shaped(remoteIDs, replica)
      modifies this
      ensures Shaped(remoteIDs, replica) && Answered(old(View()), replica, machineID, id, alive, acks, View(), answer)
      ensures request == if id in old(localIDs) || id !in old(remoteIDs) then None
                         else CheckRequest(old(View()), replica, id, alive)
      ensures disk == old(disk) && localIDs == old(localIDs)
      ensures id in old(localIDs) ==> answer == Some(machineID) && request == None && remoteIDs == old(remoteIDs)
      ensures var had := MachinesOf(old(remoteIDs), id);
        var kept, named, now := had * alive, NamedFor(acks, id), MachinesOf(remoteIDs, id);
        id !in old(localIDs) ==>
          && (kept != {} ==> now == kept && remoteIDs - {id} == old(remoteIDs) - {id})
          && (kept == {} ==> now <= named)
          && (kept == {} && Stays(old(remoteIDs), acks, id) ==>
                FilledUp(replica, {}, named, now) && (answer == None <==> named == {}))
          && (answer.Some? <==> now != {})
          && (answer.Some? ==> id in remoteIDs && Chosen(remoteIDs[id], mems, answer.value))
          && (request.Some? <==> 0 < |kept| < replica)
          && (request.Some? ==> ToSet(request.value) == kept && Ascending(request.value))
    {
      ghost var before := View();
      request := None;
      if id in localIDs {
        return Some(machineID), None;
      }
      var tmp: Option<seq<nat>>;
      if id in remoteIDs {
        CheckShaped(View(), replica, id, alive);
        RequestIff(View(), replica, id, alive);
        var ok;
        ok, request := CheckReplica(id, alive);
        if ok {
          tmp := Some(remoteIDs[id]);
        } else {
          tmp := AskRemoteBlock(id, acks);
        }
      } else {
        tmp := AskRemoteBlock(id, acks);
      }
      if tmp.None? {
        AskTells(before, replica, machineID, id, alive, acks, View(), None);
        return None, request;
      }
      var m := ChooseReplica(tmp.value, mems);
      answer := Some(m);
      AskTells(before, replica, machineID, id, alive, acks, View(), answer);
    }

    /**
     * chooseReplica: the first machine with the most free memory among those that report any, else the first of all.
     */
    method ChooseReplica(list: seq<nat>, mems: map<nat, int>) returns (m: nat)
      requires list != []
      ensures Chosen(list, mems, m)
    {
      var maxmem, a := 0, 0;
      var i := 0;
      while i < |list|
        invariant 0 <= i <= |list| && 0 <= a < |list| && maxmem >= 0
        invariant forall j :: 0 <= j < i ==> Mem(mems, list[j]) <= maxmem
        invariant if maxmem == 0 then a == 0
                  else a < i && Mem(mems, list[a]) == maxmem && forall j :: 0 <= j < a ==> Mem(mems, list[j]) < maxmem
      {
        if list[i] in mems && mems[list[i]] > maxmem {
          maxmem, a := mems[list[i]], i;
        }
        i := i + 1;
      }
      m := list[a];
    }
  }

  /** What every cached list is like. */
  ghost predicate Shaped(remote: map<nat, seq<nat>>, replica: nat)
  {
    forall id :: id in remote ==> remote[id] != [] && Ascending(remote[id]) && |remote[id]| <= replica
  }

  lemma OneMoreAck(s: Store, replica: nat, acks: seq<(nat, seq<nat>)>, i: nat, mid: Store, s': Store)
    requires i < |acks| && AcksTaken(s, replica, acks[..i], mid) && AckTaken(mid, replica, acks[i], s')
    ensures AcksTaken(s, replica, acks[..i + 1], s')
  {
    assert acks[..i + 1][..i] == acks[..i];
  }

  lemma AckShaped(s: Store, replica: nat, id: nat, list: seq<nat>, s': Store)
    requires replica > 0 && list != [] && Shaped(s.remote, replica) && AckHandled(s, replica, id, list, s')
    ensures Shaped(s'.remote, replica)
  {
    if id in s.remote {
      AddAllKeeps(replica, s.remote[id], list);
    } else {
      AddAllKeeps(replica, [], list);
    }
  }

  /** An answer with machines: their block is cached, with all of them that there is room for. */
  lemma AckTells(s: Store, replica: nat, id: nat, list: seq<nat>, s': Store)
    requires list != [] && AckHandled(s, replica, id, list, s')
    requires id in s.remote ==> Ascending(s.remote[id]) && |s.remote[id]| <= replica
    ensures id in s'.remote && Ascending(s'.remote[id])
    ensures var had := MachinesOf(s.remote, id);
      FilledUp(replica, had, had + ToSet(list), ToSet(s'.remote[id]))
  {
    var had := if id in s.remote then s.remote[id] else [];
    assert ToSet(had) == MachinesOf(s.remote, id);
    AddAllCount(replica, had, list);
    DistinctCount(s'.remote[id]);
  }

  /** No other entry changes; five leave when the block is new and the cache was full. */
  lemma AckLeaves(s: Store, replica: nat, id: nat, list: seq<nat>, s': Store)
    requires AckHandled(s, replica, id, list, s')
    ensures id in s.remote || |s.remote| < REMOTE_SIZE_MAX ==> s'.remote - {id} == s.remote - {id}
    ensures id !in s.remote && |s.remote| >= REMOTE_SIZE_MAX ==>
      && |s.remote.Keys - s'.remote.Keys| == 5
      && forall k :: k in s'.remote && k != id ==> k in s.remote && s'.remote[k] == s.remote[k]
  {
    if id in s.remote {
      RebindMinus(s.remote, id, AddAll(replica, s.remote[id], list));
    } else {
      var kept :| Room(s.remote, kept) && s' == s.(remote := kept[id := AddAll(replica, [], list)]);
      if |s.remote| < REMOTE_SIZE_MAX {
        RebindMinus(s.remote, id, AddAll(replica, [], list));
      } else {
        FiveLeave(s.remote, kept, id, AddAll(replica, [], list));
      }
    }
  }

  lemma RebindMinus<V>(r: map<nat, V>, id: nat, v: V)
    ensures r[id := v] - {id} == r - {id}
  {
  }

  lemma FiveLeave(remote: map<nat, seq<nat>>, kept: map<nat, seq<nat>>, id: nat, list: seq<nat>)
    requires Cleaned(remote, kept) && id !in remote
    ensures |remote.Keys - kept[id := list].Keys| == 5
    ensures forall k :: k in kept ==> k in remote && kept[k] == remote[k]
  {
    var out: set<nat> :| out <= remote.Keys && |out| == 5 && kept == remote - out;
    assert kept[id := list].Keys == (remote.Keys - out) + {id};
    LeftOut(remote.Keys, out, id);
  }

  lemma LeftOut<T>(keys: set<T>, out: set<T>, k: T)
    requires out <= keys && k !in keys
    ensures keys - ((keys - out) + {k}) == out
  {
  }

  /** What a machine takes of answers one after another, when they leave the entry where it is. */
  lemma {:induction false} AcksTell(s: Store, replica: nat, acks: seq<(nat, seq<nat>)>, id: nat, s': Store)
    requires replica > 0 && Shaped(s.remote, replica) && AcksTaken(s, replica, acks, s')
    ensures Shaped(s'.remote, replica) && |s'.remote| <= |s.remote| + |acks|
    ensures MachinesOf(s'.remote, id) <= MachinesOf(s.remote, id) + NamedFor(acks, id)
    ensures var had := MachinesOf(s.remote, id);
      Stays(s.remote, acks, id) ==>
        FilledUp(replica, had, had + NamedFor(acks, id), MachinesOf(s'.remote, id))
  {
    if acks == [] {
      NoneNamed(s, replica, id);
    } else {
      var front, last := acks[..|acks| - 1], acks[|acks| - 1];
      var mid :| AcksTaken(s, replica, front, mid) && AckTaken(mid, replica, last, s');
      AcksTell(s, replica, front, id, mid);
      NamedSnoc(acks, id);
      AckStep(mid, replica, last, id, s');
      if Stays(s.remote, acks, id) {
        StaysFront(s.remote, acks, id, |mid.remote|);
        FilledStep(replica, MachinesOf(s.remote, id), NamedFor(front, id), MachinesOf(mid.remote, id),
                   NamedBy(last, id), MachinesOf(s'.remote, id));
      }
    }
  }

  lemma StaysFront(remote: map<nat, seq<nat>>, acks: seq<(nat, seq<nat>)>, id: nat, size: nat)
    requires acks != [] && Stays(remote, acks, id) && size <= |remote| + |acks| - 1
    ensures Stays(remote, acks[..|acks| - 1], id)
    ensures var last := acks[|acks| - 1]; last.1 == [] || last.0 == id || size < REMOTE_SIZE_MAX
  {
  }

  function NamedBy(ack: (nat, seq<nat>), id: nat): set<nat> { if ack.0 == id then ToSet(ack.1) else {} }

  lemma CachedHasSome(remote: map<nat, seq<nat>>, replica: nat, id: nat)
    requires Shaped(remote, replica)
    ensures id in remote <==> MachinesOf(remote, id) != {}
  {
    if id in remote {
      assert remote[id][0] in MachinesOf(remote, id);
    }
  }

  lemma NoneNamed(s: Store, replica: nat, id: nat)
    requires Shaped(s.remote, replica)
    ensures var had := MachinesOf(s.remote, id); FilledUp(replica, had, had + NamedFor([], id), had)
  {
    var had := MachinesOf(s.remote, id);
    assert had + NamedFor([], id) == had;
    if id in s.remote {
      DistinctCount(s.remote[id]);
    }
  }

  lemma NamedSnoc(acks: seq<(nat, seq<nat>)>, id: nat)
    requires acks != []
    ensures NamedFor(acks, id) == NamedFor(acks[..|acks| - 1], id) + NamedBy(acks[|acks| - 1], id)
  {
    var front, last := acks[..|acks| - 1], acks[|acks| - 1];
    forall m | m in NamedFor(acks, id) ensures m in NamedFor(front, id) + NamedBy(last, id) {
      var i :| 0 <= i < |acks| && acks[i].0 == id && m in acks[i].1;
      assert i < |front| ==> front[i] == acks[i];
    }
    forall m | m in NamedFor(front, id) ensures m in NamedFor(acks, id) {
      var i :| 0 <= i < |front| && front[i].0 == id && m in front[i].1;
      assert acks[i] == front[i];
    }
  }

  /** One answer; the entry for `id` stays unless it is for another block and the cache is full. */
  lemma AckStep(s: Store, replica: nat, ack: (nat, seq<nat>), id: nat, s': Store)
    requires replica > 0 && Shaped(s.remote, replica) && AckTaken(s, replica, ack, s')
    ensures Shaped(s'.remote, replica) && |s'.remote| <= |s.remote| + 1
    ensures var had, now := MachinesOf(s.remote, id), MachinesOf(s'.remote, id);
      && now <= had + NamedBy(ack, id)
      && (ack.1 == [] || ack.0 == id || |s.remote| < REMOTE_SIZE_MAX ==>
            FilledUp(replica, had, had + NamedBy(ack, id), now))
  {
    if ack.1 == [] {
      NoneNamed(s, replica, id);
      assert MachinesOf(s.remote, id) + NamedBy(ack, id) == MachinesOf(s.remote, id) + NamedFor([], id);
    } else {
      AckShaped(s, replica, ack.0, ack.1, s');
      AckSize(s, replica, ack.0, ack.1, s');
      AckTells(s, replica, ack.0, ack.1, s');
      AckLeaves(s, replica, ack.0, ack.1, s');
      if ack.0 != id {
        OtherKeeps(s.remote, s'.remote, ack.0, id);
        NoneNamed(s, replica, id);
        assert MachinesOf(s.remote, id) + NamedBy(ack, id) == MachinesOf(s.remote, id) + NamedFor([], id);
      }
    }
  }

  lemma OtherKeeps(r: map<nat, seq<nat>>, r': map<nat, seq<nat>>, k: nat, id: nat)
    requires k != id
    ensures r' - {k} == r - {k} ==> MachinesOf(r', id) == MachinesOf(r, id)
  {
    assert id in r <==> id in r - {k};
    assert id in r' <==> id in r' - {k};
  }

  lemma AckSize(s: Store, replica: nat, id: nat, list: seq<nat>, s': Store)
    requires AckHandled(s, replica, id, list, s')
    ensures |s'.remote| <= |s.remote| + 1
  {
    if id in s.remote {
      BindingSize(s.remote, id, AddAll(replica, s.remote[id], list));
    } else {
      var kept :| Room(s.remote, kept) && s' == s.(remote := kept[id := AddAll(replica, [], list)]);
      BindingSize(kept, id, AddAll(replica, [], list));
      if |s.remote| >= REMOTE_SIZE_MAX {
        var out: set<nat> :| out <= s.remote.Keys && |out| == 5 && kept == s.remote - out;
        MapMinus(s.remote, out);
      }
    }
  }

  /** Filling up twice is filling up with both. */
  lemma FilledStep(replica: nat, had: set<nat>, a: set<nat>, mid: set<nat>, b: set<nat>, now: set<nat>)
    requires FilledUp(replica, had, had + a, mid) && FilledUp(replica, mid, mid + b, now)
    ensures FilledUp(replica, had, had + (a + b), now)
  {
    if |had + a| <= replica {
      SameCount(mid, had + a);
      assert mid + b == had + (a + b);
    } else {
      SubsetCount(mid, mid + b);
      SubsetCount(had + a, had + (a + b));
    }
  }

  /**
   * askBlock for a block that is not local: the living machines of its entry are kept, and one of them is the answer.
   * When there is none, it answers a machine that answers for the block name, and none exactly when they name none.
   */
  lemma AskTells(s: Store, replica: nat, me: nat, id: nat, alive: set<nat>, acks: seq<(nat, seq<nat>)>, s': Store,
      answer: Option<nat>)
    requires replica > 0 && Shaped(s.remote, replica) && id !in s.local
    requires Answered(s, replica, me, id, alive, acks, s', answer)
    ensures var kept, named, now := MachinesOf(s.remote, id) * alive, NamedFor(acks, id), MachinesOf(s'.remote, id);
      && Shaped(s'.remote, replica) && (answer.Some? <==> now != {}) && (answer.Some? ==> answer.value in now)
      && (kept != {} ==> now == kept && s'.remote - {id} == s.remote - {id})
      && (kept == {} ==> now <= named)
      && (kept == {} && Stays(s.remote, acks, id) ==> FilledUp(replica, {}, named, now) && (now == {} <==> named == {}))
  {
    if id in s.remote {
      CheckTells(s, replica, id, alive);
      CheckShaped(s, replica, id, alive);
      MapMinus(s.remote, {id});
      if id !in Checked(s, id, alive).remote {
        AcksFill(Checked(s, id, alive), replica, id, acks, s');
      }
    } else {
      AcksFill(s, replica, id, acks, s');
    }
    CachedHasSome(s'.remote, replica, id);
  }

  /** The answers alone, for a block that is not cached. */
  lemma AcksFill(s: Store, replica: nat, id: nat, acks: seq<(nat, seq<nat>)>, s': Store)
    requires replica > 0 && Shaped(s.remote, replica) && id !in s.remote && AcksTaken(s, replica, acks, s')
    ensures var named, now := NamedFor(acks, id), MachinesOf(s'.remote, id);
      && Shaped(s'.remote, replica) && now <= named
      && (Stays(s.remote, acks, id) ==> FilledUp(replica, {}, named, now) && (now == {} <==> named == {}))
  {
    AcksTell(s, replica, acks, id, s');
    assert {} + NamedFor(acks, id) == NamedFor(acks, id);
  }

  /**
   * A check leaves the machines that answered. It asks for copies exactly when some are left, and either they were
   * too few to begin with or some did not answer.
   */
  lemma CheckTells(s: Store, replica: nat, id: nat, alive: set<nat>)
    requires id in s.remote
    ensures var list, remote' := s.remote[id], Checked(s, id, alive).remote;
      var kept, request := MachinesOf(s.remote, id) * alive, CheckRequest(s, replica, id, alive);
      && MachinesOf(remote', id) == kept && (id in remote' <==> kept != {}) && remote' - {id} == s.remote - {id}
      && (request.Some? <==> kept != {} && (|list| < replica || kept != ToSet(list)))
      && (request.Some? ==> ToSet(request.value) == kept && id in remote' && request.value == remote'[id])
      && (Ascending(list) && id in remote' ==> Ascending(remote'[id]))
  {
    var list := s.remote[id];
    var left := Alive(list, alive);
    AliveElems(list, alive);
    AliveShorter(list, alive);
    AliveAll(list, alive);
    if Ascending(list) {
      AliveKeeps(list, alive);
    }
    assert ToSet(left) == ToSet(list) * alive;
    if m :| m in list && m !in alive {
      assert m in ToSet(list) && m !in ToSet(list) * alive;
    } else {
      assert ToSet(list) * alive == ToSet(list);
    }
    if left != [] {
      assert left[0] in ToSet(left);
      RebindMinus(s.remote, id, left);
    } else {
      assert ToSet(list) * alive == {};
      assert s.remote - {id} - {id} == s.remote - {id};
    }
  }

  /** A list that is in shape asks for copies exactly when some machines are left, and fewer than there should be. */
  lemma RequestIff(s: Store, replica: nat, id: nat, alive: set<nat>)
    requires id in s.remote && Ascending(s.remote[id]) && |s.remote[id]| <= replica
    ensures var kept, request := MachinesOf(s.remote, id) * alive, CheckRequest(s, replica, id, alive);
      && |kept| <= replica && (request.Some? <==> 0 < |kept| < replica)
      && (request.Some? ==> request.value != [] && Ascending(request.value) && ToSet(request.value) == kept)
  {
    var had := ToSet(s.remote[id]);
    CheckTells(s, replica, id, alive);
    DistinctCount(s.remote[id]);
    SubsetCount(had * alive, had);
    if |had * alive| == |had| {
      SameCount(had * alive, had);
    }
  }

  lemma {:induction false} AliveAll(list: seq<nat>, alive: set<nat>)
    ensures Alive(list, alive) == list <==> forall m :: m in list ==> m in alive
  {
    if list != [] {
      var front, last := list[..|list| - 1], list[|list| - 1];
      AliveAll(front, alive);
      AliveShorter(front, alive);
      assert list == front + [last];
      if last !in alive {
        assert last in list;
      } else if Alive(list, alive) == list {
        assert Alive(list, alive)[..|list| - 1] == Alive(front, alive);
      }
    }
  }

  lemma CheckShaped(s: Store, replica: nat, id: nat, alive: set<nat>)
    requires id in s.remote && Shaped(s.remote, replica)
    ensures Shaped(Checked(s, id, alive).remote, replica)
  {
    AliveKeeps(s.remote[id], alive);
  }

  /** `a` is the first position of the most free memory, and 0 when no machine reports any. */
  ghost predicate Roomiest(list: seq<nat>, mems: map<nat, int>, a: nat)
    requires a < |list|
  {
    && (forall i :: 0 <= i < |list| ==> Mem(mems, list[i]) <= 0 || Mem(mems, list[i]) <= Mem(mems, list[a]))
    && (a > 0 ==> Mem(mems, list[a]) > 0 && forall i :: 0 <= i < a ==> Mem(mems, list[i]) < Mem(mems, list[a]))
  }

  ghost predicate Chosen(list: seq<nat>, mems: map<nat, int>, m: nat)
  {
    exists a :: 0 <= a < |list| && m == list[a] && Roomiest(list, mems, a)
  }

  /** What a machine reports; one that does not answer counts as 0. */
  function Mem(mems: map<nat, int>, m: nat): int { if m in mems then mems[m] else 0 }

  lemma {:induction false} AliveShorter(list: seq<nat>, alive: set<nat>)
    ensures |Alive(list, alive)| <= |list| && (|Alive(list, alive)| == |list| ==> Alive(list, alive) == list)
  {
    if list != [] {
      AliveShorter(list[..|list| - 1], alive);
      assert list == list[..|list| - 1] + [list[|list| - 1]];
    }
  }
}
