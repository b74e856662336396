/** Replica lists: src/block/BlockLocationAttr.cpp. */
module ReplicaLists {
  import opened Sequences

  /** Strictly ascending, so sorted and without repetition. */
  ghost predicate Ascending(s: seq<nat>) { forall i, j :: 0 <= i < j < |s| ==> s[i] < s[j] }

  function Insert(x: nat, s: seq<nat>): seq<nat>
  {
    if s == [] || x <= s[0] then [x] + s else [s[0]] + Insert(x, s[1..])
  }

  /** std::sort. */
  function Sorted(s: seq<nat>): seq<nat>
  {
    if s == [] then [] else Insert(s[0], Sorted(s[1..]))
  }

  lemma {:induction false} InsertKeeps(x: nat, s: seq<nat>)
    requires forall i, j :: 0 <= i < j < |s| ==> s[i] <= s[j]
    ensures var t := Insert(x, s);
      && |t| == |s| + 1 && (forall y :: y in t <==> y == x || y in s)
      && (forall i, j :: 0 <= i < j < |t| ==> t[i] <= t[j])
      && multiset(t) == multiset{x} + multiset(s)
  {
    if s != [] && x > s[0] {
      assert s == [s[0]] + s[1..];
      InsertKeeps(x, s[1..]);
      var t := Insert(x, s[1..]);
      forall k | 0 <= k < |t| ensures s[0] <= t[k] {
        assert t[k] in t;
      }
    }
  }

  lemma {:induction false} SortedKeeps(s: seq<nat>)
    ensures var t := Sorted(s);
      && |t| == |s| && (forall y :: y in t <==> y in s)
      && (forall i, j :: 0 <= i < j < |t| ==> t[i] <= t[j])
      && multiset(t) == multiset(s)
  {
    if s != [] {
      assert s == [s[0]] + s[1..];
      SortedKeeps(s[1..]);
      InsertKeeps(s[0], Sorted(s[1..]));
    }
  }

  /** Without repetition before, strictly ascending after. */
  lemma SortedAscending(s: seq<nat>)
    requires NoDup(s)
    ensures Ascending(Sorted(s))
  {
    SortedKeeps(s);
    var t := Sorted(s);
    forall i, j | 0 <= i < j < |t| ensures t[i] < t[j] {
      if t[i] == t[j] {
        assert t[i] in s;
        assert t == t[..j] + [t[j]] + t[j + 1..];
        assert multiset(t)[t[i]] >= 2 by {
          assert t[i] in multiset(t[..j]) by { assert t[..j][i] == t[i]; }
          assert multiset(t) == multiset(t[..j]) + multiset{t[j]} + multiset(t[j + 1..]);
        }
        OnceOnly(s, t[i]);
        assert false;
      }
    }
  }

  lemma {:induction false} OnceOnly(s: seq<nat>, x: nat)
    requires NoDup(s)
    ensures multiset(s)[x] <= 1
  {
    if s != [] {
      assert s == [s[0]] + s[1..];
      assert NoDup(s[1..]) by {
        assert forall i :: 0 <= i < |s[1..]| ==> s[1..][i] == s[i + 1];
      }
      OnceOnly(s[1..], x);
      if x == s[0] {
        assert x !in s[1..];
      }
    }
  }

  /** BlockLocationAttr::addMachine on a list of at most `replica` machines. */
  function AddTo(replica: nat, list: seq<nat>, m: nat): seq<nat>
  {
    if |list| >= replica || m in list then list else Sorted(list + [m])
  }

  lemma AddToNone(replica: nat, m: nat)
    ensures AddTo(replica, [], m) == if replica > 0 then [m] else []
  {
    assert [] + [m] == [m] && [m][1..] == [];
    assert Sorted([]) == [];
  }

  /** Adding one machine after another. */
  function AddAll(replica: nat, list: seq<nat>, ms: seq<nat>): seq<nat>
    decreases ms
  {
    if ms == [] then list else AddAll(replica, AddTo(replica, list, ms[0]), ms[1..])
  }

  /** An ascending, bounded list stays so; it gains exactly the new machine when there is room for it. */
  lemma AddToKeeps(replica: nat, list: seq<nat>, m: nat)
    requires Ascending(list) && |list| <= replica
    ensures var t := AddTo(replica, list, m);
      && Ascending(t) && |t| <= replica
      && (forall y :: y in t <==> y in list || (y == m && (|list| < replica)))
      && (|list| < replica && m !in list ==> |t| == |list| + 1)
      && (|list| > 0 || replica > 0 ==> |t| > 0)
  {
    if |list| < replica && m !in list {
      SortedKeeps(list + [m]);
      SortedAscending(list + [m]);
      assert forall y :: y in list + [m] <==> y in list || y == m;
    }
  }

  lemma {:induction false} AddAllKeeps(replica: nat, list: seq<nat>, ms: seq<nat>)
    requires Ascending(list) && |list| <= replica
    ensures var t := AddAll(replica, list, ms);
      && Ascending(t) && |t| <= replica
      && (forall y :: y in t ==> y in list || y in ms)
      && (forall y :: y in list ==> y in t)
      && (list != [] || (replica > 0 && ms != []) ==> t != [])
    decreases ms
  {
    if ms != [] {
      AddToKeeps(replica, list, ms[0]);
      AddAllKeeps(replica, AddTo(replica, list, ms[0]), ms[1..]);
      assert forall y :: y in ms <==> y == ms[0] || y in ms[1..];
    }
  }

  lemma {:induction false} AddAllAppend(replica: nat, list: seq<nat>, ms: seq<nat>, m: nat)
    ensures AddAll(replica, list, ms + [m]) == AddTo(replica, AddAll(replica, list, ms), m)
    decreases ms
  {
    if ms == [] {
      assert ms + [m] == [m] && [m][1..] == [];
    } else {
      assert (ms + [m])[1..] == ms[1..] + [m];
      AddAllAppend(replica, AddTo(replica, list, ms[0]), ms[1..], m);
    }
  }

  /** While there is room, every new machine gets in. */
  lemma {:induction false} AddAllFits(replica: nat, list: seq<nat>, ms: seq<nat>)
    requires Ascending(list) && NoDup(ms) && (forall y :: y in ms ==> y !in list) && |list| + |ms| <= replica
    ensures |AddAll(replica, list, ms)| == |list| + |ms| && forall y :: y in ms ==> y in AddAll(replica, list, ms)
    decreases ms
  {
    if ms != [] {
      var rest := ms[1..];
      AddToKeeps(replica, list, ms[0]);
      assert forall i :: 0 <= i < |rest| ==> rest[i] == ms[i + 1];
      assert forall y :: y in ms <==> y == ms[0] || y in rest;
      AddAllFits(replica, AddTo(replica, list, ms[0]), rest);
      AddAllKeeps(replica, AddTo(replica, list, ms[0]), rest);
    }
  }

  /** A list that is full, or that has every machine already, stays as it is. */
  lemma {:induction false} AddAllFull(replica: nat, list: seq<nat>, ms: seq<nat>)
    requires |list| >= replica || forall y :: y in ms ==> y in list
    ensures AddAll(replica, list, ms) == list
    decreases ms
  {
    if ms != [] {
      assert ms[0] in ms && forall y :: y in ms[1..] ==> y in ms;
      AddAllFull(replica, list, ms[1..]);
    }
  }

  /** What a list grows to has as many of all the machines, old and new, as there is room for. */
  lemma {:induction false} AddAllSize(replica: nat, list: seq<nat>, ms: seq<nat>)
    requires Ascending(list) && |list| <= replica
    ensures var all := ToSet(list) + ToSet(ms);
      |AddAll(replica, list, ms)| == if |all| <= replica then |all| else replica
    decreases ms
  {
    var all := ToSet(list) + ToSet(ms);
    DistinctCount(list);
    if ms == [] {
      assert all == ToSet(list);
    } else if |list| >= replica {
      AddAllFull(replica, list, ms);
      SubsetCount(ToSet(list), all);
    } else {
      var next := AddTo(replica, list, ms[0]);
      AddToKeeps(replica, list, ms[0]);
      OneTaken(list, ms, next);
      AddAllSize(replica, next, ms[1..]);
    }
  }

  lemma OneTaken(list: seq<nat>, ms: seq<nat>, next: seq<nat>)
    requires ms != [] && forall y :: y in next <==> y in list || y == ms[0]
    ensures ToSet(next) + ToSet(ms[1..]) == ToSet(list) + ToSet(ms)
  {
    assert forall y :: y in ms <==> y == ms[0] || y in ms[1..];
  }

  /** And they are all of them when all fit. */
  lemma AddAllCount(replica: nat, list: seq<nat>, ms: seq<nat>)
    requires Ascending(list) && |list| <= replica
    ensures var all, t := ToSet(list) + ToSet(ms), AddAll(replica, list, ms);
      && Ascending(t) && ToSet(list) <= ToSet(t) <= all
      && |t| == (if |all| <= replica then |all| else replica)
      && (|all| <= replica ==> ToSet(t) == all)
  {
    var all, t := ToSet(list) + ToSet(ms), AddAll(replica, list, ms);
    AddAllKeeps(replica, list, ms);
    AddAllSize(replica, list, ms);
    DistinctCount(t);
    if |all| <= replica {
      SameCount(ToSet(t), all);
    }
  }

  lemma SameCount<T>(a: set<T>, b: set<T>)
    requires a <= b && |a| == |b|
    ensures a == b
  {
    assert b == a + (b - a);
  }

  /** Machines get in by their order: a new one at `k` exactly while those before it leave room. */
  lemma {:induction false} AddAllOrder(replica: nat, list: seq<nat>, ms: seq<nat>, k: nat)
    requires Ascending(list) && |list| <= replica && k < |ms| && ms[k] !in list && ms[k] !in ms[..k]
    ensures ms[k] in AddAll(replica, list, ms) <==> |ToSet(list) + ToSet(ms[..k])| < replica
  {
    var front, mid := ms[..k], AddAll(replica, list, ms[..k]);
    AddAllCount(replica, list, front);
    AddAllJoin(replica, list, front, ms[k..]);
    assert ms == front + ms[k..];
    AddToKeeps(replica, mid, ms[k]);
    assert ms[k..] == [ms[k]] + ms[k + 1..];
    AddAllKeeps(replica, AddTo(replica, mid, ms[k]), ms[k + 1..]);
    AddAllKeeps(replica, list, front);
    if |mid| >= replica {
      AddAllFull(replica, mid, ms[k..]);
    }
  }

  lemma {:induction false} AddAllJoin(replica: nat, list: seq<nat>, a: seq<nat>, b: seq<nat>)
    ensures AddAll(replica, list, a + b) == AddAll(replica, AddAll(replica, list, a), b)
    decreases a
  {
    if a == [] {
      assert a + b == b;
    } else {
      assert (a + b)[1..] == a[1..] + b;
      AddAllJoin(replica, AddTo(replica, list, a[0]), a[1..], b);
    }
  }

  /** An ascending list that fits is rebuilt by adding its machines to an empty one. */
  lemma RebuildFits(replica: nat, list: seq<nat>)
    requires Ascending(list) && |list| <= replica
    ensures Ascending(AddAll(replica, [], list)) && |AddAll(replica, [], list)| == |list|
    ensures forall y :: y in AddAll(replica, [], list) <==> y in list
  {
    AddAllKeeps(replica, [], list);
    AddAllFits(replica, [], list);
  }

  /** The part of `list` whose machines are in `alive`, in order. */
  function Alive(list: seq<nat>, alive: set<nat>): seq<nat>
  {
    if list == [] then []
    else
      var front := Alive(list[..|list| - 1], alive);
      if list[|list| - 1] in alive then front + [list[|list| - 1]] else front
  }

  lemma {:induction false} AliveKeeps(list: seq<nat>, alive: set<nat>)
    requires Ascending(list)
    ensures var t := Alive(list, alive);
      Ascending(t) && |t| <= |list| && (forall y :: y in t <==> y in list && y in alive)
  {
    if list != [] {
      var front, last := list[..|list| - 1], list[|list| - 1];
      AliveKeeps(front, alive);
      assert list == front + [last];
      var kept := Alive(front, alive);
      forall i | 0 <= i < |kept| ensures kept[i] < last {
        assert kept[i] in front;
      }
    }
  }

  class BlockLocationAttr {
    const block: nat
    const replica: nat          // Block::blockReplica
    var machine: seq<nat>

    constructor (block: nat, replica: nat)
      ensures this.block == block && this.replica == replica && machine == []
    {
      this.block, this.replica, machine := block, replica, [];
    }

    method AddMachine(m: nat) returns (added: bool)
      modifies this
      ensures machine == AddTo(replica, old(machine), m)
      ensures added == (|old(machine)| < replica && m !in old(machine))
    {
      if |machine| >= replica {
        return false;
      }
      var i := 0;
      while i < |machine|
        invariant 0 <= i <= |machine| && m !in machine[..i] && machine == old(machine)
      {
        if m == machine[i] {
          return false;
        }
        i := i + 1;
      }
      assert machine[..i] == machine;
      machine := Sorted(machine + [m]);
      added := true;
    }

    /** removeMachine, started on the last machine instead of one past it, and ended below the first. */
    method RemoveMachine(m: nat)
      modifies this
      ensures m !in machine && forall y :: y != m ==> (y in machine <==> y in old(machine))
      ensures machine == Alive(old(machine), Others(old(machine), m))
    {
      ghost var others := Others(machine, m);
      var i := |machine|;
      assert machine[..i] == machine;
      while i > 0
        invariant 0 <= i <= |old(machine)| && i <= |machine|
        invariant machine == old(machine)[..i] + machine[i..]
        invariant Alive(old(machine), others) == Alive(old(machine)[..i], others) + machine[i..]
      {
        i := i - 1;
        assert old(machine)[..i + 1][..i] == old(machine)[..i];
        if m == machine[i] {
          machine := machine[..i] + machine[i + 1..];
        }
      }
      AliveElems(old(machine), others);
    }

    method ReplaceMachine(m1: nat, m2: nat) returns (succ: bool)
      modifies this
      ensures succ == (m1 in old(machine))
      ensures machine == Sorted(seq(|old(machine)|, i requires 0 <= i < |old(machine)| =>
                                  if old(machine)[i] == m1 then m2 else old(machine)[i]))
    {
      succ := false;
      var i := 0;
      while i < |machine|
        invariant 0 <= i <= |machine| == |old(machine)| && succ == (m1 in old(machine)[..i])
        invariant forall j :: 0 <= j < i ==> machine[j] == if old(machine)[j] == m1 then m2 else old(machine)[j]
        invariant forall j :: i <= j < |machine| ==> machine[j] == old(machine)[j]
      {
        if m1 == machine[i] {
          machine := machine[i := m2];
          succ := true;
        }
        i := i + 1;
      }
      assert machine == seq(|old(machine)|, i requires 0 <= i < |old(machine)| =>
                              if old(machine)[i] == m1 then m2 else old(machine)[i]);
      machine := Sorted(machine);
    }
  }

  ghost function Others(list: seq<nat>, m: nat): set<nat> { set y | y in list && y != m }

  lemma {:induction false} AliveElems(list: seq<nat>, alive: set<nat>)
    ensures forall y :: y in Alive(list, alive) <==> y in list && y in alive
  {
    if list != [] {
      AliveElems(list[..|list| - 1], alive);
      assert list == list[..|list| - 1] + [list[|list| - 1]];
    }
  }
}
