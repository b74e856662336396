/** Router::pickMachineBesideList, src/network/Router.cpp:294-325, driven by a finite stream of rand() values. */
module Picks {
  import opened Sequences

  /**
   * The loop after `ret`, with `num` still to pick: `order` is the routing table's IDs in iteration order, each
   * value of `rand` is one turn. The second part of the result says whether the loop has ended.
   */
  function Pick(replica: nat, order: seq<nat>, list: seq<nat>, num: nat, ret: seq<nat>, rand: seq<nat>): (seq<nat>,
      bool)
    decreases rand
  {
    if order == [] then (ret, true)
    else if rand == [] then (ret, false)
    else
      var it := order[rand[0] % |order|];
      if num == 0 || num > replica then (ret, true)
      else if it in list || it in ret then Pick(replica, order, list, num, ret, rand[1..])
      else Pick(replica, order, list, num - 1, ret + [it], rand[1..])
  }

  method PickMachineBesideList(replica: nat, order: seq<nat>, list: seq<nat>, num: nat, rand: seq<nat>)
      returns (ret: seq<nat>, done: bool)
    ensures (ret, done) == Pick(replica, order, list, num, [], rand)
  {
    ret := [];
    if order == [] {
      return ret, true;
    }
    var left: nat, turn: nat := num, 0;
    while turn < |rand|
      invariant 0 <= turn <= |rand|
      invariant Pick(replica, order, list, left, ret, rand[turn..]) == Pick(replica, order, list, num, [], rand)
    {
      var j := rand[turn] % |order|;
      var it := order[j];
      assert rand[turn..][1..] == rand[turn + 1..] && rand[turn..][0] == rand[turn];
      turn := turn + 1;
      if left == 0 || left > replica {
        return ret, true;
      }
      var inList := false;
      var i := 0;
      while i < |list|
        invariant 0 <= i <= |list| && (inList <==> it in list[..i])
      {
        if list[i] == it {
          inList := true;
        }
        i := i + 1;
      }
      i := 0;
      while i < |ret|
        invariant 0 <= i <= |ret| && (inList <==> it in list || it in ret[..i])
      {
        if ret[i] == it {
          inList := true;
        }
        i := i + 1;
      }
      if !inList {
        ret := ret + [it];
        left := left - 1;
      }
    }
    done := false;
  }

  /** Machines of the table that are not in the list. */
  function Candidates(order: seq<nat>, list: seq<nat>): set<nat>
  {
    set m | m in order && m !in list
  }

  ghost predicate Sound(order: seq<nat>, list: seq<nat>, ret: seq<nat>)
  {
    NoDup(ret) && forall m :: m in ret ==> m in Candidates(order, list)
  }

  /** A loop that ends has picked exactly as many as asked: distinct members of the table, none from the list. */
  lemma {:induction false} PickSound(replica: nat, order: seq<nat>, list: seq<nat>, num: nat, ret: seq<nat>,
      rand: seq<nat>)
    requires Sound(order, list, ret)
    ensures var (picked, done) := Pick(replica, order, list, num, ret, rand);
      && Sound(order, list, picked)
      && (done && order != [] && num <= replica ==> |picked| == |ret| + num)
      && (done && (order == [] || num > replica) ==> picked == ret)
    decreases rand
  {
    if order != [] && rand != [] && 0 < num <= replica {
      var it := order[rand[0] % |order|];
      if it in list || it in ret {
        PickSound(replica, order, list, num, ret, rand[1..]);
      } else {
        PickSound(replica, order, list, num - 1, ret + [it], rand[1..]);
      }
    }
  }

  /** Fewer picked than there are candidates: one is left, somewhere in the table. */
  lemma CandidateLeft(order: seq<nat>, list: seq<nat>, ret: seq<nat>) returns (i: nat)
    requires Sound(order, list, ret) && |ret| < |Candidates(order, list)|
    ensures i < |order| && order[i] in Candidates(order, list) && order[i] !in ret
  {
    DistinctCount(ret);
    if Candidates(order, list) <= ToSet(ret) {
      SubsetCount(Candidates(order, list), ToSet(ret));
      assert false;
    }
    var m :| m in Candidates(order, list) && m !in ToSet(ret);
    i :| 0 <= i < |order| && order[i] == m;
  }

  lemma SmallMod(i: nat, n: nat)
    requires i < n
    ensures i % n == i
  {
  }

  /** With enough candidates left, some run of rand() ends the loop. */
  lemma {:induction false} PickCanEnd(replica: nat, order: seq<nat>, list: seq<nat>, num: nat, ret: seq<nat>)
      returns (rand: seq<nat>)
    requires order != [] && num <= replica && Sound(order, list, ret)
    requires |ret| + num <= |Candidates(order, list)|
    ensures Pick(replica, order, list, num, ret, rand).1
    decreases num
  {
    if num == 0 {
      rand := [0];
    } else {
      var i := CandidateLeft(order, list, ret);
      var rest := PickCanEnd(replica, order, list, num - 1, ret + [order[i]]);
      rand := [i] + rest;
      SmallMod(i, |order|);
      assert rand[1..] == rest;
    }
  }

  /** The loop can end exactly when there is nothing to look for, or there are enough candidates to find. */
  lemma PickEndsIff(replica: nat, order: seq<nat>, list: seq<nat>, num: nat)
    ensures (exists rand :: Pick(replica, order, list, num, [], rand).1) <==>
      (order == [] || num > replica || num <= |Candidates(order, list)|)
  {
    if order == [] {
      assert Pick(replica, order, list, num, [], []).1;
    } else if num > replica {
      assert Pick(replica, order, list, num, [], [0]).1;
    } else if num <= |Candidates(order, list)| {
      var rand := PickCanEnd(replica, order, list, num, []);
    } else {
      forall rand ensures !Pick(replica, order, list, num, [], rand).1 {
        PickSound(replica, order, list, num, [], rand);
        var picked := Pick(replica, order, list, num, [], rand).0;
        DistinctCount(picked);
        SubsetCount(ToSet(picked), Candidates(order, list));
      }
    }
  }
}
