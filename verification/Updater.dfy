/** Replica lists on the wire: src/block/BlockUpdater.cpp, and the loops that read such a message. */
module Payloads {
  import opened Association
  import opened Bytes
  import opened Messages

  function Machines(list: seq<nat>): seq<byte>
  {
    if list == [] then [] else LE(list[0], 4) + Machines(list[1..])
  }

  /** A block's ID and its machines, as DoReplica, UpdateReplica and the location answer carry them. */
  function Payload(id: nat, list: seq<nat>): seq<byte> { LE(id, 8) + Machines(list) }

  /** The read loop; None when it reads past the end of the message. */
  function MachinesIn(b: seq<byte>): Option<seq<nat>>
  {
    if b == [] then Some([])
    else if |b| < 4 then None
    else match MachinesIn(b[4..])
         case None => None
         case Some(rest) => Some([FromLE(b[..4])] + rest)
  }

  function Contents(data: seq<byte>): Option<(nat, seq<nat>)>
  {
    if |data| < 8 then None
    else match MachinesIn(data[8..])
         case None => None
         case Some(list) => Some((FromLE(data[..8]), list))
  }

  lemma {:induction false} MachinesReadBack(list: seq<nat>)
    requires forall m :: m in list ==> m < Pow256(4)
    ensures MachinesIn(Machines(list)) == Some(list)
  {
    if list != [] {
      var b := Machines(list);
      assert list[0] in list && forall m :: m in list[1..] ==> m in list;
      assert b[..4] == LE(list[0], 4) && b[4..] == Machines(list[1..]);
      LEFits(list[0], 4);
      MachinesReadBack(list[1..]);
      assert MachinesIn(b) == Some([list[0]] + list[1..]);
      assert [list[0]] + list[1..] == list;
    }
  }

  /** What is written is read. */
  lemma PayloadReadsBack(id: nat, list: seq<nat>)
    requires id < Pow256(8) && forall m :: m in list ==> m < Pow256(4)
    ensures Contents(Payload(id, list)) == Some((id, list))
  {
    var b := Payload(id, list);
    assert b[..8] == LE(id, 8) && b[8..] == Machines(list);
    LEFits(id, 8);
    MachinesReadBack(list);
  }

  lemma WordReadsBack(word: seq<byte>)
    requires |word| == 4
    ensures LE(FromLE(word), 4) == word && FromLE(word) < Pow256(4)
  {
    LEOfFromLE(word);
    FromLEBound(word);
  }

  lemma {:induction false} MachinesWriteBack(b: seq<byte>)
    requires MachinesIn(b).Some?
    ensures Machines(MachinesIn(b).value) == b
  {
    if b != [] {
      var word, rest := b[..4], MachinesIn(b[4..]).value;
      MachinesWriteBack(b[4..]);
      WordReadsBack(word);
      MachinesCons(FromLE(word), rest);
      assert b == word + b[4..];
    }
  }

  lemma {:induction false} MachinesAreWords(b: seq<byte>)
    requires MachinesIn(b).Some?
    ensures forall m :: m in MachinesIn(b).value ==> m < Pow256(4)
  {
    if b != [] {
      MachinesAreWords(b[4..]);
      WordReadsBack(b[..4]);
    }
  }

  lemma MachinesCons(m: nat, rest: seq<nat>)
    ensures Machines([m] + rest) == LE(m, 4) + Machines(rest)
  {
    assert ([m] + rest)[1..] == rest;
  }

  /**
   * And every message that can be read is the message of what it says: no two lists share one, and no message has two
   * readings.
   */
  lemma PayloadIff(data: seq<byte>, id: nat, list: seq<nat>)
    ensures Contents(data) == Some((id, list)) <==>
      data == Payload(id, list) && id < Pow256(8) && forall m :: m in list ==> m < Pow256(4)
  {
    if Contents(data) == Some((id, list)) {
      MachinesWriteBack(data[8..]);
      MachinesAreWords(data[8..]);
      LEOfFromLE(data[..8]);
      FromLEBound(data[..8]);
      assert data == data[..8] + data[8..];
    }
    if data == Payload(id, list) && id < Pow256(8) && forall m :: m in list ==> m < Pow256(4) {
      PayloadReadsBack(id, list);
    }
  }

  /** Where they are: eight bytes of ID, and four for each machine, in the order of the list. */
  lemma PayloadBytes(id: nat, list: seq<nat>)
    ensures var b := Payload(id, list);
      && |b| == 8 + 4 * |list| && Spells(b, 0, 8, id)
      && forall k {:trigger list[k]} :: 0 <= k < |list| ==> Spells(b, 8 + 4 * k, 4, list[k])
  {
    var b := Payload(id, list);
    MachinesSize(list);
    assert b[0..8] == LE(id, 8);
    WordSpells(b, 0, 8, id);
    forall k | 0 <= k < |list| ensures Spells(b, 8 + 4 * k, 4, list[k]) {
      MachineAt(list, k);
      assert b[8 + 4 * k..8 + 4 * k + 4] == Machines(list)[4 * k..4 * k + 4];
      WordSpells(b, 8 + 4 * k, 4, list[k]);
    }
  }

  lemma {:induction false} MachinesSize(list: seq<nat>)
    ensures |Machines(list)| == 4 * |list|
  {
    if list != [] {
      MachinesSize(list[1..]);
    }
  }

  lemma {:induction false} MachineAt(list: seq<nat>, k: nat)
    requires k < |list|
    ensures 4 * k + 4 <= |Machines(list)| && Machines(list)[4 * k..4 * k + 4] == LE(list[k], 4)
  {
    MachinesSize(list);
    var rest := Machines(list[1..]);
    assert Machines(list) == LE(list[0], 4) + rest;
    if k > 0 {
      MachineAt(list[1..], k - 1);
      assert Machines(list)[4 * k..4 * k + 4] == rest[4 * (k - 1)..4 * (k - 1) + 4];
    }
  }

  lemma {:induction false} MachinesAppend(list: seq<nat>, m: nat)
    ensures Machines(list + [m]) == Machines(list) + LE(m, 4)
  {
    if list == [] {
      assert [m][1..] == [] && list + [m] == [m];
    } else {
      assert (list + [m])[1..] == list[1..] + [m];
      MachinesAppend(list[1..], m);
    }
  }

  lemma PayloadNext(id: nat, list: seq<nat>, i: nat)
    requires i < |list|
    ensures Payload(id, list[..i]) + LE(list[i], 4) == Payload(id, list[..i + 1])
  {
    MachinesAppend(list[..i], list[i]);
    assert list[..i] + [list[i]] == list[..i + 1];
  }

  /** updateRemoteBlockInfo: the message, written at a running offset. */
  method UpdateRemoteBlockInfo(id: nat, machine: seq<nat>) returns (data: seq<byte>)
    ensures data == Payload(id, machine)
  {
    AddedWhere([], 0, LE(id, 8));
    data := Added([], 0, LE(id, 8));
    var off, i := 8, 0;
    while i < |machine|
      invariant 0 <= i <= |machine| && off == |data| && data == Payload(id, machine[..i])
    {
      PayloadNext(id, machine, i);
      AddedWhere(data, off, LE(machine[i], 4));
      data := Added(data, off, LE(machine[i], 4));
      off := off + 4;
      i := i + 1;
    }
    assert machine[..i] == machine;
  }

  /** The reading part of handleUpdateReplica, of a message that it does not read past. */
  method ReadUpdate(data: seq<byte>) returns (id: nat, mids: seq<nat>)
    requires Contents(data).Some?
    ensures Contents(data) == Some((id, mids))
  {
    id := FromLE(data[..8]);
    var off := 8;
    mids := [];
    ghost var all := MachinesIn(data[8..]).value;
    while off < |data|
      invariant 8 <= off <= |data| && MachinesIn(data[off..]).Some?
      invariant mids + MachinesIn(data[off..]).value == all
    {
      assert data[off..][4..] == data[off + 4..] && data[off..][..4] == data[off..off + 4];
      var mid := FromLE(data[off..off + 4]);
      off := off + 4;
      mids := mids + [mid];
    }
    assert data[off..] == [] && mids + [] == mids;
  }
}
