/** HashList::remove as it is written: its walk along the bucket never moves, include/file/HashList.tpp:51-75. */
module StuckWalk {
  import opened Association

  /** `Fault` is the use of a null pointer, `Turning` a loop that has not ended yet. */
  datatype Outcome<K, V> = Fault | Turning | Done(found: bool, bucket: seq<(K, V)>)

  /** The loop: `pos` is the second item and stays so. */
  function Walk<K(==), V>(bucket: seq<(K, V)>, key: K, turns: nat): Outcome<K, V>
    requires bucket != []
  {
    if |bucket| == 1 then Done(false, bucket)
    else if turns == 0 then Turning
    else if bucket[1].0 == key then Done(true, bucket[..1] + bucket[2..])
    else Walk(bucket, key, turns - 1)
  }

  function Remove<K(==), V>(bucket: seq<(K, V)>, key: K, turns: nat): Outcome<K, V>
  {
    if bucket == [] then Fault
    else if bucket[0].0 == key then Done(true, bucket[1..])
    else Walk(bucket, key, turns)
  }

  /** What the bucket needs for the removal to return. */
  predicate Returns<K(==), V>(bucket: seq<(K, V)>, key: K)
  {
    bucket != [] && (bucket[0].0 == key || |bucket| == 1 || bucket[1].0 == key)
  }

  lemma {:induction false} WalkTurns<K, V>(bucket: seq<(K, V)>, key: K, turns: nat)
    requires |bucket| > 1 && bucket[1].0 != key
    ensures Walk(bucket, key, turns) == Turning
    decreases turns
  {
    if turns > 0 {
      WalkTurns(bucket, key, turns - 1);
    }
  }

  /** The third of three items is never removed, and an empty bucket is not looked at without harm. */
  lemma ThirdItemStays()
    ensures forall turns :: Remove([(1, 0), (2, 0), (3, 0)], 3, turns) == Turning
    ensures Remove<int, int>([], 3, 0) == Fault
  {
    var bucket := [(1, 0), (2, 0), (3, 0)];
    forall turns ensures Remove(bucket, 3, turns) == Turning {
      WalkTurns(bucket, 3, turns);
    }
  }

  /** It returns exactly when the key is in the first two places, or the bucket has one item; and then it is right. */
  lemma RemoveReturnsIff<K(!new), V(!new)>(bucket: seq<(K, V)>, key: K)
    ensures (exists turns :: Remove(bucket, key, turns).Done?) <==> Returns(bucket, key)
    ensures forall turns :: Remove(bucket, key, turns).Done? ==>
              Remove(bucket, key, turns) == Done(Lookup(bucket, key).Some?, Drop(bucket, key))
  {
    if Returns(bucket, key) {
      assert Remove(bucket, key, 1).Done?;
    } else if bucket != [] {
      forall turns ensures Remove(bucket, key, turns) == Turning {
        WalkTurns(bucket, key, turns);
      }
    }
    forall turns | Remove(bucket, key, turns).Done?
      ensures Remove(bucket, key, turns) == Done(Lookup(bucket, key).Some?, Drop(bucket, key))
    {
      assert bucket != [];
      if bucket[0].0 != key {
        if |bucket| == 1 {
          assert bucket[1..] == [] && [bucket[0]] + bucket[1..] == bucket;
        } else {
          if bucket[1].0 != key {
            WalkTurns(bucket, key, turns);
          }
          assert bucket[1..][0] == bucket[1] && bucket[1..][1..] == bucket[2..] && bucket[..1] == [bucket[0]];
        }
      }
    }
  }
}

/** The length loops of Socket::send and Socket::receive as written: every turn asks for 8 bytes again. */
module LengthLoops {
  import opened Association
  import opened Bytes
  import opened Messages
  import opened Sockets

  /** How many bytes move when the calls return `counts`, one after another, until 8 have moved. */
  function Moved(counts: seq<nat>, sofar: nat): nat
    decreases counts
  {
    if sofar >= 8 || counts == [] then sofar else Moved(counts[1..], sofar + counts[0])
  }

  function Total(counts: seq<nat>): nat { if counts == [] then 0 else counts[0] + Total(counts[1..]) }

  /** Each call moves something, at most the 8 bytes it is asked for; and together they are enough. */
  ghost predicate Partial(counts: seq<nat>) { Positive(counts) && Total(counts) >= 8 }

  ghost predicate Positive(counts: seq<nat>) { forall i :: 0 <= i < |counts| ==> 0 < counts[i] <= 8 }

  /** Some of the transfers, from the first on, come to `n` bytes together. */
  ghost predicate Reaches(counts: seq<nat>, n: int) { exists k :: 0 <= k <= |counts| && Total(counts[..k]) == n }

  /** Without the first transfer. */
  lemma ReachesNext(counts: seq<nat>, n: int)
    requires counts != []
    ensures Reaches(counts, n) <==> n == 0 || Reaches(counts[1..], n - counts[0])
  {
    if Reaches(counts, n) && n != 0 {
      var k :| 0 <= k <= |counts| && Total(counts[..k]) == n;
      assert counts[..k][1..] == counts[1..][..k - 1];
    }
    if Reaches(counts[1..], n - counts[0]) {
      var k :| 0 <= k <= |counts| - 1 && Total(counts[1..][..k]) == n - counts[0];
      assert counts[..k + 1][1..] == counts[1..][..k];
    }
    assert counts[..0] == [];
  }

  /** The loop ends with exactly 8 bytes moved when some of the transfers come to that, and otherwise with more. */
  lemma {:induction false} MovedIs(counts: seq<nat>, sofar: nat)
    requires sofar <= 8 && Positive(counts) && sofar + Total(counts) >= 8
    ensures 8 <= Moved(counts, sofar) < 16
    ensures Moved(counts, sofar) == 8 <==> Reaches(counts, 8 - sofar)
    decreases counts
  {
    if sofar == 8 {
      assert counts[..0] == [];
    } else {
      ReachesNext(counts, 8 - sofar);
      if sofar + counts[0] <= 8 {
        MovedIs(counts[1..], sofar + counts[0]);
      } else {
        NothingNegative(counts[1..], 8 - sofar - counts[0]);
      }
    }
  }

  lemma NothingNegative(counts: seq<nat>, n: int)
    requires n < 0
    ensures !Reaches(counts, n)
  {
  }

  /** What goes out for a message: the calls read on into the memory `behind` the length. */
  function SentFor(m: Fields, behind: seq<byte>, counts: seq<nat>): seq<byte>
    requires |behind| >= 8
  {
    var n := Moved(counts, 0);
    (LE(|Serialized(m)|, 8) + behind)[..if n <= 16 then n else 16] + Serialized(m)
  }

  /**
   * What receive makes of a stream: the length is right, but the message is looked for behind what the loop took;
   * then what is left of the stream.
   */
  function ReceivedFrom(stream: seq<byte>, counts: seq<nat>): Option<(Fields, seq<byte>)>
  {
    var n := Moved(counts, 0);
    if n < 8 || |stream| < n then None
    else
      var l := FromLE(stream[..8]);
      if |stream| - n < l || l < HEADER then None
      else Some((Parsed(stream[n..n + l]).value, stream[n + l..]))
  }

  lemma SentBytes(m: Fields, behind: seq<byte>, counts: seq<nat>, rest: seq<byte>)
    requires |behind| >= 8 && 8 <= Moved(counts, 0) <= 16
    ensures var sent := SentFor(m, behind, counts) + rest;
      && sent[..8] == LE(|Serialized(m)|, 8) && |sent| == Moved(counts, 0) + |Serialized(m)| + |rest|
      && (Moved(counts, 0) == 8 ==> sent == Framed(m) + rest)
  {
    var len := LE(|Serialized(m)|, 8);
    assert (len + behind)[..8] == len;
    assert (len + behind)[..Moved(counts, 0)][..8] == len;
  }

  /**
   * A message that is sent is the message at the front of the stream, with nothing else, exactly when no transfer
   * overshoots.
   */
  lemma SendFramesIff(m: Fields, behind: seq<byte>, counts: seq<nat>, rest: seq<byte>)
    requires Sendable(m) && |behind| >= 8 && Partial(counts)
    ensures Unframed(SentFor(m, behind, counts) + rest) == Some((m, rest)) <==> Reaches(counts, 8)
  {
    MovedIs(counts, 0);
    SentBytes(m, behind, counts, rest);
    LEFits(|Serialized(m)|, 8);
    UnframedFramed(m, rest);
  }

  /** And the message at the front is received exactly then. */
  lemma ReceiveFramesIff(m: Fields, counts: seq<nat>, rest: seq<byte>)
    requires Sendable(m) && Partial(counts)
    ensures ReceivedFrom(Framed(m) + rest, counts) == Some((m, rest)) <==> Reaches(counts, 8)
  {
    var stream, l := Framed(m) + rest, |Serialized(m)|;
    MovedIs(counts, 0);
    UnframedFramed(m, rest);
    LEFits(l, 8);
    assert stream[..8] == LE(l, 8);
    assert Reaches(counts, 8) ==> ReceivedFrom(stream, counts) == Unframed(stream);
  }

  /** Four bytes and then eight: four on the stream that do not belong there. */
  lemma HalfAndFull(m: Fields, behind: seq<byte>, rest: seq<byte>)
    requires Sendable(m) && |behind| >= 8
    ensures SentFor(m, behind, [4, 8]) == LE(|Serialized(m)|, 8) + behind[..4] + Serialized(m)
    ensures Unframed(SentFor(m, behind, [4, 8]) + rest) != Some((m, rest))
    ensures ReceivedFrom(Framed(m) + rest, [4, 8]) != Some((m, rest))
  {
    var len := LE(|Serialized(m)|, 8);
    assert [4, 8][1..] == [8] && [8][1..] == [];
    assert Moved([4, 8], 0) == Moved([8], 4) == Moved([], 12) == 12;
    assert (len + behind)[..12] == len + behind[..4];
    MovedIs([4, 8], 0);
    SendFramesIff(m, behind, [4, 8], rest);
    ReceiveFramesIff(m, [4, 8], rest);
  }
}

/** Router::broadcast as written: sendTo may erase the row that the iterator stands on. */
module LostIterator {
  import opened RouteTables
  import opened RouterSpec

  /** `Fault` is a step from an erased row, with the IDs that a message had been sent to by then, in order. */
  datatype Outcome = Fault(sent: seq<nat>, table: map<nat, Route>) | Done(sent: seq<nat>, table: map<nat, Route>)

  /** sendTo, where the addresses of `up` accept connections. */
  function Sent(id: nat, up: set<Ip>, table: map<nat, Route>): (bool, map<nat, Route>)
  {
    if id !in table then (false, table)
    else if table[id].ip !in up then (false, table - {id})
    else (true, table)
  }

  /** The loop, with the rows `rows` still to come; src/network/Router.cpp:327-352. */
  function Broadcast(rows: seq<Row>, up: set<Ip>, sent: seq<nat>, table: map<nat, Route>): Outcome
    decreases |rows|
  {
    if rows == [] then Done(sent, table)
    else
      var (ok, left) := Sent(rows[0].id, up, table);
      var sent' := if ok then sent + [rows[0].id] else sent;
      if rows[0].id !in left then Fault(sent', left) else Broadcast(rows[1..], up, sent', left)
  }

  function IDs(rows: seq<Row>): seq<nat> { seq(|rows|, i requires 0 <= i < |rows| => rows[i].id) }

  /** The rows are those of the table, whatever has become of the table's other rows. */
  ghost predicate InTable(rows: seq<Row>, table: map<nat, Route>)
  {
    forall i :: 0 <= i < |rows| ==> rows[i].id in table && table[rows[i].id].ip == rows[i].ip
  }

  /** All rows ahead of the first unreachable one are sent to; that one is erased, and the rest is never reached. */
  lemma {:induction false} FaultsAt(rows: seq<Row>, up: set<Ip>, sent: seq<nat>, table: map<nat, Route>, k: nat)
    requires InTable(rows, table) && k < |rows| && rows[k].ip !in up && forall i :: 0 <= i < k ==> rows[i].ip in up
    ensures Broadcast(rows, up, sent, table) == Fault(sent + IDs(rows)[..k], table - {rows[k].id})
    decreases k
  {
    if k > 0 {
      FaultsAt(rows[1..], up, sent + [rows[0].id], table, k - 1);
      assert sent + [rows[0].id] + IDs(rows[1..])[..k - 1] == sent + IDs(rows)[..k];
    } else {
      assert sent + IDs(rows)[..0] == sent;
    }
  }

  lemma {:induction false} AllSent(rows: seq<Row>, up: set<Ip>, sent: seq<nat>, table: map<nat, Route>)
    requires InTable(rows, table) && forall i :: 0 <= i < |rows| ==> rows[i].ip in up
    ensures Broadcast(rows, up, sent, table) == Done(sent + IDs(rows), table)
    decreases |rows|
  {
    if rows == [] {
      assert sent + IDs(rows) == sent;
    } else {
      AllSent(rows[1..], up, sent + [rows[0].id], table);
      assert sent + [rows[0].id] + IDs(rows[1..]) == sent + IDs(rows);
    }
  }

  lemma FirstDown(rows: seq<Row>, up: set<Ip>, i: nat) returns (k: nat)
    requires i < |rows| && rows[i].ip !in up
    ensures k < |rows| && rows[k].ip !in up && forall j :: 0 <= j < k ==> rows[j].ip in up
  {
    k := 0;
    while rows[k].ip in up
      invariant k <= i && forall j :: 0 <= j < k ==> rows[j].ip in up
      decreases i - k
    {
      k := k + 1;
    }
  }

  /**
   * In whatever order the map keeps its rows: broadcast ends, and has sent to every machine of the table, exactly
   * when the addresses of all of them are up. With any other table it steps from an erased row.
   */
  lemma BroadcastIff(rows: seq<Row>, table: map<nat, Route>, up: set<Ip>)
    requires Lists(rows, table)
    ensures var r := Broadcast(rows, up, [], table);
      && (r.Done? <==> forall id :: id in table ==> table[id].ip in up)
      && (r.Done? ==> r.table == table && forall id :: id in r.sent <==> id in table)
      && (r.Fault? ==> exists id :: id in table && table[id].ip !in up && id !in r.table)
  {
    assert InTable(rows, table);
    if id :| id in table && table[id].ip !in up {
      assert HasID(rows, id);
      var row :| row in rows && row.id == id;
      var i :| 0 <= i < |rows| && rows[i] == row;
      var k := FirstDown(rows, up, i);
      FaultsAt(rows, up, [], table, k);
    } else {
      AllSent(rows, up, [], table);
      forall id ensures id in [] + IDs(rows) <==> id in table {
        if id in table {
          assert HasID(rows, id);
          var row :| row in rows && row.id == id;
          var i :| 0 <= i < |rows| && rows[i] == row;
          assert IDs(rows)[i] == id;
        }
      }
    }
  }

  /** One unreachable machine ahead of another: the loop faults, and the other one, which is up, is sent nothing. */
  lemma OneDown(a: Ip, b: Ip)
    requires a != b
    ensures var rows, table := [Row(1, a, 1), Row(2, b, 1)], map[1 := Route(a, 1), 2 := Route(b, 1)];
      Broadcast(rows, {b}, [], table) == Fault([], table - {1})
  {
    var rows, table := [Row(1, a, 1), Row(2, b, 1)], map[1 := Route(a, 1), 2 := Route(b, 1)];
    FaultsAt(rows, {b}, [], table, 0);
    assert [] + IDs(rows)[..0] == [];
  }
}

/** BlockLocationAttr::removeMachine as written: it starts one past the last machine, and its test is always true. */
module EndlessLoop {
  /** One past the largest index, which is unsigned. */
  const INDICES: nat := 0x1_0000_0000_0000_0000

  /** `Fault` is a read past the end of the list. */
  datatype Outcome = Fault | Running | Ended(list: seq<nat>)

  /** The loop at index `i`, after at most `turns` turns; src/block/BlockLocationAttr.cpp:25-29. */
  function Loop(list: seq<nat>, m: nat, i: int, turns: nat): Outcome
    decreases turns
  {
    if turns == 0 then Running
    else if !(i >= 0) then Ended(list)
    else if i >= |list| then Fault
    else Loop(if m == list[i] then list[..i] + list[i + 1..] else list, m, (i - 1) % INDICES, turns - 1)
  }

  function RemoveMachine(list: seq<nat>, m: nat, turns: nat): Outcome { Loop(list, m, |list|, turns) }

  /** It faults at its first turn, for every list and every machine. */
  lemma RemoveFaults(list: seq<nat>, m: nat, turns: nat)
    requires turns > 0
    ensures RemoveMachine(list, m, turns) == Fault
  {
  }

  /** And started anywhere else it faults too, as it steps below 0: mending the start alone would not help. */
  lemma {:induction false} AnyStartFaults(list: seq<nat>, m: nat, i: nat, turns: nat)
    requires |list| < INDICES - 1 && i < INDICES && turns > i + 1
    ensures Loop(list, m, i, turns) == Fault
    decreases i
  {
    if i < |list| {
      var list' := if m == list[i] then list[..i] + list[i + 1..] else list;
      if i > 0 {
        AnyStartFaults(list', m, i - 1, turns - 1);
      } else {
        assert (i - 1) % INDICES == INDICES - 1;
      }
    }
  }
}

/** The delete handlers as written: they copy sizeof(Block) bytes out of a message with an 8-byte ID. */
module WideCopies {
  import opened Bytes

  /** `Fault` is a read past the end of the message, or a write past the end of the 8-byte variable. */
  datatype Outcome = Fault | Deletes(id: nat)

  /** memcpy of `width` bytes to an ID whose bytes were `before`; src/block/BlockManager.cpp:232-236 and 254-258. */
  function Handle(data: seq<byte>, before: seq<byte>, width: nat): Outcome
    requires |before| == 8
  {
    if width > 8 || width > |data| then Fault else Deletes(FromLE(data[..width] + before[width..]))
  }

  /** A Block has the ID and a pointer, and a pointer is not empty: the copy faults for every message. */
  lemma WideFaults(data: seq<byte>, before: seq<byte>, pointer: nat)
    requires |before| == 8 && pointer > 0
    ensures Handle(data, before, 8 + pointer) == Fault
  {
  }

  /** The handlers delete what they are told to, for every ID, exactly when they copy the 8 bytes that an ID has. */
  lemma DeletesIff(width: nat)
    ensures width == 8 <==> forall id: nat, before: seq<byte> ::
      id < Pow256(8) && |before| == 8 ==> Handle(LE(id, 8), before, width) == Deletes(id)
  {
    Widths();
    if width == 8 {
      forall id: nat, before: seq<byte> | id < Pow256(8) && |before| == 8
        ensures Handle(LE(id, 8), before, width) == Deletes(id)
      {
        LEFits(id, 8);
        assert LE(id, 8)[..8] + before[8..] == LE(id, 8);
      }
    } else {
      ShortCopy(width);
    }
  }

  /** Fewer bytes leave a rest of what was there before. */
  lemma ShortCopy(width: nat)
    requires width != 8
    ensures exists id: nat, before: seq<byte> ::
      id < Pow256(8) && |before| == 8 && Handle(LE(id, 8), before, width) != Deletes(id)
  {
    Widths();
    if width > 8 {
      var id, before := 0, LE(0, 8);
      assert Handle(LE(id, 8), before, width) == Fault;
    } else {
      var id, before: seq<byte> := 0, seq(8, _ => 1);
      TopByteCounts(LE(id, 8)[..width] + before[width..]);
      assert Handle(LE(id, 8), before, width) != Deletes(id);
    }
  }
}
