/** The routing table on the wire: src/network/Router.cpp:221-243 and 434-449. */
module RouteTables {
  import opened Association
  import opened Bytes

  datatype Row = Row(id: nat, ip: seq<byte>, d: nat)

  ghost predicate RowFits(r: Row) { r.id < Pow256(4) && |r.ip| < Pow256(8) && r.d < Pow256(2) }

  function RowBytes(r: Row): seq<byte>
  {
    LE(r.id, 4) + LE(|r.ip|, 8) + r.ip + LE(r.d, 2)
  }

  function TableBytes(rows: seq<Row>): seq<byte>
  {
    if rows == [] then [] else RowBytes(rows[0]) + TableBytes(rows[1..])
  }

  /** The row at the front of `b` and its length; None where the source would read past the end. */
  function FrontRow(b: seq<byte>): (r: Option<(Row, nat)>)
    ensures r.Some? ==> 14 <= r.value.1 <= |b|
  {
    if |b| < 12 then None
    else
      var len := FromLE(b[4..12]);
      if |b| < 14 + len then None
      else Some((Row(FromLE(b[0..4]), b[12..12 + len], FromLE(b[12 + len..14 + len])), 14 + len))
  }

  /** The rows that the decoding loop reads; None when it runs past the end instead of stopping on it. */
  function Rows(b: seq<byte>): Option<seq<Row>>
    decreases |b|
  {
    if b == [] then Some([])
    else
      match FrontRow(b)
      case None => None
      case Some((row, n)) =>
        match Rows(b[n..])
        case None => None
        case Some(rest) => Some([row] + rest)
  }

  /** Where the parts of a row are: its ID, the length of its address, the address, and the distance. */
  lemma RowIs(r: Row)
    ensures var b, len := RowBytes(r), |r.ip|;
      && |b| == 14 + len && Spells(b, 0, 4, r.id) && Spells(b, 4, 8, len)
      && b[12..12 + len] == r.ip && Spells(b, 12 + len, 2, r.d)
  {
    var b, len := RowBytes(r), |r.ip|;
    assert b[0..4] == LE(r.id, 4);
    assert b[4..12] == LE(len, 8);
    assert b[12 + len..14 + len] == LE(r.d, 2);
    WordSpells(b, 0, 4, r.id);
    WordSpells(b, 4, 8, len);
    WordSpells(b, 12 + len, 2, r.d);
  }

  lemma FrontOfRow(r: Row, rest: seq<byte>)
    requires RowFits(r)
    ensures FrontRow(RowBytes(r) + rest) == Some((r, |RowBytes(r)|))
    ensures (RowBytes(r) + rest)[|RowBytes(r)|..] == rest
  {
    var b, len := RowBytes(r) + rest, |r.ip|;
    LEFits(r.id, 4);
    LEFits(len, 8);
    LEFits(r.d, 2);
    assert b[0..4] == LE(r.id, 4);
    assert b[4..12] == LE(len, 8);
    assert b[12..12 + len] == r.ip;
    assert b[12 + len..14 + len] == LE(r.d, 2);
  }

  /** Decoding inverts encoding, and stops exactly at the end. */
  lemma {:induction false} RowsOfTable(rows: seq<Row>)
    requires forall r :: r in rows ==> RowFits(r)
    ensures Rows(TableBytes(rows)) == Some(rows)
  {
    if rows != [] {
      FrontOfRow(rows[0], TableBytes(rows[1..]));
      RowsOfTable(rows[1..]);
      assert TableBytes(rows) == RowBytes(rows[0]) + TableBytes(rows[1..]);
      assert [rows[0]] + rows[1..] == rows;
    }
  }

  /** One turn of the decoding loop at offset `off`, with the rows `todo` still to come. */
  lemma DecodeStep(data: seq<byte>, off: nat, todo: seq<Row>)
    requires off < |data| && Rows(data[off..]) == Some(todo)
    ensures todo != [] && FrontRow(data[off..]).Some?
    ensures var (row, n) := FrontRow(data[off..]).value;
      row == todo[0] && off + n <= |data| && Rows(data[off + n..]) == Some(todo[1..])
  {
    var n := FrontRow(data[off..]).value.1;
    assert data[off..][n..] == data[off + n..];
  }

  lemma {:induction false} TableAppend(rows: seq<Row>, r: Row)
    ensures TableBytes(rows + [r]) == TableBytes(rows) + RowBytes(r)
  {
    if rows == [] {
      assert [r][1..] == [] && rows + [r] == [r];
    } else {
      assert (rows + [r])[1..] == rows[1..] + [r];
      TableAppend(rows[1..], r);
    }
  }
}

/** One node's routing state and its handlers, as functions on values. */
module RouterSpec {
  import opened Association
  import opened Bytes
  import opened RouteTables

  type Ip = seq<byte>

  datatype Route = Route(ip: Ip, d: nat)

  datatype Node = Node(id: nat, max: nat, ip: Ip, table: map<nat, Route>, neighbors: set<nat>)

  /** Router::addRoutingPath. */
  function AddPath(n: Node, id: nat, ip: Ip, d: nat): Node
  {
    n.(table := n.table[id := Route(ip, d)], neighbors := if d == 1 then n.neighbors + {id} else n.neighbors)
  }

  /** initTopology: every address of the list that answers becomes a neighbor, `ids` being what they answer. */
  function Topology(n: Node, list: seq<Ip>, ids: map<Ip, nat>): Node
  {
    if list == [] then n
    else
      var front, p := Topology(n, list[..|list| - 1], ids), list[|list| - 1];
      if p in ids then AddPath(front, ids[p], p, 1) else front
  }

  /** What initTable makes of the rows a peer answers: its own address skipped, every distance one more, in 16 bits. */
  function Merge(n: Node, rows: seq<Row>): Node
    decreases rows
  {
    if rows == [] then n
    else
      var r := rows[0];
      Merge(if r.ip == n.ip then n else AddPath(n, r.id, r.ip, (r.d + 1) % 0x1_0000), rows[1..])
  }

  predicate Adds(n: Node, rows: seq<Row>)
  {
    rows != [] && (rows[0].ip != n.ip || Adds(n, rows[1..]))
  }

  lemma {:induction false} AddsSome(n: Node, rows: seq<Row>)
    ensures Adds(n, rows) <==> exists r :: r in rows && r.ip != n.ip
  {
    if rows != [] {
      AddsSome(n, rows[1..]);
      assert forall r :: r in rows <==> r == rows[0] || r in rows[1..];
    }
  }

  lemma {:induction false} AddsByAddress(n: Node, m: Node, rows: seq<Row>)
    requires n.ip == m.ip
    ensures Adds(n, rows) == Adds(m, rows)
  {
    if rows != [] {
      AddsByAddress(n, m, rows[1..]);
    }
  }

  /** handleUpdateMachineIDMax. */
  function OnUpdate(n: Node, src: nat, max: nat, ip: Ip): Node
  {
    AddPath(if n.max >= max then n else n.(max := max), src, ip, 1)
  }

  /** handleCheckRepeatMachineID: may the node at `ip` go on as `req`? */
  predicate MayKeep(n: Node, req: nat, ip: Ip)
  {
    n.id != req && (req in n.table ==> n.table[req].ip == ip)
  }

  const ID_RANGE: nat := 0x1_0000_0000

  /**
   * The machines whose answer about the maximum counts: of the table, not at this node's own address, and answering.
   */
  function Heard(n: Node, answers: map<nat, nat>): set<nat>
  {
    set id | id in n.table && n.table[id].ip != n.ip && id in answers
  }

  /** `m` is the highest answer of `heard`, or 0. */
  ghost predicate Highest(m: nat, answers: map<nat, nat>, heard: set<nat>)
    requires heard <= answers.Keys
  {
    && (forall id :: id in heard ==> answers[id] <= m)
    && (m == 0 || exists id :: id in heard && answers[id] == m)
  }

  lemma HighestNext(m: nat, answers: map<nat, nat>, heard: set<nat>, id: nat)
    requires heard <= answers.Keys && Highest(m, answers, heard) && id in answers
    ensures Highest(if answers[id] > m then answers[id] else m, answers, heard + {id})
  {
    if answers[id] > m {
      assert id in heard + {id};
    } else if m > 0 {
      var x :| x in heard && answers[x] == m;
      assert x in heard + {id};
    }
  }

  /** One more than `m`, in 32 bits, as this node's ID and maximum. */
  function Renumbered(n: Node, m: nat): Node { n.(id := (m + 1) % ID_RANGE, max := (m + 1) % ID_RANGE) }

  /** What initMachineID makes of the answers about the maximum. */
  ghost predicate Numbered(n: Node, answers: map<nat, nat>, n': Node)
  {
    if n.neighbors == {} then n' == n.(id := 1, max := 1)
    else exists m: nat :: Highest(m, answers, Heard(n, answers)) && n' == Renumbered(n, m)
  }

  /**
   * initMachineID: a machine whose snapshot has an ID keeps it when it is alone or when the first machine of its
   * table allows it, and takes no maximum below it; any other machine is numbered. `check` is that machine's answer.
   */
  ghost predicate Registered(n: Node, check: Option<(bool, nat)>, answers: map<nat, nat>, n': Node)
  {
    if n.id != 0 && n.neighbors == {} then n' == n.(max := n.id)
    else if n.id != 0 && check.Some? && check.value.0
      then n' == n.(max := if check.value.1 < n.id then n.id else check.value.1)
    else Numbered(n, answers, n')
  }

  /** With neighbors: kept with a maximum as high as the ID and the answer, or numbered. */
  lemma RegisteredKeeps(n: Node, check: Option<(bool, nat)>, answers: map<nat, nat>, n': Node)
    requires n.id != 0 && n.neighbors != {} && Registered(n, check, answers, n')
    ensures check.Some? && check.value.0 ==> n'.id == n.id <= n'.max && check.value.1 <= n'.max
    ensures check.None? || !check.value.0 ==> Numbered(n, answers, n')
  {
  }

  lemma MergeNext(n: Node, rows: seq<Row>)
    requires rows != []
    ensures var n' := if rows[0].ip == n.ip then n else AddPath(n, rows[0].id, rows[0].ip, (rows[0].d + 1) % 0x1_0000);
      && Merge(n, rows) == Merge(n', rows[1..])
      && Adds(n, rows) == (rows[0].ip != n.ip || Adds(n', rows[1..]))
  {
    AddsByAddress(n, if rows[0].ip == n.ip then n else AddPath(n, rows[0].id, rows[0].ip, (rows[0].d + 1) % 0x1_0000),
                  rows[1..]);
  }

  /** Decoding and adding one row. */
  lemma MergeStep(n: Node, data: seq<byte>, off: nat, todo: seq<Row>)
    requires off < |data| && Rows(data[off..]) == Some(todo)
    ensures todo != [] && FrontRow(data[off..]).Some?
    ensures var (row, size) := FrontRow(data[off..]).value;
      && row == todo[0] && size > 0 && off + size <= |data| && Rows(data[off + size..]) == Some(todo[1..])
      && Merge(n, todo) == Merge(if n.ip != row.ip then AddPath(n, row.id, row.ip, (row.d + 1) % 0x1_0000)
        else n, todo[1..])
      && (Adds(n, todo) <==> n.ip != row.ip || Adds(n, todo[1..]))
  {
    DecodeStep(data, off, todo);
    MergeNext(n, todo);
  }

  /** Rows that add nothing change nothing. */
  lemma {:induction false} MergeNothing(n: Node, rows: seq<Row>)
    requires !Adds(n, rows)
    ensures Merge(n, rows) == n
  {
    if rows != [] {
      MergeNothing(n, rows[1..]);
    }
  }

  /** initTable has taken the rows of the peer `from`, or there was none whose answer added a row. */
  ghost predicate FetchedFrom(n: Node, answers: map<nat, seq<byte>>, from: Option<nat>, n': Node)
    requires forall id :: id in answers ==> Rows(answers[id]).Some?
  {
    match from
    case None => n' == n && forall id :: id in n.table && id in answers ==> !Adds(n, Rows(answers[id]).value)
    case Some(id) =>
      && id in n.table && id in answers && Adds(n, Rows(answers[id]).value)
      && n' == Merge(n, Rows(answers[id]).value)
  }

  /** What initTable makes of the answers of the peers in the table. */
  ghost predicate Fetched(n: Node, answers: map<nat, seq<byte>>, n': Node)
    requires forall id :: id in answers ==> Rows(answers[id]).Some?
  {
    exists from :: FetchedFrom(n, answers, from, n')
  }

  /** `rows` lists a routing table, each ID once. */
  ghost predicate Lists(rows: seq<Row>, table: map<nat, Route>)
  {
    && (forall i, j :: 0 <= i < j < |rows| ==> rows[i].id != rows[j].id)
    && (forall r :: r in rows ==> r.id in table && table[r.id] == Route(r.ip, r.d))
    && (forall id :: id in table ==> HasID(rows, id))
  }

  ghost predicate HasID(rows: seq<Row>, id: nat) { exists r :: r in rows && r.id == id }

  lemma HasIDAppend(rows: seq<Row>, r: Row)
    ensures forall id :: HasID(rows + [r], id) <==> HasID(rows, id) || id == r.id
  {
    assert (rows + [r])[|rows|] == r;
    forall id | HasID(rows, id) ensures HasID(rows + [r], id) {
      var x :| x in rows && x.id == id;
      assert x in rows + [r];
    }
  }

  /** Merging a table: rows that no row of it overrides stay, and no other ID comes in. */
  lemma {:induction false} MergeLeaves(n: Node, rows: seq<Row>)
    decreases rows
    ensures var m := Merge(n, rows);
      && m.id == n.id && m.max == n.max && m.ip == n.ip
      && (forall id :: id in n.table && (forall r :: r in rows && r.ip != n.ip ==> r.id != id) ==>
            id in m.table && m.table[id] == n.table[id])
      && (forall id :: id in m.table ==> id in n.table || exists r :: r in rows && r.ip != n.ip && r.id == id)
  {
    if rows != [] {
      var r, rest := rows[0], rows[1..];
      assert forall x :: x in rows <==> x == r || x in rest;
      MergeLeaves(if r.ip == n.ip then n else AddPath(n, r.id, r.ip, (r.d + 1) % 0x1_0000), rest);
    }
  }

  /** Merging a listed table: each of its rows is set, with the distance one more, unless it is of the own address. */
  lemma {:induction false} MergeSets(n: Node, rows: seq<Row>, i: nat)
    requires forall i, j :: 0 <= i < j < |rows| ==> rows[i].id != rows[j].id
    requires i < |rows| && rows[i].ip != n.ip
    decreases rows
    ensures rows[i].id in Merge(n, rows).table
    ensures Merge(n, rows).table[rows[i].id] == Route(rows[i].ip, (rows[i].d + 1) % 0x1_0000)
  {
    var r, rest := rows[0], rows[1..];
    var n' := if r.ip == n.ip then n else AddPath(n, r.id, r.ip, (r.d + 1) % 0x1_0000);
    if i > 0 {
      MergeSets(n', rest, i - 1);
    } else {
      assert forall x :: x in rest ==> x.id != r.id;
      MergeLeaves(n', rest);
    }
  }

  /** So its rows override the old ones, and everything else stays. */
  lemma MergeRows(n: Node, rows: seq<Row>)
    requires forall i, j :: 0 <= i < j < |rows| ==> rows[i].id != rows[j].id
    ensures var m := Merge(n, rows);
      && m.id == n.id && m.max == n.max && m.ip == n.ip
      && (forall r :: r in rows && r.ip != n.ip ==>
        r.id in m.table && m.table[r.id] == Route(r.ip, (r.d + 1) % 0x1_0000))
      && (forall id :: id in n.table && (forall r :: r in rows && r.ip != n.ip ==> r.id != id) ==>
            id in m.table && m.table[id] == n.table[id])
      && (forall id :: id in m.table ==> id in n.table || exists r :: r in rows && r.ip != n.ip && r.id == id)
  {
    MergeLeaves(n, rows);
    forall r | r in rows && r.ip != n.ip
      ensures r.id in Merge(n, rows).table && Merge(n, rows).table[r.id] == Route(r.ip, (r.d + 1) % 0x1_0000)
    {
      var i :| 0 <= i < |rows| && rows[i] == r;
      MergeSets(n, rows, i);
    }
  }
}

/** The methods of src/network/Router.cpp, each proved to act as its function says. */
module Routers {
  import opened Association
  import opened Bytes
  import opened RouteTables
  import opened RouterSpec

  class Router {
    var machineID: nat
    var machineIDMax: nat
    var localIP: Ip
    var routingTable: map<nat, Route>
    var neighbors: set<nat>

    ghost function View(): Node
      reads this
    {
      Node(machineID, machineIDMax, localIP, routingTable, neighbors)
    }

    constructor (localIP: Ip)
      ensures View() == Node(0, 0, localIP, map[], {})
    {
      machineID, machineIDMax, this.localIP, routingTable, neighbors := 0, 0, localIP, map[], {};
    }

    method AddRoutingPath(id: nat, ip: Ip, d: nat)
      modifies this
      ensures View() == AddPath(old(View()), id, ip, d)
      ensures routingTable == old(routingTable)[id := Route(ip, d)]
      ensures neighbors == if d == 1 then old(neighbors) + {id} else old(neighbors)
      ensures machineID == old(machineID) && machineIDMax == old(machineIDMax) && localIP == old(localIP)
    {
      routingTable := routingTable[id := Route(ip, d)];
      if d == 1 {
        neighbors := neighbors + {id};
      }
    }

    /** initConnectNeighbor for one address that answered with its ID. */
    method ConnectedNeighbor(id: nat, ip: Ip)
      modifies this
      ensures View() == AddPath(old(View()), id, ip, 1)
    {
      AddRoutingPath(id, ip, 1);
    }

    method InitTopology(list: seq<Ip>, ids: map<Ip, nat>)
      modifies this
      ensures View() == Topology(old(View()), list, ids)
    {
      var i := 0;
      while i < |list|
        invariant 0 <= i <= |list| && View() == Topology(old(View()), list[..i], ids)
      {
        assert list[..i + 1][..i] == list[..i];
        if list[i] in ids {
          ConnectedNeighbor(ids[list[i]], list[i]);
        }
        i := i + 1;
      }
      assert list[..i] == list;
    }

    /**
     * With an ID from the snapshot, ask the first machine of the table whether it may be kept; else ask every machine
     * of the table, other than this one, for its maximum, and take one more than the highest answer. `check` and
     * `answers` hold what those answered that did.
     */
    method InitMachineID(check: Option<(bool, nat)>, answers: map<nat, nat>)
      modifies this
      ensures Registered(old(View()), check, answers, View())
      ensures routingTable == old(routingTable) && neighbors == old(neighbors) && localIP == old(localIP)
      ensures var kept := old(machineID) != 0 && (neighbors == {} || (check.Some? && check.value.0));
        && (kept ==> machineID == old(machineID) <= machineIDMax)
        && (kept && neighbors == {} ==> machineIDMax == machineID)
        && (kept && neighbors != {} ==> machineIDMax >= check.value.1 && machineIDMax in {machineID, check.value.1})
        && (!kept && neighbors == {} ==> machineID == machineIDMax == 1)
        && (!kept && neighbors != {} ==> exists top: nat ::
              Highest(top, answers, Heard(old(View()), answers)) && machineID == machineIDMax == (top + 1) % ID_RANGE)
    {
      if machineID != 0 {
        if neighbors == {} {
          machineIDMax := machineID;
          return;
        }
        if check.Some? {
          var max := check.value.1;
          if max < machineID {
            max := machineID;
          }
          if check.value.0 {
            machineIDMax := max;
            return;
          }
        }
      }
      if neighbors == {} {
        machineIDMax := 1;
        machineID := 1;
        return;
      }
      var max := AskMaxima(answers);
      ghost var m := max;
      max := (max + 1) % ID_RANGE;
      machineIDMax := max;
      machineID := max;
      assert View() == Renumbered(old(View()), m);
    }

    /** Its loop over the table. */
    method AskMaxima(answers: map<nat, nat>) returns (max: nat)
      ensures Highest(max, answers, Heard(View(), answers))
    {
      var todo := routingTable.Keys;
      max := 0;
      ghost var heard, all := {}, Heard(View(), answers);
      while todo != {}
        invariant todo <= routingTable.Keys
        invariant heard <= answers.Keys && Highest(max, answers, heard)
        invariant forall id :: id in heard <==> id in all && id !in todo
        decreases |todo|
      {
        var it :| it in todo;
        todo := todo - {it};
        if routingTable[it].ip != localIP && it in answers {
          HighestNext(max, answers, heard, it);
          heard := heard + {it};
          if answers[it] > max {
            max := answers[it];
          }
        }
      }
      assert heard == all;
    }

    method HandleUpdateMachineIDMax(src: nat, max: nat, ip: Ip)
      modifies this
      ensures View() == OnUpdate(old(View()), src, max, ip)
      ensures machineID == old(machineID) && localIP == old(localIP) && neighbors == old(neighbors) + {src}
      ensures routingTable == old(routingTable)[src := Route(ip, 1)]
      ensures machineIDMax == if old(machineIDMax) < max then max else old(machineIDMax)
    {
      if machineIDMax >= max {
      } else {
        machineIDMax := max;
      }
      AddRoutingPath(src, ip, 1);
    }

    /** handleRequestRoutingTable: the table's rows, one after another at a running offset. */
    method HandleRequestRoutingTable() returns (data: seq<byte>)
      ensures exists rows :: Lists(rows, routingTable) && data == TableBytes(rows)
    {
      data := [];
      ghost var rows: seq<Row> := [];
      var todo := routingTable.Keys;
      while todo != {}
        invariant todo <= routingTable.Keys && data == TableBytes(rows)
        invariant forall i, j :: 0 <= i < j < |rows| ==> rows[i].id != rows[j].id
        invariant forall r :: r in rows ==>
          r.id in routingTable && r.id !in todo && routingTable[r.id] == Route(r.ip, r.d)
        invariant forall id :: id in routingTable && id !in todo ==> HasID(rows, id)
        decreases |todo|
      {
        var it :| it in todo;
        var row := Row(it, routingTable[it].ip, routingTable[it].d);
        TableAppend(rows, row);
        HasIDAppend(rows, row);
        data, rows, todo := data + RowBytes(row), rows + [row], todo - {it};
      }
    }

    /** One turn of the decoding loop of initTable, with the rows `todo` still to come. */
    method MergeRow(data: seq<byte>, off: nat, ghost todo: seq<Row>) returns (next: nat, added: bool)
      requires off < |data| && Rows(data[off..]) == Some(todo)
      modifies this
      ensures todo != [] && off < next <= |data| && Rows(data[next..]) == Some(todo[1..])
      ensures localIP == old(localIP) && Merge(View(), todo[1..]) == Merge(old(View()), todo)
      ensures (added || Adds(View(), todo[1..])) == Adds(old(View()), todo)
    {
      MergeStep(View(), data, off, todo);
      var front := FrontRow(data[off..]).value;
      next, added := off + front.1, localIP != front.0.ip;
      if added {
        AddRoutingPath(front.0.id, front.0.ip, (front.0.d + 1) % 0x1_0000);
      }
    }

    /** The decoding loop of initTable on one peer's answer; `done` tells whether it added anything. */
    method MergeAnswer(data: seq<byte>) returns (done: bool)
      requires Rows(data).Some?
      modifies this
      ensures View() == Merge(old(View()), Rows(data).value)
      ensures done == Adds(old(View()), Rows(data).value)
    {
      var off := 0;
      done := false;
      ghost var todo := Rows(data).value;
      assert data[0..] == data;
      while |data| != off
        invariant 0 <= off <= |data| && Rows(data[off..]) == Some(todo)
        invariant Merge(View(), todo) == Merge(old(View()), Rows(data).value)
        invariant (done || Adds(View(), todo)) == Adds(old(View()), Rows(data).value)
        decreases |data| - off
      {
        var next, added := MergeRow(data, off, todo);
        off, todo, done := next, todo[1..], done || added;
      }
    }

    /** initTable: the first peer whose answer adds a row gives the table; the others add nothing. */
    method InitTable(answers: map<nat, seq<byte>>)
      requires forall id :: id in answers ==> Rows(answers[id]).Some?
      modifies this
      ensures old(neighbors) == {} ==> View() == old(View())
      ensures old(neighbors) != {} ==> Fetched(old(View()), answers, View())
    {
      if neighbors == {} {
        return;
      }
      var todo, done := routingTable.Keys, false;
      ghost var from: Option<nat> := None;
      while todo != {} && !done
        invariant todo <= old(routingTable).Keys
        invariant !done ==> from == None && View() == old(View())
        invariant !done ==> forall id :: id in routingTable && id in answers && id !in todo ==>
          !Adds(View(), Rows(answers[id]).value)
        invariant done ==> FetchedFrom(old(View()), answers, from, View())
        decreases |todo|, !done
      {
        var it :| it in todo;
        todo := todo - {it};
        if it in answers {
          done := MergeAnswer(answers[it]);
          if done {
            from := Some(it);
          } else {
            MergeNothing(old(View()), Rows(answers[it]).value);
          }
        }
      }
      assert FetchedFrom(old(View()), answers, from, View());
    }

    /** sendTo, when the addresses of `up` accept connections: a machine that does not leaves the table. */
    method SendTo(id: nat, up: set<Ip>) returns (sent: bool)
      modifies `routingTable
      ensures sent == (id in old(routingTable) && old(routingTable)[id].ip in up)
      ensures routingTable == if sent then old(routingTable) else old(routingTable) - {id}
    {
      if id !in routingTable {
        return false;
      }
      if routingTable[id].ip !in up {
        routingTable := routingTable - {id};
        return false;
      }
      sent := true;
    }

    /** broadcast, stepping over the machines that were in the table at its start. */
    method Broadcast(up: set<Ip>) returns (sent: set<nat>)
      modifies `routingTable
      ensures forall id :: id in sent <==> id in old(routingTable) && old(routingTable)[id].ip in up
      ensures routingTable.Keys == sent && forall id :: id in sent ==> routingTable[id] == old(routingTable)[id]
    {
      sent := {};
      ghost var table := routingTable;
      var todo := routingTable.Keys;
      while todo != {}
        invariant todo <= routingTable.Keys && routingTable.Keys - todo == sent
        invariant forall id :: id in routingTable ==> id in table && routingTable[id] == table[id]
        invariant forall id :: id in table ==> id in todo || (id in sent <==> table[id].ip in up)
        decreases |todo|
      {
        var it :| it in todo;
        todo := todo - {it};
        var ok := SendTo(it, up);
        if ok {
          sent := sent + {it};
        }
      }
    }

    /** handleCheckRepeatMachineID. */
    method HandleCheckRepeatMachineID(req: nat, ip: Ip) returns (ans: bool, max: nat)
      ensures ans == MayKeep(View(), req, ip) && max == machineIDMax
    {
      ans := true;
      if machineID == req || (req in routingTable && ip != routingTable[req].ip) {
        ans := false;
      }
      max := machineIDMax;
    }
  }
}
