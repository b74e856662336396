/** A cluster of routers: serial joins, and the update messages they leave in flight. */
module Clusters {
  import opened Association
  import opened Bytes
  import opened RouteTables
  import opened RouterSpec
  import opened Sequences

  /** MC_UpdateMachineIDMax on its way from the node at `ip`, which calls itself `src`. */
  datatype Update = Update(dest: Ip, src: nat, max: nat, ip: Ip)

  datatype Cluster = Cluster(nodes: map<Ip, Node>, inflight: set<Update>)

  /**
   * What a joiner gets back: the addresses of its list that answered, in order, then the maxima and the routing
   * tables that peers of its own table answered with, by the peer's ID. A peer that did not answer is left out.
   * `from` is the peer whose rows it took, if any.
   */
  datatype Reach = Reach(contacts: seq<Ip>, maxima: map<nat, nat>, tables: map<nat, seq<byte>>, from: Option<nat>)

  // ---- The steps ----

  /** handleUpdateMachineIDMax on one message. */
  ghost predicate Deliver(c: Cluster, u: Update, c': Cluster)
  {
    && u in c.inflight && u.dest in c.nodes
    && c' == Cluster(c.nodes[u.dest := OnUpdate(c.nodes[u.dest], u.src, u.max, u.ip)], c.inflight - {u})
  }

  ghost predicate Arrives(c: Cluster, c': Cluster) { exists u :: Deliver(c, u, c') }

  ghost predicate ArrivesAt(w: seq<Cluster>, i: nat)
    requires 0 < i < |w|
  {
    Arrives(w[i - 1], w[i])
  }

  /** The states that a cluster goes through while messages arrive. */
  ghost predicate Window(w: seq<Cluster>)
  {
    w != [] && forall i :: 0 < i < |w| ==> ArrivesAt(w, i)
  }

  function Last(w: seq<Cluster>): Cluster
    requires w != []
  {
    w[|w| - 1]
  }

  /** initConnectNeighbor on every contact in turn. */
  function Contacted(c: Cluster, n: Node, contacts: seq<Ip>): Node
    requires forall p :: p in contacts ==> p in c.nodes
  {
    if contacts == [] then n
    else
      var p := contacts[|contacts| - 1];
      AddPath(Contacted(c, n, contacts[..|contacts| - 1]), c.nodes[p].id, p, 1)
  }

  /** The addresses of a list that answer. */
  function Answering(list: seq<Ip>, ids: map<Ip, nat>): seq<Ip>
  {
    if list == [] then []
    else Answering(list[..|list| - 1], ids) + if list[|list| - 1] in ids then [list[|list| - 1]] else []
  }

  /** It is what initTopology makes of a list, when the members of it that answer give their IDs. */
  lemma {:induction false} ContactedIsTopology(c: Cluster, n: Node, list: seq<Ip>, ids: map<Ip, nat>)
    requires forall p :: p in ids ==> p in c.nodes && c.nodes[p].id == ids[p]
    ensures forall p :: p in Answering(list, ids) ==> p in c.nodes
    ensures Contacted(c, n, Answering(list, ids)) == Topology(n, list, ids)
  {
    if list != [] {
      var front, p := list[..|list| - 1], list[|list| - 1];
      ContactedIsTopology(c, n, front, ids);
      if p in ids {
        var all := Answering(front, ids) + [p];
        assert all[..|all| - 1] == Answering(front, ids);
      } else {
        assert Answering(front, ids) + [] == Answering(front, ids);
      }
    }
  }

  /** `data` is what the node `p` answers to a request for its routing table. */
  ghost predicate AnswersTable(p: Node, data: seq<byte>)
  {
    exists rows :: Lists(rows, p.table) && data == TableBytes(rows)
  }

  /** The contact `p`, whose ID is `id`, had this maximum at moment `i`. */
  ghost predicate MaxAt(w: seq<Cluster>, contacts: seq<Ip>, i: nat, p: Ip, id: nat, max: nat)
  {
    i < |w| && p in contacts && p in w[i].nodes && w[i].nodes[p].id == id && w[i].nodes[p].max == max
  }

  /** And this was its table. */
  ghost predicate TableAt(w: seq<Cluster>, contacts: seq<Ip>, i: nat, p: Ip, id: nat, data: seq<byte>)
  {
    i < |w| && p in contacts && p in w[i].nodes && w[i].nodes[p].id == id && AnswersTable(w[i].nodes[p], data)
  }

  /** Every answer is true at some moment of the window. */
  ghost predicate Reachable(w: seq<Cluster>, r: Reach)
    requires w != []
  {
    && (forall p :: p in r.contacts ==> p in Last(w).nodes)
    && (forall id :: id in r.maxima ==> exists i: nat, p :: MaxAt(w, r.contacts, i, p, id, r.maxima[id]))
    && (forall id :: id in r.tables ==> exists i: nat, p :: TableAt(w, r.contacts, i, p, id, r.tables[id]))
  }

  function Blank(ip: Ip): Node { Node(0, 0, ip, map[], {}) }

  /** updateMachineIDMax: one message to every row of the table. */
  function Announced(n: Node): set<Update>
  {
    set id | id in n.table :: Update(n.table[id].ip, n.id, n.max, n.ip)
  }

  /**
   * A router comes up at `ip` and becomes the node `n`. While it asks, messages of earlier joins may go on arriving,
   * and others may still be on their way when it announces itself.
   */
  ghost predicate Join(w: seq<Cluster>, ip: Ip, r: Reach, n: Node, c': Cluster)
  {
    && Window(w) && ip !in Last(w).nodes && |ip| < Pow256(8) && Reachable(w, r)
    && Initialised(Last(w), ip, r, n)
    && c' == Cluster(Last(w).nodes[ip := n], Last(w).inflight + Announced(n))
  }

  ghost predicate Initialised(c: Cluster, ip: Ip, r: Reach, n: Node)
    requires forall p :: p in r.contacts ==> p in c.nodes
  {
    var n0 := Contacted(c, Blank(ip), r.contacts);
    if n0.neighbors == {} then r.from == None && Numbered(n0, r.maxima, n)
    else exists n1 :: Numbered(n0, r.maxima, n1) && Merged(n1, r.tables, r.from, n)
  }

  /** initTable on answers that decode. */
  ghost predicate Merged(n: Node, tables: map<nat, seq<byte>>, from: Option<nat>, n': Node)
  {
    (forall id :: id in tables ==> Rows(tables[id]).Some?) && FetchedFrom(n, tables, from, n')
  }

  // ---- The invariant ----

  /** A row of the table at `ip` names another member, at its address. */
  ghost predicate RightRow(c: Cluster, ip: Ip, id: nat)
    requires ip in c.nodes && id in c.nodes[ip].table
  {
    var route := c.nodes[ip].table[id];
    TrueRow(c, id, route) && route.ip != ip
  }

  /** A row that names a member at its address. */
  ghost predicate TrueRow(c: Cluster, id: nat, route: Route)
  {
    route.ip in c.nodes && c.nodes[route.ip].id == id && route.d < 0x1_0000
  }

  /** The table of `n` has the member at `q`. */
  ghost predicate HasRow(c: Cluster, n: Node, q: Ip)
    requires q in c.nodes
  {
    var id := c.nodes[q].id;
    id in n.table && n.table[id].ip == q
  }

  ghost predicate Knows(c: Cluster, ip: Ip, other: Ip)
    requires ip in c.nodes && other in c.nodes
  {
    HasRow(c, c.nodes[ip], other)
  }

  /** No row names an ID beyond the maximum. */
  ghost predicate Sane(c: Cluster, size: nat, ip: Ip)
    requires ip in c.nodes
  {
    var n := c.nodes[ip];
    && n.ip == ip && |ip| < Pow256(8) && 1 <= n.id <= n.max <= size
    && forall id {:trigger RightRow(c, ip, id)} :: id in n.table ==> RightRow(c, ip, id) && id <= n.max
  }

  /** The announcement of the node at `other` is on its way to `ip`. */
  ghost predicate Pending(c: Cluster, ip: Ip, other: Ip)
    requires other in c.nodes
  {
    Update(ip, c.nodes[other].id, c.nodes[other].id, other) in c.inflight
  }

  ghost predicate Distinct(c: Cluster)
  {
    forall p, q :: p in c.nodes && q in c.nodes && p != q ==> c.nodes[p].id != c.nodes[q].id
  }

  /** Who does not know a member yet has its announcement on the way. */
  ghost predicate Informed(c: Cluster)
  {
    forall p, q {:trigger Covered(c, p, q)} :: p in c.nodes && q in c.nodes && p != q ==> Covered(c, p, q)
  }

  ghost predicate Covered(c: Cluster, p: Ip, q: Ip)
    requires p in c.nodes && q in c.nodes
  {
    Knows(c, p, q) || Pending(c, p, q)
  }

  ghost predicate IsTaken(c: Cluster, id: nat) { exists p :: p in c.nodes && c.nodes[p].id == id }

  ghost predicate TrueMessage(c: Cluster, u: Update)
  {
    && u.dest in c.nodes && u.ip in c.nodes && u.dest != u.ip
    && u.src == u.max == c.nodes[u.ip].id
  }

  ghost predicate GoodAt(c: Cluster, size: nat)
  {
    && (forall ip {:trigger Sane(c, size, ip)} :: ip in c.nodes ==> Sane(c, size, ip))
    && Distinct(c) && Informed(c)
    && (forall u {:trigger TrueMessage(c, u)} :: u in c.inflight ==> TrueMessage(c, u))
    && (forall id :: 1 <= id <= size ==> IsTaken(c, id))
  }

  ghost predicate Good(c: Cluster) { GoodAt(c, |c.nodes|) }

  const BOOT := Cluster(map[], {})

  lemma BootGood()
    ensures Good(BOOT)
  {
  }

  /** What the invariant comes to once every message has arrived. */
  ghost predicate Agreed(c: Cluster)
  {
    && (forall p :: p in c.nodes ==> c.nodes[p].max == |c.nodes|)
    && Distinct(c)
    && (forall p, q :: p in c.nodes && q in c.nodes && p != q ==> Knows(c, p, q))
    && (forall p, id :: p in c.nodes && id in c.nodes[p].table ==> RightRow(c, p, id))
  }

  /** Who knows every member has a maximum as high as the highest ID. */
  lemma LatestSeen(c: Cluster, p: Ip)
    requires p in c.nodes && Sane(c, |c.nodes|, p) && IsTaken(c, |c.nodes|)
    requires forall q :: q in c.nodes && q != p ==> Knows(c, p, q)
    ensures c.nodes[p].max == |c.nodes|
  {
    var last :| last in c.nodes && c.nodes[last].id == |c.nodes|;
    assert last != p ==> Knows(c, p, last) && RightRow(c, p, |c.nodes|);
  }

  lemma QuietAgrees(c: Cluster)
    requires Good(c) && c.inflight == {}
    ensures Agreed(c)
  {
    var size := |c.nodes|;
    forall p, id | p in c.nodes && id in c.nodes[p].table ensures RightRow(c, p, id) {
      assert Sane(c, size, p);
    }
    forall p, q | p in c.nodes && q in c.nodes && p != q ensures Knows(c, p, q) {
      assert Covered(c, p, q);
    }
    forall p | p in c.nodes ensures c.nodes[p].max == size {
      LatestSeen(c, p);
    }
  }

  // ---- Delivery keeps it ----

  /** The same members, with the same IDs. */
  ghost predicate SameMembers(c: Cluster, d: Cluster)
  {
    c.nodes.Keys == d.nodes.Keys && forall p :: p in c.nodes ==> c.nodes[p].id == d.nodes[p].id
  }

  lemma DeliverSame(c: Cluster, u: Update, c': Cluster)
    requires Deliver(c, u, c')
    ensures SameMembers(c, c') && |c.nodes| == |c'.nodes|
  {
    assert c'.nodes.Keys == c.nodes.Keys;
    SameSize(c.nodes, c'.nodes);
  }

  lemma SameSize<K, V>(m: map<K, V>, m': map<K, V>)
    requires m.Keys == m'.Keys
    ensures |m| == |m'|
  {
    assert |m| == |m.Keys| && |m'| == |m'.Keys|;
  }

  lemma DeliverSane(c: Cluster, size: nat, u: Update, c': Cluster, ip: Ip)
    requires GoodAt(c, size) && Deliver(c, u, c') && SameMembers(c, c') && ip in c'.nodes
    ensures Sane(c', size, ip)
  {
    assert TrueMessage(c, u) && Sane(c, size, ip) && Sane(c, size, u.ip);
    forall id | id in c'.nodes[ip].table ensures RightRow(c', ip, id) && id <= c'.nodes[ip].max {
      if ip != u.dest || id != u.src {
        assert RightRow(c, ip, id);
      }
    }
  }

  lemma DeliverInformed(c: Cluster, size: nat, u: Update, c': Cluster)
    requires GoodAt(c, size) && Deliver(c, u, c') && SameMembers(c, c')
    ensures Informed(c')
  {
    assert TrueMessage(c, u);
    forall p, q | p in c'.nodes && q in c'.nodes && p != q ensures Covered(c', p, q) {
      assert Covered(c, p, q);
    }
  }

  lemma DeliverGood(c: Cluster, u: Update, c': Cluster)
    requires Good(c) && Deliver(c, u, c')
    ensures SameMembers(c, c') && |c'.nodes| == |c.nodes| && Good(c')
  {
    var size := |c.nodes|;
    DeliverSame(c, u, c');
    forall ip | ip in c'.nodes ensures Sane(c', size, ip) {
      DeliverSane(c, size, u, c', ip);
    }
    DeliverInformed(c, size, u, c');
    forall v | v in c'.inflight ensures TrueMessage(c', v) {
      assert TrueMessage(c, v);
    }
    forall id | 1 <= id <= size ensures IsTaken(c', id) {
      assert IsTaken(c, id);
    }
  }

  /** So every state of a window is good, with the members of the last. */
  lemma {:induction false} WindowGood(w: seq<Cluster>, i: nat)
    requires Window(w) && Good(w[0]) && i < |w|
    ensures Good(w[i]) && SameMembers(w[0], w[i]) && |w[i].nodes| == |w[0].nodes|
  {
    if i > 0 {
      WindowGood(w, i - 1);
      assert ArrivesAt(w, i);
      var u :| Deliver(w[i - 1], u, w[i]);
      DeliverGood(w[i - 1], u, w[i]);
    }
  }

  lemma SeenFromEnd(w: seq<Cluster>, i: nat)
    requires Window(w) && Good(w[0]) && i < |w|
    ensures Good(w[i]) && SameMembers(Last(w), w[i]) && |Last(w).nodes| == |w[i].nodes|
  {
    WindowGood(w, i);
    WindowGood(w, |w| - 1);
  }

  // ---- What a joiner hears ----

  /** After the contacts: exactly their rows, at distance 1. */
  lemma {:induction false} ContactedShape(c: Cluster, n: Node, contacts: seq<Ip>)
    requires (forall p :: p in contacts ==> p in c.nodes) && Distinct(c)
    requires n.table == map[] && n.neighbors == {}
    ensures var n0 := Contacted(c, n, contacts);
      && n0.ip == n.ip && n0.id == n.id && n0.max == n.max && n0.neighbors == n0.table.Keys
      && (forall p :: p in contacts ==> c.nodes[p].id in n0.table && n0.table[c.nodes[p].id] == Route(p, 1))
      && (forall id :: id in n0.table ==> n0.table[id].ip in contacts && TrueRow(c, id, n0.table[id]))
  {
    if contacts != [] {
      var front, p := contacts[..|contacts| - 1], contacts[|contacts| - 1];
      assert contacts == front + [p];
      ContactedShape(c, n, front);
    }
  }

  lemma NoNeighbors(c: Cluster, ip: Ip, contacts: seq<Ip>)
    requires (forall p :: p in contacts ==> p in c.nodes) && Distinct(c)
    ensures Contacted(c, Blank(ip), contacts).neighbors == {} <==> contacts == []
  {
    ContactedShape(c, Blank(ip), contacts);
    if contacts != [] {
      assert contacts[0] in contacts;
    }
  }

  /** Answers about the maximum come from contacts and do not exceed the number of members. */
  lemma MaximumHeard(w: seq<Cluster>, r: Reach, id: nat) returns (p: Ip)
    requires Window(w) && Good(w[0]) && Reachable(w, r) && id in r.maxima
    ensures p in r.contacts && Last(w).nodes[p].id == id && r.maxima[id] <= |Last(w).nodes|
  {
    var i: nat, q :| MaxAt(w, r.contacts, i, q, id, r.maxima[id]);
    p := q;
    SeenFromEnd(w, i);
    assert Sane(w[i], |w[i].nodes|, p);
  }

  /** Some answer about the maximum came from a peer that had seen every announcement. */
  ghost predicate HeardLatest(w: seq<Cluster>, r: Reach)
    requires w != []
  {
    Reached(r.maxima, |Last(w).nodes|)
  }

  ghost predicate Reached(answers: map<nat, nat>, size: nat) { exists id :: id in answers && answers[id] == size }

  ghost predicate IsContact(c: Cluster, contacts: seq<Ip>, id: nat)
  {
    exists p :: p in contacts && p in c.nodes && c.nodes[p].id == id
  }

  lemma ContactsHeard(c: Cluster, ip: Ip, contacts: seq<Ip>, maxima: map<nat, nat>)
    requires Distinct(c) && ip !in c.nodes && contacts != [] && forall p :: p in contacts ==> p in c.nodes
    requires forall id :: id in maxima ==> IsContact(c, contacts, id)
    ensures var n0 := Contacted(c, Blank(ip), contacts);
      n0.neighbors != {} && Heard(n0, maxima) == maxima.Keys
    ensures |c.nodes| > 0
  {
    ContactedShape(c, Blank(ip), contacts);
    NoNeighbors(c, ip, contacts);
    assert contacts[0] in c.nodes;
    SomeMember(c.nodes, contacts[0]);
  }

  /** Every answer counts. */
  lemma AllHeard(w: seq<Cluster>, ip: Ip, r: Reach)
    requires Window(w) && Good(w[0]) && ip !in Last(w).nodes && Reachable(w, r) && r.contacts != []
    ensures var n0 := Contacted(Last(w), Blank(ip), r.contacts);
      n0.neighbors != {} && Heard(n0, r.maxima) == r.maxima.Keys
    ensures |Last(w).nodes| > 0 && forall id :: id in r.maxima ==> r.maxima[id] <= |Last(w).nodes|
  {
    forall id | id in r.maxima ensures r.maxima[id] <= |Last(w).nodes| && IsContact(Last(w), r.contacts, id) {
      var p := MaximumHeard(w, r, id);
    }
    WindowGood(w, |w| - 1);
    ContactsHeard(Last(w), ip, r.contacts, r.maxima);
  }

  /** One more than the highest of answers that do not exceed `size`. */
  lemma NumberUpTo(n0: Node, answers: map<nat, nat>, size: nat, n1: Node)
    requires n0.neighbors != {} && Heard(n0, answers) == answers.Keys && Numbered(n0, answers, n1)
    requires 0 < size && size + 1 < ID_RANGE && forall id :: id in answers ==> answers[id] <= size
    ensures n1 == n0.(id := n1.id, max := n1.max) && n1.id == n1.max >= 1
    ensures if Reached(answers, size) then n1.id == size + 1 else n1.id <= size
  {
    var m: nat :| Highest(m, answers, Heard(n0, answers)) && n1 == Renumbered(n0, m);
  }

  /** The number a joiner takes is new exactly when it has heard the latest. */
  lemma JoinNumber(w: seq<Cluster>, ip: Ip, r: Reach, n1: Node)
    requires Window(w) && Good(w[0]) && ip !in Last(w).nodes && Reachable(w, r)
    requires r.contacts != [] && |Last(w).nodes| + 1 < ID_RANGE
    requires Numbered(Contacted(Last(w), Blank(ip), r.contacts), r.maxima, n1)
    ensures n1 == Contacted(Last(w), Blank(ip), r.contacts).(id := n1.id, max := n1.max) && n1.id == n1.max >= 1
    ensures if HeardLatest(w, r) then n1.id == |Last(w).nodes| + 1 else n1.id <= |Last(w).nodes|
  {
    AllHeard(w, ip, r);
    NumberUpTo(Contacted(Last(w), Blank(ip), r.contacts), r.maxima, |Last(w).nodes|, n1);
  }

  lemma SomeMember<K, V>(m: map<K, V>, k: K)
    requires k in m
    ensures |m| > 0
  {
  }

  ghost predicate Named(rows: seq<Row>, q: Ip) { exists row :: row in rows && row.ip == q }

  /** The peer `id` knew the member at `q` as it answered. */
  ghost predicate Told(w: seq<Cluster>, r: Reach, id: nat, q: Ip)
    requires id in r.tables
  {
    exists i: nat, p :: TableAt(w, r.contacts, i, p, id, r.tables[id]) && q in w[i].nodes && Knows(w[i], p, q)
  }

  /** Rows with distinct IDs that name members at their addresses. */
  ghost predicate TrueRows(c: Cluster, rows: seq<Row>)
  {
    && (forall i, j :: 0 <= i < j < |rows| ==> rows[i].id != rows[j].id)
    && forall row :: row in rows ==> row.ip in c.nodes && c.nodes[row.ip].id == row.id
  }

  /** What a good node answers decodes to rows that name exactly the members it knows. */
  lemma AnswerRows(c: Cluster, p: Ip, data: seq<byte>) returns (rows: seq<Row>)
    requires Good(c) && |c.nodes| + 1 < ID_RANGE && p in c.nodes && AnswersTable(c.nodes[p], data)
    ensures Rows(data) == Some(rows) && TrueRows(c, rows)
    ensures forall q :: q in c.nodes ==> (Knows(c, p, q) <==> Named(rows, q))
  {
    rows :| Lists(rows, c.nodes[p].table) && data == TableBytes(rows);
    Widths();
    assert Sane(c, |c.nodes|, p);
    forall row | row in rows ensures RowFits(row) && row.ip in c.nodes && c.nodes[row.ip].id == row.id {
      assert RightRow(c, p, row.id) && Sane(c, |c.nodes|, row.ip);
    }
    RowsOfTable(rows);
    forall q | q in c.nodes && Knows(c, p, q) ensures Named(rows, q) {
      assert HasID(rows, c.nodes[q].id);
      var row :| row in rows && row.id == c.nodes[q].id;
    }
  }

  lemma SameTrueRows(c: Cluster, d: Cluster, rows: seq<Row>)
    requires SameMembers(c, d) && TrueRows(c, rows)
    ensures TrueRows(d, rows)
  {
  }

  /** The answer at moment `i`, seen from the end of the window. */
  lemma RowsAt(w: seq<Cluster>, r: Reach, i: nat, p: Ip, id: nat) returns (rows: seq<Row>)
    requires Window(w) && Good(w[0]) && |Last(w).nodes| + 1 < ID_RANGE
    requires id in r.tables && TableAt(w, r.contacts, i, p, id, r.tables[id])
    ensures Rows(r.tables[id]) == Some(rows) && TrueRows(Last(w), rows)
    ensures SameMembers(Last(w), w[i])
    ensures forall q :: q in w[i].nodes ==> (Knows(w[i], p, q) <==> Named(rows, q))
  {
    SeenFromEnd(w, i);
    rows := AnswerRows(w[i], p, r.tables[id]);
    SameTrueRows(w[i], Last(w), rows);
  }

  lemma ToldNames(w: seq<Cluster>, r: Reach, id: nat, q: Ip, rows: seq<Row>)
    requires Window(w) && Good(w[0]) && id in r.tables && |Last(w).nodes| + 1 < ID_RANGE
    requires Told(w, r, id, q) && Rows(r.tables[id]) == Some(rows)
    ensures Named(rows, q)
  {
    var i: nat, p :| TableAt(w, r.contacts, i, p, id, r.tables[id]) && q in w[i].nodes && Knows(w[i], p, q);
    var same := RowsAt(w, r, i, p, id);
  }

  /** Whatever the moment of the answer was, its rows name exactly the members it told of. */
  lemma ToldRows(w: seq<Cluster>, r: Reach, id: nat) returns (rows: seq<Row>)
    requires Window(w) && Good(w[0]) && Reachable(w, r) && id in r.tables && |Last(w).nodes| + 1 < ID_RANGE
    ensures Rows(r.tables[id]) == Some(rows) && TrueRows(Last(w), rows)
    ensures forall q :: q in Last(w).nodes ==> (Told(w, r, id, q) <==> Named(rows, q))
  {
    var i0: nat, p0 :| TableAt(w, r.contacts, i0, p0, id, r.tables[id]);
    rows := RowsAt(w, r, i0, p0, id);
    forall q | q in Last(w).nodes ensures Told(w, r, id, q) <==> Named(rows, q) {
      assert q in w[i0].nodes;
      if Told(w, r, id, q) {
        ToldNames(w, r, id, q, rows);
      }
    }
  }

  /** Merging true rows into true rows: true rows, and just the members named by either. */
  lemma MergedTable(c: Cluster, n1: Node, rows: seq<Row>)
    requires Distinct(c) && n1.ip !in c.nodes && TrueRows(c, rows)
    requires forall id :: id in n1.table ==> TrueRow(c, id, n1.table[id])
    ensures var n := Merge(n1, rows);
      && n.id == n1.id && n.max == n1.max && n.ip == n1.ip
      && (forall id :: id in n.table ==> TrueRow(c, id, n.table[id]))
      && (forall q :: q in c.nodes ==> (HasRow(c, n, q) <==> HasRow(c, n1, q) || Named(rows, q)))
  {
    var n := Merge(n1, rows);
    MergeRows(n1, rows);
    forall id | id in n.table ensures TrueRow(c, id, n.table[id]) {
      if row :| row in rows && row.id == id {
      }
    }
    forall q | q in c.nodes ensures HasRow(c, n, q) <==> HasRow(c, n1, q) || Named(rows, q) {
      var id := c.nodes[q].id;
      if row :| row in rows && row.id == id {
        assert row.ip == q;
      }
    }
  }

  /** Every member was contacted, or the peer whose rows came in knew of it. */
  ghost predicate HeardAll(w: seq<Cluster>, r: Reach)
    requires w != [] && (r.from.Some? ==> r.from.value in r.tables)
  {
    forall q :: q in Last(w).nodes ==> q in r.contacts || (r.from.Some? && Told(w, r, r.from.value, q))
  }

  ghost predicate Complete(c: Cluster, n: Node) { forall q :: q in c.nodes ==> HasRow(c, n, q) }

  ghost predicate AllTrue(c: Cluster, n: Node) { forall id :: id in n.table ==> TrueRow(c, id, n.table[id]) }

  lemma ContactRows(c: Cluster, ip: Ip, contacts: seq<Ip>, n1: Node)
    requires (forall p :: p in contacts ==> p in c.nodes) && Distinct(c)
    requires n1 == Contacted(c, Blank(ip), contacts).(id := n1.id, max := n1.max)
    ensures n1.ip == ip && AllTrue(c, n1) && forall q :: q in c.nodes ==> (HasRow(c, n1, q) <==> q in contacts)
  {
    ContactedShape(c, Blank(ip), contacts);
  }

  /** The joiner's table is always true; it is complete exactly when it has heard of all. */
  lemma JoinTable(w: seq<Cluster>, ip: Ip, r: Reach, n1: Node, n: Node)
    requires Window(w) && Good(w[0]) && ip !in Last(w).nodes && Reachable(w, r) && |Last(w).nodes| + 1 < ID_RANGE
    requires n1 == Contacted(Last(w), Blank(ip), r.contacts).(id := n1.id, max := n1.max)
    requires Merged(n1, r.tables, r.from, n)
    ensures n.id == n1.id && n.max == n1.max && n.ip == ip && AllTrue(Last(w), n)
    ensures r.from.Some? ==> r.from.value in r.tables
    ensures Complete(Last(w), n) <==> HeardAll(w, r)
  {
    var c := Last(w);
    WindowGood(w, |w| - 1);
    ContactRows(c, ip, r.contacts, n1);
    if r.from.Some? {
      var rows := ToldRows(w, r, r.from.value);
      MergedTable(c, n1, rows);
    }
  }

  /** A join that hears of the latest announcement and of every member. */
  ghost predicate Heeded(w: seq<Cluster>, r: Reach)
    requires w != [] && (r.from.Some? ==> r.from.value in r.tables)
  {
    (Last(w).nodes == map[] || HeardLatest(w, r)) && HeardAll(w, r)
  }

  lemma NobodyThere(w: seq<Cluster>, r: Reach)
    requires w != [] && Reachable(w, r)
    ensures r.contacts == [] ==> r.maxima == map[] && r.tables == map[]
    ensures Last(w).nodes == map[] ==> r.contacts == []
  {
    assert r.contacts != [] ==> r.contacts[0] in Last(w).nodes;
  }

  /** What any join comes to. */
  lemma Joined(w: seq<Cluster>, ip: Ip, r: Reach, n: Node, c': Cluster)
    requires Join(w, ip, r, n, c') && Good(w[0]) && |Last(w).nodes| + 1 < ID_RANGE
    ensures Good(Last(w)) && |Last(w).nodes| == |w[0].nodes|
    ensures n.ip == ip && n.id == n.max >= 1 && AllTrue(Last(w), n)
    ensures r.from.Some? ==> r.from.value in r.tables
    ensures Complete(Last(w), n) <==> HeardAll(w, r)
    ensures if Last(w).nodes == map[] || HeardLatest(w, r) then n.id == |Last(w).nodes| + 1 else n.id <= |Last(w).nodes|
  {
    var c := Last(w);
    var n0 := Contacted(c, Blank(ip), r.contacts);
    WindowGood(w, |w| - 1);
    NoNeighbors(c, ip, r.contacts);
    NobodyThere(w, r);
    if r.contacts == [] {
      assert n == Node(1, 1, ip, map[], {});
      if q :| q in c.nodes {
        SomeMember(c.nodes, q);
      }
    } else {
      var n1 :| Numbered(n0, r.maxima, n1) && Merged(n1, r.tables, r.from, n);
      JoinNumber(w, ip, r, n1);
      JoinTable(w, ip, r, n1, n);
    }
  }

  // ---- Joining keeps it ----

  lemma EnterSane(c: Cluster, ip: Ip, n: Node, c': Cluster, p: Ip)
    requires Good(c) && ip !in c.nodes && |ip| < Pow256(8) && c'.nodes == c.nodes[ip := n] && p in c'.nodes
    requires n.ip == ip && n.id == n.max == |c.nodes| + 1 && AllTrue(c, n)
    ensures Sane(c', |c.nodes| + 1, p)
  {
    if p != ip {
      assert Sane(c, |c.nodes|, p);
      forall id | id in c'.nodes[p].table ensures RightRow(c', p, id) && id <= c'.nodes[p].max {
        assert RightRow(c, p, id);
      }
    } else {
      forall id | id in n.table ensures RightRow(c', ip, id) && id <= n.max {
        assert TrueRow(c, id, n.table[id]) && Sane(c, |c.nodes|, n.table[id].ip);
      }
    }
  }

  lemma EnterDistinct(c: Cluster, ip: Ip, n: Node, c': Cluster)
    requires Good(c) && ip !in c.nodes && c'.nodes == c.nodes[ip := n] && n.id == |c.nodes| + 1
    ensures Distinct(c') && forall id :: 1 <= id <= |c.nodes| + 1 ==> IsTaken(c', id)
  {
    forall p | p in c.nodes ensures c.nodes[p].id != n.id {
      assert Sane(c, |c.nodes|, p);
    }
    forall id | 1 <= id <= |c.nodes| + 1 ensures IsTaken(c', id) {
      if id <= |c.nodes| {
        assert IsTaken(c, id);
        var p :| p in c.nodes && c.nodes[p].id == id;
        assert c'.nodes[p].id == id;
      } else {
        assert c'.nodes[ip].id == id;
      }
    }
  }

  lemma EnterInformed(c: Cluster, ip: Ip, n: Node, c': Cluster)
    requires Informed(c) && ip !in c.nodes && Complete(c, n)
    requires c' == Cluster(c.nodes[ip := n], c.inflight + Announced(n)) && n.ip == ip && n.id == n.max
    ensures Informed(c')
  {
    forall p | p in c.nodes ensures Pending(c', p, ip) {
      assert HasRow(c, n, p);
      assert Update(n.table[c.nodes[p].id].ip, n.id, n.max, n.ip) in Announced(n);
    }
    forall p, q | p in c'.nodes && q in c'.nodes && p != q ensures Covered(c', p, q) {
      if p != ip && q != ip {
        assert Covered(c, p, q);
      } else if p == ip {
        assert HasRow(c, n, q);
      }
    }
  }

  lemma EnterTrue(c: Cluster, ip: Ip, n: Node, c': Cluster, u: Update)
    requires Good(c) && ip !in c.nodes && AllTrue(c, n) && n.ip == ip && n.id == n.max
    requires c' == Cluster(c.nodes[ip := n], c.inflight + Announced(n)) && u in c'.inflight
    ensures TrueMessage(c', u)
  {
    if u in c.inflight {
      assert TrueMessage(c, u);
    } else {
      var id :| id in n.table && u == Update(n.table[id].ip, n.id, n.max, n.ip);
      assert TrueRow(c, id, n.table[id]);
    }
  }

  /** A joiner with the next number and a complete, true table, announced to all: the cluster is good again. */
  lemma EnterGood(c: Cluster, ip: Ip, n: Node, c': Cluster)
    requires Good(c) && ip !in c.nodes && |ip| < Pow256(8)
    requires c' == Cluster(c.nodes[ip := n], c.inflight + Announced(n))
    requires n.ip == ip && n.id == n.max == |c.nodes| + 1 && AllTrue(c, n) && Complete(c, n)
    ensures |c'.nodes| == |c.nodes| + 1 && Good(c')
  {
    assert |c'.nodes| == |c.nodes| + 1;
    forall p | p in c'.nodes ensures Sane(c', |c.nodes| + 1, p) {
      EnterSane(c, ip, n, c', p);
    }
    EnterDistinct(c, ip, n, c');
    EnterInformed(c, ip, n, c');
    forall u | u in c'.inflight ensures TrueMessage(c', u) {
      EnterTrue(c, ip, n, c', u);
    }
  }

  /** A join that is heeded keeps the invariant, with any number of earlier announcements still on their way. */
  lemma JoinGood(w: seq<Cluster>, ip: Ip, r: Reach, n: Node, c': Cluster)
    requires Join(w, ip, r, n, c') && Good(w[0]) && |Last(w).nodes| + 1 < ID_RANGE
    requires (r.from.Some? ==> r.from.value in r.tables) && Heeded(w, r)
    ensures |c'.nodes| == |w[0].nodes| + 1 && Good(c')
  {
    Joined(w, ip, r, n, c');
    EnterGood(Last(w), ip, n, c');
  }

  // ---- Exactly when a join is right ----

  /** The joiner's ID is new exactly when some peer that it asked had seen the announcement of every member. */
  lemma JoinFreshIff(w: seq<Cluster>, ip: Ip, r: Reach, n: Node, c': Cluster)
    requires Join(w, ip, r, n, c') && Good(w[0]) && |Last(w).nodes| + 1 < ID_RANGE
    ensures !IsTaken(Last(w), n.id) <==> Last(w).nodes == map[] || HeardLatest(w, r)
  {
    var c := Last(w);
    Joined(w, ip, r, n, c');
    assert n.id <= |c.nodes| ==> IsTaken(c, n.id);
    NoneBeyond(c);
  }

  lemma NoneBeyond(c: Cluster)
    requires Good(c)
    ensures forall id :: id > |c.nodes| ==> !IsTaken(c, id)
  {
    forall p | p in c.nodes ensures c.nodes[p].id <= |c.nodes| {
      assert Sane(c, |c.nodes|, p);
    }
  }

  /** Its table has every member exactly when each was contacted, or known to the peer whose rows came in. */
  lemma JoinCompleteIff(w: seq<Cluster>, ip: Ip, r: Reach, n: Node, c': Cluster)
    requires Join(w, ip, r, n, c') && Good(w[0]) && |Last(w).nodes| + 1 < ID_RANGE
    ensures r.from.Some? ==> r.from.value in r.tables
    ensures Complete(Last(w), n) <==> HeardAll(w, r)
  {
    Joined(w, ip, r, n, c');
  }

  // ---- Runs ----

  /** A heeded join within the ID range, made while any number of messages arrive. */
  ghost predicate HeededJoin(w: seq<Cluster>, ip: Ip, r: Reach, n: Node, c': Cluster)
  {
    && Join(w, ip, r, n, c') && |Last(w).nodes| + 1 < ID_RANGE
    && (r.from.Some? ==> r.from.value in r.tables) && Heeded(w, r)
  }

  ghost predicate Next(c: Cluster, c': Cluster)
  {
    Arrives(c, c') || exists w, ip, r, n :: HeededJoin(w, ip, r, n, c') && w[0] == c
  }

  ghost predicate IsRun(run: seq<Cluster>)
  {
    && run != [] && run[0] == BOOT
    && forall i :: 0 < i < |run| ==> Next(run[i - 1], run[i])
  }

  /** Every state of every run is good; a state with nothing in flight agrees on IDs, tables and the maximum. */
  lemma {:induction false} RunGood(run: seq<Cluster>, i: nat)
    requires IsRun(run) && i < |run|
    ensures Good(run[i])
    ensures run[i].inflight == {} ==> Agreed(run[i])
    decreases i
  {
    if i == 0 {
      BootGood();
    } else {
      RunGood(run, i - 1);
      var c, c' := run[i - 1], run[i];
      if Arrives(c, c') {
        var u :| Deliver(c, u, c');
        DeliverGood(c, u, c');
      } else {
        var w, ip, r, n :| HeededJoin(w, ip, r, n, c') && w[0] == c;
        JoinGood(w, ip, r, n, c');
      }
    }
    if run[i].inflight == {} {
      QuietAgrees(run[i]);
    }
  }

  // ---- Joins that reach a settled member ----

  /** Nothing is on its way to `p`. */
  ghost predicate Settled(c: Cluster, p: Ip) { forall u :: u in c.inflight ==> u.dest != p }

  lemma {:induction false} SettledStays(w: seq<Cluster>, i: nat, p: Ip)
    requires Window(w) && i < |w| && Settled(w[0], p)
    ensures Settled(w[i], p)
  {
    if i > 0 {
      SettledStays(w, i - 1, p);
      assert ArrivesAt(w, i);
    }
  }

  /** A settled member has seen every announcement. */
  lemma SettledKnows(c: Cluster, p: Ip)
    requires Good(c) && p in c.nodes && Settled(c, p)
    ensures c.nodes[p].max == |c.nodes| && forall q :: q in c.nodes && q != p ==> Knows(c, p, q)
  {
    forall q | q in c.nodes && q != p ensures Knows(c, p, q) {
      assert Covered(c, p, q);
    }
    SomeMember(c.nodes, p);
    assert Sane(c, |c.nodes|, p) && IsTaken(c, |c.nodes|);
    LatestSeen(c, p);
  }

  lemma SettledMaximum(w: seq<Cluster>, r: Reach, id: nat)
    requires Window(w) && Good(w[0]) && Reachable(w, r) && id in r.maxima
    requires forall p :: p in r.contacts ==> Settled(w[0], p)
    ensures r.maxima[id] == |Last(w).nodes|
  {
    var i: nat, p :| MaxAt(w, r.contacts, i, p, id, r.maxima[id]);
    SeenFromEnd(w, i);
    SettledStays(w, i, p);
    SettledKnows(w[i], p);
  }

  /** A contact that answers with its table tells of all the others. */
  lemma SettledTells(w: seq<Cluster>, r: Reach, id: nat) returns (p: Ip)
    requires Window(w) && Good(w[0]) && Reachable(w, r) && id in r.tables
    requires forall p :: p in r.contacts ==> Settled(w[0], p)
    ensures p in r.contacts && p in Last(w).nodes && Last(w).nodes[p].id == id
    ensures forall q :: q in Last(w).nodes && q != p ==> Told(w, r, id, q)
  {
    var i: nat, o :| TableAt(w, r.contacts, i, o, id, r.tables[id]);
    p := o;
    SeenFromEnd(w, i);
    SettledStays(w, i, p);
    SettledKnows(w[i], p);
    forall q | q in Last(w).nodes && q != p ensures Told(w, r, id, q) {
      assert q in w[i].nodes && Knows(w[i], p, q);
    }
  }

  /** Its rows name them. */
  lemma SettledRows(w: seq<Cluster>, r: Reach, id: nat) returns (p: Ip, rows: seq<Row>)
    requires Window(w) && Good(w[0]) && Reachable(w, r) && id in r.tables && |Last(w).nodes| + 1 < ID_RANGE
    requires forall p :: p in r.contacts ==> Settled(w[0], p)
    ensures p in r.contacts && p in Last(w).nodes && Last(w).nodes[p].id == id
    ensures Rows(r.tables[id]) == Some(rows) && TrueRows(Last(w), rows)
    ensures forall q :: q in Last(w).nodes && q != p ==> Named(rows, q)
  {
    p := SettledTells(w, r, id);
    rows := ToldRows(w, r, id);
  }

  lemma StaysDistinct(w: seq<Cluster>)
    requires Window(w) && Good(w[0])
    ensures Distinct(Last(w))
  {
    WindowGood(w, |w| - 1);
  }

  lemma ContactListed(c: Cluster, ip: Ip, contacts: seq<Ip>, n1: Node, p: Ip)
    requires (forall p :: p in contacts ==> p in c.nodes) && Distinct(c) && p in contacts
    requires n1 == Contacted(c, Blank(ip), contacts).(id := n1.id, max := n1.max)
    ensures n1.ip == ip && c.nodes[p].id in n1.table
  {
    ContactRows(c, ip, contacts, n1);
    assert HasRow(c, n1, p);
  }

  lemma NobodyNamed(c: Cluster, ip: Ip, n1: Node, rows: seq<Row>, p: Ip)
    requires TrueRows(c, rows) && ip !in c.nodes && n1.ip == ip && !Adds(n1, rows)
    requires forall q :: q in c.nodes && q != p ==> Named(rows, q)
    ensures forall q :: q in c.nodes ==> q == p
  {
    AddsSome(n1, rows);
  }

  /** Rows that add nothing come from the only member. */
  lemma NothingTold(w: seq<Cluster>, ip: Ip, r: Reach, n1: Node, n: Node)
    requires Window(w) && Good(w[0]) && ip !in Last(w).nodes && Reachable(w, r) && |Last(w).nodes| + 1 < ID_RANGE
    requires forall p :: p in r.contacts ==> Settled(w[0], p)
    requires n1 == Contacted(Last(w), Blank(ip), r.contacts).(id := n1.id, max := n1.max)
    requires Merged(n1, r.tables, None, n) && r.tables != map[]
    ensures CoversAll(w, r)
  {
    var id :| id in r.tables;
    var p, rows := SettledRows(w, r, id);
    StaysDistinct(w);
    ContactListed(Last(w), ip, r.contacts, n1, p);
    NobodyNamed(Last(w), ip, n1, rows, p);
  }

  ghost predicate CoversAll(w: seq<Cluster>, r: Reach)
    requires w != []
  {
    forall q :: q in Last(w).nodes ==> q in r.contacts
  }

  /** With settled contacts it is enough that one of them answers with its table, or that there are no others. */
  lemma SettledAll(w: seq<Cluster>, ip: Ip, r: Reach, n: Node, c': Cluster)
    requires Join(w, ip, r, n, c') && Good(w[0]) && |Last(w).nodes| + 1 < ID_RANGE
    requires forall p :: p in r.contacts ==> Settled(w[0], p)
    ensures r.from.Some? ==> r.from.value in r.tables
    ensures HeardAll(w, r) <==> r.tables != map[] || CoversAll(w, r)
  {
    Joined(w, ip, r, n, c');
    if r.from.Some? {
      var p := SettledTells(w, r, r.from.value);
    } else if r.tables != map[] {
      WindowGood(w, |w| - 1);
      NoNeighbors(Last(w), ip, r.contacts);
      NobodyThere(w, r);
      var n1 :| Numbered(Contacted(Last(w), Blank(ip), r.contacts), r.maxima, n1) && Merged(n1, r.tables, None, n);
      JoinNumber(w, ip, r, n1);
      NothingTold(w, ip, r, n1, n);
    }
  }

  /** Of the members it reaches one answers about the maximum, and one with its table unless it has reached all. */
  ghost predicate Answered(w: seq<Cluster>, r: Reach)
    requires w != []
  {
    Last(w).nodes == map[] || (r.maxima != map[] && (r.tables != map[] || CoversAll(w, r)))
  }

  /** So with settled contacts a join is heeded exactly when it is answered, whatever the answers say. */
  lemma SettledHeedsIff(w: seq<Cluster>, ip: Ip, r: Reach, n: Node, c': Cluster)
    requires Join(w, ip, r, n, c') && Good(w[0]) && |Last(w).nodes| + 1 < ID_RANGE
    requires forall p :: p in r.contacts ==> Settled(w[0], p)
    ensures r.from.Some? ==> r.from.value in r.tables
    ensures Heeded(w, r) <==> Answered(w, r)
  {
    SettledAll(w, ip, r, n, c');
    if r.maxima != map[] {
      var id :| id in r.maxima;
      SettledMaximum(w, r, id);
      assert Reached(r.maxima, |Last(w).nodes|);
    }
  }

  /** A join whose contacts have nothing on its way to them as it starts, and which is answered. */
  ghost predicate SettledJoin(w: seq<Cluster>, ip: Ip, r: Reach, n: Node, c': Cluster)
  {
    && Join(w, ip, r, n, c') && |Last(w).nodes| + 1 < ID_RANGE
    && (forall p :: p in r.contacts ==> Settled(w[0], p)) && Answered(w, r)
  }

  /** It gets the next number, which is new, and a complete table, and leaves the cluster good. */
  lemma SettledJoinRight(w: seq<Cluster>, ip: Ip, r: Reach, n: Node, c': Cluster)
    requires SettledJoin(w, ip, r, n, c') && Good(w[0])
    ensures HeededJoin(w, ip, r, n, c')
    ensures n.id == |w[0].nodes| + 1 && !IsTaken(Last(w), n.id) && Complete(Last(w), n) && AllTrue(Last(w), n)
    ensures Good(c') && |c'.nodes| == |w[0].nodes| + 1
  {
    SettledHeedsIff(w, ip, r, n, c');
    Joined(w, ip, r, n, c');
    JoinFreshIff(w, ip, r, n, c');
    JoinGood(w, ip, r, n, c');
  }

  ghost predicate SettledNext(c: Cluster, c': Cluster)
  {
    Arrives(c, c') || exists w, ip, r, n :: SettledJoin(w, ip, r, n, c') && w[0] == c
  }

  ghost predicate SettledAt(run: seq<Cluster>, i: nat)
    requires 0 < i < |run|
  {
    SettledNext(run[i - 1], run[i])
  }

  ghost predicate IsSettledRun(run: seq<Cluster>)
  {
    run != [] && run[0] == BOOT && forall i :: 0 < i < |run| ==> SettledAt(run, i)
  }

  /**
   * A run of deliveries and of such joins: every state is good, so that all IDs are distinct, and a state with nothing
   * in flight agrees.
   */
  lemma {:induction false} SettledRunGood(run: seq<Cluster>, i: nat)
    requires IsSettledRun(run) && i < |run|
    ensures Good(run[i])
    ensures run[i].inflight == {} ==> Agreed(run[i])
    decreases i
  {
    if i == 0 {
      BootGood();
    } else {
      SettledRunGood(run, i - 1);
      assert SettledAt(run, i);
      SettledStepGood(run[i - 1], run[i]);
    }
    if run[i].inflight == {} {
      QuietAgrees(run[i]);
    }
  }

  lemma SettledStepGood(c: Cluster, c': Cluster)
    requires Good(c) && SettledNext(c, c')
    ensures Good(c')
  {
    if Arrives(c, c') {
      var u :| Deliver(c, u, c');
      DeliverGood(c, u, c');
    } else {
      var w, ip, r, n :| SettledJoin(w, ip, r, n, c') && w[0] == c;
      SettledJoinRight(w, ip, r, n, c');
    }
  }

  // ---- Such joins are always possible ----

  /** From every good state some deliveries leave nothing in flight. */
  lemma {:induction false} Settles(c: Cluster) returns (w: seq<Cluster>)
    requires Good(c)
    ensures Window(w) && w[0] == c && Last(w).inflight == {} && Good(Last(w)) && SameMembers(c, Last(w))
    decreases |c.inflight|
  {
    if c.inflight == {} {
      w := [c];
    } else {
      var u :| u in c.inflight;
      assert TrueMessage(c, u);
      var next := Cluster(c.nodes[u.dest := OnUpdate(c.nodes[u.dest], u.src, u.max, u.ip)], c.inflight - {u});
      assert Deliver(c, u, next);
      DeliverGood(c, u, next);
      var rest := Settles(next);
      w := [c] + rest;
      WindowFront(c, rest);
    }
  }

  lemma WindowFront(c: Cluster, rest: seq<Cluster>)
    requires Window(rest) && Arrives(c, rest[0])
    ensures Window([c] + rest)
  {
    var w := [c] + rest;
    forall i | 0 < i < |w| ensures ArrivesAt(w, i) {
      assert i > 1 ==> ArrivesAt(rest, i - 1);
    }
  }

  /** Every routing table can be listed. */
  lemma {:induction false} TableListed(table: map<nat, Route>) returns (rows: seq<Row>)
    ensures Lists(rows, table)
    decreases |table|
  {
    if table == map[] {
      rows := [];
    } else {
      var id :| id in table;
      var rest := table - {id};
      assert rest.Keys == table.Keys - {id} && |rest.Keys| == |rest| && |table.Keys| == |table|;
      var front := TableListed(rest);
      var row := Row(id, table[id].ip, table[id].d);
      rows := front + [row];
      HasIDAppend(front, row);
    }
  }

  /** What a joiner with the one contact `p` hears in a quiet cluster. */
  function FromP(c: Cluster, p: Ip, data: seq<byte>, adds: bool): Reach
    requires p in c.nodes
  {
    var id := c.nodes[p].id;
    Reach([p], map[id := |c.nodes|], map[id := data], if adds then Some(id) else None)
  }

  lemma OneContact(c: Cluster, ip: Ip, p: Ip)
    requires p in c.nodes && p != ip
    ensures var id, n0 := c.nodes[p].id, Contacted(c, Blank(ip), [p]);
      && n0 == Node(0, 0, ip, map[id := Route(p, 1)], {id})
      && forall max :: Numbered(n0, map[id := max], Renumbered(n0, max))
  {
    var id, n0 := c.nodes[p].id, Contacted(c, Blank(ip), [p]);
    assert [p][..0] == [] && Contacted(c, Blank(ip), []) == Blank(ip);
    forall max: nat ensures Numbered(n0, map[id := max], Renumbered(n0, max)) {
      assert Heard(n0, map[id := max]) == {id};
      assert Highest(max, map[id := max], {id});
    }
  }

  /** Who reaches any one member of a quiet cluster can join it. */
  lemma AnyoneJoins(c: Cluster, p: Ip, ip: Ip) returns (r: Reach, n: Node, c': Cluster)
    requires Good(c) && c.inflight == {} && p in c.nodes && ip !in c.nodes && |ip| < Pow256(8)
    requires |c.nodes| + 1 < ID_RANGE
    ensures r.contacts == [p] && SettledJoin([c], ip, r, n, c') && c'.nodes.Keys == c.nodes.Keys + {ip}
  {
    var listed := TableListed(c.nodes[p].table);
    var data := TableBytes(listed);
    assert AnswersTable(c.nodes[p], data);
    var rows := AnswerRows(c, p, data);
    var adds;
    n, adds := NodeFromP(c, p, ip, data, rows);
    r := FromP(c, p, data, adds);
    PAnswers(c, p, ip, r, data);
    c' := Cluster(c.nodes[ip := n], c.inflight + Announced(n));
  }

  /** What the joiner makes of it. */
  lemma NodeFromP(c: Cluster, p: Ip, ip: Ip, data: seq<byte>, rows: seq<Row>) returns (n: Node, adds: bool)
    requires p in c.nodes && p != ip && Rows(data) == Some(rows)
    ensures Initialised(c, ip, FromP(c, p, data, adds), n)
  {
    var n0 := Contacted(c, Blank(ip), [p]);
    var n1 := Renumbered(n0, |c.nodes|);
    OneContact(c, ip, p);
    adds := Adds(n1, rows);
    n := if adds then Merge(n1, rows) else n1;
    var r := FromP(c, p, data, adds);
    assert Merged(n1, r.tables, r.from, n);
  }

  /** What is heard from `p` is true, and enough. */
  lemma PAnswers(c: Cluster, p: Ip, ip: Ip, r: Reach, data: seq<byte>)
    requires Good(c) && c.inflight == {} && p in c.nodes && AnswersTable(c.nodes[p], data)
    requires r == FromP(c, p, data, r.from.Some?)
    ensures Last([c]) == c && Reachable([c], r) && Answered([c], r) && Settled([c][0], p)
  {
    var id := c.nodes[p].id;
    SettledKnows(c, p);
    assert MaxAt([c], r.contacts, 0, p, id, |c.nodes|) && TableAt([c], r.contacts, 0, p, id, data);
    assert id in r.maxima && id in r.tables;
  }

  lemma OneStep(c: Cluster, ip: Ip, r: Reach, n: Node, c': Cluster)
    requires SettledJoin([c], ip, r, n, c') && Good(c)
    ensures SettledNext(c, c') && Good(c') && |c'.nodes| == |c.nodes| + 1
  {
    assert [c][0] == c;
    SettledJoinRight([c], ip, r, n, c');
  }

  lemma Founded(ip: Ip) returns (c': Cluster)
    requires |ip| < Pow256(8)
    ensures SettledNext(BOOT, c') && Good(c') && c'.nodes.Keys == {ip} && |c'.nodes| == 1
  {
    c' := Cluster(map[ip := Alone(ip)], {});
    FirstJoins(ip);
    BootGood();
    OneStep(BOOT, ip, Reach([], map[], map[], None), Alone(ip), c');
  }

  /** The next machine of the list, which asks the first one. */
  lemma OneMore(c: Cluster, front: seq<Ip>, ip: Ip) returns (c': Cluster)
    requires Good(c) && c.inflight == {} && c.nodes.Keys == ToSet(front) && |c.nodes| == |front|
    requires ip !in front && |ip| < Pow256(8) && |front| + 1 < ID_RANGE && (front == [] ==> c == BOOT)
    ensures SettledNext(c, c') && Good(c')
    ensures c'.nodes.Keys == ToSet(front + [ip]) && |c'.nodes| == |front| + 1
  {
    assert ToSet(front + [ip]) == ToSet(front) + {ip};
    if front == [] {
      c' := Founded(ip);
    } else {
      assert front[0] in ToSet(front);
      var r, n;
      r, n, c' := AnyoneJoins(c, front[0], ip);
      OneStep(c, ip, r, n, c');
    }
  }

  lemma RunOn(run: seq<Cluster>, w: seq<Cluster>)
    requires IsSettledRun(run) && Window(w) && SettledNext(Last(run), w[0])
    ensures IsSettledRun(run + w) && Last(run + w) == Last(w)
  {
    var all := run + w;
    forall i | 0 < i < |all| ensures SettledAt(all, i) {
      if i < |run| {
        assert SettledAt(run, i);
      } else if i > |run| {
        assert ArrivesAt(w, i - |run|);
      }
    }
  }

  lemma OneMoreSettled(before: seq<Cluster>, front: seq<Ip>, ip: Ip) returns (run: seq<Cluster>)
    requires IsSettledRun(before) && Last(before).inflight == {}
    requires Last(before).nodes.Keys == ToSet(front) && |Last(before).nodes| == |front|
    requires ip !in front && |ip| < Pow256(8) && |front| + 1 < ID_RANGE && (front == [] ==> Last(before) == BOOT)
    ensures IsSettledRun(run) && Agreed(Last(run)) && Last(run).inflight == {}
    ensures Last(run).nodes.Keys == ToSet(front + [ip]) && |Last(run).nodes| == |front| + 1
  {
    SettledRunGood(before, |before| - 1);
    var joined := OneMore(Last(before), front, ip);
    var w := Settles(joined);
    run := before + w;
    RunOn(before, w);
    QuietAgrees(Last(w));
    SameSize(joined.nodes, Last(w).nodes);
  }

  /** Machines at any distinct addresses form a cluster in this way, and come to agree. */
  lemma {:induction false} ClusterForms(ips: seq<Ip>) returns (run: seq<Cluster>)
    requires NoDup(ips) && |ips| + 1 < ID_RANGE && forall ip :: ip in ips ==> |ip| < Pow256(8)
    ensures IsSettledRun(run) && Agreed(Last(run)) && Last(run).inflight == {}
    ensures Last(run).nodes.Keys == ToSet(ips) && |Last(run).nodes| == |ips|
    ensures ips == [] ==> Last(run) == BOOT
  {
    if ips == [] {
      run := [BOOT];
      BootGood();
      QuietAgrees(BOOT);
    } else {
      var front, ip := ips[..|ips| - 1], ips[|ips| - 1];
      assert ips == front + [ip];
      var before := ClusterForms(front);
      run := OneMoreSettled(before, front, ip);
    }
  }

  /** A third machine, in particular, which asks only the first once the second has been heard of there. */
  lemma ThirdJoins(a: Ip, b: Ip, z: Ip) returns (run: seq<Cluster>)
    requires a != b && z !in {a, b} && |a| < Pow256(8) && |b| < Pow256(8) && |z| < Pow256(8)
    ensures IsSettledRun(run) && Agreed(Last(run))
    ensures Last(run).nodes.Keys == {a, b, z} && forall p :: p in {a, b, z} ==> Last(run).nodes[p].max == 3
  {
    run := ClusterForms([a, b, z]);
    assert ToSet([a, b, z]) == {a, b, z};
  }

  /** A machine that comes back with its old ID is told it may keep it exactly when no other member has taken it. */
  lemma MayKeepIff(c: Cluster, asked: Ip, req: nat, ip: Ip)
    requires Agreed(c) && asked in c.nodes && c.nodes[asked].ip == asked && asked != ip
    ensures MayKeep(c.nodes[asked], req, ip) <==> forall p :: p in c.nodes && p != ip ==> c.nodes[p].id != req
  {
    var n := c.nodes[asked];
    if req in n.table {
      assert RightRow(c, asked, req);
      assert c.nodes[n.table[req].ip].id == req;
    }
    forall p | p in c.nodes && p != asked && c.nodes[p].id == req ensures req in n.table && n.table[req].ip == p {
      assert Knows(c, asked, p);
    }
  }

  /** The contact with this ID has this maximum. */
  ghost predicate MaxOf(c: Cluster, contacts: seq<Ip>, id: nat, max: nat)
  {
    exists p :: p in contacts && p in c.nodes && c.nodes[p].id == id && c.nodes[p].max == max
  }

  /**
   * A machine whose snapshot has the ID `had` comes up at `ip` again, and makes contact with members at other
   * addresses. `asked` is the one that answers whether the ID may be kept, if it does; `maxima` are the answers about
   * the maximum. It goes on as `n`.
   */
  ghost predicate Returns(c: Cluster, ip: Ip, had: nat, contacts: seq<Ip>, asked: Option<Ip>, maxima: map<nat, nat>,
      n: Node)
  {
    && (forall p :: p in contacts ==> p in c.nodes && p != ip)
    && (asked.Some? ==> asked.value in contacts)
    && (forall id :: id in maxima ==> MaxOf(c, contacts, id, maxima[id]))
    && (var check := if asked.None? then None
                     else Some((MayKeep(c.nodes[asked.value], had, ip), c.nodes[asked.value].max));
        Registered(Contacted(c, Node(had, 0, ip, map[], {}), contacts), check, maxima, n))
  }

  /** No member at another address has the ID. */
  ghost predicate FreeFor(c: Cluster, ip: Ip, id: nat) { forall p :: p in c.nodes && p != ip ==> c.nodes[p].id != id }

  /**
   * A machine that returns to a quiet cluster and is answered keeps its ID exactly when no other member has it. In
   * any case its ID is no other member's and its maximum the highest, when it may keep its ID or some contact tells
   * it the maximum.
   */
  lemma ReturnRight(c: Cluster, ip: Ip, had: nat, contacts: seq<Ip>, asked: Option<Ip>, maxima: map<nat, nat>, n: Node)
    requires Good(c) && c.inflight == {} && |c.nodes| + 1 < ID_RANGE && had > 0 && contacts != []
    requires Returns(c, ip, had, contacts, asked, maxima, n)
    ensures asked.Some? && maxima != map[] ==> (n.id == had <==> FreeFor(c, ip, had))
    ensures (asked.Some? && FreeFor(c, ip, had)) || maxima != map[] ==>
      FreeFor(c, ip, n.id) && n.id <= n.max && forall p :: p in c.nodes ==> c.nodes[p].max <= n.max
    ensures (asked.None? || !FreeFor(c, ip, had)) && maxima != map[] ==> n.id == |c.nodes| + 1
    ensures (asked.None? || !FreeFor(c, ip, had)) && maxima == map[] ==> n.id == 1
  {
    var n0 := Contacted(c, Node(had, 0, ip, map[], {}), contacts);
    QuietAgrees(c);
    ReturnerHeard(c, ip, had, contacts, maxima);
    BeyondFree(c, ip);
    if asked.Some? {
      AskedRight(c, asked.value, had, ip);
      RegisteredKeeps(n0, Some((MayKeep(c.nodes[asked.value], had, ip), c.nodes[asked.value].max)), maxima, n);
    } else {
      RegisteredKeeps(n0, None, maxima, n);
    }
    if asked.None? || !FreeFor(c, ip, had) {
      NumberOf(n0, maxima, |c.nodes|, n);
    }
  }

  lemma AskedRight(c: Cluster, asked: Ip, had: nat, ip: Ip)
    requires Good(c) && Agreed(c) && asked in c.nodes && asked != ip
    ensures MayKeep(c.nodes[asked], had, ip) <==> FreeFor(c, ip, had)
  {
    assert Sane(c, |c.nodes|, asked);
    MayKeepIff(c, asked, had, ip);
  }

  lemma BeyondFree(c: Cluster, ip: Ip)
    requires Good(c)
    ensures FreeFor(c, ip, |c.nodes| + 1)
  {
    NoneBeyond(c);
    forall p | p in c.nodes && p != ip ensures c.nodes[p].id != |c.nodes| + 1 {
      assert !IsTaken(c, |c.nodes| + 1);
    }
  }

  lemma ReturnerHeard(c: Cluster, ip: Ip, had: nat, contacts: seq<Ip>, maxima: map<nat, nat>)
    requires Agreed(c) && contacts != [] && forall p :: p in contacts ==> p in c.nodes && p != ip
    requires forall id :: id in maxima ==> MaxOf(c, contacts, id, maxima[id])
    ensures var n0 := Contacted(c, Node(had, 0, ip, map[], {}), contacts);
      n0.neighbors != {} && n0.id == had && Heard(n0, maxima) == maxima.Keys
    ensures |c.nodes| > 0 && forall id :: id in maxima ==> maxima[id] == |c.nodes|
  {
    ContactedShape(c, Node(had, 0, ip, map[], {}), contacts);
    assert contacts[0] in contacts;
    SomeMember(c.nodes, contacts[0]);
    forall id | id in maxima
      ensures maxima[id] == |c.nodes| && id in Heard(Contacted(c, Node(had, 0, ip, map[], {}), contacts), maxima)
    {
      var p :| p in contacts && p in c.nodes && c.nodes[p].id == id && c.nodes[p].max == maxima[id];
    }
  }

  /** Without any answer the number is 1. */
  lemma NumberOf(n0: Node, answers: map<nat, nat>, size: nat, n1: Node)
    requires n0.neighbors != {} && Heard(n0, answers) == answers.Keys && Numbered(n0, answers, n1)
    requires 0 < size && size + 1 < ID_RANGE && forall id :: id in answers ==> answers[id] == size
    ensures n1.id == n1.max == if answers == map[] then 1 else size + 1
  {
    var m: nat :| Highest(m, answers, Heard(n0, answers)) && n1 == Renumbered(n0, m);
    if answers != map[] {
      var id :| id in answers;
      assert id in answers.Keys;
    }
  }

  // ---- The first three machines ----

  function Alone(a: Ip): Node { Node(1, 1, a, map[], {}) }

  function Second(a: Ip, b: Ip): Node { Node(2, 2, b, map[1 := Route(a, 1)], {1}) }

  /** The second machine has joined, and the first has not heard of it yet. */
  function Two(a: Ip, b: Ip): Cluster { Cluster(map[a := Alone(a), b := Second(a, b)], {Update(a, 2, 2, b)}) }

  lemma FirstJoins(a: Ip)
    requires |a| < Pow256(8)
    ensures HeededJoin([BOOT], a, Reach([], map[], map[], None), Alone(a), Cluster(map[a := Alone(a)], {}))
  {
    var r := Reach([], map[], map[], None);
    assert Contacted(BOOT, Blank(a), r.contacts) == Blank(a);
    assert Announced(Alone(a)) == {};
    assert BOOT.nodes[a := Alone(a)] == map[a := Alone(a)];
    assert Last([BOOT]) == BOOT;
  }

  lemma FirstGood(a: Ip)
    requires |a| < Pow256(8)
    ensures Good(Cluster(map[a := Alone(a)], {}))
  {
    FirstJoins(a);
    BootGood();
    JoinGood([BOOT], a, Reach([], map[], map[], None), Alone(a), Cluster(map[a := Alone(a)], {}));
  }

  /** The one contact `a`, which answers the maximum `max` if it does, and an empty table. */
  function OnlyA(a: Ip, maxima: map<nat, nat>): Reach { Reach([a], maxima, map[1 := []], None) }

  lemma EmptyTable(p: Node)
    requires p.table == map[]
    ensures AnswersTable(p, []) && Rows([]) == Some([])
  {
    var none: seq<Row> := [];
    assert Lists(none, p.table) && TableBytes(none) == [];
  }

  lemma OneMessage(n: Node, a: Ip)
    requires n.table == map[1 := Route(a, 1)]
    ensures Announced(n) == {Update(a, n.id, n.max, n.ip)}
  {
    assert 1 in n.table;
    assert forall u :: u in Announced(n) <==> u == Update(a, n.id, n.max, n.ip);
  }

  lemma OneAnswer(maxima: map<nat, nat>)
    ensures maxima == map[1 := 1] ==> Highest(1, maxima, maxima.Keys)
    ensures maxima == map[] ==> Highest(0, maxima, maxima.Keys)
  {
    assert maxima == map[1 := 1] ==> 1 in maxima.Keys && maxima[1] == 1;
  }

  /** Who hears from `a` alone, where `a` is alone or thinks so. */
  lemma AskingA(c: Cluster, a: Ip, ip: Ip, maxima: map<nat, nat>, n: Node)
    requires a in c.nodes && c.nodes[a] == Alone(a) && ip !in c.nodes && |ip| < Pow256(8)
    requires (maxima == map[1 := 1] && n.id == 2) || (maxima == map[] && n.id == 1)
    requires n == Node(n.id, n.id, ip, map[1 := Route(a, 1)], {1})
    ensures Join([c], ip, OnlyA(a, maxima), n, Cluster(c.nodes[ip := n], c.inflight + {Update(a, n.id, n.id, ip)}))
  {
    var w, r := [c], OnlyA(a, maxima);
    EmptyTable(c.nodes[a]);
    assert Last(w) == c && r.contacts[..0] == [];
    assert Contacted(c, Blank(ip), []) == Blank(ip);
    var n0 := Contacted(c, Blank(ip), r.contacts);
    assert n0 == AddPath(Blank(ip), 1, a, 1) == Node(0, 0, ip, map[1 := Route(a, 1)], {1});
    assert TableAt(w, r.contacts, 0, a, 1, []);
    assert maxima == map[1 := 1] ==> MaxAt(w, r.contacts, 0, a, 1, 1);
    assert Heard(n0, maxima) == maxima.Keys;
    OneAnswer(maxima);
    assert Renumbered(n0, n.id - 1) == n;
    assert Merged(n, r.tables, None, n);
    OneMessage(n, a);
  }

  /** The second one contacts the first, which answers 1 and an empty table; then it announces itself. */
  lemma SecondJoins(a: Ip, b: Ip)
    requires a != b && |a| < Pow256(8) && |b| < Pow256(8)
    ensures var c := Cluster(map[a := Alone(a)], {});
      HeededJoin([c], b, OnlyA(a, map[1 := 1]), Second(a, b), Two(a, b))
  {
    var c, r := Cluster(map[a := Alone(a)], {}), OnlyA(a, map[1 := 1]);
    AskingA(c, a, b, map[1 := 1], Second(a, b));
    assert c.nodes[b := Second(a, b)] == Two(a, b).nodes && {} + {Update(a, 2, 2, b)} == Two(a, b).inflight;
    assert c.nodes.Keys == {a} && |c.nodes| == 1;
    assert 1 in r.maxima && Reached(r.maxima, |Last([c]).nodes|);
  }

  lemma TwoGood(a: Ip, b: Ip)
    requires a != b && |a| < Pow256(8) && |b| < Pow256(8)
    ensures Good(Two(a, b))
  {
    FirstGood(a);
    SecondJoins(a, b);
    JoinGood([Cluster(map[a := Alone(a)], {})], b, OnlyA(a, map[1 := 1]), Second(a, b), Two(a, b));
  }

  /**
   * A third one that asks only the first, before the second one's announcement has arrived there: the state is good,
   * the first answers all questions, and the third takes the second's ID and does not learn of it.
   */
  lemma ThirdRepeats(a: Ip, b: Ip, z: Ip)
    requires a != b && z !in {a, b} && |a| < Pow256(8) && |b| < Pow256(8) && |z| < Pow256(8)
    ensures var c, n := Two(a, b), Second(a, z);
      && Good(c) && n.id == c.nodes[b].id && !Complete(c, n)
      && Join([c], z, OnlyA(a, map[1 := 1]), n, Cluster(c.nodes[z := n], c.inflight + {Update(a, 2, 2, z)}))
  {
    TwoGood(a, b);
    AskingA(Two(a, b), a, z, map[1 := 1], Second(a, z));
    assert !HasRow(Two(a, b), Second(a, z), b);
  }

  /** A second one whom the first does not answer about the maximum takes the first one's ID. */
  lemma SecondRepeats(a: Ip, b: Ip)
    requires a != b && |a| < Pow256(8) && |b| < Pow256(8)
    ensures var c, n := Cluster(map[a := Alone(a)], {}), Node(1, 1, b, map[1 := Route(a, 1)], {1});
      && Good(c) && n.id == c.nodes[a].id
      && Join([c], b, OnlyA(a, map[]), n, Cluster(c.nodes[b := n], {Update(a, 1, 1, b)}))
  {
    FirstGood(a);
    var n := Node(1, 1, b, map[1 := Route(a, 1)], {1});
    AskingA(Cluster(map[a := Alone(a)], {}), a, b, map[], n);
    assert {} + {Update(a, 1, 1, b)} == {Update(a, 1, 1, b)};
  }
}
