/** Numbers and words in text, as to_string, stol and stream extraction read and write them. */
module Texts {
  import opened Association

  predicate IsDigit(c: char) { '0' <= c <= '9' }

  function Digit(c: char): nat
    requires IsDigit(c)
  {
    (c - '0') as nat
  }

  /** to_string of an unsigned number. */
  function Decimal(n: nat): (s: string)
    ensures s != "" && forall c :: c in s ==> IsDigit(c)
  {
    var last := ['0' + (n % 10) as char];
    if n < 10 then last else Decimal(n / 10) + last
  }

  function Value(s: string): nat
    requires forall c :: c in s ==> IsDigit(c)
  {
    if s == "" then 0 else assert s[|s| - 1] in s; 10 * Value(s[..|s| - 1]) + Digit(s[|s| - 1])
  }

  lemma {:induction false} ValueOfDecimal(n: nat)
    ensures Value(Decimal(n)) == n
  {
    if n >= 10 {
      ValueOfDecimal(n / 10);
      assert Decimal(n)[..|Decimal(n)| - 1] == Decimal(n / 10);
    }
  }

  predicate IsSpace(c: char) { c in " \t\n\r" || c == 11 as char || c == 12 as char }

  /** Position of the first `c`, or the length when there is none. */
  function Find(s: string, c: char): (i: nat)
    ensures i <= |s| && (i < |s| ==> s[i] == c) && c !in s[..i]
  {
    if s == "" || s[0] == c then 0 else
      var i := 1 + Find(s[1..], c);
      assert s[..i] == [s[0]] + s[1..][..i - 1];
      i
  }

  lemma {:induction false} FindIs(s: string, c: char, i: nat)
    requires i < |s| && s[i] == c && forall j :: 0 <= j < i ==> s[j] != c
    ensures Find(s, c) == i
    decreases i
  {
    if i > 0 {
      FindIs(s[1..], c, i - 1);
    }
  }

  lemma FindIn(pre: string, c: char, post: string)
    requires c !in pre
    ensures Find(pre + [c] + post, c) == |pre|
  {
    var s := pre + [c] + post;
    assert s[|pre|] == c && forall i :: 0 <= i < |pre| ==> s[i] == pre[i];
    FindIs(s, c, |pre|);
  }

  function SkipSpaces(s: string): string
  {
    if s != "" && IsSpace(s[0]) then SkipSpaces(s[1..]) else s
  }

  function DigitCount(s: string): (n: nat)
    ensures n <= |s| && forall c :: c in s[..n] ==> IsDigit(c)
  {
    if s == "" || !IsDigit(s[0]) then 0
    else
      var n := 1 + DigitCount(s[1..]);
      assert s[..n] == [s[0]] + s[1..][..n - 1];
      n
  }

  const LONG_MAX: int := 0x7FFF_FFFF_FFFF_FFFF

  /** std::stol with a 64-bit long; None is one of its two exceptions. */
  function Stol(s: string): Option<int>
  {
    var t := SkipSpaces(s);
    var signed := t != "" && (t[0] == '-' || t[0] == '+');
    var u := if signed then t[1..] else t;
    var n := DigitCount(u);
    if n == 0 then None
    else
      var v: int := if signed && t[0] == '-' then 0 - Value(u[..n]) else Value(u[..n]);
      if -LONG_MAX - 1 <= v <= LONG_MAX then Some(v) else None
  }

  lemma {:induction false} AllDigits(s: string)
    requires forall c :: c in s ==> IsDigit(c)
    ensures DigitCount(s) == |s|
  {
    if s != "" {
      AllDigits(s[1..]);
    }
  }

  /** Blanks and a sign come first, and what is behind the digits is ignored; without digits it throws. */
  lemma StolReads()
    ensures Stol(" -1x") == Some(-1) && Stol("+7") == Some(7) && Stol("x1") == None
  {
    OneDigit('1', "x");
    OneDigit('7', "");
    assert SkipSpaces(" -1x") == "-1x" && "-1x"[1..] == ['1'] + "x";
    assert SkipSpaces("+7") == "+7" && "+7"[1..] == ['7'] + "";
  }

  lemma OneDigit(c: char, rest: string)
    requires IsDigit(c) && (rest == "" || !IsDigit(rest[0]))
    ensures DigitCount([c] + rest) == 1 && ([c] + rest)[..1] == [c] && Value([c]) == Digit(c)
  {
    assert ([c] + rest)[1..] == rest && [c][..0] == "";
  }

  lemma StolOfDecimal(n: nat)
    ensures Stol(Decimal(n)) == if n <= LONG_MAX then Some(n) else None
  {
    var s := Decimal(n);
    assert IsDigit(s[0]);
    AllDigits(s);
    assert s[..|s|] == s;
    ValueOfDecimal(n);
  }
}

/** The text of src/file/FileTree.cpp:241-266, read back by src/file/FileManager.cpp:332-358. */
module Snapshots {
  import opened Association
  import opened Namespaces
  import opened Paths
  import opened Sequences
  import opened Texts
  import opened Walks

  function Deeper(ns: Namespace, k: string): set<string>
  {
    set q | q in ns.ids && |q| > |k|
  }

  lemma ChildDeeper(ns: Namespace, k: string, i: nat)
    requires Wf(ns) && k in ns.ids && i < |ns.kids[k]|
    ensures ns.kids[k][i] in ns.ids && Deeper(ns, ns.kids[k][i]) < Deeper(ns, k)
  {
    var c := ns.kids[k][i];
    assert IsChild(ns, k, c);
    DirShorter(c);
    assert c in Deeper(ns, k) && c !in Deeper(ns, c);
  }

  function NodeName(k: string): string { if k == "/" then "/" else NameOf(k) }

  // ---- Printing ----

  /** FileTree::getTotalNode. */
  function PrintNode(ns: Namespace, k: string, dir: string): string
    requires Wf(ns) && k in ns.ids
    decreases Deeper(ns, k), |ns.kids[k]| + 1
  {
    var name := dir + NodeName(k);
    name + ":" + Decimal(ns.ids[k]) + "\n" + PrintKids(ns, k, 0, NextDir(name))
  }

  function NextDir(name: string): string { if name != "/" then name + "/" else name }

  function PrintKids(ns: Namespace, k: string, i: nat, nextDir: string): string
    requires Wf(ns) && k in ns.ids && i <= |ns.kids[k]|
    decreases Deeper(ns, k), |ns.kids[k]| - i
  {
    if i == |ns.kids[k]| then ""
    else
      ChildDeeper(ns, k, i);
      PrintNode(ns, ns.kids[k][i], nextDir) + PrintKids(ns, k, i + 1, nextDir)
  }

  lemma PrintKidsNext(ns: Namespace, k: string, i: nat, nextDir: string, sofar: string)
    requires Wf(ns) && k in ns.ids && i < |ns.kids[k]|
    ensures ns.kids[k][i] in ns.ids && Deeper(ns, ns.kids[k][i]) < Deeper(ns, k)
    ensures sofar + PrintKids(ns, k, i, nextDir)
         == sofar + PrintNode(ns, ns.kids[k][i], nextDir) + PrintKids(ns, k, i + 1, nextDir)
  {
    ChildDeeper(ns, k, i);
  }

  lemma PrintKidsEnd(ns: Namespace, k: string, i: nat, nextDir: string, sofar: string)
    requires Wf(ns) && k in ns.ids && i == |ns.kids[k]|
    ensures sofar + PrintKids(ns, k, i, nextDir) == sofar
  {
  }

  /** FileTree::getTotalTree. */
  function Dump(ns: Namespace): string
    requires Wf(ns)
  {
    PrintNode(ns, "/", "")
  }

  // ---- Replaying ----

  const WORD: int := 0x1_0000_0000_0000_0000

  /** A signed long stored into an unsigned 64-bit BlockID. */
  function ToID(v: int): (id: nat)
    ensures 0 <= v <= LONG_MAX ==> id == v
    ensures -LONG_MAX - 1 <= v < 0 ==> id == v + 0x1_0000_0000_0000_0000
  {
    v % WORD
  }

  /** One record of loadSnapshot: what comes before its first colon, and what comes after. */
  function RecordName(record: string): string { record[..Find(record, ':')] }

  function RecordID(record: string): string
  {
    var p := Find(record, ':');
    if p == |record| then record else record[p + 1..]
  }

  /** Acting on one record; None when stol throws. */
  function LoadRecord(record: string, ns: Namespace): Option<Namespace>
  {
    if RecordName(record) == "/" then Some(ns)
    else
      match Stol(RecordID(record))
      case None => None
      case Some(v) => Some(Add(ns, RecordName(record), ToID(v)))
  }

  /** FileManager::loadSnapshot on the table `ns`; None when stol throws. */
  function Load(dump: string, ns: Namespace): Option<Namespace>
    decreases |dump|
  {
    var p := Find(dump, '\n');
    if p == |dump| then Some(ns)
    else
      match LoadRecord(dump[..p], ns)
      case None => None
      case Some(ns') => Load(dump[p + 1..], ns')
  }

  // ---- Preorder ----

  /** The paths of `k`'s subtree, each before what lies below it, children in order. */
  function Order(ns: Namespace, k: string): seq<string>
    requires Wf(ns) && k in ns.ids
    decreases Deeper(ns, k), |ns.kids[k]| + 1
  {
    [k] + OrderKids(ns, k, 0)
  }

  function OrderKids(ns: Namespace, k: string, i: nat): seq<string>
    requires Wf(ns) && k in ns.ids && i <= |ns.kids[k]|
    decreases Deeper(ns, k), |ns.kids[k]| - i
  {
    if i == |ns.kids[k]| then []
    else ChildDeeper(ns, k, i); Order(ns, ns.kids[k][i]) + OrderKids(ns, k, i + 1)
  }

  /** One printed line, without its newline: a name and an ID. */
  function Entry(name: string, id: nat): string { name + ":" + Decimal(id) }

  function Text(entries: seq<(string, nat)>): string
  {
    if entries == [] then "" else Entry(entries[0].0, entries[0].1) + "\n" + Text(entries[1..])
  }

  /** A line has the path, a colon and the ID in decimal. */
  lemma OneLine(path: string)
    ensures Text([(path, 120)]) == path + ":120\n"
  {
    assert Decimal(12) == "12" && Decimal(120) == "120";
    assert [(path, 120)][1..] == [] && ":" + "120" + "\n" == ":120\n";
  }

  lemma {:induction false} TextAppend(a: seq<(string, nat)>, b: seq<(string, nat)>)
    ensures Text(a + b) == Text(a) + Text(b)
  {
    if a == [] {
      assert a + b == b;
    } else {
      assert (a + b)[1..] == a[1..] + b;
      TextAppend(a[1..], b);
    }
  }

  /** The lines that getTotalNode prints. */
  function Entries(ns: Namespace, k: string, dir: string): seq<(string, nat)>
    requires Wf(ns) && k in ns.ids
    decreases Deeper(ns, k), |ns.kids[k]| + 1
  {
    var name := dir + NodeName(k);
    [(name, ns.ids[k])] + EntriesKids(ns, k, 0, NextDir(name))
  }

  function EntriesKids(ns: Namespace, k: string, i: nat, nextDir: string): seq<(string, nat)>
    requires Wf(ns) && k in ns.ids && i <= |ns.kids[k]|
    decreases Deeper(ns, k), |ns.kids[k]| - i
  {
    if i == |ns.kids[k]| then []
    else
      ChildDeeper(ns, k, i);
      Entries(ns, ns.kids[k][i], nextDir) + EntriesKids(ns, k, i + 1, nextDir)
  }

  lemma {:induction false} PrintIsText(ns: Namespace, k: string, dir: string)
    requires Wf(ns) && k in ns.ids
    ensures PrintNode(ns, k, dir) == Text(Entries(ns, k, dir))
    decreases Deeper(ns, k), |ns.kids[k]| + 1
  {
    var name := dir + NodeName(k);
    PrintKidsIsText(ns, k, 0, NextDir(name));
    var below := EntriesKids(ns, k, 0, NextDir(name));
    TextCons(name, ns.ids[k], below);
  }

  lemma TextCons(name: string, id: nat, rest: seq<(string, nat)>)
    ensures Text([(name, id)] + rest) == name + ":" + Decimal(id) + "\n" + Text(rest)
  {
    assert ([(name, id)] + rest)[1..] == rest;
  }

  lemma {:induction false} PrintKidsIsText(ns: Namespace, k: string, i: nat, nextDir: string)
    requires Wf(ns) && k in ns.ids && i <= |ns.kids[k]|
    ensures PrintKids(ns, k, i, nextDir) == Text(EntriesKids(ns, k, i, nextDir))
    decreases Deeper(ns, k), |ns.kids[k]| - i
  {
    if i < |ns.kids[k]| {
      ChildDeeper(ns, k, i);
      PrintIsText(ns, ns.kids[k][i], nextDir);
      PrintKidsIsText(ns, k, i + 1, nextDir);
      TextAppend(Entries(ns, ns.kids[k][i], nextDir), EntriesKids(ns, k, i + 1, nextDir));
    }
  }

  /** Everything printed below `k` is below `k`, and in the table. */
  lemma {:induction false} OrderUnder(ns: Namespace, k: string)
    requires Wf(ns) && k in ns.ids
    ensures forall x :: x in Order(ns, k) ==> x in ns.ids && (k != "/" ==> Under(k, x))
    decreases Deeper(ns, k), |ns.kids[k]| + 1
  {
    OrderKidsUnder(ns, k, 0);
  }

  lemma {:induction false} OrderKidsUnder(ns: Namespace, k: string, i: nat)
    requires Wf(ns) && k in ns.ids && i <= |ns.kids[k]|
    ensures forall x :: x in OrderKids(ns, k, i) ==> x in ns.ids && (k != "/" ==> Under(k, x))
    decreases Deeper(ns, k), |ns.kids[k]| - i
  {
    if i < |ns.kids[k]| {
      ChildDeeper(ns, k, i);
      OrderUnder(ns, ns.kids[k][i]);
      OrderKidsUnder(ns, k, i + 1);
      assert IsChild(ns, k, ns.kids[k][i]);
      if k != "/" {
        ChildIsUnder(ns, k, ns.kids[k][i]);
      }
    }
  }

  /** The subtree's paths are closed under taking children. */
  lemma {:induction false} OrderClosed(ns: Namespace, k: string, x: string, c: string)
    requires Wf(ns) && k in ns.ids && x in Order(ns, k) && x in ns.kids && c in ns.kids[x]
    ensures c in Order(ns, k)
    decreases Deeper(ns, k), |ns.kids[k]| + 1
  {
    if x == k {
      var i :| 0 <= i < |ns.kids[k]| && ns.kids[k][i] == c;
      KidOrdered(ns, k, 0, i);
    } else {
      OrderKidsClosed(ns, k, 0, x, c);
    }
  }

  lemma {:induction false} KidOrdered(ns: Namespace, k: string, i: nat, j: nat)
    requires Wf(ns) && k in ns.ids && i <= j < |ns.kids[k]|
    ensures ns.kids[k][j] in OrderKids(ns, k, i)
    decreases |ns.kids[k]| - i
  {
    ChildDeeper(ns, k, i);
    if i < j {
      KidOrdered(ns, k, i + 1, j);
    }
  }

  lemma {:induction false} OrderKidsClosed(ns: Namespace, k: string, i: nat, x: string, c: string)
    requires Wf(ns) && k in ns.ids && i <= |ns.kids[k]|
    requires x in OrderKids(ns, k, i) && x in ns.kids && c in ns.kids[x]
    ensures c in OrderKids(ns, k, i)
    decreases Deeper(ns, k), |ns.kids[k]| - i
  {
    ChildDeeper(ns, k, i);
    if x in Order(ns, ns.kids[k][i]) {
      OrderClosed(ns, ns.kids[k][i], x, c);
    } else {
      OrderKidsClosed(ns, k, i + 1, x, c);
    }
  }

  /** Every path of the table is printed. */
  lemma {:induction false} OrderCovers(ns: Namespace, x: string)
    requires Wf(ns) && x in ns.ids
    ensures x in Order(ns, "/")
    decreases |x|
  {
    if x != "/" {
      assert Hangs(ns, x);
      DirShorter(x);
      OrderCovers(ns, DirOf(x));
      OrderClosed(ns, "/", DirOf(x), x);
    }
  }

  // ---- In a tidy table the printed names are the paths, in preorder ----

  /** The directory prefix under which `k` prints as its own path. */
  ghost predicate PrintsAs(k: string, dir: string) { dir + NodeName(k) == k }

  function Tagged(ns: Namespace, keys: seq<string>): seq<(string, nat)>
    requires forall k :: k in keys ==> k in ns.ids
  {
    seq(|keys|, i requires 0 <= i < |keys| => assert keys[i] in keys; (keys[i], ns.ids[keys[i]]))
  }

  lemma KidPrintsAs(ns: Namespace, k: string, i: nat)
    requires Wf(ns) && NoDoubledRoot(ns) && k in ns.ids && i < |ns.kids[k]|
    ensures PrintsAs(ns.kids[k][i], NextDir(k))
  {
    assert IsChild(ns, k, ns.kids[k][i]);
    ChildIsJoined(ns, k, ns.kids[k][i]);
  }

  lemma {:induction false} EntriesAreOrder(ns: Namespace, k: string, dir: string)
    requires Wf(ns) && NoDoubledRoot(ns) && k in ns.ids && PrintsAs(k, dir)
    ensures forall x :: x in Order(ns, k) ==> x in ns.ids
    ensures Entries(ns, k, dir) == Tagged(ns, Order(ns, k))
    decreases Deeper(ns, k), |ns.kids[k]| + 1
  {
    OrderUnder(ns, k);
    EntriesKidsAreOrder(ns, k, 0);
    TaggedFront(ns, k, OrderKids(ns, k, 0));
  }

  lemma TaggedFront(ns: Namespace, k: string, rest: seq<string>)
    requires k in ns.ids && forall x :: x in rest ==> x in ns.ids
    ensures forall x :: x in [k] + rest ==> x in ns.ids
    ensures Tagged(ns, [k] + rest) == [(k, ns.ids[k])] + Tagged(ns, rest)
  {
  }

  lemma {:induction false} EntriesKidsAreOrder(ns: Namespace, k: string, i: nat)
    requires Wf(ns) && NoDoubledRoot(ns) && k in ns.ids && i <= |ns.kids[k]|
    ensures forall x :: x in OrderKids(ns, k, i) ==> x in ns.ids
    ensures EntriesKids(ns, k, i, NextDir(k)) == Tagged(ns, OrderKids(ns, k, i))
    decreases Deeper(ns, k), |ns.kids[k]| - i
  {
    OrderKidsUnder(ns, k, i);
    if i < |ns.kids[k]| {
      ChildDeeper(ns, k, i);
      KidPrintsAs(ns, k, i);
      EntriesAreOrder(ns, ns.kids[k][i], NextDir(k));
      EntriesKidsAreOrder(ns, k, i + 1);
      TaggedAppend(ns, Order(ns, ns.kids[k][i]), OrderKids(ns, k, i + 1));
    }
  }

  lemma TaggedAppend(ns: Namespace, a: seq<string>, b: seq<string>)
    requires forall k :: k in a || k in b ==> k in ns.ids
    ensures Tagged(ns, a + b) == Tagged(ns, a) + Tagged(ns, b)
  {
  }

  // ---- Reading the lines back ----

  predicate CleanKey(k: string) { ':' !in k && '\n' !in k }

  /** One printed line is one record, which carries the printed name and the ID. */
  lemma LineIsRecord(name: string, id: nat, rest: string)
    requires CleanKey(name)
    ensures var text, record := Entry(name, id) + "\n" + rest, Entry(name, id);
      && Find(text, '\n') == |record| < |text| && text[..|record|] == record && text[|record| + 1..] == rest
      && RecordName(record) == name && RecordID(record) == Decimal(id)
  {
    var digits := Decimal(id);
    var record := Entry(name, id);
    assert '\n' !in digits && '\n' !in record;
    assert Entry(name, id) + "\n" + rest == record + ['\n'] + rest;
    FindIn(record, '\n', rest);
    assert record == name + [':'] + digits;
    FindIn(name, ':', digits);
  }

  /** Acting on one line, as a name and an ID. */
  function LoadEntry(name: string, id: nat, s: Namespace): Option<Namespace>
  {
    if name == "/" then Some(s) else if id <= LONG_MAX then Some(Add(s, name, id)) else None
  }

  function LoadEntries(entries: seq<(string, nat)>, s: Namespace): Option<Namespace>
  {
    if entries == [] then Some(s)
    else
      match LoadEntry(entries[0].0, entries[0].1, s)
      case None => None
      case Some(s') => LoadEntries(entries[1..], s')
  }

  lemma RecordActs(name: string, id: nat, s: Namespace)
    requires RecordName(Entry(name, id)) == name && RecordID(Entry(name, id)) == Decimal(id)
    ensures LoadRecord(Entry(name, id), s) == LoadEntry(name, id, s)
  {
    StolOfDecimal(id);
  }

  lemma LoadStep(text: string, record: string, rest: string, s: Namespace)
    requires Find(text, '\n') == |record| < |text| && text[..|record|] == record && text[|record| + 1..] == rest
    ensures Load(text, s) ==
      if LoadRecord(record, s).Some? then Load(rest, LoadRecord(record, s).value) else None
  {
  }

  /** Reading a printed text acts on its lines one by one. */
  lemma {:induction false} LoadOfText(entries: seq<(string, nat)>, s: Namespace)
    requires forall e :: e in entries ==> CleanKey(e.0)
    ensures Load(Text(entries), s) == LoadEntries(entries, s)
  {
    if entries != [] {
      var name, id, rest := entries[0].0, entries[0].1, entries[1..];
      LineIsRecord(name, id, Text(rest));
      RecordActs(name, id, s);
      LoadStep(Text(entries), Entry(name, id), Text(rest), s);
      if LoadEntry(name, id, s).Some? {
        LoadOfText(rest, LoadEntry(name, id, s).value);
      }
    }
  }

  /** Adding the listed paths one by one, with the IDs they have in `ns`. */
  function Replay(ns: Namespace, keys: seq<string>, s: Namespace): Namespace
    requires forall k :: k in keys ==> k in ns.ids
  {
    if keys == [] then s
    else Replay(ns, keys[1..], if keys[0] == "/" then s else Add(s, keys[0], ns.ids[keys[0]]))
  }

  ghost predicate Loadable(ns: Namespace, keys: seq<string>)
  {
    forall k :: k in keys ==> k in ns.ids && (k != "/" ==> ns.ids[k] <= LONG_MAX)
  }

  /** Reading paths with their IDs adds them in order, and throws exactly when some ID is beyond a long. */
  lemma {:induction false} LoadOfTagged(ns: Namespace, keys: seq<string>, s: Namespace)
    requires forall k :: k in keys ==> k in ns.ids
    ensures LoadEntries(Tagged(ns, keys), s) == if Loadable(ns, keys) then Some(Replay(ns, keys, s)) else None
  {
    if keys != [] {
      var k, rest := keys[0], keys[1..];
      assert forall x :: x in keys <==> x == k || x in rest;
      assert Tagged(ns, keys)[1..] == Tagged(ns, rest);
      LoadOfTagged(ns, rest, if k == "/" then s else Add(s, k, ns.ids[k]));
    }
  }

  // ---- The replay rebuilds the table ----

  /** The elements of `s` that are in `done`, in order. */
  function Keep(s: seq<string>, done: set<string>): seq<string>
  {
    if s == [] then [] else (if s[0] in done then [s[0]] else []) + Keep(s[1..], done)
  }

  lemma {:induction false} KeepAll(s: seq<string>, done: set<string>)
    requires forall x :: x in s ==> x in done
    ensures Keep(s, done) == s
  {
    if s != [] {
      KeepAll(s[1..], done);
    }
  }

  lemma {:induction false} KeepNone(s: seq<string>, done: set<string>)
    requires forall x :: x in s ==> x !in done
    ensures Keep(s, done) == []
  {
    if s != [] {
      KeepNone(s[1..], done);
    }
  }

  lemma {:induction false} KeepOther(s: seq<string>, done: set<string>, c: string)
    requires c !in s
    ensures Keep(s, done + {c}) == Keep(s, done)
  {
    if s != [] {
      KeepOther(s[1..], done, c);
    }
  }

  /** Adding an element after which nothing is kept yet appends it. */
  lemma {:induction false} KeepNext(s: seq<string>, done: set<string>, i: nat)
    requires i < |s| && NoDup(s)
    requires forall j :: i <= j < |s| ==> s[j] !in done
    ensures Keep(s, done + {s[i]}) == Keep(s, done) + [s[i]]
  {
    var rest := s[1..];
    assert forall j :: 0 <= j < |rest| ==> rest[j] == s[j + 1];
    if i == 0 {
      KeepOther(rest, done, s[0]);
      KeepNone(rest, done);
    } else {
      KeepNext(rest, done, i - 1);
      assert s[0] != s[i];
    }
  }

  /** The part of `ns` whose paths are in `done`. */
  function Part(ns: Namespace, done: set<string>): Namespace
  {
    Namespace(map k | k in ns.ids && k in done :: ns.ids[k],
              map k | k in ns.kids && k in done :: Keep(ns.kids[k], done))
  }

  /** A path is in no other directory's list of children. */
  lemma OnlyInItsDir(ns: Namespace, k: string, c: string)
    requires Wf(ns) && k in ns.kids && c in ns.kids[k]
    ensures HasSlash(c) && k == DirOf(c)
  {
    var j :| 0 <= j < |ns.kids[k]| && ns.kids[k][j] == c;
    assert IsChild(ns, k, c);
  }

  /** Adding one more path to a part, its directory there, its later siblings and its children not. */
  lemma PartNext(ns: Namespace, done: set<string>, c: string, i: nat)
    requires Wf(ns) && c in ns.ids && c != "/" && HasSlash(c) && DirOf(c) in ns.kids
    requires i < |ns.kids[DirOf(c)]| && ns.kids[DirOf(c)][i] == c
    requires DirOf(c) in done
    requires forall j :: i <= j < |ns.kids[DirOf(c)]| ==> ns.kids[DirOf(c)][j] !in done
    requires forall x :: x in ns.kids[c] ==> x !in done && x != c
    ensures CanAdd(Part(ns, done), c)
    ensures Add(Part(ns, done), c, ns.ids[c]) == Part(ns, done + {c})
  {
    var d := DirOf(c);
    assert Hangs(ns, c);
    KeepNext(ns.kids[d], done, i);
    KeepNone(ns.kids[c], done + {c});
    forall k | k in ns.kids && k != d ensures Keep(ns.kids[k], done + {c}) == Keep(ns.kids[k], done) {
      if c in ns.kids[k] {
        OnlyInItsDir(ns, k, c);
      }
      KeepOther(ns.kids[k], done, c);
    }
    PartGrows(ns, done, c, d);
  }

  lemma PartGrows(ns: Namespace, done: set<string>, c: string, d: string)
    requires c in ns.ids && c in ns.kids && d in ns.ids && d in ns.kids && d in done && c !in done
    requires Keep(ns.kids[d], done + {c}) == Keep(ns.kids[d], done) + [c]
    requires Keep(ns.kids[c], done + {c}) == []
    requires forall k :: k in ns.kids && k != d ==> Keep(ns.kids[k], done + {c}) == Keep(ns.kids[k], done)
    ensures var was := Part(ns, done);
      Part(ns, done + {c}) == Namespace(was.ids[c := ns.ids[c]], was.kids[d := was.kids[d] + [c]][c := []])
  {
    var was, now := Part(ns, done), Part(ns, done + {c});
    assert now.ids == was.ids[c := ns.ids[c]];
    var then_ := was.kids[d := was.kids[d] + [c]][c := []];
    forall k | k in now.kids ensures k in then_ && now.kids[k] == then_[k] {
      assert k in ns.kids;
    }
    assert now.kids.Keys == then_.Keys;
  }

  /** What lies under one child does not lie under its sibling. */
  lemma SiblingsApart(c1: string, c2: string, x: string)
    requires HasSlash(c1) && HasSlash(c2) && DirOf(c1) == DirOf(c2) && c1 != "/" && c2 != "/"
    requires Under(c1, x) && Under(c2, x)
    ensures c1 == c2
  {
    if |c1| < |c2| {
      ShorterSiblingApart(c1, c2, x);
    } else if |c2| < |c1| {
      ShorterSiblingApart(c2, c1, x);
    } else {
      assert c1 == x[..|c1|] && c2 == x[..|c2|];
    }
  }

  /** Of two paths above `x`, the longer one has a longer directory. */
  lemma LongerDir(c1: string, c2: string, x: string)
    requires HasSlash(c1) && HasSlash(c2) && c1 != "/" && |c1| < |c2| && Under(c1, x) && Under(c2, x)
    ensures |DirOf(c1)| < |DirOf(c2)|
  {
    assert x[|c1|] == '/' && c2[|c1|] == x[|c1|];
    assert LastSlash(c2) >= |c1| > LastSlash(c1);
    if LastSlash(c1) == 0 {
      assert |c1| == 1 ==> c1 == "/";
    }
  }

  lemma ShorterSiblingApart(c1: string, c2: string, x: string)
    requires HasSlash(c1) && HasSlash(c2) && DirOf(c1) == DirOf(c2) && c1 != "/" && |c1| < |c2|
    requires Under(c1, x)
    ensures !Under(c2, x)
  {
    if Under(c2, x) {
      LongerDir(c1, c2, x);
    }
  }

  /** Nothing of `k`'s subtree is replayed yet. */
  ghost predicate Untouched(done: set<string>, k: string) { forall x :: x in done ==> !Under(k, x) }

  lemma {:induction false} ReplayAppend(ns: Namespace, a: seq<string>, b: seq<string>, s: Namespace)
    requires forall k :: k in a + b ==> k in ns.ids
    ensures forall k :: k in a || k in b ==> k in ns.ids
    ensures Replay(ns, a + b, s) == Replay(ns, b, Replay(ns, a, s))
  {
    forall k | k in a || k in b ensures k in ns.ids {
      assert k in a + b;
    }
    if a == [] {
      assert a + b == b;
    } else {
      assert (a + b)[1..] == a[1..] + b && (a + b)[0] == a[0];
      ReplayAppend(ns, a[1..], b, if a[0] == "/" then s else Add(s, a[0], ns.ids[a[0]]));
    }
  }

  ghost function Elems(s: seq<string>): set<string> { set x | x in s }

  /** Replaying a child alone, when nothing from it on is replayed yet. */
  lemma ReplayHead(ns: Namespace, d: string, i: nat, done: set<string>)
    requires Wf(ns) && d in ns.ids && i < |ns.kids[d]| && d in done
    requires forall j :: i <= j < |ns.kids[d]| ==> Untouched(done, ns.kids[d][j])
    ensures var c := ns.kids[d][i];
      && c in ns.ids && c != "/" && Add(Part(ns, done), c, ns.ids[c]) == Part(ns, done + {c})
      && forall j :: 0 <= j < |ns.kids[c]| ==> Untouched(done + {c}, ns.kids[c][j])
  {
    var c := ns.kids[d][i];
    assert IsChild(ns, d, c);
    assert Hangs(ns, c);
    forall j | i <= j < |ns.kids[d]| ensures ns.kids[d][j] !in done {
      assert Under(ns.kids[d][j], ns.kids[d][j]);
    }
    forall x | x in ns.kids[c] ensures x !in done && x != c && Untouched(done + {c}, x) {
      ChildIsUnder(ns, c, x);
    }
    PartNext(ns, done, c, i);
  }

  /** Replaying a child's subtree adds that subtree to the part, after the subtrees of its earlier siblings. */
  lemma {:induction false} ReplayNode(ns: Namespace, d: string, i: nat, done: set<string>)
    requires Wf(ns) && d in ns.ids && i < |ns.kids[d]| && d in done
    requires forall j :: i <= j < |ns.kids[d]| ==> Untouched(done, ns.kids[d][j])
    ensures var c := ns.kids[d][i];
      && c in ns.ids && (forall x :: x in Order(ns, c) ==> x in ns.ids)
      && Replay(ns, Order(ns, c), Part(ns, done)) == Part(ns, done + Elems(Order(ns, c)))
    decreases Deeper(ns, d), |ns.kids[d]| - i, 1
  {
    var c := ns.kids[d][i];
    ChildDeeper(ns, d, i);
    ReplayHead(ns, d, i, done);
    OrderUnder(ns, c);
    var kids := OrderKids(ns, c, 0);
    ReplayKids(ns, c, 0, done + {c});
    ReplayCons(ns, c, kids, Part(ns, done));
    ElemsCons(done, c, kids);
  }

  lemma ReplayCons(ns: Namespace, c: string, rest: seq<string>, s: Namespace)
    requires c in ns.ids && c != "/" && forall k :: k in rest ==> k in ns.ids
    ensures Replay(ns, [c] + rest, s) == Replay(ns, rest, Add(s, c, ns.ids[c]))
  {
    assert ([c] + rest)[0] == c && ([c] + rest)[1..] == rest;
  }

  lemma ElemsAppend(done: set<string>, a: seq<string>, b: seq<string>)
    ensures done + Elems(a) + Elems(b) == done + Elems(a + b)
    ensures done + Elems([]) == done
  {
  }

  lemma ElemsCons(done: set<string>, c: string, rest: seq<string>)
    ensures done + {c} + Elems(rest) == done + Elems([c] + rest)
  {
  }

  lemma {:induction false} ReplayKids(ns: Namespace, d: string, i: nat, done: set<string>)
    requires Wf(ns) && d in ns.ids && i <= |ns.kids[d]| && d in done
    requires forall j :: i <= j < |ns.kids[d]| ==> Untouched(done, ns.kids[d][j])
    ensures forall x :: x in OrderKids(ns, d, i) ==> x in ns.ids
    ensures Replay(ns, OrderKids(ns, d, i), Part(ns, done)) == Part(ns, done + Elems(OrderKids(ns, d, i)))
    decreases Deeper(ns, d), |ns.kids[d]| - i, 2
  {
    OrderKidsUnder(ns, d, i);
    if i < |ns.kids[d]| {
      var c := ns.kids[d][i];
      ChildDeeper(ns, d, i);
      ReplayNode(ns, d, i, done);
      var done' := done + Elems(Order(ns, c));
      forall j | i + 1 <= j < |ns.kids[d]| ensures Untouched(done', ns.kids[d][j]) {
        LaterUntouched(ns, d, i, j, done);
      }
      ReplayKids(ns, d, i + 1, done');
      ReplayAppend(ns, Order(ns, c), OrderKids(ns, d, i + 1), Part(ns, done));
      ElemsAppend(done, Order(ns, c), OrderKids(ns, d, i + 1));
    } else {
      ElemsAppend(done, [], []);
    }
  }

  lemma LaterUntouched(ns: Namespace, d: string, i: nat, j: nat, done: set<string>)
    requires Wf(ns) && d in ns.ids && i < j < |ns.kids[d]| && Untouched(done, ns.kids[d][j])
    ensures ns.kids[d][i] in ns.ids && Untouched(done + Elems(Order(ns, ns.kids[d][i])), ns.kids[d][j])
  {
    var c, c' := ns.kids[d][i], ns.kids[d][j];
    assert IsChild(ns, d, c) && IsChild(ns, d, c');
    OrderUnder(ns, c);
    forall x | x in Order(ns, c) ensures !Under(c', x) {
      if Under(c', x) {
        SiblingsApart(c, c', x);
      }
    }
  }

  /** Replaying the preorder from the empty tree rebuilds the table, children in their order. */
  lemma ReplayRebuilds(ns: Namespace)
    requires Wf(ns)
    ensures forall k :: k in Order(ns, "/") ==> k in ns.ids
    ensures Replay(ns, Order(ns, "/"), EMPTY) == ns
  {
    OrderUnder(ns, "/");
    var order, kids := Order(ns, "/"), OrderKids(ns, "/", 0);
    assert order[0] == "/" && order[1..] == kids;
    PartOfRoot(ns);
    ReplayKids(ns, "/", 0, {"/"});
    var all := {"/"} + Elems(kids);
    forall x | x in ns.ids ensures x in all {
      OrderCovers(ns, x);
    }
    PartOfAll(ns, all);
  }

  lemma PartOfRoot(ns: Namespace)
    requires Wf(ns)
    ensures Part(ns, {"/"}) == EMPTY
    ensures forall j :: 0 <= j < |ns.kids["/"]| ==> Untouched({"/"}, ns.kids["/"][j])
  {
    forall j | 0 <= j < |ns.kids["/"]| ensures Untouched({"/"}, ns.kids["/"][j]) && ns.kids["/"][j] != "/" {
      assert IsChild(ns, "/", ns.kids["/"][j]);
    }
    KeepNone(ns.kids["/"], {"/"});
    assert Part(ns, {"/"}).ids == EMPTY.ids;
    assert Part(ns, {"/"}).kids == EMPTY.kids;
  }

  lemma PartOfAll(ns: Namespace, all: set<string>)
    requires Wf(ns) && forall x :: x in ns.ids ==> x in all
    ensures Part(ns, all) == ns
  {
    forall k | k in ns.kids ensures Keep(ns.kids[k], all) == ns.kids[k] {
      forall x | x in ns.kids[k] ensures x in all {
        var j :| 0 <= j < |ns.kids[k]| && ns.kids[k][j] == x;
        assert IsChild(ns, k, x);
      }
      KeepAll(ns.kids[k], all);
    }
    assert Part(ns, all).ids == ns.ids;
    assert Part(ns, all).kids == ns.kids;
  }

  // ---- The round trip, and exactly when it holds ----

  /** The names and IDs that the text can carry. */
  ghost predicate Portable(ns: Namespace)
  {
    forall k :: k in ns.ids ==> CleanKey(k) && !DoubledRoot(k) && ns.ids[k] <= LONG_MAX
  }

  /** Reading back the dump of a tidy table with clean paths replays its paths in preorder. */
  lemma LoadOfDump(ns: Namespace)
    requires Wf(ns) && NoDoubledRoot(ns) && forall k :: k in ns.ids ==> CleanKey(k)
    ensures forall k :: k in Order(ns, "/") ==> k in ns.ids
    ensures Load(Dump(ns), EMPTY)
         == if Loadable(ns, Order(ns, "/")) then Some(Replay(ns, Order(ns, "/"), EMPTY)) else None
  {
    assert PrintsAs("/", "");
    EntriesAreOrder(ns, "/", "");
    PrintIsText(ns, "/", "");
    LoadOfText(Entries(ns, "/", ""), EMPTY);
    LoadOfTagged(ns, Order(ns, "/"), EMPTY);
  }

  /** loadSnapshot of getTotalTree on a fresh table rebuilds every portable table. */
  lemma DumpLoads(ns: Namespace)
    requires Wf(ns) && Portable(ns)
    ensures Load(Dump(ns), EMPTY) == Some(ns)
  {
    LoadOfDump(ns);
    ReplayRebuilds(ns);
  }
}
