/** The snapshot file of src/machine/ServerSnapshot.cpp, and exactly which tables survive a restart. */
module ServerSnapshots {
  import opened Association
  import opened Namespaces
  import opened Paths
  import opened Snapshots
  import opened Texts
  import opened Walks

  // ---- What reading can put into a table ----

  /** The names of the records of a dump. */
  function Names(dump: string): seq<string>
    decreases |dump|
  {
    var p := Find(dump, '\n');
    if p == |dump| then [] else [RecordName(dump[..p])] + Names(dump[p + 1..])
  }

  /** Reading binds no path but those of the records, and those it started with. */
  lemma {:induction false} LoadBinds(dump: string, s: Namespace)
    ensures Load(dump, s).Some? ==> forall k :: k in Load(dump, s).value.ids ==> k in s.ids || k in Names(dump)
    decreases |dump|
  {
    var p := Find(dump, '\n');
    if p < |dump| {
      var record := dump[..p];
      if LoadRecord(record, s).Some? {
        RecordBinds(record, s);
        LoadBinds(dump[p + 1..], LoadRecord(record, s).value);
      }
    }
  }

  lemma RecordBinds(record: string, s: Namespace)
    requires LoadRecord(record, s).Some?
    ensures forall k :: k in LoadRecord(record, s).value.ids ==> k in s.ids || k == RecordName(record)
  {
  }

  /** No record's name holds a newline or a colon. */
  lemma {:induction false} NamesClean(dump: string)
    ensures forall k :: k in Names(dump) ==> CleanKey(k)
    decreases |dump|
  {
    var p := Find(dump, '\n');
    if p < |dump| {
      var record := dump[..p];
      assert forall c :: c in RecordName(record) ==> c in record;
      NamesClean(dump[p + 1..]);
    }
  }

  predicate DoubleSlash(s: string) { |s| >= 2 && s[0] == '/' && s[1] == '/' }

  predicate GoodDir(dir: string) { CleanKey(dir) && (dir == "/" || (|dir| >= 2 && !DoubleSlash(dir))) }

  lemma NameUnderGoodDir(k: string, dir: string)
    requires CleanKey(k) && GoodDir(dir)
    ensures var name := dir + NameOf(k);
      CleanKey(name) && !DoubleSlash(name) && GoodDir(NextDir(name))
  {
    var name := dir + NameOf(k);
    assert forall c :: c in NameOf(k) ==> c in k;
    assert dir == "/" && NameOf(k) != "" ==> name[1] == NameOf(k)[0];
  }

  lemma {:induction false} NamesOfText(entries: seq<(string, nat)>)
    requires forall e :: e in entries ==> CleanKey(e.0)
    ensures forall k :: k in Names(Text(entries)) ==> exists e :: e in entries && e.0 == k
  {
    if entries != [] {
      var name, id, rest := entries[0].0, entries[0].1, entries[1..];
      LineIsRecord(name, id, Text(rest));
      NamesOfText(rest);
      assert entries[0] in entries;
    }
  }

  /** With clean paths, every printed name is clean and none starts with two slashes. */
  lemma {:induction false} EntryNames(ns: Namespace, k: string, dir: string)
    requires Wf(ns) && k in ns.ids && (forall x :: x in ns.ids ==> CleanKey(x))
    requires if k == "/" then dir == "" else GoodDir(dir)
    ensures forall e :: e in Entries(ns, k, dir) ==> CleanKey(e.0) && !DoubleSlash(e.0)
    decreases Deeper(ns, k), |ns.kids[k]| + 1
  {
    if k != "/" {
      NameUnderGoodDir(k, dir);
    }
    EntryKidsNames(ns, k, 0, NextDir(dir + NodeName(k)));
  }

  lemma {:induction false} EntryKidsNames(ns: Namespace, k: string, i: nat, dir: string)
    requires Wf(ns) && k in ns.ids && i <= |ns.kids[k]| && (forall x :: x in ns.ids ==> CleanKey(x))
    requires GoodDir(dir)
    ensures forall e :: e in EntriesKids(ns, k, i, dir) ==> CleanKey(e.0) && !DoubleSlash(e.0)
    decreases Deeper(ns, k), |ns.kids[k]| - i
  {
    if i < |ns.kids[k]| {
      ChildDeeper(ns, k, i);
      assert IsChild(ns, k, ns.kids[k][i]);
      EntryNames(ns, ns.kids[k][i], dir);
      EntryKidsNames(ns, k, i + 1, dir);
    }
  }

  /** A table that reads back has no doubled root. */
  lemma LoadedIsTidy(ns: Namespace)
    requires Wf(ns) && Load(Dump(ns), EMPTY) == Some(ns)
    ensures forall k :: k in ns.ids ==> CleanKey(k) && !DoubledRoot(k)
  {
    LoadBinds(Dump(ns), EMPTY);
    NamesClean(Dump(ns));
    assert forall k :: k in ns.ids ==> CleanKey(k);
    EntryNames(ns, "/", "");
    PrintIsText(ns, "/", "");
    NamesOfText(Entries(ns, "/", ""));
    forall k | k in ns.ids ensures !DoubleSlash(k) {
      if k != "/" {
        assert k in Names(Dump(ns));
      }
    }
  }

  /** getTotalTree and loadSnapshot rebuild a table exactly when it is portable. */
  lemma DumpLoadsIff(ns: Namespace)
    requires Wf(ns)
    ensures Load(Dump(ns), EMPTY) == Some(ns) <==> Portable(ns)
  {
    if Portable(ns) {
      DumpLoads(ns);
    }
    if Load(Dump(ns), EMPTY) == Some(ns) {
      LoadedIsTidy(ns);
      LoadOfDump(ns);
      forall k | k in ns.ids ensures ns.ids[k] <= LONG_MAX {
        OrderCovers(ns, k);
      }
    }
  }

  // ---- The snapshot file ----

  /** ServerSnapshot::save. */
  function SaveText(machineID: nat, dump: string): string { Decimal(machineID) + "\n" + dump }

  function WordLength(s: string): (n: nat)
    ensures n <= |s| && forall c :: c in s[..n] ==> !IsSpace(c)
    ensures n < |s| ==> IsSpace(s[n])
  {
    if s == "" || IsSpace(s[0]) then 0
    else
      var n := 1 + WordLength(s[1..]);
      assert s[..n] == [s[0]] + s[1..][..n - 1];
      n
  }

  lemma {:induction false} SkippedSpaces(s: string)
    ensures |SkipSpaces(s)| <= |s| && (SkipSpaces(s) != "" ==> !IsSpace(SkipSpaces(s)[0]))
  {
    if s != "" && IsSpace(s[0]) {
      SkippedSpaces(s[1..]);
    }
  }

  /** The word loop of ServerSnapshot::load: every word on a line of its own. */
  function Words(s: string): string
    decreases |s|
  {
    SkippedSpaces(s);
    var t := SkipSpaces(s);
    if t == "" then ""
    else
      var n := WordLength(t);
      t[..n] + "\n" + Words(t[n..])
  }

  const MACHINE_ID_MAX := 0xFFFF_FFFF

  /** ServerSnapshot::load; a failed extraction of the number leaves no words to read. */
  function LoadText(text: string): (nat, string)
  {
    var t := SkipSpaces(text);
    var n := DigitCount(t);
    if n == 0 then (0, "")
    else if Value(t[..n]) > MACHINE_ID_MAX then (MACHINE_ID_MAX, "")
    else (Value(t[..n]), Words(t[n..]))
  }

  predicate OneWord(s: string) { s != "" && forall c :: c in s ==> !IsSpace(c) }

  lemma {:induction false} WordEnds(w: string, rest: string)
    requires forall c :: c in w ==> !IsSpace(c)
    ensures WordLength(w + "\n" + rest) == |w|
  {
    if w != "" {
      assert (w + "\n" + rest)[1..] == w[1..] + "\n" + rest;
      WordEnds(w[1..], rest);
    } else {
      assert (w + "\n" + rest)[0] == '\n';
    }
  }

  lemma SpaceSkipped(s: string)
    ensures Words("\n" + s) == Words(s)
  {
    assert ("\n" + s)[1..] == s;
    assert SkipSpaces("\n" + s) == SkipSpaces(s);
  }

  lemma WordKept(w: string, rest: string)
    requires OneWord(w)
    ensures Words(w + "\n" + rest) == w + "\n" + Words(rest)
  {
    var s := w + "\n" + rest;
    assert s[0] == w[0] && SkipSpaces(s) == s;
    WordEnds(w, rest);
    assert s[..|w|] == w && s[|w|..] == "\n" + rest;
    SpaceSkipped(rest);
  }

  lemma EntryIsWord(name: string, id: nat)
    requires forall c :: c in name ==> !IsSpace(c)
    ensures OneWord(Entry(name, id))
  {
    assert forall c :: c in Decimal(id) ==> IsDigit(c);
  }

  predicate Blankless(s: string) { forall c :: c in s ==> !IsSpace(c) }

  /** The word loop gives a printed text back when no name in it holds white space. */
  lemma {:induction false} WordsOfText(entries: seq<(string, nat)>)
    requires forall e :: e in entries ==> Blankless(e.0)
    ensures Words(Text(entries)) == Text(entries)
  {
    if entries != [] {
      var name, id, rest := entries[0].0, entries[0].1, entries[1..];
      EntryIsWord(name, id);
      WordKept(Entry(name, id), Text(rest));
      WordsOfText(rest);
    }
  }

  lemma {:induction false} EntriesBlankless(ns: Namespace, k: string, dir: string)
    requires Wf(ns) && k in ns.ids && (forall x :: x in ns.ids ==> Blankless(x)) && Blankless(dir)
    ensures forall e :: e in Entries(ns, k, dir) ==> Blankless(e.0)
    decreases Deeper(ns, k), |ns.kids[k]| + 1
  {
    assert forall c :: c in NameOf(k) ==> c in k;
    EntriesKidsBlankless(ns, k, 0, NextDir(dir + NodeName(k)));
  }

  lemma {:induction false} EntriesKidsBlankless(ns: Namespace, k: string, i: nat, dir: string)
    requires Wf(ns) && k in ns.ids && i <= |ns.kids[k]|
    requires (forall x :: x in ns.ids ==> Blankless(x)) && Blankless(dir)
    ensures forall e :: e in EntriesKids(ns, k, i, dir) ==> Blankless(e.0)
    decreases Deeper(ns, k), |ns.kids[k]| - i
  {
    if i < |ns.kids[k]| {
      ChildDeeper(ns, k, i);
      EntriesBlankless(ns, ns.kids[k][i], dir);
      EntriesKidsBlankless(ns, k, i + 1, dir);
    }
  }

  lemma WordsOfDump(ns: Namespace)
    requires Wf(ns) && (forall x :: x in ns.ids ==> Blankless(x))
    ensures Words(Dump(ns)) == Dump(ns)
  {
    PrintIsText(ns, "/", "");
    EntriesBlankless(ns, "/", "");
    WordsOfText(Entries(ns, "/", ""));
  }

  /** What comes out of the word loop names no path with white space. */
  lemma {:induction false} WordNamesBlankless(s: string)
    ensures forall k :: k in Names(Words(s)) ==> Blankless(k)
    decreases |s|
  {
    SkippedSpaces(s);
    var t := SkipSpaces(s);
    if t != "" {
      var n := WordLength(t);
      var w, rest := t[..n], Words(t[n..]);
      assert '\n' !in w;
      assert Words(s) == w + ['\n'] + rest;
      FindIn(w, '\n', rest);
      assert Words(s)[..n] == w && Words(s)[n + 1..] == rest;
      assert forall c :: c in RecordName(w) ==> c in w;
      WordNamesBlankless(t[n..]);
    }
  }

  /** The number is read back, or as the highest one with nothing behind it when it is too high. */
  lemma NumberRead(machineID: nat, dump: string)
    ensures LoadText(SaveText(machineID, dump))
         == if machineID <= MACHINE_ID_MAX then (machineID, Words(dump)) else (MACHINE_ID_MAX, "")
  {
    var d, text := Decimal(machineID), SaveText(machineID, dump);
    assert text[0] == d[0] && IsDigit(d[0]) && SkipSpaces(text) == text;
    DigitsEnd(d, dump);
    assert text[..|d|] == d && text[|d|..] == "\n" + dump;
    ValueOfDecimal(machineID);
    SpaceSkipped(dump);
  }

  lemma {:induction false} DigitsEnd(d: string, rest: string)
    requires forall c :: c in d ==> IsDigit(c)
    ensures DigitCount(d + "\n" + rest) == |d|
  {
    if d != "" {
      assert (d + "\n" + rest)[1..] == d[1..] + "\n" + rest;
      DigitsEnd(d[1..], rest);
    } else {
      assert (d + "\n" + rest)[0] == '\n';
    }
  }

  /** What Server::saveSnapshot writes and Server::loadSnapshot makes of it on the next start. */
  function Restart(machineID: nat, ns: Namespace): (nat, Option<Namespace>)
    requires Wf(ns)
  {
    var loaded := LoadText(SaveText(machineID, Dump(ns)));
    (loaded.0, Load(loaded.1, EMPTY))
  }

  /** Reading words binds no path with white space in it. */
  lemma ReadNamesBlankless(dump: string)
    ensures Load(Words(dump), EMPTY).Some? ==> forall k :: k in Load(Words(dump), EMPTY).value.ids ==> Blankless(k)
  {
    LoadBinds(Words(dump), EMPTY);
    WordNamesBlankless(dump);
  }

  /** The machine ID always survives; the table survives exactly when it is portable and free of white space. */
  lemma RestartKeeps(machineID: nat, ns: Namespace)
    requires Wf(ns) && machineID <= MACHINE_ID_MAX
    ensures Restart(machineID, ns).0 == machineID
    ensures Restart(machineID, ns).1 == Some(ns) <==> Portable(ns) && forall k :: k in ns.ids ==> Blankless(k)
  {
    NumberRead(machineID, Dump(ns));
    if forall k :: k in ns.ids ==> Blankless(k) {
      WordsOfDump(ns);
      DumpLoadsIff(ns);
    } else if Load(Words(Dump(ns)), EMPTY) == Some(ns) {
      ReadNamesBlankless(Dump(ns));
    }
  }
}
