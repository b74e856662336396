/** Block IDs: 32 bits of machine above 32 bits of counter, and the file names made of them. */
module BlockIDs {
  import opened Texts

  const LOCALS: nat := 0x1_0000_0000
  const IDS: nat := 0x1_0000_0000_0000_0000

  /** buildBlockID, getMachineIDFromBlockID and getLocalIDFromBlockID, in 32- and 64-bit words. */
  function Build(machine: nat, local: nat): nat { (machine * LOCALS) % IDS + local }

  function MachineOf(id: nat): nat { (id / LOCALS) % LOCALS }

  function LocalOf(id: nat): nat { id % LOCALS }

  /** The two halves fit together and come apart again. */
  lemma BuildSplits(machine: nat, local: nat)
    requires machine < LOCALS && local < LOCALS
    ensures Build(machine, local) < IDS && Build(machine, local) == machine * 0x1_0000_0000 + local
    ensures MachineOf(Build(machine, local)) == machine && LocalOf(Build(machine, local)) == local
  {
    assert machine * LOCALS < IDS;
    assert Build(machine, local) == machine * LOCALS + local;
  }

  lemma SplitBuilds(id: nat)
    requires id < IDS
    ensures Build(MachineOf(id), LocalOf(id)) == id
  {
    assert id / LOCALS < LOCALS;
    assert id == (id / LOCALS) * LOCALS + id % LOCALS;
  }

  // ---- File names ----

  function HexDigit(d: nat): char
    requires d < 16
  {
    if d < 10 then '0' + d as char else 'A' + (d - 10) as char
  }

  predicate IsHex(c: char) { '0' <= c <= '9' || 'A' <= c <= 'F' || 'a' <= c <= 'f' }

  function HexValue(c: char): (d: nat)
    requires IsHex(c)
    ensures d < 16
  {
    if c <= '9' then (c - '0') as nat else if c <= 'F' then 10 + (c - 'A') as nat else 10 + (c - 'a') as nat
  }

  /** The name of a block's file: `n` in capital hex digits, zeros in front. */
  function Hex(n: nat, width: nat): (s: string)
    ensures |s| == width && forall c :: c in s ==> IsHex(c)
  {
    if width == 0 then "" else Hex(n / 16, width - 1) + [HexDigit(n % 16)]
  }

  function Number(s: string): nat
    requires forall c :: c in s ==> IsHex(c)
  {
    if s == "" then 0
    else
      assert s[|s| - 1] in s;
      16 * Number(s[..|s| - 1]) + HexValue(s[|s| - 1])
  }

  function HexCount(s: string): (n: nat)
    ensures n <= |s| && forall c :: c in s[..n] ==> IsHex(c)
  {
    if s == "" || !IsHex(s[0]) then 0
    else
      var n := 1 + HexCount(s[1..]);
      assert s[..n] == [s[0]] + s[1..][..n - 1];
      n
  }

  function Leading(s: string): nat { Number(s[..HexCount(s)]) }

  /** strtoull with base 16: blanks, a sign, 0x, and as many digits as there are. */
  function Strtoull(s: string): nat
  {
    var t := SkipSpaces(s);
    var u := if t != "" && (t[0] == '-' || t[0] == '+') then t[1..] else t;
    var v := if |u| >= 3 && u[0] == '0' && (u[1] == 'x' || u[1] == 'X') && IsHex(u[2]) then u[2..] else u;
    var n := Leading(v);
    if n >= IDS then IDS - 1
    else if t != "" && t[0] == '-' then (IDS - n) % IDS
    else n
  }

  function Pow16(n: nat): (p: nat)
    ensures p > 0
  {
    if n == 0 then 1 else 16 * Pow16(n - 1)
  }

  lemma DigitBack(d: nat)
    requires d < 16
    ensures HexValue(HexDigit(d)) == d
  {
  }

  lemma {:induction false} NumberOfHex(n: nat, width: nat)
    requires n < Pow16(width)
    ensures Number(Hex(n, width)) == n
  {
    if width > 0 {
      NumberOfHex(n / 16, width - 1);
      DigitBack(n % 16);
      assert Hex(n, width)[..width - 1] == Hex(n / 16, width - 1);
      assert 16 * (n / 16) + n % 16 == n;
    }
  }

  lemma {:induction false} AllHex(s: string)
    requires forall c :: c in s ==> IsHex(c)
    ensures HexCount(s) == |s|
  {
    if s != "" {
      AllHex(s[1..]);
    }
  }

  lemma SixteenDigits()
    ensures Pow16(16) == IDS
  {
    assert Pow16(4) == 0x1_0000;
    assert Pow16(8) == 0x1_0000_0000;
    assert Pow16(12) == 0x1_0000_0000_0000;
  }

  /** The name convertBlockIDToPath prints is read back by the directory scan. */
  lemma NameReadsBack(id: nat)
    requires id < IDS
    ensures |Hex(id, 16)| == 16 && Strtoull(Hex(id, 16)) == id
  {
    SixteenDigits();
    NumberOfHex(id, 16);
    HexReadsBack(Hex(id, 16));
  }

  /** The highest digit comes first, and the digits are capitals. */
  lemma OneName()
    ensures Hex(0x1B0F, 6) == "001B0F"
  {
    assert Hex(0, 2) == "00";
    assert Hex(0x1B, 4) == "001B";
  }

  lemma HexStart(c: char)
    requires IsHex(c)
    ensures !IsSpace(c) && c != '-' && c != '+' && c != 'x' && c != 'X'
  {
  }

  /** strtoull on a word of hex digits only. */
  lemma HexReadsBack(s: string)
    requires |s| > 1 && (forall c :: c in s ==> IsHex(c)) && Number(s) < IDS
    ensures Strtoull(s) == Number(s)
  {
    HexStart(s[0]);
    HexStart(s[1]);
    assert SkipSpaces(s) == s;
    LeadingHex(s);
  }

  lemma LeadingHex(s: string)
    requires forall c :: c in s ==> IsHex(c)
    ensures Leading(s) == Number(s)
  {
    AllHex(s);
    assert s[..|s|] == s;
  }

  // ---- The scan of the block directory ----

  /** What loadLocalIDs has found: the blocks, and the highest counter among those of this machine. */
  datatype Found = Found(ids: set<nat>, max: nat)

  predicate Skipped(name: string) { name == "." || name == ".." || |name| != 16 || Strtoull(name) == 0 }

  function Scan(machine: nat, names: seq<string>): Found
  {
    if names == [] then Found({}, 0)
    else
      var f, name := Scan(machine, names[..|names| - 1]), names[|names| - 1];
      if Skipped(name) then f
      else
        var id := Strtoull(name);
        Found(f.ids + {id}, if MachineOf(id) == machine && LocalOf(id) > f.max then LocalOf(id) else f.max)
  }

  method LoadLocalIDs(machine: nat, names: seq<string>) returns (ids: set<nat>, max: nat)
    ensures Found(ids, max) == Scan(machine, names)
  {
    ids, max := {}, 0;
    var i := 0;
    while i < |names|
      invariant 0 <= i <= |names| && Found(ids, max) == Scan(machine, names[..i])
    {
      var name := names[i];
      assert names[..i + 1][..i] == names[..i];
      i := i + 1;
      if name == "." || name == ".." {
        continue;
      }
      if |name| != 16 {
        continue;
      }
      var tmp := Strtoull(name);
      if tmp == 0 {
        continue;
      }
      ids := ids + {tmp};
      var mid := MachineOf(tmp);
      if machine == mid {
        var bid := LocalOf(tmp);
        if bid > max {
          max := bid;
        }
      }
    }
    assert names[..i] == names;
  }

  /** What the scan finds: every name it does not skip. */
  lemma {:induction false} ScanFinds(machine: nat, names: seq<string>, id: nat)
    ensures id in Scan(machine, names).ids <==> exists name :: name in names && !Skipped(name) && id == Strtoull(name)
  {
    if names != [] {
      var front, last := names[..|names| - 1], names[|names| - 1];
      assert names == front + [last];
      ScanFinds(machine, front, id);
    }
  }

  /** `max` is the highest counter of this machine's among `ids`, or 0. */
  ghost predicate IsHighest(machine: nat, ids: set<nat>, max: nat)
  {
    && max < LOCALS && (forall id :: id in ids && MachineOf(id) == machine ==> LocalOf(id) <= max)
    && (max > 0 ==> exists id :: id in ids && MachineOf(id) == machine && LocalOf(id) == max)
  }

  lemma HighestNext(machine: nat, ids: set<nat>, max: nat, id: nat)
    requires IsHighest(machine, ids, max)
    ensures IsHighest(machine, ids + {id}, if MachineOf(id) == machine && LocalOf(id) > max then LocalOf(id) else max)
  {
    if MachineOf(id) == machine && LocalOf(id) > max {
      assert id in ids + {id};
    } else if max > 0 {
      var x :| x in ids && MachineOf(x) == machine && LocalOf(x) == max;
      assert x in ids + {id};
    }
  }

  lemma {:induction false} ScanHighest(machine: nat, names: seq<string>)
    ensures IsHighest(machine, Scan(machine, names).ids, Scan(machine, names).max)
  {
    if names != [] {
      var front, last := names[..|names| - 1], names[|names| - 1];
      ScanHighest(machine, front);
      var f := Scan(machine, front);
      HighestNext(machine, f.ids, f.max, Strtoull(last));
    }
  }

  /** A directory that holds the files of `disk`, and names that the scan skips. */
  ghost predicate Lists(names: seq<string>, disk: set<nat>)
  {
    && (forall id :: id in disk ==> 0 < id < IDS && Hex(id, 16) in names)
    && forall name :: name in names ==> Skipped(name) || exists id :: id in disk && name == Hex(id, 16)
  }

  /** After a restart the map of local blocks is the directory again. */
  lemma ScanRebuilds(machine: nat, names: seq<string>, disk: set<nat>)
    requires Lists(names, disk)
    ensures Scan(machine, names).ids == disk
  {
    var f := Scan(machine, names);
    forall id ensures id in f.ids <==> id in disk {
      ScanFinds(machine, names, id);
      if id in disk {
        NameReadsBack(id);
        assert !Skipped(Hex(id, 16));
      }
      if id in f.ids {
        var name :| name in names && !Skipped(name) && id == Strtoull(name);
        var d :| d in disk && name == Hex(d, 16);
        NameReadsBack(d);
      }
    }
  }

  // ---- New IDs ----

  /** newLocalID, with a 32-bit counter. */
  function NewID(machine: nat, max: nat): nat { Build(machine, (max + 1) % LOCALS) }

  method NewLocalID(machine: nat, max: nat) returns (id: nat, max': nat)
    requires machine < LOCALS && max < LOCALS
    ensures id == NewID(machine, max) && MachineOf(id) == machine && LocalOf(id) == max'
  {
    max' := (max + 1) % LOCALS;
    BuildSplits(machine, max');
    id := Build(machine, max');
  }

  lemma NewOffIff(machine: nat, disk: set<nat>, max: nat)
    requires machine < LOCALS && IsHighest(machine, disk, max)
    ensures NewID(machine, max) !in disk <==> max + 1 < LOCALS || Build(machine, 0) !in disk
  {
    if max + 1 < LOCALS {
      BuildSplits(machine, max + 1);
    }
  }

  /** The first new ID after a restart is off every file of the directory, exactly unless the counter wraps onto one. */
  lemma NewIsOffDiskIff(machine: nat, names: seq<string>, disk: set<nat>)
    requires machine < LOCALS && Lists(names, disk)
    ensures var max := Scan(machine, names).max;
      NewID(machine, max) !in disk <==> max + 1 < LOCALS || Build(machine, 0) !in disk
  {
    ScanHighest(machine, names);
    ScanRebuilds(machine, names, disk);
    NewOffIff(machine, disk, Scan(machine, names).max);
  }

  lemma NewUnissuedIff(machine: nat, disk: set<nat>, max: nat, last: nat)
    requires machine < LOCALS && 0 < last < LOCALS && IsHighest(machine, disk, max)
    requires forall id :: id in disk ==> id < IDS && (MachineOf(id) == machine ==> LocalOf(id) <= last)
    ensures LocalOf(NewID(machine, max)) > last <==> Build(machine, last) in disk && last + 1 < LOCALS
  {
    BuildSplits(machine, last);
    if max > 0 {
      var id :| id in disk && MachineOf(id) == machine && LocalOf(id) == max;
      SplitBuilds(id);
    }
    BuildSplits(machine, (max + 1) % LOCALS);
  }

  /**
   * But it may have been issued before: with `last` as the last counter this machine has issued, the new ID is
   * beyond it exactly when the file of `last` is still there, and the counter does not wrap.
   */
  lemma NewIsUnissuedIff(machine: nat, names: seq<string>, disk: set<nat>, last: nat)
    requires machine < LOCALS && 0 < last < LOCALS && Lists(names, disk)
    requires forall id :: id in disk && MachineOf(id) == machine ==> LocalOf(id) <= last
    ensures LocalOf(NewID(machine, Scan(machine, names).max)) > last
        <==> Build(machine, last) in disk && last + 1 < LOCALS
  {
    ScanHighest(machine, names);
    ScanRebuilds(machine, names, disk);
    NewUnissuedIff(machine, disk, Scan(machine, names).max, last);
  }

  /** A machine that has issued one ID and deleted its block issues the same one after a restart. */
  lemma ReissuedAfterDelete(machine: nat)
    requires machine < LOCALS
    ensures NewID(machine, Scan(machine, []).max) == NewID(machine, 0) == Build(machine, 1)
  {
  }

  // ---- A whole cluster drawing IDs ----

  function Count(machines: seq<nat>, m: nat): nat
  {
    if machines == [] then 0
    else Count(machines[..|machines| - 1], m) + if machines[|machines| - 1] == m then 1 else 0
  }

  /** The k-th ID drawn, when the k-th drawer is `machines[k]` and every counter started at 0. */
  function Drawn(machines: seq<nat>, k: nat): nat
    requires k < |machines|
  {
    NewID(machines[k], Count(machines[..k], machines[k]) % LOCALS)
  }

  ghost predicate AllDistinct(machines: seq<nat>)
  {
    forall i, j :: 0 <= i < j < |machines| ==> Drawn(machines, i) != Drawn(machines, j)
  }

  lemma {:induction false} CountGrows(machines: seq<nat>, i: nat, j: nat, m: nat)
    requires i <= j <= |machines|
    ensures Count(machines[..i], m) <= Count(machines[..j], m)
    decreases j
  {
    if i < j {
      CountGrows(machines, i, j - 1, m);
      assert machines[..j][..j - 1] == machines[..j - 1];
    }
  }

  /** The draw in which a machine's count reaches `c`. */
  lemma {:induction false} DrawNumber(machines: seq<nat>, m: nat, c: nat) returns (k: nat)
    requires 0 < c <= Count(machines, m)
    ensures k < |machines| && machines[k] == m && Count(machines[..k], m) == c - 1
  {
    var n := |machines| - 1;
    if Count(machines[..n], m) >= c {
      k := DrawNumber(machines[..n], m, c);
      assert machines[..n][..k] == machines[..k];
    } else {
      k := n;
    }
  }

  lemma WrapStep(c: nat)
    ensures (c % LOCALS + 1) % LOCALS == (c + 1) % LOCALS
  {
  }

  lemma DrawnParts(machines: seq<nat>, k: nat)
    requires k < |machines| && machines[k] < LOCALS
    ensures MachineOf(Drawn(machines, k)) == machines[k]
    ensures LocalOf(Drawn(machines, k)) == (Count(machines[..k], machines[k]) + 1) % LOCALS
  {
    var c := Count(machines[..k], machines[k]);
    WrapStep(c);
    BuildSplits(machines[k], (c % LOCALS + 1) % LOCALS);
  }

  lemma DrawnApart(machines: seq<nat>, i: nat, j: nat)
    requires i < j < |machines| && machines[i] < LOCALS && machines[j] < LOCALS
    requires Count(machines, machines[i]) <= LOCALS
    ensures Drawn(machines, i) != Drawn(machines, j)
  {
    DrawnParts(machines, i);
    DrawnParts(machines, j);
    var m := machines[i];
    if machines[j] == m {
      assert machines[..i + 1][..i] == machines[..i];
      CountGrows(machines, i + 1, j, m);
      assert machines[..j + 1][..j] == machines[..j];
      CountGrows(machines, j + 1, |machines|, m);
      assert machines[..|machines|] == machines;
      SmallApart(Count(machines[..i], m) + 1, Count(machines[..j], m) + 1);
    }
  }

  lemma SmallApart(a: nat, b: nat)
    requires 0 < a < b <= LOCALS
    ensures a % LOCALS != b % LOCALS
  {
  }

  /** All IDs drawn are different exactly when no machine has drawn more than there are counters. */
  lemma DistinctIff(machines: seq<nat>)
    requires forall m :: m in machines ==> 0 < m < LOCALS
    ensures AllDistinct(machines) <==> forall m :: m in machines ==> Count(machines, m) <= LOCALS
  {
    if m :| m in machines && Count(machines, m) > LOCALS {
      var i := DrawNumber(machines, m, 1);
      var j := DrawNumber(machines, m, LOCALS + 1);
      assert machines[i] in machines && machines[j] in machines;
      DrawnParts(machines, i);
      DrawnParts(machines, j);
      SameParts(Drawn(machines, i), Drawn(machines, j), machines, i, j);
      if i > j {
        CountGrows(machines, j, i, m);
      }
      assert i < j;
      assert Drawn(machines, i) == Drawn(machines, j);
    } else {
      forall i, j | 0 <= i < j < |machines| ensures Drawn(machines, i) != Drawn(machines, j) {
        assert machines[i] in machines && machines[j] in machines;
        DrawnApart(machines, i, j);
      }
    }
  }

  lemma SameParts(a: nat, b: nat, machines: seq<nat>, i: nat, j: nat)
    requires i < |machines| && j < |machines| && a == Drawn(machines, i) && b == Drawn(machines, j)
    requires machines[i] == machines[j] < LOCALS && LocalOf(a) == LocalOf(b)
    ensures a == b
  {
    DrawnParts(machines, i);
    DrawnParts(machines, j);
    BuildSplits(machines[i], LocalOf(a));
    DrawnBelow(machines, i);
    DrawnBelow(machines, j);
    SplitBuilds(a);
    SplitBuilds(b);
  }

  lemma DrawnBelow(machines: seq<nat>, k: nat)
    requires k < |machines| && machines[k] < LOCALS
    ensures Drawn(machines, k) < IDS
  {
    BuildSplits(machines[k], (Count(machines[..k], machines[k]) % LOCALS + 1) % LOCALS);
  }

  /** And none is 0, the ID of a block that has none yet. */
  lemma DrawnNotZero(machines: seq<nat>, k: nat)
    requires k < |machines| && 0 < machines[k] < LOCALS
    ensures Drawn(machines, k) != 0
  {
    DrawnParts(machines, k);
  }
}
