/** The meta block's bytes and pointers: src/block/MetaBlock.cpp, as functions on values. */
module MetaLayout {
  import opened Association
  import opened Bytes

  datatype Pointer = Null | At(off: nat)

  /** One MetaBlock object: the block's bytes, and where its pointers point. */
  datatype Image = Image(bytes: seq<byte>, filename: Pointer, ctime: Pointer, size: Pointer, number: Pointer,
      first: Pointer)

  /** `data` with `b` written over it from `off` on. */
  function Over(data: seq<byte>, off: nat, b: seq<byte>): (r: seq<byte>)
    requires off + |b| <= |data|
    ensures |r| == |data|
  {
    seq(|data|, i requires 0 <= i < |data| => if off <= i < off + |b| then b[i - off] else data[i])
  }

  /** The 8-byte word at `off`, and 0 past the end of the block. */
  function Word(bytes: seq<byte>, off: nat): nat
  {
    if off + 8 <= |bytes| then FromLE(bytes[off..off + 8]) else 0
  }

  function NameLength(bytes: seq<byte>): nat { Word(bytes, 0) }

  /** The constructor: a block that has a name length gets its pointers from it. */
  function Opened(bytes: seq<byte>): Image
  {
    var l := NameLength(bytes);
    if l == 0 then Image(bytes, Null, Null, Null, Null, Null)
    else Image(bytes, At(8), At(8 + l), At(16 + l), At(24 + l), At(32 + l))
  }

  // ---- The setters; None when one writes past the end of the block ----

  function Stored(bytes: seq<byte>, off: nat, b: seq<byte>): Option<seq<byte>>
  {
    if off + |b| <= |bytes| then Some(Over(bytes, off, b)) else None
  }

  function Named(img: Image, name: seq<byte>): Option<Image>
  {
    if 8 + |name| > |img.bytes| then None
    else
      var bytes := Over(Over(img.bytes, 0, LE(|name|, 8)), 8, name);
      Some(if img.filename.Null? then img.(bytes := bytes, filename := At(8))
           else img.(bytes := bytes, ctime := Null, number := Null, first := Null))
  }

  function TimeAt(img: Image): nat
    requires img.filename.At?
  {
    if img.ctime.Null? then img.filename.off + NameLength(img.bytes) else img.ctime.off
  }

  /** Refused until there is a name. */
  function Timed(img: Image, t: nat): Option<Image>
  {
    if img.filename.Null? then Some(img)
    else match Stored(img.bytes, TimeAt(img), LE(t, 8))
         case None => None
         case Some(bytes) => Some(img.(bytes := bytes, ctime := At(TimeAt(img))))
  }

  function SizeAt(img: Image): nat
    requires img.ctime.At?
  {
    if img.size.Null? then img.ctime.off + 8 else img.size.off
  }

  /** Refused until there is a creation time. */
  function Sized(img: Image, s: nat): Option<Image>
  {
    if img.ctime.Null? then Some(img)
    else match Stored(img.bytes, SizeAt(img), LE(s, 8))
         case None => None
         case Some(bytes) => Some(img.(bytes := bytes, size := At(SizeAt(img))))
  }

  /** The first addDataID starts the list right after the size. */
  function Counting(img: Image): Option<Image>
    requires img.size.At?
  {
    if img.number.At? && img.first.At? then Some(img)
    else match Stored(img.bytes, img.size.off + 8, LE(0, 8))
         case None => None
         case Some(bytes) => Some(img.(bytes := bytes, number := At(img.size.off + 8), first := At(img.size.off + 16)))
  }

  /** Count one more, and store it behind the others. */
  function Listed(c: Image, id: nat): Option<Image>
    requires c.number.At? && c.first.At?
  {
    var n := Word(c.bytes, c.number.off);
    match Stored(c.bytes, c.number.off, LE(n + 1, 8))
    case None => None
    case Some(bytes) =>
      match Stored(bytes, c.first.off + 8 * n, LE(id, 8))
      case None => None
      case Some(bytes') => Some(c.(bytes := bytes'))
  }

  /** Refused until there is a size. */
  function IDAdded(img: Image, id: nat): Option<Image>
  {
    if img.size.Null? then Some(img)
    else match Counting(img)
         case None => None
         case Some(c) => Listed(c, id)
  }

  /** The three setters that FileUploader::setupMeta calls. */
  function Setup(img: Image, name: seq<byte>, t: nat, s: nat): Option<Image>
  {
    match Named(img, name)
    case None => None
    case Some(a) =>
      match Timed(a, t)
      case None => None
      case Some(b) => Sized(b, s)
  }

  function AllAdded(img: Image, ids: seq<nat>): Option<Image>
  {
    if ids == [] then Some(img)
    else match AllAdded(img, ids[..|ids| - 1])
         case None => None
         case Some(a) => IDAdded(a, ids[|ids| - 1])
  }

  function Written(img: Image, m: Meta): Option<Image>
  {
    match Setup(img, m.name, m.ctime, m.size)
    case None => None
    case Some(a) => AllAdded(a, m.ids)
  }

  // ---- The getters ----

  datatype Meta = Meta(name: seq<byte>, ctime: nat, size: nat, ids: seq<nat>)

  function NameOf(img: Image): seq<byte>
  {
    if img.filename.Null? || img.filename.off + NameLength(img.bytes) > |img.bytes| then []
    else img.bytes[img.filename.off..img.filename.off + NameLength(img.bytes)]
  }

  function Field(img: Image, p: Pointer): nat { if p.Null? then 0 else Word(img.bytes, p.off) }

  /** getDataBlockID: 0 for a number out of range. */
  function IDAt(img: Image, k: nat): nat
  {
    if img.number.Null? || k >= Field(img, img.number) || img.first.Null? then 0
    else Word(img.bytes, img.first.off + 8 * k)
  }

  /** What the getters say, the IDs for each number below getDataBlockNumber. */
  function Read(img: Image): Meta
  {
    Meta(NameOf(img), Field(img, img.ctime), Field(img, img.size),
      seq(Field(img, img.number), k requires k >= 0 => IDAt(img, k)))
  }

  // ---- The format ----

  function Space(m: Meta): nat { 32 + |m.name| + 8 * |m.ids| }

  /** Word-sized numbers, in a block whose size is one too. */
  ghost predicate Fits(m: Meta, blockSize: nat)
  {
    && Space(m) <= blockSize < Pow256(8)
    && m.ctime < Pow256(8) && m.size < Pow256(8) && forall id :: id in m.ids ==> id < Pow256(8)
  }

  /** Name length, name, creation time and size, one after another. */
  ghost predicate HasHeader(bytes: seq<byte>, name: seq<byte>, t: nat, s: nat)
  {
    var l := |name|;
    && 24 + l <= |bytes| && NameLength(bytes) == l && bytes[8..8 + l] == name
    && Word(bytes, 8 + l) == t && Word(bytes, 16 + l) == s
  }

  function Entry(bytes: seq<byte>, at: nat, k: nat): nat { Word(bytes, at + 8 + 8 * k) }

  /** After them the count and the IDs. */
  ghost predicate HasList(bytes: seq<byte>, at: nat, ids: seq<nat>)
  {
    Word(bytes, at) == |ids| && Lists(bytes, at, ids)
  }

  ghost predicate Lists(bytes: seq<byte>, at: nat, ids: seq<nat>)
  {
    forall k :: 0 <= k < |ids| ==> Entry(bytes, at, k) == ids[k]
  }

  /** A block whose bytes describe `m`, and whose pointers say so. */
  ghost predicate Holds(img: Image, m: Meta)
  {
    var l := |m.name|;
    && Space(m) <= |img.bytes| && HasHeader(img.bytes, m.name, m.ctime, m.size) && HasList(img.bytes, 24 + l, m.ids)
    && img.filename == At(8) && img.ctime == At(8 + l) && img.size == At(16 + l)
    && if img.number.Null? then m.ids == [] && img.first.Null? else img.number == At(24 + l) && img.first == At(32 + l)
  }

  /** An object that holds `m` reads it back. */
  lemma HoldsReads(img: Image, m: Meta)
    requires Holds(img, m)
    ensures Read(img) == m
  {
    forall k | 0 <= k < |m.ids| ensures IDAt(img, k) == m.ids[k] {
      assert Entry(img.bytes, 24 + |m.name|, k) == m.ids[k];
    }
    assert Read(img).ids == m.ids;
  }

  /** The same block opened again holds the same, exactly when the name is not empty. */
  lemma OpenedHolds(img: Image, m: Meta)
    requires Holds(img, m)
    ensures Holds(Opened(img.bytes), m) <==> m.name != []
  {
  }

  // ---- Writing ----

  /** A word that was written is read back. */
  lemma OverWord(data: seq<byte>, off: nat, v: nat)
    requires off + 8 <= |data| && v < Pow256(8)
    ensures Word(Over(data, off, LE(v, 8)), off) == v
  {
    assert Over(data, off, LE(v, 8))[off..off + 8] == LE(v, 8);
    LEFits(v, 8);
  }

  /** Words that do not overlap it stay. */
  lemma OverElsewhere(data: seq<byte>, off: nat, b: seq<byte>, at: nat)
    requires off + |b| <= |data| && (at + 8 <= off || off + |b| <= at)
    ensures Word(Over(data, off, b), at) == Word(data, at)
  {
    if at + 8 <= |data| {
      assert Over(data, off, b)[at..at + 8] == data[at..at + 8];
    }
  }

  lemma OverAfter(data: seq<byte>, off: nat, b: seq<byte>, to: nat)
    requires off + |b| <= |data| && to <= off
    ensures Over(data, off, b)[..to] == data[..to]
  {
  }

  /** Writing behind the header leaves the header. */
  lemma HeaderKept(data: seq<byte>, off: nat, b: seq<byte>, name: seq<byte>, t: nat, s: nat)
    requires HasHeader(data, name, t, s) && 24 + |name| <= off && off + |b| <= |data|
    ensures HasHeader(Over(data, off, b), name, t, s)
  {
    OverElsewhere(data, off, b, 0);
    OverElsewhere(data, off, b, 8 + |name|);
    OverElsewhere(data, off, b, 16 + |name|);
    OverAfter(data, off, b, 8 + |name|);
    assert Over(data, off, b)[..8 + |name|][8..] == data[..8 + |name|][8..];
  }

  lemma OverHere(data: seq<byte>, off: nat, b: seq<byte>)
    requires off + |b| <= |data|
    ensures Over(data, off, b)[off..off + |b|] == b
  {
  }

  lemma OverTwice(data: seq<byte>, b: seq<byte>, c: seq<byte>, at: nat)
    requires |b| + |c| <= |data| && |b| + |c| <= at
    ensures Word(Over(Over(data, 0, b), |b|, c), at) == Word(data, at)
  {
    OverElsewhere(Over(data, 0, b), |b|, c, at);
    OverElsewhere(data, 0, b, at);
  }

  lemma NamedWrites(img: Image, name: seq<byte>)
    requires |img.bytes| < Pow256(8) && 8 + |name| <= |img.bytes|
    ensures var r := Named(img, name).value;
      && |r.bytes| == |img.bytes| && NameLength(r.bytes) == |name| && r.bytes[8..8 + |name|] == name
      && forall at :: 8 + |name| <= at ==> Word(r.bytes, at) == Word(img.bytes, at)
  {
    var b0 := Over(img.bytes, 0, LE(|name|, 8));
    OverWord(img.bytes, 0, |name|);
    OverElsewhere(b0, 8, name, 0);
    OverHere(b0, 8, name);
    forall at | 8 + |name| <= at ensures Word(Over(b0, 8, name), at) == Word(img.bytes, at) {
      OverTwice(img.bytes, LE(|name|, 8), name, at);
    }
  }

  /** The creation time and the size behind a name. */
  lemma TimesWritten(data: seq<byte>, name: seq<byte>, t: nat, s: nat)
    requires 24 + |name| <= |data| && NameLength(data) == |name| && data[8..8 + |name|] == name
    requires t < Pow256(8) && s < Pow256(8)
    ensures var r := Over(Over(data, 8 + |name|, LE(t, 8)), 16 + |name|, LE(s, 8));
      HasHeader(r, name, t, s) && forall at :: 24 + |name| <= at ==> Word(r, at) == Word(data, at)
  {
    var l := |name|;
    var b := Over(data, 8 + l, LE(t, 8));
    var r := Over(b, 16 + l, LE(s, 8));
    OverWord(data, 8 + l, t);
    OverWord(b, 16 + l, s);
    OverElsewhere(b, 16 + l, LE(s, 8), 8 + l);
    OverElsewhere(b, 16 + l, LE(s, 8), 0);
    OverElsewhere(data, 8 + l, LE(t, 8), 0);
    OverAfter(b, 16 + l, LE(s, 8), 8 + l);
    OverAfter(data, 8 + l, LE(t, 8), 8 + l);
    assert r[..8 + l][8..] == data[..8 + l][8..];
    forall at | 24 + l <= at ensures Word(r, at) == Word(data, at) {
      OverElsewhere(b, 16 + l, LE(s, 8), at);
      OverElsewhere(data, 8 + l, LE(t, 8), at);
    }
  }

  /** What setupMeta leaves in a block that had no name, or whose name was as long as the new one. */
  lemma SetupWrites(img: Image, name: seq<byte>, t: nat, s: nat)
    requires |img.bytes| < Pow256(8) && t < Pow256(8) && s < Pow256(8)
    requires img.filename.Null? ==> img.ctime.Null? && img.size.Null?
    requires img.filename.At? ==> img.filename.off == 8
    requires img.size.At? ==> img.size.off == 16 + |name|
    ensures Setup(img, name, t, s).Some? <==> 24 + |name| <= |img.bytes|
    ensures 24 + |name| <= |img.bytes| ==>
              var l, r := |name|, Setup(img, name, t, s).value;
              && |r.bytes| == |img.bytes| && HasHeader(r.bytes, name, t, s)
              && (forall at :: 24 + l <= at ==> Word(r.bytes, at) == Word(img.bytes, at))
              && r.filename == At(8) && r.ctime == At(8 + l) && r.size == At(16 + l)
              && r.number == (if img.filename.Null? then img.number else Null)
              && r.first == (if img.filename.Null? then img.first else Null)
  {
    if 8 + |name| <= |img.bytes| {
      NamedWrites(img, name);
      if 24 + |name| <= |img.bytes| {
        TimesWritten(Named(img, name).value.bytes, name, t, s);
      }
    }
  }

  lemma {:induction false} ZeroWords(n: nat, at: nat)
    ensures Word(Zeros(n), at) == 0
  {
    if at + 8 <= n {
      ZeroBytes(8);
      assert Zeros(n)[at..at + 8] == LE(0, 8);
      LEFits(0, 8);
    }
  }

  lemma {:induction false} ZeroBytes(n: nat)
    ensures LE(0, n) == Zeros(n)
  {
    if n > 0 {
      ZeroBytes(n - 1);
      assert Zeros(n) == [0] + Zeros(n - 1);
    }
  }

  /** A fresh block after setupMeta. */
  lemma SetupHolds(n: nat, name: seq<byte>, t: nat, s: nat)
    requires n < Pow256(8) && t < Pow256(8) && s < Pow256(8)
    ensures Setup(Opened(Zeros(n)), name, t, s).Some? <==> 24 + |name| <= n
    ensures 24 + |name| <= n ==>
              var r := Setup(Opened(Zeros(n)), name, t, s).value;
              |r.bytes| == n && r.size == At(16 + |name|) && r.number.Null?
    ensures 32 + |name| <= n ==> Holds(Setup(Opened(Zeros(n)), name, t, s).value, Meta(name, t, s, []))
  {
    ZeroWords(n, 0);
    ZeroWords(n, 24 + |name|);
    SetupWrites(Opened(Zeros(n)), name, t, s);
  }

  /** Before the next ID goes in: the list is there, and nothing else has changed. */
  lemma CountingHolds(img: Image, m: Meta)
    requires Holds(img, m)
    ensures Counting(img).Some?
    ensures var c := Counting(img).value;
      |c.bytes| == |img.bytes| && Holds(c, m) && c.number.At?
  {
    if img.number.Null? {
      HeaderKept(img.bytes, 24 + |m.name|, LE(0, 8), m.name, m.ctime, m.size);
      assert Pow256(8) > 0;
      OverWord(img.bytes, 24 + |m.name|, 0);
    }
  }

  /** A new count, and a new entry behind the others. */
  lemma ListGrows(bytes: seq<byte>, at: nat, ids: seq<nat>, id: nat)
    requires HasList(bytes, at, ids) && at + 16 + 8 * |ids| <= |bytes| < Pow256(8) && id < Pow256(8)
    ensures HasList(Over(Over(bytes, at, LE(|ids| + 1, 8)), at + 8 + 8 * |ids|, LE(id, 8)), at, ids + [id])
  {
    var b := Over(bytes, at, LE(|ids| + 1, 8));
    OverWord(bytes, at, |ids| + 1);
    ListKept(bytes, at, LE(|ids| + 1, 8), at, ids);
    OverWord(b, at + 8 + 8 * |ids|, id);
    EntryBehind(b, at, ids, id, LE(id, 8));
  }

  lemma EntryBehind(b: seq<byte>, at: nat, ids: seq<nat>, id: nat, w: seq<byte>)
    requires Word(b, at) == |ids| + 1 && Lists(b, at, ids) && |w| == 8 && at + 16 + 8 * |ids| <= |b|
    requires Word(Over(b, at + 8 + 8 * |ids|, w), at + 8 + 8 * |ids|) == id
    ensures HasList(Over(b, at + 8 + 8 * |ids|, w), at, ids + [id])
  {
    var end := at + 8 + 8 * |ids|;
    OverElsewhere(b, end, w, at);
    ListKept(b, end, w, at, ids);
    ListLonger(Over(b, end, w), at, ids, id);
  }

  lemma ListLonger(r: seq<byte>, at: nat, ids: seq<nat>, id: nat)
    requires Word(r, at) == |ids| + 1 && Lists(r, at, ids) && Word(r, at + 8 + 8 * |ids|) == id
    ensures HasList(r, at, ids + [id])
  {
    assert Entry(r, at, |ids|) == id;
  }

  lemma ListKept(data: seq<byte>, off: nat, b: seq<byte>, at: nat, ids: seq<nat>)
    requires off + |b| <= |data| && (off + |b| <= at + 8 || at + 8 + 8 * |ids| <= off) && Lists(data, at, ids)
    ensures Lists(Over(data, off, b), at, ids)
  {
    forall k | 0 <= k < |ids| ensures Entry(Over(data, off, b), at, k) == ids[k] {
      OverElsewhere(data, off, b, at + 8 + 8 * k);
      assert Entry(data, at, k) == ids[k];
    }
  }

  lemma HeaderKeptTwice(data: seq<byte>, off: nat, b: seq<byte>, off': nat, b': seq<byte>, m: Meta)
    requires HasHeader(data, m.name, m.ctime, m.size) && 24 + |m.name| <= off && 24 + |m.name| <= off'
    requires off + |b| <= |data| && off' + |b'| <= |data|
    ensures HasHeader(Over(Over(data, off, b), off', b'), m.name, m.ctime, m.size)
  {
    HeaderKept(data, off, b, m.name, m.ctime, m.size);
    HeaderKept(Over(data, off, b), off', b', m.name, m.ctime, m.size);
  }

  lemma ListedLists(c: Image, at: nat, ids: seq<nat>, id: nat)
    requires c.number == At(at) && c.first == At(at + 8) && HasList(c.bytes, at, ids) && |c.bytes| < Pow256(8)
    requires id < Pow256(8)
    ensures Listed(c, id).Some? <==> at + 16 + 8 * |ids| <= |c.bytes|
    ensures Listed(c, id).Some? ==>
              && Listed(c, id).value == c.(bytes := Listed(c, id).value.bytes)
                && |Listed(c, id).value.bytes| == |c.bytes|
              && HasList(Listed(c, id).value.bytes, at, ids + [id])
  {
    if at + 16 + 8 * |ids| <= |c.bytes| {
      ListGrows(c.bytes, at, ids, id);
    }
  }

  lemma ListedHeader(c: Image, m: Meta, id: nat)
    requires c.number == At(24 + |m.name|) && c.first == At(32 + |m.name|) && Listed(c, id).Some?
    requires HasHeader(c.bytes, m.name, m.ctime, m.size) && Word(c.bytes, 24 + |m.name|) == |m.ids|
    ensures HasHeader(Listed(c, id).value.bytes, m.name, m.ctime, m.size)
  {
    HeaderKeptTwice(c.bytes, 24 + |m.name|, LE(|m.ids| + 1, 8), 32 + |m.name| + 8 * |m.ids|, LE(id, 8), m);
  }

  lemma ListedHolds(c: Image, m: Meta, id: nat)
    requires |c.bytes| < Pow256(8) && id < Pow256(8) && Holds(c, m) && c.number.At?
    ensures Listed(c, id).Some? <==> Space(m) + 8 <= |c.bytes|
    ensures Space(m) + 8 <= |c.bytes| ==>
              && |Listed(c, id).value.bytes| == |c.bytes| && Holds(Listed(c, id).value, m.(ids := m.ids + [id]))
  {
    ListedLists(c, 24 + |m.name|, m.ids, id);
    if Space(m) + 8 <= |c.bytes| {
      ListedHeader(c, m, id);
    }
  }

  /** One more ID, if the block has room for it. */
  lemma AddHolds(img: Image, m: Meta, id: nat)
    requires |img.bytes| < Pow256(8) && id < Pow256(8) && Holds(img, m)
    ensures IDAdded(img, id).Some? <==> Space(m) + 8 <= |img.bytes|
    ensures Space(m) + 8 <= |img.bytes| ==>
              && |IDAdded(img, id).value.bytes| == |img.bytes| && Holds(IDAdded(img, id).value, m.(ids := m.ids + [id]))
  {
    CountingHolds(img, m);
    ListedHolds(Counting(img).value, m, id);
  }

  lemma WithLast(m: Meta, ids: seq<nat>)
    requires ids != []
    ensures var mid := m.(ids := m.ids + ids[..|ids| - 1]);
      mid.(ids := mid.ids + [ids[|ids| - 1]]) == m.(ids := m.ids + ids)
  {
    assert m.ids + ids[..|ids| - 1] + [ids[|ids| - 1]] == m.ids + ids;
  }

  lemma AllAddedNext(img: Image, ids: seq<nat>)
    requires ids != [] && AllAdded(img, ids[..|ids| - 1]).Some?
    ensures AllAdded(img, ids) == IDAdded(AllAdded(img, ids[..|ids| - 1]).value, ids[|ids| - 1])
  {
  }

  /** All the IDs, where the block has room for all of them. */
  lemma {:induction false} AddAllHolds(img: Image, m: Meta, ids: seq<nat>)
    requires |img.bytes| < Pow256(8) && Holds(img, m) && forall id :: id in ids ==> id < Pow256(8)
    requires Space(m) + 8 * |ids| <= |img.bytes|
    ensures AllAdded(img, ids).Some? && |AllAdded(img, ids).value.bytes| == |img.bytes|
    ensures Holds(AllAdded(img, ids).value, m.(ids := m.ids + ids))
  {
    if ids == [] {
      assert m.ids + ids == m.ids;
    } else {
      var front, last := ids[..|ids| - 1], ids[|ids| - 1];
      assert last in ids && forall id :: id in front ==> id in ids;
      AddAllHolds(img, m, front);
      AddHolds(AllAdded(img, front).value, m.(ids := m.ids + front), last);
      AllAddedNext(img, ids);
      WithLast(m, ids);
    }
  }

  /** And not where it has not. */
  lemma {:induction false} AddAllOverruns(img: Image, m: Meta, ids: seq<nat>)
    requires |img.bytes| < Pow256(8) && Holds(img, m) && forall id :: id in ids ==> id < Pow256(8)
    requires Space(m) + 8 * |ids| > |img.bytes|
    ensures AllAdded(img, ids).None?
  {
    var front, last := ids[..|ids| - 1], ids[|ids| - 1];
    assert last in ids && forall id :: id in front ==> id in ids;
    if Space(m) + 8 * |front| > |img.bytes| {
      AddAllOverruns(img, m, front);
    } else {
      AddAllHolds(img, m, front);
      AddHolds(AllAdded(img, front).value, m.(ids := m.ids + front), last);
    }
  }

  // ---- The codec ----

  /** Writing stays inside a fresh block exactly when the header, and the list if there is one, fit. */
  lemma WritesFitIff(n: nat, m: Meta)
    requires n < Pow256(8) && m.ctime < Pow256(8) && m.size < Pow256(8) && forall id :: id in m.ids ==> id < Pow256(8)
    ensures Written(Opened(Zeros(n)), m).Some? <==> (if m.ids == [] then 24 + |m.name| else Space(m)) <= n
    ensures Space(m) <= n ==>
        |Written(Opened(Zeros(n)), m).value.bytes| == n && Holds(Written(Opened(Zeros(n)), m).value, m)
  {
    SetupHolds(n, m.name, m.ctime, m.size);
    if 32 + |m.name| <= n {
      var none := Meta(m.name, m.ctime, m.size, []);
      var a := Setup(Opened(Zeros(n)), m.name, m.ctime, m.size).value;
      if Space(m) <= n {
        AddAllHolds(a, none, m.ids);
        assert none.ids + m.ids == m.ids;
      } else {
        AddAllOverruns(a, none, m.ids);
      }
    } else if 24 + |m.name| <= n && m.ids != [] {
      NoRoomForList(Setup(Opened(Zeros(n)), m.name, m.ctime, m.size).value, m.ids);
    }
  }

  lemma {:induction false} NoRoomForList(img: Image, ids: seq<nat>)
    requires img.size.At? && img.number.Null? && img.size.off + 16 > |img.bytes| && ids != []
    ensures AllAdded(img, ids).None?
  {
    if |ids| > 1 {
      NoRoomForList(img, ids[..|ids| - 1]);
    } else {
      assert ids[..0] == [];
    }
  }

  /**
   * What was written is read back: by the writer always, and after opening the bytes again exactly when the name
   * is not empty (or there is nothing to tell apart from a blank block).
   */
  lemma CodecRoundTrip(n: nat, m: Meta)
    requires Fits(m, n)
    ensures Written(Opened(Zeros(n)), m).Some?
    ensures var img := Written(Opened(Zeros(n)), m).value;
      && Read(img) == m
      && (Read(Opened(img.bytes)) == m <==> m.name != [] || m == Meta([], 0, 0, []))
  {
    WritesFitIff(n, m);
    var img := Written(Opened(Zeros(n)), m).value;
    HoldsReads(img, m);
    OpenedHolds(img, m);
    if m.name != [] {
      HoldsReads(Opened(img.bytes), m);
    } else {
      assert Read(Opened(img.bytes)) == Meta([], 0, 0, []);
    }
  }

  /** A block that is opened again takes more IDs after the ones it has. */
  lemma ReopenedAppends(img: Image, m: Meta, ids: seq<nat>)
    requires Fits(m.(ids := m.ids + ids), |img.bytes|) && Holds(img, m) && m.name != []
    ensures AllAdded(Opened(img.bytes), ids).Some?
    ensures Read(AllAdded(Opened(img.bytes), ids).value) == m.(ids := m.ids + ids)
  {
    var all := m.(ids := m.ids + ids);
    forall id | id in ids ensures id < Pow256(8) {
      assert id in all.ids;
    }
    OpenedHolds(img, m);
    AddAllHolds(Opened(img.bytes), m, ids);
    HoldsReads(AllAdded(Opened(img.bytes), ids).value, all);
  }

  // ---- A second setupMeta on the same object ----

  /**
   * A block that is set up again, as the code allows with a warning: the size pointer stays where the old name
   * put it, and the old count stays in the bytes. So it holds the new description exactly when the names have
   * the same length and there was no list.
   */
  lemma RenameHoldsIff(img: Image, m: Meta, name: seq<byte>, t: nat, s: nat)
    requires |img.bytes| < Pow256(8) && t < Pow256(8) && s < Pow256(8)
    requires Holds(img, m) && 32 + |name| <= |img.bytes|
    ensures Setup(img, name, t, s).Some?
    ensures Holds(Setup(img, name, t, s).value, Meta(name, t, s, [])) <==> |name| == |m.name| && m.ids == []
  {
    NamedWrites(img, name);
    assert Setup(img, name, t, s).value.size == img.size;
    if |name| == |m.name| {
      SetupWrites(img, name, t, s);
    }
  }

  /** With names of the same length, the first new ID resets the count. */
  lemma RenameThenAdd(img: Image, m: Meta, name: seq<byte>, t: nat, s: nat, id: nat)
    requires |img.bytes| < Pow256(8) && t < Pow256(8) && s < Pow256(8) && id < Pow256(8)
    requires Holds(img, m) && |name| == |m.name| && 40 + |name| <= |img.bytes|
    ensures Setup(img, name, t, s).Some? && IDAdded(Setup(img, name, t, s).value, id).Some?
    ensures Holds(IDAdded(Setup(img, name, t, s).value, id).value, Meta(name, t, s, [id]))
  {
    SetupWrites(img, name, t, s);
    var r, none := Setup(img, name, t, s).value, Meta(name, t, s, []);
    var c := Counting(r).value;
    HeaderKept(r.bytes, 24 + |name|, LE(0, 8), name, t, s);
    OverWord(r.bytes, 24 + |name|, 0);
    ListedHolds(c, none, id);
    assert none.ids + [id] == [id];
  }

  /** Where the size pointer has stayed, the size falls on no byte of the new name and time, or says the same. */
  ghost predicate Undisturbed(was: nat, n: nat, text: seq<byte>, w: seq<byte>)
    requires |text| == n + 8 && |w| == 8
  {
    forall j :: 0 <= j < 8 && was + j < n ==> text[8 + was + j] == w[j]
  }

  /** The bytes before the size goes in. */
  function WithTime(img: Image, name: seq<byte>, t: nat): seq<byte>
    requires 16 + |name| <= |img.bytes|
  {
    Over(Named(img, name).value.bytes, 8 + |name|, LE(t, 8))
  }

  /** A block that is set up again: the size goes where the old one was. */
  lemma RenameShape(img: Image, m: Meta, name: seq<byte>, t: nat, s: nat)
    requires |img.bytes| < Pow256(8) && Holds(img, m) && 32 + |name| <= |img.bytes|
    ensures |WithTime(img, name, t)| == |img.bytes| && 24 + |m.name| <= |img.bytes|
    ensures Setup(img, name, t, s)
         == Some(Image(Over(WithTime(img, name, t), 16 + |m.name|, LE(s, 8)), At(8), At(8 + |name|),
           At(16 + |m.name|), Null, Null))
  {
    NamedWrites(img, name);
  }

  lemma SameAsBefore(img: Image, name: seq<byte>, t: nat, i: nat)
    requires 16 + |name| <= i < |img.bytes|
    ensures WithTime(img, name, t)[i] == img.bytes[i]
  {
  }

  /** Name and time are behind each other. */
  lemma TextWritten(img: Image, name: seq<byte>, t: nat)
    requires |img.bytes| < Pow256(8) && 16 + |name| <= |img.bytes|
    ensures NameLength(WithTime(img, name, t)) == |name| && WithTime(img, name, t)[8..16 + |name|] == name + LE(t, 8)
  {
    var b := Named(img, name).value.bytes;
    NamedWrites(img, name);
    OverElsewhere(b, 8 + |name|, LE(t, 8), 0);
    OverBehind(b, |name|, LE(t, 8));
  }

  lemma OverBehind(b: seq<byte>, n: nat, w: seq<byte>)
    requires 8 + n + |w| <= |b|
    ensures Over(b, 8 + n, w)[8..8 + n + |w|] == b[8..8 + n] + w
  {
  }

  /** Writing `w` leaves a text as it is exactly when it says the same where it falls on it. */
  lemma TextKept(c: seq<byte>, was: nat, n: nat, text: seq<byte>, w: seq<byte>)
    requires 24 + was <= |c| && 16 + n <= |c| && |text| == n + 8 && c[8..16 + n] == text && |w| == 8
    ensures Over(c, 16 + was, w)[8..16 + n] == text <==> Undisturbed(was, n, text, w)
  {
    var r := Over(c, 16 + was, w);
    forall i | 0 <= i < |text| ensures r[8..16 + n][i] == if 8 + was <= i < 16 + was then w[i - 8 - was] else text[i] {
      assert c[8..16 + n][i] == text[i];
    }
    if r[8..16 + n] == text {
      forall j | 0 <= j < 8 && was + j < n ensures text[8 + was + j] == w[j] {
        assert r[8..16 + n][8 + was + j] == w[j];
      }
    }
  }

  /** A word is read as what it says. */
  lemma WordSays(r: seq<byte>, at: nat, v: nat)
    requires at + 8 <= |r| && v < Pow256(8)
    ensures Word(r, at) == v <==> r[at..at + 8] == LE(v, 8)
  {
    LEOfFromLE(r[at..at + 8]);
    LEFits(v, 8);
  }

  lemma TwoParts(r: seq<byte>, n: nat, name: seq<byte>, w: seq<byte>)
    requires 16 + n <= |r| && |name| == n && |w| == 8
    ensures r[8..16 + n] == name + w <==> r[8..8 + n] == name && r[8 + n..16 + n] == w
  {
    assert r[8..16 + n] == r[8..8 + n] + r[8 + n..16 + n];
    assert (name + w)[..n] == name && (name + w)[n..] == w;
  }

  lemma SameBehind(c: seq<byte>, d: seq<byte>, off: nat, w: seq<byte>, at: nat)
    requires |c| == |d| && off + |w| <= |c| && forall i :: at <= i < |c| ==> c[i] == d[i]
    ensures Word(Over(c, off, w), at) == Word(Over(d, off, w), at)
  {
    if at + 8 <= |c| {
      assert Over(c, off, w)[at..at + 8] == Over(d, off, w)[at..at + 8];
    }
  }

  /** A name and a time are read as what they say. */
  lemma TextSays(r: seq<byte>, name: seq<byte>, t: nat)
    requires 16 + |name| <= |r| && t < Pow256(8)
    ensures r[8..16 + |name|] == name + LE(t, 8) <==> r[8..8 + |name|] == name && Word(r, 8 + |name|) == t
  {
    TwoParts(r, |name|, name, LE(t, 8));
    WordSays(r, 8 + |name|, t);
  }

  /** The name's length in a block that is set up again. */
  lemma RenamedLength(img: Image, m: Meta, name: seq<byte>, t: nat, s: nat)
    requires |img.bytes| < Pow256(8) && Holds(img, m) && 32 + |name| <= |img.bytes|
    ensures Setup(img, name, t, s).Some?
    ensures var r := Setup(img, name, t, s).value.bytes; |r| == |img.bytes| && NameLength(r) == |name|
  {
    RenameShape(img, m, name, t, s);
    TextWritten(img, name, t);
    OverElsewhere(WithTime(img, name, t), 16 + |m.name|, LE(s, 8), 0);
  }

  /** Its pointers, and its size. */
  lemma RenamedSize(img: Image, m: Meta, name: seq<byte>, t: nat, s: nat)
    requires |img.bytes| < Pow256(8) && s < Pow256(8) && Holds(img, m) && 32 + |name| <= |img.bytes|
    ensures Setup(img, name, t, s).Some?
    ensures var r := Setup(img, name, t, s).value;
      r == Image(r.bytes, At(8), At(8 + |name|), At(16 + |m.name|), Null, Null) && Word(r.bytes, 16 + |m.name|) == s
  {
    RenameShape(img, m, name, t, s);
    OverWord(WithTime(img, name, t), 16 + |m.name|, s);
  }

  /** Its name and time. */
  lemma RenamedText(img: Image, m: Meta, name: seq<byte>, t: nat, s: nat)
    requires |img.bytes| < Pow256(8) && t < Pow256(8) && Holds(img, m) && 32 + |name| <= |img.bytes|
    ensures Setup(img, name, t, s).Some?
    ensures var r, n := Setup(img, name, t, s).value.bytes, |name|;
      && |r| == |img.bytes|
      && (r[8..8 + n] == name && Word(r, 8 + n) == t <==> Undisturbed(|m.name|, n, name + LE(t, 8), LE(s, 8)))
  {
    var c := WithTime(img, name, t);
    RenameShape(img, m, name, t, s);
    TextWritten(img, name, t);
    TextKept(c, |m.name|, |name|, c[8..16 + |name|], LE(s, 8));
    TextSays(Over(c, 16 + |m.name|, LE(s, 8)), name, t);
  }

  /** And behind the new time. */
  lemma BehindRenamed(img: Image, m: Meta, name: seq<byte>, t: nat, s: nat, at: nat)
    requires |img.bytes| < Pow256(8) && Holds(img, m) && 32 + |name| <= |img.bytes| && 16 + |name| <= at
    ensures Setup(img, name, t, s).Some?
    ensures Word(Setup(img, name, t, s).value.bytes, at) == Word(Over(img.bytes, 16 + |m.name|, LE(s, 8)), at)
  {
    RenameShape(img, m, name, t, s);
    forall i | at <= i < |img.bytes| ensures WithTime(img, name, t)[i] == img.bytes[i] {
      SameAsBefore(img, name, t, i);
    }
    SameBehind(WithTime(img, name, t), img.bytes, 16 + |m.name|, LE(s, 8), at);
  }

  /**
   * The object itself says what it has been told exactly when the size falls on nothing else that matters. It never
   * does when the new name is no longer than the old one.
   */
  lemma RenameReadsIff(img: Image, m: Meta, name: seq<byte>, t: nat, s: nat)
    requires |img.bytes| < Pow256(8) && t < Pow256(8) && s < Pow256(8)
    requires Holds(img, m) && 32 + |name| <= |img.bytes|
    ensures Setup(img, name, t, s).Some?
    ensures Read(Setup(img, name, t, s).value) == Meta(name, t, s, [])
       <==> Undisturbed(|m.name|, |name|, name + LE(t, 8), LE(s, 8))
    ensures |name| <= |m.name| ==> Read(Setup(img, name, t, s).value) == Meta(name, t, s, [])
  {
    RenamedLength(img, m, name, t, s);
    RenamedSize(img, m, name, t, s);
    RenamedText(img, m, name, t, s);
    assert Read(Setup(img, name, t, s).value).ids == [];
  }

  /** What a reader makes of a block that has a name. */
  lemma OpenedReads(r: seq<byte>, m: Meta)
    requires NameLength(r) == |m.name| > 0 && 32 + |m.name| <= |r| && m.ids == []
    ensures var n := |m.name|;
      Read(Opened(r)) == m <==>
        r[8..8 + n] == m.name && Word(r, 8 + n) == m.ctime && Word(r, 16 + n) == m.size && Word(r, 24 + n) == 0
  {
    assert |Read(Opened(r)).ids| == Word(r, 24 + |m.name|);
  }

  /**
   * A reader of the bytes is told the same exactly when moreover the bytes behind the new time, with the size where the
   * old one was, happen to be the size and no count.
   */
  lemma RenameReopensIff(img: Image, m: Meta, name: seq<byte>, t: nat, s: nat)
    requires |img.bytes| < Pow256(8) && t < Pow256(8) && s < Pow256(8)
    requires Holds(img, m) && 32 + |name| <= |img.bytes| && name != []
    ensures Setup(img, name, t, s).Some?
    ensures var after := Over(img.bytes, 16 + |m.name|, LE(s, 8));
      Read(Opened(Setup(img, name, t, s).value.bytes)) == Meta(name, t, s, []) <==>
        Undisturbed(|m.name|, |name|, name + LE(t, 8), LE(s, 8)) && Word(after, 16 + |name|) == s
          && Word(after, 24 + |name|) == 0
  {
    RenamedLength(img, m, name, t, s);
    RenamedText(img, m, name, t, s);
    var r := Setup(img, name, t, s).value.bytes;
    OpenedReads(r, Meta(name, t, s, []));
    var after := Over(img.bytes, 16 + |m.name|, LE(s, 8));
    assert Word(r, 16 + |name|) == Word(after, 16 + |name|) by {
      BehindRenamed(img, m, name, t, s, 16 + |name|);
    }
    assert Word(r, 24 + |name|) == Word(after, 24 + |name|) by {
      BehindRenamed(img, m, name, t, s, 24 + |name|);
    }
  }

  /** With names of the same length this means that there was no list. */
  lemma SameLengthReopensIff(img: Image, m: Meta, name: seq<byte>, t: nat, s: nat)
    requires |img.bytes| < Pow256(8) && t < Pow256(8) && s < Pow256(8)
    requires Holds(img, m) && 32 + |name| <= |img.bytes| && name != [] && |name| == |m.name|
    ensures Setup(img, name, t, s).Some?
    ensures Read(Opened(Setup(img, name, t, s).value.bytes)) == Meta(name, t, s, []) <==> m.ids == []
  {
    RenameReopensIff(img, m, name, t, s);
    OverWord(img.bytes, 16 + |m.name|, s);
    OverElsewhere(img.bytes, 16 + |m.name|, LE(s, 8), 24 + |m.name|);
  }

  /** A name that is one byte shorter: the object says the new size, and a reader of the bytes 256 times as much. */
  lemma ShorterName(img: Image, m: Meta, name: seq<byte>, t: nat, s: nat)
    requires |img.bytes| < Pow256(8) && t < Pow256(8) && 0 < s < Pow256(7) && m.ctime < Pow256(7)
    requires Holds(img, m) && name != [] && |m.name| == |name| + 1
    ensures var r := Setup(img, name, t, s);
      r.Some? && Read(r.value).size == s && Read(Opened(r.value.bytes)).size == 256 * s
  {
    RenamedLength(img, m, name, t, s);
    RenamedSize(img, m, name, t, s);
    BehindRenamed(img, m, name, t, s, 16 + |name|);
    assert Pow256(8) == 256 * Pow256(7);
    OldTimeEnds(img, m, 16 + |name|);
    ShiftedWord(img.bytes, 16 + |name|, s);
  }

  lemma OldTimeEnds(img: Image, m: Meta, at: nat)
    requires Holds(img, m) && m.ctime < Pow256(7) && at == 15 + |m.name|
    ensures at < |img.bytes| && img.bytes[at] == 0
  {
    TopByteZero(img.bytes[at - 7..at + 1]);
  }

  /** A number written one byte further is read 256 times as large. */
  lemma ShiftedWord(data: seq<byte>, at: nat, s: nat)
    requires at + 9 <= |data| && data[at] == 0 && s < Pow256(7)
    ensures Word(Over(data, at + 1, LE(s, 8)), at) == 256 * s
  {
    var w := Over(data, at + 1, LE(s, 8))[at..at + 8];
    LowBytes(s, 7);
    assert w[1..] == LE(s, 8)[..7];
    LEFits(s, 7);
  }

  lemma TopByteZero(w: seq<byte>)
    requires |w| == 8 && FromLE(w) < Pow256(7)
    ensures w[7] == 0
  {
    if w[7] > 0 {
      TopByteCounts(w);
    }
  }

  lemma {:induction false} LowBytes(v: nat, n: nat)
    ensures LE(v, n + 1)[..n] == LE(v, n)
  {
    if n > 0 {
      LowBytes(v / 256, n - 1);
      assert LE(v, n + 1) == [v % 256] + LE(v / 256, n);
      assert LE(v, n + 1)[..n] == [v % 256] + LE(v / 256, n)[..n - 1];
    }
  }

  /** A file without a name, of any size but 0: what was written is not read back. */
  lemma EmptyNameLost(n: nat, s: nat)
    requires 32 <= n < Pow256(8) && 0 < s < Pow256(8)
    ensures Written(Opened(Zeros(n)), Meta([], 0, s, [])).Some?
    ensures var img := Written(Opened(Zeros(n)), Meta([], 0, s, [])).value;
      Read(img).size == s && Read(Opened(img.bytes)) == Meta([], 0, 0, [])
  {
    CodecRoundTrip(n, Meta([], 0, s, []));
    WritesFitIff(n, Meta([], 0, s, []));
  }

  // ---- In whatever order the setters are called ----

  /** Every pointer that is set points at something inside the block. */
  ghost predicate Sound(img: Image)
  {
    && 8 <= |img.bytes| < Pow256(8)
    && (if img.filename.Null? then img.ctime.Null? && img.size.Null?
        else img.filename.off == 8 && 8 + NameLength(img.bytes) <= |img.bytes|)
    && (img.ctime.At? ==> 8 <= img.ctime.off && img.ctime.off + 8 <= |img.bytes|)
    && (img.size.At? ==> 8 <= img.size.off && img.size.off + 8 <= |img.bytes|)
    && img.number.At? == img.first.At?
    && (img.number.At? ==> img.size.At? && img.number.off == img.size.off + 8 && img.first.off == img.size.off + 16
                           && img.first.off + 8 * Word(img.bytes, img.number.off) <= |img.bytes|)
  }

  lemma SetupSound(img: Image, name: seq<byte>, t: nat, s: nat)
    requires Sound(img) && Setup(img, name, t, s).Some?
    ensures Sound(Setup(img, name, t, s).value) && |Setup(img, name, t, s).value.bytes| == |img.bytes|
  {
    NamedWrites(img, name);
    var a := Named(img, name).value;
    OverElsewhere(a.bytes, TimeAt(a), LE(t, 8), 0);
    var b := Timed(a, t).value;
    OverElsewhere(b.bytes, SizeAt(b), LE(s, 8), 0);
  }

  lemma CountingSound(img: Image)
    requires Sound(img) && img.size.At? && Counting(img).Some?
    ensures Sound(Counting(img).value) && |Counting(img).value.bytes| == |img.bytes| && Counting(img).value.number.At?
  {
    if img.number.Null? {
      OverElsewhere(img.bytes, img.size.off + 8, LE(0, 8), 0);
      assert Pow256(8) > 0;
      OverWord(img.bytes, img.size.off + 8, 0);
    }
  }

  lemma ListedSound(c: Image, id: nat)
    requires Sound(c) && c.number.At? && Listed(c, id).Some?
    ensures Sound(Listed(c, id).value) && |Listed(c, id).value.bytes| == |c.bytes|
  {
    var n := Word(c.bytes, c.number.off);
    var b := Over(c.bytes, c.number.off, LE(n + 1, 8));
    OverElsewhere(c.bytes, c.number.off, LE(n + 1, 8), 0);
    OverWord(c.bytes, c.number.off, n + 1);
    OverElsewhere(b, c.first.off + 8 * n, LE(id, 8), 0);
    OverElsewhere(b, c.first.off + 8 * n, LE(id, 8), c.number.off);
  }

  lemma AddSound(img: Image, id: nat)
    requires Sound(img) && IDAdded(img, id).Some?
    ensures Sound(IDAdded(img, id).value) && |IDAdded(img, id).value.bytes| == |img.bytes|
  {
    if img.size.At? {
      CountingSound(img);
      ListedSound(Counting(img).value, id);
    }
  }

  /** setupMeta leaves an object with a size and without a list. */
  lemma SetupForgets(img: Image, name: seq<byte>, t: nat, s: nat)
    requires Sound(img) && Setup(img, name, t, s).Some?
    ensures Setup(img, name, t, s).value.size.At? && Read(Setup(img, name, t, s).value).ids == []
  {
  }

  /** What a sound object lists, in terms of its bytes. */
  lemma ListIs(img: Image, ids: seq<nat>)
    requires img.number.At? && img.first == At(img.number.off + 8)
    ensures Read(img).ids == ids <==> HasList(img.bytes, img.number.off, ids)
  {
    var at := img.number.off;
    assert |Read(img).ids| == Word(img.bytes, at);
    if Word(img.bytes, at) == |ids| {
      assert forall k :: 0 <= k < |ids| ==> Read(img).ids[k] == Entry(img.bytes, at, k);
    }
  }

  lemma CountingLists(img: Image)
    requires Sound(img) && img.size.At? && Counting(img).Some?
    ensures var c := Counting(img).value;
      && |c.bytes| == |img.bytes| && c.size == img.size
      && c.number == At(img.size.off + 8) && c.first == At(img.size.off + 16)
      && HasList(c.bytes, img.size.off + 8, Read(img).ids)
  {
    if img.number.Null? {
      assert Pow256(8) > 0;
      OverWord(img.bytes, img.size.off + 8, 0);
      assert Read(img).ids == [];
    } else {
      ListIs(img, Read(img).ids);
    }
  }

  /** One more ID is listed, behind the others, whatever else overlaps in the block. */
  lemma AddLists(img: Image, id: nat)
    requires Sound(img) && img.size.At? && IDAdded(img, id).Some? && id < Pow256(8)
    ensures Read(IDAdded(img, id).value).ids == Read(img).ids + [id]
    ensures IDAdded(img, id).value.size.At?
  {
    var c, ids := Counting(img).value, Read(img).ids;
    CountingLists(img);
    ListedLists(c, img.size.off + 8, ids, id);
    ListIs(Listed(c, id).value, ids + [id]);
  }
}

module MetaBlocks {
  import opened Association
  import opened Bytes
  import opened MetaLayout

  class MetaBlock {
    const data: array<byte>
    var filename: Pointer
    var ctime: Pointer
    var size: Pointer
    var number: Pointer
    var first: Pointer

    ghost function View(): Image
      reads this, data
    {
      Image(data[..], filename, ctime, size, number, first)
    }

    constructor (data: array<byte>)
      requires data.Length >= 8
      ensures this.data == data && View() == Opened(data[..])
    {
      this.data := data;
      var nameLength := FromLE(data[0..8]);
      if nameLength == 0 {
        filename, ctime, size, number, first := Null, Null, Null, Null, Null;
      } else {
        var op := 8;
        filename := At(op);
        op := op + nameLength;
        ctime := At(op);
        op := op + 8;
        size := At(op);
        op := op + 8;
        number := At(op);
        op := op + 8;
        first := At(op);
      }
    }

    /** memcpy into the block. */
    method Put(off: nat, b: seq<byte>)
      requires off + |b| <= data.Length
      modifies data
      ensures data[..] == Over(old(data[..]), off, b)
    {
      var i := 0;
      while i < |b|
        invariant 0 <= i <= |b|
        invariant data[..] == Over(old(data[..]), off, b[..i])
      {
        data[off + i] := b[i];
        i := i + 1;
      }
      assert b[..i] == b;
    }

    method Get(off: nat) returns (v: nat)
      requires off + 8 <= data.Length
      ensures v == Word(data[..], off)
    {
      assert data[..][off..off + 8] == data[off..off + 8];
      v := FromLE(data[off..off + 8]);
    }

    method SetFileName(name: seq<byte>) returns (ok: bool)
      requires Named(View(), name).Some?
      modifies this, data
      ensures ok && View() == Named(old(View()), name).value
    {
      Put(0, LE(|name|, 8));
      if filename.Null? {
        filename := At(8);
      } else {
        ctime, number, first := Null, Null, Null;
      }
      Put(8, name);
      ok := true;
    }

    method SetCreateTime(t: nat) returns (ok: bool)
      requires data.Length >= 8 && Timed(View(), t).Some?
      modifies this, data
      ensures ok == old(filename).At? && View() == Timed(old(View()), t).value
    {
      if filename.Null? {
        return false;
      }
      if ctime.Null? {
        var nameLength := Get(0);
        ctime := At(filename.off + nameLength);
      }
      Put(ctime.off, LE(t, 8));
      ok := true;
    }

    method SetFileSize(s: nat) returns (ok: bool)
      requires Sized(View(), s).Some?
      modifies this, data
      ensures ok == old(ctime).At? && View() == Sized(old(View()), s).value
    {
      if ctime.Null? {
        return false;
      }
      if size.Null? {
        size := At(ctime.off + 8);
      }
      Put(size.off, LE(s, 8));
      ok := true;
    }

    /** The first addDataID sets up the list. */
    method StartList()
      requires size.At? && Counting(View()).Some? && number.At? == first.At?
      modifies this, data
      ensures View() == Counting(old(View())).value && number.At? && first.At?
    {
      if number.Null? {
        var op := size.off + 8;
        number := At(op);
        op := op + 8;
        first := At(op);
        Put(number.off, LE(0, 8));
      }
    }

    method Append(id: nat)
      requires number.At? && first.At? && Listed(View(), id).Some?
      modifies data
      ensures View() == Listed(old(View()), id).value
    {
      var n := Get(number.off);
      var save := first.off + 8 * n;
      Put(number.off, LE(n + 1, 8));
      Put(save, LE(id, 8));
    }

    method AddDataID(id: nat) returns (ok: bool)
      requires IDAdded(View(), id).Some?
      requires number.At? == first.At?
      modifies this, data
      ensures ok == old(size).At? && View() == IDAdded(old(View()), id).value
    {
      if size.Null? {
        return false;
      }
      StartList();
      Append(id);
      ok := true;
    }

    /** What the getters follow lies inside the block. */
    ghost predicate Readable()
      reads this, data
    {
      && data.Length >= 8 && number.At? == first.At?
      && (filename.At? ==> filename.off + NameLength(data[..]) <= data.Length)
      && (ctime.At? ==> ctime.off + 8 <= data.Length) && (size.At? ==> size.off + 8 <= data.Length)
      && (number.At? ==> number.off + 8 <= data.Length && first.off + 8 * Word(data[..], number.off) <= data.Length)
    }

    method GetFileName() returns (name: seq<byte>)
      requires Readable()
      ensures name == Read(View()).name
    {
      if filename.Null? {
        return [];
      }
      var nameLength := Get(0);
      assert data[..][filename.off..filename.off + nameLength] == data[filename.off..filename.off + nameLength];
      name := data[filename.off..filename.off + nameLength];
    }

    method GetCreateTime() returns (t: nat)
      requires Readable()
      ensures t == Read(View()).ctime
    {
      if ctime.Null? {
        return 0;
      }
      t := Get(ctime.off);
    }

    method GetFileSize() returns (s: nat)
      requires Readable()
      ensures s == Read(View()).size
    {
      if size.Null? {
        return 0;
      }
      s := Get(size.off);
    }

    method GetDataBlockNumber() returns (n: nat)
      requires Readable()
      ensures n == |Read(View()).ids|
    {
      if number.Null? {
        return 0;
      }
      n := Get(number.off);
    }

    method GetDataBlockID(k: nat) returns (id: nat)
      requires Readable()
      ensures id == if k < |Read(View()).ids| then Read(View()).ids[k] else 0
    {
      if number.Null? {
        return 0;
      }
      var n := Get(number.off);
      if k >= n {
        return 0;
      }
      id := Get(first.off + 8 * k);
    }
  }
}
