/** The message of src/common/Message.cpp: a header of five 4-byte words, then the data. */
module Messages {
  import opened Association
  import opened Bytes

  datatype Fields = Fields(mtype: nat, cmd: nat, src: nat, dest: nat, hash: nat, data: seq<byte>)

  const HEADER: nat := 20

  /** The header words fit the 4 bytes each has. */
  ghost predicate Fits(m: Fields)
  {
    var w := Pow256(4);
    m.mtype < w && m.cmd < w && m.src < w && m.dest < w && m.hash < w
  }

  function Serialized(m: Fields): seq<byte>
  {
    LE(m.mtype, 4) + LE(m.cmd, 4) + LE(m.src, 4) + LE(m.dest, 4) + LE(m.hash, 4) + m.data
  }

  /** The deserialising constructor; None stands for its reads past the end of a short buffer. */
  function Parsed(b: seq<byte>): Option<Fields>
  {
    if |b| < HEADER then None
    else Some(Fields(FromLE(b[0..4]), FromLE(b[4..8]), FromLE(b[8..12]), FromLE(b[12..16]), FromLE(b[16..20]), b[20..]))
  }

  /** The deserialising constructor inverts `serilize`. */
  lemma ParsedSerialized(m: Fields)
    requires Fits(m)
    ensures Parsed(Serialized(m)) == Some(m)
  {
    var b := Serialized(m);
    assert b[0..4] == LE(m.mtype, 4) && b[4..8] == LE(m.cmd, 4) && b[8..12] == LE(m.src, 4);
    assert b[12..16] == LE(m.dest, 4) && b[16..20] == LE(m.hash, 4) && b[20..] == m.data;
    LEFits(m.mtype, 4);
    LEFits(m.cmd, 4);
    LEFits(m.src, 4);
    LEFits(m.dest, 4);
    LEFits(m.hash, 4);
  }

  /** Where the fields are: five words of four bytes each, and the data behind them. */
  lemma SerializedBytes(m: Fields)
    ensures var b := Serialized(m);
      && |b| == 20 + |m.data| && b[20..] == m.data
      && Spells(b, 0, 4, m.mtype) && Spells(b, 4, 4, m.cmd) && Spells(b, 8, 4, m.src)
      && Spells(b, 12, 4, m.dest) && Spells(b, 16, 4, m.hash)
  {
    var b := Serialized(m);
    assert b[0..4] == LE(m.mtype, 4) && b[4..8] == LE(m.cmd, 4) && b[8..12] == LE(m.src, 4);
    assert b[12..16] == LE(m.dest, 4) && b[16..20] == LE(m.hash, 4) && b[20..] == m.data;
    WordSpells(b, 0, 4, m.mtype);
    WordSpells(b, 4, 4, m.cmd);
    WordSpells(b, 8, 4, m.src);
    WordSpells(b, 12, 4, m.dest);
    WordSpells(b, 16, 4, m.hash);
  }

  /** vector::resize. */
  function Resized(data: seq<byte>, n: nat): (r: seq<byte>)
    ensures |r| == n
  {
    if n <= |data| then data[..n] else data + Zeros(n - |data|)
  }

  /** addData at a position: grow if need be, then overwrite. */
  function Added(data: seq<byte>, s: nat, b: seq<byte>): seq<byte>
  {
    Patch(if s + |b| >= |data| then Resized(data, s + |b|) else data, s, b)
  }

  /**
   * Written at the running end, data is appended; written inside, the rest stays; written beyond, zeros fill the gap.
   */
  lemma AddedWhere(data: seq<byte>, s: nat, b: seq<byte>)
    ensures s == |data| ==> Added(data, s, b) == data + b
    ensures s + |b| <= |data| ==> Added(data, s, b) == data[..s] + b + data[s + |b|..]
    ensures s > |data| ==> Added(data, s, b) == data + Zeros(s - |data|) + b
    ensures forall i :: 0 <= i < s && i < |data| ==> i < |Added(data, s, b)| && Added(data, s, b)[i] == data[i]
  {
    var grown := if s + |b| >= |data| then Resized(data, s + |b|) else data;
    forall i | 0 <= i < s && i < |data| ensures i < |Added(data, s, b)| && Added(data, s, b)[i] == data[i] {
      assert grown[i] == data[i];
    }
  }

  class Message {
    var mtype: nat
    var cmd: nat
    var src: nat
    var dest: nat
    var hash: nat
    var data: seq<byte>

    ghost function View(): Fields
      reads this
    {
      Fields(mtype, cmd, src, dest, hash, data)
    }

    constructor (mtype: nat, cmd: nat)
      ensures View() == Fields(mtype, cmd, 0, 0, 0, [])
    {
      this.mtype, this.cmd, src, dest, hash, data := mtype, cmd, 0, 0, 0, [];
    }

    /** The deserialising constructor, reading at a running offset. */
    constructor Deserialize(b: seq<byte>)
      requires |b| >= HEADER
      ensures Parsed(b) == Some(View())
    {
      var off := 0;
      mtype := FromLE(b[off..off + 4]);
      off := off + 4;
      cmd := FromLE(b[off..off + 4]);
      off := off + 4;
      src := FromLE(b[off..off + 4]);
      off := off + 4;
      dest := FromLE(b[off..off + 4]);
      off := off + 4;
      hash := FromLE(b[off..off + 4]);
      off := off + 4;
      data := b[off..];
    }

    method AddDataAt(b: seq<byte>, s: nat) returns (ok: bool)
      modifies `data
      ensures ok && data == Added(old(data), s, b)
    {
      if s + |b| >= |data| {
        data := Resized(data, s + |b|);
      }
      data := Patch(data, s, b);
      ok := true;
    }

    method AddData(b: seq<byte>) returns (ok: bool)
      modifies `data
      ensures ok && data == old(data) + b
    {
      AddedWhere(data, |data|, b);
      ok := AddDataAt(b, |data|);
    }

    /** Message::serilize: a zeroed buffer of the right size, filled at a running offset. */
    method Serilize() returns (output: seq<byte>)
      ensures output == Serialized(View())
    {
      output := Zeros(|data| + HEADER);
      var off := 0;
      output := Patch(output, off, LE(mtype, 4));
      off := off + 4;
      output := Patch(output, off, LE(cmd, 4));
      off := off + 4;
      output := Patch(output, off, LE(src, 4));
      off := off + 4;
      output := Patch(output, off, LE(dest, 4));
      off := off + 4;
      output := Patch(output, off, LE(hash, 4));
      off := off + 4;
      output := Patch(output, off, data);
      assert output[..20] == LE(mtype, 4) + LE(cmd, 4) + LE(src, 4) + LE(dest, 4) + LE(hash, 4);
      assert output[20..] == data;
    }
  }
}
