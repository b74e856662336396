/** Message framing over a byte stream, src/common/Socket.cpp:141-214. */
module Sockets {
  import opened Association
  import opened Bytes
  import opened Messages

  /** What `send` puts on the stream: an 8-byte length, then the serialised message. */
  function Framed(m: Fields): seq<byte>
  {
    LE(|Serialized(m)|, 8) + Serialized(m)
  }

  function Stream(ms: seq<Fields>): seq<byte>
  {
    if ms == [] then [] else Framed(ms[0]) + Stream(ms[1..])
  }

  ghost predicate Sendable(m: Fields) { Fits(m) && |Serialized(m)| < Pow256(8) }

  /**
   * The message at the front of a stream and what follows it; None when none is complete, or it has no whole header.
   */
  function Unframed(bytes: seq<byte>): Option<(Fields, seq<byte>)>
  {
    if |bytes| < 8 then None
    else
      var n := FromLE(bytes[..8]);
      if |bytes| - 8 < n || n < HEADER then None
      else Some((Parsed(bytes[8..8 + n]).value, bytes[8 + n..]))
  }

  /** The message sent first is the message at the front. */
  lemma UnframedFramed(m: Fields, rest: seq<byte>)
    requires Sendable(m)
    ensures Unframed(Framed(m) + rest) == Some((m, rest))
  {
    var data := Serialized(m);
    var bytes := Framed(m) + rest;
    assert bytes[..8] == LE(|data|, 8) && bytes[8..8 + |data|] == data && bytes[8 + |data|..] == rest;
    LEFits(|data|, 8);
    ParsedSerialized(m);
  }

  /** A frame is the size of what follows it, in eight bytes, and the message. */
  lemma FramedBytes(m: Fields)
    ensures var b := Framed(m);
      |b| == 28 + |m.data| && Spells(b, 0, 8, 20 + |m.data|) && b[8..] == Serialized(m)
  {
    SerializedBytes(m);
    var b := Framed(m);
    assert b[0..8] == LE(|Serialized(m)|, 8);
    WordSpells(b, 0, 8, |Serialized(m)|);
  }

  /**
   * One direction of a connection. A write accepts, and a read delivers, any positive part of what is asked,
   * or fails; nothing else is known of it. When `reliable`, neither fails while it can move a byte.
   */
  class Pipe {
    var bytes: seq<byte>
    const reliable: bool

    constructor (reliable: bool)
      ensures bytes == [] && this.reliable == reliable
    {
      bytes, this.reliable := [], reliable;
    }

    method Write(b: seq<byte>) returns (ret: int)
      modifies this
      ensures ret <= |b| && bytes == old(bytes) + b[..if ret > 0 then ret else 0]
      ensures reliable && b != [] ==> ret > 0
    {
      ret :| ret <= |b| && (reliable && b != [] ==> ret > 0);
      bytes := bytes + b[..if ret > 0 then ret else 0];
    }

    method Read(n: nat) returns (ret: int, b: seq<byte>)
      modifies this
      ensures ret <= n && ret <= |old(bytes)| && |b| == (if ret > 0 then ret else 0)
      ensures b + bytes == old(bytes)
      ensures reliable && n > 0 && old(bytes) != [] ==> ret > 0
    {
      ret :| ret <= n && ret <= |bytes| && (reliable && n > 0 && bytes != [] ==> ret > 0);
      var k := if ret > 0 then ret else 0;
      b, bytes := bytes[..k], bytes[k..];
    }
  }

  const SLICE: nat := 65536

  class Socket {
    const fd: Pipe
    var isConnected: bool

    constructor (fd: Pipe)
      ensures this.fd == fd && isConnected
    {
      this.fd, isConnected := fd, true;
    }

    /** The length loop of Socket::send, asking to write the bytes that are left. */
    method SendLength(len: seq<byte>) returns (ok: bool, ghost sent: nat)
      requires |len| == 8
      modifies this, fd
      ensures sent <= 8 && fd.bytes == old(fd.bytes) + len[..sent] && ok == (sent == 8)
      ensures isConnected == (old(isConnected) && ok) && (!ok ==> !fd.reliable)
    {
      var count := 0;
      while count < 8
        invariant 0 <= count <= 8 && fd.bytes == old(fd.bytes) + len[..count] && isConnected == old(isConnected)
      {
        var ret := fd.Write(len[count..]);
        if 0 >= ret {
          isConnected := false;
          return false, count;
        }
        assert len[..count] + len[count..][..ret] == len[..count + ret];
        count := count + ret;
      }
      ok, sent := true, 8;
    }

    /** The data loop of Socket::send, a slice at a time. */
    method SendData(data: seq<byte>) returns (ok: bool, ghost sent: nat)
      requires data != []
      modifies this, fd
      ensures sent <= |data| && fd.bytes == old(fd.bytes) + data[..sent] && ok == (sent == |data|)
      ensures isConnected == (old(isConnected) && ok) && (!ok ==> !fd.reliable)
    {
      var count := 0;
      while count < |data|
        invariant 0 <= count <= |data| && fd.bytes == old(fd.bytes) + data[..count] && isConnected == old(isConnected)
      {
        var end := if count + SLICE > |data| then |data| else count + SLICE;
        var ret := fd.Write(data[count..end]);
        if 0 >= ret {
          isConnected := false;
          return false, count;
        }
        assert data[..count] + data[count..end][..ret] == data[..count + ret];
        count := count + ret;
      }
      assert data[..count] == data;
      ok, sent := true, |data|;
    }

    /** Socket::send: whatever is written in each call, a prefix of the frame goes out, and all of it on success. */
    method Send(msg: Message) returns (ok: bool, ghost sent: nat)
      modifies this, fd
      ensures sent <= |Framed(old(msg.View()))|
      ensures fd.bytes == old(fd.bytes) + Framed(old(msg.View()))[..sent]
      ensures ok == (sent == |Framed(old(msg.View()))|)
      ensures isConnected == (old(isConnected) && ok) && (!ok ==> !fd.reliable)
    {
      ghost var frame := Framed(msg.View());
      var data := msg.Serilize();
      var len := LE(|data|, 8);
      ok, sent := SendLength(len);
      assert len[..sent] == frame[..sent];
      if ok {
        label body:
        ok, sent := SendData(data);
        assert len + data[..sent] == frame[..8 + sent];
        assert old(fd.bytes) + len[..8] + data[..sent] == old(fd.bytes) + (len + data[..sent]);
        sent := 8 + sent;
      }
    }

    /** The length loop of Socket::receive, asking to read the bytes that are left. */
    method ReceiveLength() returns (ok: bool, len: seq<byte>)
      modifies this, fd
      ensures len + fd.bytes == old(fd.bytes) && |len| <= 8 && ok == (|len| == 8)
      ensures isConnected == (old(isConnected) && ok)
      ensures !ok ==> !fd.reliable || |old(fd.bytes)| < 8
    {
      len := [];
      while |len| < 8
        invariant len + fd.bytes == old(fd.bytes) && |len| <= 8 && isConnected == old(isConnected)
      {
        var ret, b := fd.Read(8 - |len|);
        if 0 >= ret {
          isConnected := false;
          return false, len;
        }
        len := len + b;
      }
      ok := true;
    }

    /** The data loop of Socket::receive; reading no bytes at all counts as a failed read. */
    method ReceiveData(n: nat) returns (ok: bool, data: seq<byte>)
      modifies this, fd
      ensures data + fd.bytes == old(fd.bytes) && |data| <= n && ok == (n > 0 && |data| == n)
      ensures isConnected == (old(isConnected) && ok)
      ensures !ok ==> !fd.reliable || n == 0 || |old(fd.bytes)| < n
    {
      data := [];
      var first := true;
      while first || |data| < n
        invariant data + fd.bytes == old(fd.bytes) && |data| <= n && isConnected == old(isConnected)
        invariant first ==> data == []
        invariant !first ==> n > 0
        decreases first, n - |data|
      {
        var ret, b := fd.Read(if |data| + SLICE > n then n - |data| else SLICE);
        if 0 >= ret {
          isConnected := false;
          return false, data;
        }
        data, first := data + b, false;
      }
      ok := true;
    }

    /**
     * Socket::receive: however the reads are cut, it takes exactly the message at the front of the stream,
     * and on a reliable pipe it does so whenever there is one. The answer is null on a failed read, and also for
     * a frame without a whole header, where the source's constructor reads past the end of its buffer.
     */
    method Receive() returns (msg: Message?)
      modifies this, fd
      ensures msg != null ==> fresh(msg) && isConnected == old(isConnected)
      ensures msg != null ==> Unframed(old(fd.bytes)) == Some((msg.View(), fd.bytes))
      ensures fd.reliable && Unframed(old(fd.bytes)).Some? ==> msg != null
    {
      ghost var all := fd.bytes;
      var ok, len := ReceiveLength();
      if !ok {
        return null;
      }
      assert len == all[..8] && fd.bytes == all[8..];
      var data;
      ok, data := ReceiveData(FromLE(len));
      if !ok {
        return null;
      }
      assert data == all[8..][..|data|] == all[8..8 + |data|] && fd.bytes == all[8..][|data|..] == all[8 + |data|..];
      if |data| < HEADER {
        return null;
      }
      msg := new Message.Deserialize(data);
    }
  }

  /** Sending one message after another puts their frames on the stream in order. */
  method SendAll(sender: Socket, ms: seq<Message>)
    requires sender.fd.reliable
    modifies sender, sender.fd
    ensures sender.fd.bytes == old(sender.fd.bytes) + Stream(old(Views(ms)))
  {
    ghost var views := Views(ms);
    var i := 0;
    while i < |ms|
      invariant 0 <= i <= |ms| && Views(ms) == views
      invariant sender.fd.bytes == old(sender.fd.bytes) + Stream(views[..i])
    {
      StreamAppend(views[..i], views[i]);
      assert views[..i] + [views[i]] == views[..i + 1];
      ghost var n;
      var sent;
      sent, n := sender.Send(ms[i]);
      assert Framed(views[i])[..n] == Framed(views[i]);
      i := i + 1;
    }
    assert views[..i] == views;
  }

  /** However the reads are cut, `k` sent messages are received as the same `k`, in order, and nothing is left over. */
  method ReceiveAll(receiver: Socket, ghost ms: seq<Fields>, k: nat) returns (out: seq<Message>)
    requires receiver.fd.reliable && k == |ms| && forall m :: m in ms ==> Sendable(m)
    requires receiver.fd.bytes == Stream(ms)
    modifies receiver, receiver.fd
    ensures receiver.fd.bytes == [] && Views(out) == ms
  {
    out := [];
    var i := 0;
    while i < k
      invariant 0 <= i <= k && receiver.fd.bytes == Stream(ms[i..])
      invariant |out| == i && forall j :: 0 <= j < i ==> fresh(out[j]) && out[j].View() == ms[j]
    {
      StreamFront(ms, i);
      var m := receiver.Receive();
      out, i := out + [m], i + 1;
    }
    assert ms[i..] == [];
  }

  /** The next message of a stream is at its front. */
  lemma StreamFront(ms: seq<Fields>, i: nat)
    requires i < |ms| && Sendable(ms[i])
    ensures Unframed(Stream(ms[i..])) == Some((ms[i], Stream(ms[i + 1..])))
  {
    assert ms[i..][1..] == ms[i + 1..];
    UnframedFramed(ms[i], Stream(ms[i + 1..]));
  }

  ghost function Views(ms: seq<Message>): (vs: seq<Fields>)
    reads ms
    ensures |vs| == |ms| && forall i :: 0 <= i < |ms| ==> vs[i] == ms[i].View()
  {
    seq(|ms|, i requires 0 <= i < |ms| reads ms => ms[i].View())
  }

  lemma {:induction false} StreamAppend(ms: seq<Fields>, m: Fields)
    ensures Stream(ms + [m]) == Stream(ms) + Framed(m)
  {
    if ms == [] {
      assert [m][1..] == [] && ms + [m] == [m];
    } else {
      assert (ms + [m])[1..] == ms[1..] + [m];
      StreamAppend(ms[1..], m);
    }
  }
}
