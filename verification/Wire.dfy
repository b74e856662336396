/** Bytes, and numbers as little-endian words of a fixed width. */
module Bytes {
  type byte = b: int | 0 <= b < 256

  function Pow256(n: nat): (p: nat)
    ensures p > 0
  {
    if n == 0 then 1 else 256 * Pow256(n - 1)
  }

  /** The `n` low-order bytes of `v`, lowest first. */
  function LE(v: nat, n: nat): (s: seq<byte>)
    ensures |s| == n
  {
    if n == 0 then [] else [v % 256] + LE(v / 256, n - 1)
  }

  function FromLE(s: seq<byte>): nat
  {
    if s == [] then 0 else s[0] + 256 * FromLE(s[1..])
  }

  /** Reading a word back gives the number, cut to the word's width. */
  lemma {:induction false} LERoundTrip(v: nat, n: nat)
    ensures FromLE(LE(v, n)) == v % Pow256(n)
  {
    if n > 0 {
      LERoundTrip(v / 256, n - 1);
      assert LE(v, n)[1..] == LE(v / 256, n - 1);
      ModStep(v, Pow256(n - 1));
    }
  }

  lemma ModStep(v: nat, p: nat)
    requires p > 0
    ensures v % (256 * p) == v % 256 + 256 * ((v / 256) % p)
  {
    var q, r := (v / 256) / p, (v / 256) % p;
    assert v / 256 == p * q + r;
    assert v == 256 * (p * q + r) + v % 256;
    assert v == (256 * p) * q + (v % 256 + 256 * r);
    ModUnique(v, 256 * p, q, v % 256 + 256 * r);
  }

  lemma ModUnique(v: nat, m: nat, q: nat, r: nat)
    requires m > 0 && r < m && v == m * q + r
    ensures v % m == r
  {
    var q', r' := v / m, v % m;
    assert m * q' + r' == v;
    if q' < q {
      MulStep(m, q', q);
    } else if q < q' {
      MulStep(m, q, q');
    }
  }

  lemma {:induction false} MulStep(m: nat, a: nat, b: nat)
    requires a < b
    ensures m * a + m <= m * b
    decreases b - a
  {
    assert m * (a + 1) == m * a + m;
    if a + 1 < b {
      MulStep(m, a + 1, b);
    }
  }

  lemma Widths()
    ensures Pow256(2) == 0x1_0000 && Pow256(4) == 0x1_0000_0000 && Pow256(8) == 0x1_0000_0000_0000_0000
  {
    assert Pow256(1) == 256 && Pow256(2) == 0x1_0000;
    assert Pow256(3) == 0x100_0000 && Pow256(4) == 0x1_0000_0000;
    assert Pow256(5) == 0x100_0000_0000 && Pow256(6) == 0x1_0000_0000_0000;
    assert Pow256(7) == 0x100_0000_0000_0000;
  }

  /** A number that fits the word survives. */
  lemma LEFits(v: nat, n: nat)
    requires v < Pow256(n)
    ensures FromLE(LE(v, n)) == v
  {
    LERoundTrip(v, n);
    ModUnique(v, Pow256(n), 0, v);
  }

  lemma LowByte(b: byte, rest: nat)
    ensures (b + 256 * rest) % 256 == b && (b + 256 * rest) / 256 == rest
  {
  }

  /** And every word is written of what it says. */
  lemma {:induction false} LEOfFromLE(s: seq<byte>)
    ensures LE(FromLE(s), |s|) == s
  {
    if s != [] {
      LEOfFromLE(s[1..]);
      LowByte(s[0], FromLE(s[1..]));
      assert s == [s[0]] + s[1..];
    }
  }

  /** A byte that is not zero counts. */
  lemma {:induction false} TopByteCounts(s: seq<byte>)
    requires s != [] && s[|s| - 1] > 0
    ensures FromLE(s) >= Pow256(|s| - 1)
  {
    if |s| > 1 {
      TopByteCounts(s[1..]);
    }
  }

  lemma {:induction false} FromLEBound(s: seq<byte>)
    ensures FromLE(s) < Pow256(|s|)
  {
    if s != [] {
      FromLEBound(s[1..]);
    }
  }

  lemma DivUnique(v: nat, m: nat, q: nat, r: nat)
    requires m > 0 && r < m && v == m * q + r
    ensures v / m == q
  {
    var q', r' := v / m, v % m;
    assert m * q' + r' == v;
    if q' < q {
      MulStep(m, q', q);
    } else if q < q' {
      MulStep(m, q, q');
    }
  }

  lemma DivStep(v: nat, p: nat)
    requires p > 0
    ensures v / (256 * p) == (v / 256) / p
  {
    var q, r := (v / 256) / p, (v / 256) % p;
    assert v / 256 == p * q + r;
    assert v == 256 * (p * q + r) + v % 256;
    assert v == (256 * p) * q + (v % 256 + 256 * r);
    DivUnique(v, 256 * p, q, v % 256 + 256 * r);
  }

  /** Each byte of a word: the lowest comes first. */
  lemma {:induction false} LEAt(v: nat, n: nat, i: nat)
    requires i < n
    ensures LE(v, n)[i] == v / Pow256(i) % 256
  {
    if i == 0 {
      assert Pow256(0) == 1;
    } else {
      LEAt(v / 256, n - 1, i - 1);
      assert LE(v, n)[1..] == LE(v / 256, n - 1);
      DivStep(v, Pow256(i - 1));
    }
  }

  /** `b` has the number `v` in the `n` bytes from `off` on, the lowest byte first. */
  ghost predicate Spells(b: seq<byte>, off: nat, n: nat, v: nat)
  {
    off + n <= |b| && forall i :: 0 <= i < n ==> b[off + i] == v / Pow256(i) % 256
  }

  lemma WordSpells(b: seq<byte>, off: nat, n: nat, v: nat)
    requires off + n <= |b| && b[off..off + n] == LE(v, n)
    ensures Spells(b, off, n, v)
  {
    forall i | 0 <= i < n ensures b[off + i] == v / Pow256(i) % 256 {
      LEAt(v, n, i);
      assert b[off..off + n][i] == b[off + i];
    }
  }

  /** A run of zero bytes. */
  function Zeros(n: nat): (z: seq<byte>)
    ensures |z| == n && forall i :: 0 <= i < n ==> z[i] == 0
  {
    seq(n, _ => 0)
  }

  /** `data` with `b` written at `s`, as memcpy into a buffer that is long enough. */
  function Patch(data: seq<byte>, s: nat, b: seq<byte>): (r: seq<byte>)
    requires s + |b| <= |data|
    ensures |r| == |data|
  {
    data[..s] + b + data[s + |b|..]
  }
}
