/** Bytes as they travel on the wire, and the little-endian integer layout used by
    the IVF muxer (IvfWriter.lay16Bits / lay32Bits / lay64bits) and by its readers. */
module Bytes {

  /** One octet, read unsigned (Java's signed `byte` reinterpreted as 0..255). */
  newtype byte = b: int | 0 <= b < 256

  function Pow256(n: nat): (r: nat)
    ensures r > 0
  {
    if n == 0 then 1 else 256 * Pow256(n - 1)
  }

  /** The octet Java stores for `(byte) (v >> (8 * i))`, read unsigned.
      Java's `>>` on int/long is an arithmetic shift, i.e. floor division by 2^(8i);
      Dafny's `/` by a positive divisor is floor division as well. */
  function ByteAt(v: int, i: nat): byte
  {
    ((v / Pow256(i)) % 256) as byte
  }

  /** The n least significant octets of v, least significant first. */
  function LeBytes(v: int, n: nat): (r: seq<byte>)
    ensures |r| == n
  {
    seq(n, i requires 0 <= i < n => ByteAt(v, i))
  }

  /** The unsigned value of a little-endian octet string (the reader's side). */
  function ReadLe(s: seq<byte>): nat
  {
    if s == [] then 0 else ReadLe(s[..|s| - 1]) + Pow256(|s| - 1) * (s[|s| - 1] as int)
  }

  /** The value of the n-octet little-endian field at offset `at`. */
  function ReadLeAt(s: seq<byte>, at: nat, n: nat): nat
    requires at + n <= |s|
  {
    ReadLe(s[at..at + n])
  }

  lemma {:induction false} MulAtLeast(m: int, d: int)
    requires m > 0 && d >= 1
    ensures m * d >= m
    decreases d
  {
    if d > 1 {
      MulAtLeast(m, d - 1);
      assert m * d == m * (d - 1) + m;
    }
  }

  lemma MulBounds(p: int, b: int, c: int)
    requires p > 0 && 0 <= b <= c
    ensures 0 <= p * b <= p * c
  {
    if b > 0 {
      MulAtLeast(p, b);
    }
    if c > b {
      MulAtLeast(p, c - b);
      assert p * c == p * b + p * (c - b);
    }
  }

  lemma MulRotate(k: int, p: int, x: int)
    ensures k * (p * x) == p * (k * x)
  {
  }

  /** Division and remainder are determined by any decomposition v == m * k + t with 0 <= t < m. */
  lemma DivModUnique(v: int, m: int, k: int, t: int)
    requires m > 0 && v == m * k + t && 0 <= t < m
    ensures v / m == k && v % m == t
  {
    var q, r := v / m, v % m;
    assert m * q + r == m * k + t;
    assert m * (q - k) == t - r;
    if q - k >= 1 {
      MulAtLeast(m, q - k);
      assert false;
    }
    if k - q >= 1 {
      MulAtLeast(m, k - q);
      assert false;
    }
  }

  /** Taking one more octet: the remainder modulo 256*P splits into the remainder modulo P
      and the next octet. */
  lemma ModSplit(v: int, p: int)
    requires p > 0
    ensures v % (256 * p) == v % p + p * ((v / p) % 256)
  {
    var q, r := v / p, v % p;
    var a, b := q / 256, q % 256;
    assert v == p * q + r;
    assert q == 256 * a + b;
    assert p * q == (256 * p) * a + p * b;
    assert 0 <= p * b <= p * 255 by {
      MulBounds(p, b, 255);
    }
    DivModUnique(v, 256 * p, a, p * b + r);
  }

  /** Round trip: reading back n little-endian octets of v yields v modulo 256^n. */
  lemma {:induction false} LeRoundTrip(v: int, n: nat)
    ensures ReadLe(LeBytes(v, n)) == v % Pow256(n)
  {
    if n > 0 {
      var s := LeBytes(v, n);
      assert s[..n - 1] == LeBytes(v, n - 1);
      LeRoundTrip(v, n - 1);
      ModSplit(v, Pow256(n - 1));
    }
  }

  lemma {:induction false} PowSplit(a: nat, b: nat)
    ensures Pow256(a + b) == Pow256(a) * Pow256(b)
  {
    if a > 0 {
      PowSplit(a - 1, b);
      assert Pow256(a + b) == 256 * Pow256(a - 1 + b);
    }
  }

  lemma ShiftedByte(v: int, p: int, j: int)
    requires p > 0
    ensures ((v + p * (256 * j)) / p) % 256 == (v / p) % 256
  {
    var q := v / p;
    var r := v % p;
    assert v + p * (256 * j) == p * (q + 256 * j) + r;
    DivModUnique(v + p * (256 * j), p, q + 256 * j, r);
    DivModUnique(q + 256 * j, 256, q / 256 + j, q % 256);
  }

  /** Octet i of v (i < n) does not change when a multiple of 256^n is added to v. */
  lemma ByteAtPeriodic(v: int, k: int, i: nat, n: nat)
    requires i < n
    ensures ByteAt(v + k * Pow256(n), i) == ByteAt(v, i)
  {
    var p := Pow256(i);
    var c := Pow256(n - i - 1);
    var big := Pow256(n);
    assert big == p * (256 * c) by {
      PowSplit(i, n - i);
      assert Pow256(n - i) == 256 * c;
    }
    assert k * big == p * (256 * (k * c)) by {
      MulRotate(k, p, 256 * c);
      MulRotate(k, 256, c);
    }
    ShiftedByte(v, p, k * c);
  }

  /** The n octets laid for v depend only on v modulo 256^n, so a Java int that wrapped around
      lays the same octets as the unbounded count it stands for. */
  lemma LeBytesPeriodic(v: int, k: int, n: nat)
    ensures LeBytes(v + k * Pow256(n), n) == LeBytes(v, n)
  {
    forall i | 0 <= i < n
      ensures LeBytes(v + k * Pow256(n), n)[i] == LeBytes(v, n)[i]
    {
      ByteAtPeriodic(v, k, i, n);
    }
  }

  /** The octets of an ASCII text (what Java's OutputStreamWriter and Python 2 `str` put on the
      wire for characters below 128). Every text the model encodes is ASCII; a character
      outside that range would be written differently and is reduced modulo 256 here only to
      keep the function total. */
  predicate IsAscii(s: string)
  {
    forall i :: 0 <= i < |s| ==> s[i] < 128 as char
  }

  function Ascii(s: string): (r: seq<byte>)
    ensures |r| == |s|
  {
    seq(|s|, i requires 0 <= i < |s| => (s[i] as int % 256) as byte)
  }

  /** Several runs of octets (writes on a stream, chunks read from a socket, tokens), one
      after another. */
  function Concat(parts: seq<seq<byte>>): seq<byte>
  {
    if parts == [] then [] else parts[0] + Concat(parts[1..])
  }

  lemma AsciiAppend(a: string, b: string)
    ensures Ascii(a + b) == Ascii(a) + Ascii(b)
  {
  }
}
