/** Bytes, big-endian numbers and reads from a byte-addressed area (calldata or memory). */
module Bytes {

  newtype Byte = b: int | 0 <= b < 256

  function Pow256(n: nat): (p: nat)
    ensures p > 0
  {
    if n == 0 then 1 else 256 * Pow256(n - 1)
  }

  lemma Pow256Values()
    ensures Pow256(1) == 0x100
    ensures Pow256(2) == 0x1_0000
    ensures Pow256(3) == 0x100_0000
    ensures Pow256(4) == 0x1_0000_0000
    ensures Pow256(5) == 0x100_0000_0000
    ensures Pow256(6) == 0x1_0000_0000_0000
    ensures Pow256(7) == 0x100_0000_0000_0000
    ensures Pow256(8) == 0x1_0000_0000_0000_0000
  {
    assert Pow256(2) == 256 * Pow256(1);
    assert Pow256(3) == 256 * Pow256(2);
    assert Pow256(4) == 256 * Pow256(3);
    assert Pow256(5) == 256 * Pow256(4);
    assert Pow256(6) == 256 * Pow256(5);
    assert Pow256(7) == 256 * Pow256(6);
    assert Pow256(8) == 256 * Pow256(7);
  }

  lemma {:induction false} Pow256Monotone(a: nat, b: nat)
    requires a <= b
    ensures Pow256(a) <= Pow256(b)
    decreases b
  {
    if a < b {
      Pow256Monotone(a, b - 1);
    }
  }

  /** The number a byte string spells, most significant byte first. */
  function BE(s: seq<Byte>): nat {
    if s == [] then 0 else 256 * BE(s[..|s| - 1]) + s[|s| - 1] as int
  }

  /** The shortest big-endian spelling of a number; zero is the empty string. */
  function MinBE(n: nat): seq<Byte> {
    if n == 0 then [] else MinBE(n / 256) + [(n % 256) as Byte]
  }

  /** The last k big-endian bytes of a number. */
  function FixedBE(n: nat, k: nat): (s: seq<Byte>)
    ensures |s| == k
  {
    if k == 0 then [] else FixedBE(n / 256, k - 1) + [(n % 256) as Byte]
  }

  lemma {:induction false} BEOfMinBE(n: nat)
    ensures BE(MinBE(n)) == n
  {
    if n > 0 {
      BEOfMinBE(n / 256);
      var s := MinBE(n);
      assert s[..|s| - 1] == MinBE(n / 256);
    }
  }

  lemma {:induction false} MinBEOfBE(s: seq<Byte>)
    requires s != [] ==> s[0] != 0
    ensures MinBE(BE(s)) == s
    ensures s != [] ==> BE(s) > 0
  {
    if s != [] {
      MinBEOfBE(s[..|s| - 1]);
      assert BE(s) / 256 == BE(s[..|s| - 1]);
      assert s == s[..|s| - 1] + [s[|s| - 1]];
    }
  }

  /** The shortest spelling has k bytes exactly for the numbers in [256^(k-1), 256^k). */
  lemma {:induction false} MinBELength(n: nat, k: nat)
    ensures n < Pow256(k) <==> |MinBE(n)| <= k
  {
    if n > 0 && k > 0 {
      MinBELength(n / 256, k - 1);
    }
  }

  lemma {:induction false} MinBEIsFixed(n: nat, k: nat)
    requires |MinBE(n)| == k
    ensures MinBE(n) == FixedBE(n, k)
  {
    if n > 0 {
      MinBEIsFixed(n / 256, k - 1);
    }
  }

  lemma {:induction false} BEOfFixed(n: nat, k: nat)
    requires n < Pow256(k)
    ensures BE(FixedBE(n, k)) == n
  {
    if k > 0 {
      BEOfFixed(n / 256, k - 1);
      var s := FixedBE(n, k);
      assert s[..k - 1] == FixedBE(n / 256, k - 1);
    }
  }

  lemma {:induction false} FixedBEOfBE(s: seq<Byte>)
    ensures FixedBE(BE(s), |s|) == s
  {
    if s != [] {
      FixedBEOfBE(s[..|s| - 1]);
      assert BE(s) / 256 == BE(s[..|s| - 1]);
      assert s == s[..|s| - 1] + [s[|s| - 1]];
    }
  }

  lemma {:induction false} MinBEHead(n: nat)
    requires n > 0
    ensures |MinBE(n)| > 0 && MinBE(n)[0] != 0
  {
    if n >= 256 {
      MinBEHead(n / 256);
    }
  }

  /** One byte of the area; reads past the end give zero. */
  function At(data: seq<Byte>, p: nat): Byte {
    if p < |data| then data[p] else 0
  }

  /** n bytes of the area from p on. */
  function Slice(data: seq<Byte>, p: nat, n: nat): (s: seq<Byte>)
    ensures |s| == n
    ensures forall i :: 0 <= i < n ==> s[i] == At(data, p + i)
    ensures p + n <= |data| ==> s == data[p..p + n]
  {
    seq(n, i requires 0 <= i => At(data, p + i))
  }

  /** n bytes of the area from p on, read as a number. */
  function ReadBE(data: seq<Byte>, p: nat, n: nat): nat {
    BE(Slice(data, p, n))
  }

  lemma ReadBEStep(data: seq<Byte>, p: nat, n: nat)
    requires n > 0
    ensures ReadBE(data, p, n) == 256 * ReadBE(data, p, n - 1) + At(data, p + n - 1) as int
  {
    assert Slice(data, p, n)[..n - 1] == Slice(data, p, n - 1);
  }

  lemma {:induction false} BEBound(s: seq<Byte>)
    ensures BE(s) < Pow256(|s|)
  {
    if s != [] {
      BEBound(s[..|s| - 1]);
    }
  }

  lemma SmallRemainder(n: nat, m: nat)
    requires n < m
    ensures n % m == n
  {
  }

  /** The word-sized load of the virtual machine (calldataload, mload). */
  function Load(data: seq<Byte>, p: nat): nat {
    ReadBE(data, p, 32)
  }

  /** The source's shr(8 * (32 - n), load(p)): the first n of the 32 bytes loaded at p. */
  function LoadTop(data: seq<Byte>, p: nat, n: nat): nat
    requires n <= 32
  {
    Load(data, p) / Pow256(32 - n)
  }

  lemma {:induction false} LoadTopIsRead(data: seq<Byte>, p: nat, n: nat)
    requires n <= 32
    ensures LoadTop(data, p, n) == ReadBE(data, p, n)
  {
    ShiftedRead(data, p, n, 32 - n);
  }

  lemma {:induction false} ShiftedRead(data: seq<Byte>, p: nat, n: nat, k: nat)
    ensures ReadBE(data, p, n + k) / Pow256(k) == ReadBE(data, p, n)
  {
    if k > 0 {
      ShiftedRead(data, p, n, k - 1);
      ReadBEStep(data, p, n + k);
      var a, b, c := ReadBE(data, p, n + k - 1), At(data, p + n + k - 1) as int, Pow256(k - 1);
      DivideTwice(a, b, c);
      assert ReadBE(data, p, n + k) == 256 * a + b;
    }
  }

  lemma DivideTwice(a: nat, b: nat, c: nat)
    requires b < 256 && c > 0
    ensures (256 * a + b) / (256 * c) == a / c
  {
    var q, r := a / c, a % c;
    assert a == q * c + r;
    assert 256 * a + b == q * (256 * c) + (256 * r + b);
    assert 256 * r + b < 256 * c;
    QuotientIs(256 * a + b, 256 * c, q, 256 * r + b);
  }

  lemma QuotientIs(n: nat, d: nat, q: nat, r: nat)
    requires n == q * d + r && r < d
    ensures n / d == q
  {
    var q', r' := n / d, n % d;
    assert (q - q') * d == q * d - q' * d == r' - r;
    if q' < q {
      AtLeastOnce(q - q', d);
    } else if q < q' {
      AtLeastOnce(q' - q, d);
    }
  }

  function Quotient(a: nat, b: nat): nat
    requires b > 0
  {
    a / b
  }

  function Remainder(a: nat, b: nat): (r: nat)
    requires b > 0
    ensures r < b
  {
    a % b
  }

  lemma QuotientSplits(a: nat, f: nat)
    requires f > 0
    ensures Quotient(a, f) * f + Remainder(a, f) == a
  {
  }

  lemma AtLeastOnce(k: nat, d: nat)
    requires k > 0
    ensures k * d >= d
  {
  }

  /** The area holds the string s at p. */
  predicate Holds(data: seq<Byte>, p: nat, s: seq<Byte>) {
    Slice(data, p, |s|) == s
  }

  lemma HoldsSplit(data: seq<Byte>, p: nat, s: seq<Byte>, t: seq<Byte>)
    ensures Holds(data, p, s + t) <==> Holds(data, p, s) && Holds(data, p + |s|, t)
  {
    var all, left, right := Slice(data, p, |s + t|), Slice(data, p, |s|), Slice(data, p + |s|, |t|);
    assert all == left + right;
    assert all[..|s|] == left && all[|s|..] == right;
    assert (s + t)[..|s|] == s && (s + t)[|s|..] == t;
  }

  /** A part of a held string, read back. */
  lemma SubSlice(data: seq<Byte>, p: nat, s: seq<Byte>, k: nat, n: nat)
    requires Holds(data, p, s) && k + n <= |s|
    ensures Slice(data, p + k, n) == s[k..k + n]
  {
    var r := Slice(data, p + k, n);
    forall i | 0 <= i < n
      ensures r[i] == s[k..k + n][i]
    {
      assert Slice(data, p, |s|)[k + i] == s[k + i];
    }
  }
}
