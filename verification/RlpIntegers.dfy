/** RLP.sol: integers. `uintToRlp` fills a buffer byte by byte, `toUint` reads one back. */
module RlpIntegers {
  import opened Bytes
  import opened Rlp
  import opened Wrappers

  /** uint8(value >> 8 * k). */
  function ByteOf(value: nat, k: nat): Byte {
    ((value / Pow256(k)) % 256) as Byte
  }

  lemma {:induction false} FixedBEAt(n: nat, k: nat, i: nat)
    requires i < k
    ensures FixedBE(n, k)[i] == ByteOf(n, k - 1 - i)
  {
    if i < k - 1 {
      FixedBEAt(n / 256, k - 1, i);
      DivideTwice(n / 256, n % 256, Pow256(k - 2 - i));
    }
  }

  /** The buffer [first, n >> 8(k-1), ..., n >> 8, n] is the prefix and k big-endian bytes. */
  lemma BufferIsFixed(b: seq<Byte>, first: Byte, n: nat, k: nat)
    requires |b| == k + 1 && b[0] == first
    requires forall i :: 1 <= i <= k ==> b[i] == ByteOf(n, k - i)
    ensures b == [first] + FixedBE(n, k)
  {
    var fixed := [first] + FixedBE(n, k);
    forall i | 1 <= i <= k
      ensures b[i] == fixed[i]
    {
      FixedBEAt(n, k, i - 1);
    }
  }

  lemma IntEncoding(n: nat, k: nat)
    requires 1 <= k <= 8 && 0x80 <= n && Pow256(k - 1) <= n < Pow256(k)
    ensures Encode(Int(n)) == [0x80 + k as Byte] + FixedBE(n, k)
  {
    MinBELength(n, k);
    MinBELength(n, k - 1);
    MinBEIsFixed(n, k);
    if k == 1 {
      assert MinBE(n / 256) == [];
      assert MinBE(n) == [n as Byte];
    }
  }

  /** What `uintToRlp` returns: the RLP encoding below 2^64, beyond that only the low eight bytes. */
  function UintRlp(value: nat): seq<Byte> {
    if value < Pow256(8) then Encode(Int(value)) else [0x88] + FixedBE(value, 8)
  }

  method UintToRlp(value: nat) returns (result: array<Byte>)
    ensures fresh(result)
    ensures result[..] == UintRlp(value)
  {
    Pow256Values();
    if value == 0 {
      result := new Byte[1];
      result[0] := 0x80;
      return;
    }
    if value <= 0x7f {
      result := new Byte[1];
      result[0] := value as Byte;
      assert MinBE(value / 256) == [];
      assert MinBE(value) == [value as Byte];
      return;
    }
    ghost var k: nat;
    if value < 0x100 {
      result := new Byte[2];
      result[0], result[1] := 0x81, ByteOf(value, 0);
      k := 1;
    } else if value < 0x1_0000 {
      result := new Byte[3];
      result[0], result[1], result[2] := 0x82, ByteOf(value, 1), ByteOf(value, 0);
      k := 2;
    } else if value < 0x100_0000 {
      result := new Byte[4];
      result[0], result[1] := 0x83, ByteOf(value, 2);
      result[2], result[3] := ByteOf(value, 1), ByteOf(value, 0);
      k := 3;
    } else if value < 0x1_0000_0000 {
      result := new Byte[5];
      result[0], result[1], result[2] := 0x84, ByteOf(value, 3), ByteOf(value, 2);
      result[3], result[4] := ByteOf(value, 1), ByteOf(value, 0);
      k := 4;
    } else if value < 0x100_0000_0000 {
      result := new Byte[6];
      result[0], result[1] := 0x85, ByteOf(value, 4);
      result[2], result[3] := ByteOf(value, 3), ByteOf(value, 2);
      result[4], result[5] := ByteOf(value, 1), ByteOf(value, 0);
      k := 5;
    } else if value < 0x1_0000_0000_0000 {
      result := new Byte[7];
      result[0], result[1], result[2] := 0x86, ByteOf(value, 5), ByteOf(value, 4);
      result[3], result[4] := ByteOf(value, 3), ByteOf(value, 2);
      result[5], result[6] := ByteOf(value, 1), ByteOf(value, 0);
      k := 6;
    } else if value < 0x100_0000_0000_0000 {
      result := new Byte[8];
      result[0], result[1] := 0x87, ByteOf(value, 6);
      result[2], result[3] := ByteOf(value, 5), ByteOf(value, 4);
      result[4], result[5] := ByteOf(value, 3), ByteOf(value, 2);
      result[6], result[7] := ByteOf(value, 1), ByteOf(value, 0);
      k := 7;
    } else {
      result := new Byte[9];
      result[0], result[1], result[2] :=
        0x88, ByteOf(value, 7), ByteOf(value, 6);
      result[3], result[4] := ByteOf(value, 5), ByteOf(value, 4);
      result[5], result[6] := ByteOf(value, 3), ByteOf(value, 2);
      result[7], result[8] := ByteOf(value, 1), ByteOf(value, 0);
      k := 8;
    }
    BufferIsFixed(result[..], 0x80 + k as Byte, value, k);
    if value < Pow256(8) {
      IntEncoding(value, k);
    }
  }

  /** The contract's integer encoding is the RLP encoding for exactly the numbers below 2^64. */
  lemma UintRlpRange(value: nat)
    ensures UintRlp(value) == Encode(Int(value)) <==> value < Pow256(8)
    ensures 1 <= |UintRlp(value)| <= 9
    ensures Pow256(8) <= value < Pow256(32) ==> UintRlp(value)[0] != Encode(Int(value))[0]
  {
    MinBELength(value, 8);
    EncodeParts(Int(value));
    MinBELength(value, 32);
  }

  /** `toUint(ptr, len)`: shr(8 * (32 - (len - offset)), calldataload(ptr + offset)). A payload of
      more than 32 or of fewer than 0 bytes makes the shift amount at least 256, which gives 0. */
  function ToUint(data: seq<Byte>, p: nat, len: nat): Result<nat> {
    if len == 0 || len > 33 then Revert("")
    else
      var offset := PayloadOffset(data, p);
      var n := len - offset;
      Ok(if 0 <= n <= 32 then LoadTop(data, p + offset, n) else 0)
  }

  /** Reading an encoded integer of at most 32 bytes gives the integer; a longer one reverts. */
  lemma IntReadsBack(data: seq<Byte>, p: nat, n: nat)
    requires Holds(data, p, Encode(Int(n)))
    requires |Encode(Int(n))| < Pow256(8)
    ensures ToUint(data, p, ItemLength(data, p)) == if n < Pow256(32) then Ok(n) else Revert("")
  {
    var x := Int(n);
    ReadsBack(data, p, x);
    MinBELength(n, 32);
    NeverEmpty(x);
    if n < Pow256(32) {
      StringReadsBack(data, p, x.bytes);
      BEOfMinBE(n);
    }
  }

  /** A string of at most 32 bytes reads as the number its bytes spell. */
  lemma StringReadsBack(data: seq<Byte>, p: nat, s: seq<Byte>)
    requires |s| <= 32
    requires Holds(data, p, Encode(Str(s)))
    ensures |Encode(Str(s))| <= 33
    ensures ToUint(data, p, |Encode(Str(s))|) == Ok(BE(s))
  {
    Pow256Values();
    ReadsBack(data, p, Str(s));
    var offset := PayloadOffset(data, p);
    assert Slice(data, p + offset, |s|) == s;
    LoadTopIsRead(data, p + offset, |s|);
  }

  /** `uintRlpPrefixLength`: bytes needed for a length field. */
  function UintRlpPrefixLength(value: nat): nat {
    if value < 0x100 then 1
    else if value < 0x1_0000 then 2
    else if value < 0x100_0000 then 3
    else if value < 0x1_0000_0000 then 4
    else if value < 0x100_0000_0000 then 5
    else if value < 0x1_0000_0000_0000 then 6
    else if value < 0x100_0000_0000_0000 then 7
    else 8
  }

  lemma PrefixLengthIsMinimal(value: nat)
    requires 0 < value < Pow256(8)
    ensures UintRlpPrefixLength(value) == |MinBE(value)|
  {
    Pow256Values();
    var k := UintRlpPrefixLength(value);
    MinBELength(value, k);
    MinBELength(value, k - 1);
  }
}
