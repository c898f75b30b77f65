/** RLP (Yellow Paper, Appendix B): the encoding of items, and the two readers every parser of
    the repository is built from, `itemLength` and `_payloadOffset`. RLP.sol (over calldata) and
    RLPReader.sol (over memory) define both in the same way. */
module Rlp {
  import opened Bytes

  datatype Item = Str(bytes: seq<Byte>) | List(items: seq<Item>)

  /** Prefix of a payload of n bytes; base is 0x80 for strings and 0xc0 for lists. A payload of
      2^64 bytes or more has no encoding. */
  function Head(base: Byte, n: nat): seq<Byte>
    requires base == 0x80 || base == 0xc0
  {
    if n < 56 then [base + n as Byte]
    else if n >= Pow256(8) then []
    else
      MinBELength(n, 8);
      [base + 55 + |MinBE(n)| as Byte] + MinBE(n)
  }

  function ItemHead(x: Item): seq<Byte> {
    match x
    case Str(b) => if |b| == 1 && b[0] < 0x80 then [] else Head(0x80, |b|)
    case List(xs) => Head(0xc0, |EncodeAll(xs)|)
  }

  function Payload(x: Item): seq<Byte> {
    match x
    case Str(b) => b
    case List(xs) => EncodeAll(xs)
  }

  function Encode(x: Item): seq<Byte>
    decreases x, 1
  {
    match x
    case Str(b) => (if |b| == 1 && b[0] < 0x80 then [] else Head(0x80, |b|)) + b
    case List(xs) => Head(0xc0, |EncodeAll(xs)|) + EncodeAll(xs)
  }

  function EncodeAll(xs: seq<Item>): seq<Byte>
    decreases xs, 0
  {
    if xs == [] then [] else Encode(xs[0]) + EncodeAll(xs[1..])
  }

  /** The integers of a header or receipt: shortest big-endian bytes, zero as the empty string. */
  function Int(n: nat): Item {
    Str(MinBE(n))
  }

  lemma EncodeParts(x: Item)
    ensures Encode(x) == ItemHead(x) + Payload(x)
  {
  }

  lemma {:induction false} EncodeAllConcat(xs: seq<Item>, ys: seq<Item>)
    ensures EncodeAll(xs + ys) == EncodeAll(xs) + EncodeAll(ys)
  {
    if xs == [] {
      assert xs + ys == ys;
    } else {
      EncodeAllConcat(xs[1..], ys);
      assert (xs + ys)[1..] == xs[1..] + ys;
      assert EncodeAll(xs + ys) == Encode((xs + ys)[0]) + EncodeAll((xs + ys)[1..]);
    }
  }

  lemma EncodeAllOne(x: Item)
    ensures EncodeAll([x]) == Encode(x)
  {
    assert EncodeAll([x]) == Encode(x) + EncodeAll([]);
  }

  // ---------- the readers ----------

  /** `itemLength`: length of the whole item at p. */
  function ItemLength(data: seq<Byte>, p: nat): (n: nat)
    ensures n >= 1
  {
    var byte0 := At(data, p) as int;
    if byte0 < 0x80 then 1
    else if byte0 < 0xb8 then byte0 - 0x80 + 1
    else if byte0 < 0xc0 then LoadTop(data, p + 1, byte0 - 0xb7) + (byte0 - 0xb7 + 1)
    else if byte0 < 0xf8 then byte0 - 0xc0 + 1
    else LoadTop(data, p + 1, byte0 - 0xf7) + (byte0 - 0xf7 + 1)
  }

  /** `_payloadOffset`: number of bytes before the item's payload. */
  function PayloadOffset(data: seq<Byte>, p: nat): (n: nat)
    ensures n <= 9
  {
    var byte0 := At(data, p) as int;
    if byte0 < 0x80 then 0
    else if byte0 < 0xb8 || (byte0 >= 0xc0 && byte0 < 0xf8) then 1
    else if byte0 < 0xc0 then byte0 - 0xb7 + 1
    else byte0 - 0xf7 + 1
  }

  /** Both readers are exact on a canonical item, wherever it lies and whatever follows it. */
  lemma ReadsBack(data: seq<Byte>, p: nat, x: Item)
    requires Holds(data, p, Encode(x))
    requires |Encode(x)| < Pow256(8)
    ensures ItemLength(data, p) == |Encode(x)|
    ensures PayloadOffset(data, p) == |ItemHead(x)|
    ensures At(data, p) >= 0xc0 <==> x.List?
    ensures Holds(data, p + |ItemHead(x)|, Payload(x))
    ensures |Encode(x)| == |ItemHead(x)| + |Payload(x)|
  {
    EncodeParts(x);
    HoldsSplit(data, p, ItemHead(x), Payload(x));
    assert |Encode(x)| > 0;
    assert At(data, p) == Slice(data, p, |Encode(x)|)[0] == Encode(x)[0];
    var n := |Payload(x)|;
    if ItemHead(x) != [] && n >= 56 {
      var base: Byte := if x.List? then 0xc0 else 0x80;
      assert ItemHead(x) == Head(base, n) == [base + 55 + |MinBE(n)| as Byte] + MinBE(n);
      LongLength(data, p, base, n);
    }
  }

  lemma LongLength(data: seq<Byte>, p: nat, base: Byte, n: nat)
    requires base == 0x80 || base == 0xc0
    requires 56 <= n < Pow256(8)
    requires Holds(data, p, Head(base, n))
    ensures 1 <= |MinBE(n)| <= 8
    ensures LoadTop(data, p + 1, |MinBE(n)|) == n
    ensures At(data, p) == base + 55 + |MinBE(n)| as Byte
  {
    MinBELength(n, 8);
    var s := MinBE(n);
    var k := |s|;
    HoldsSplit(data, p, [base + 55 + k as Byte], s);
    assert Slice(data, p, 1)[0] == base + 55 + k as Byte;
    assert Slice(data, p + 1, k) == s;
    LoadTopIsRead(data, p + 1, k);
    BEOfMinBE(n);
  }

  lemma NeverEmpty(x: Item)
    requires |Encode(x)| < Pow256(8)
    ensures |Encode(x)| >= 1
  {
  }

  /** No encoding is a proper prefix of another. */
  lemma PrefixFree(x: Item, y: Item)
    requires |Encode(x)| < Pow256(8) && |Encode(y)| < Pow256(8)
    requires Encode(x) <= Encode(y)
    ensures Encode(x) == Encode(y)
  {
    assert Holds(Encode(y), 0, Encode(x)) && Holds(Encode(y), 0, Encode(y));
    ReadsBack(Encode(y), 0, x);
    ReadsBack(Encode(y), 0, y);
  }

  // ---------- items inside a list ----------

  /** Offset of the i-th item inside the payload of a list. */
  function Offset(xs: seq<Item>, i: nat): nat
    requires i <= |xs|
  {
    |EncodeAll(xs[..i])|
  }

  /** The i-th item of a list lies at its offset, and the next one right after it. */
  lemma {:induction false} ItemAt(data: seq<Byte>, p: nat, xs: seq<Item>, i: nat)
    requires i < |xs|
    requires Holds(data, p, EncodeAll(xs))
    requires |EncodeAll(xs)| < Pow256(8)
    ensures Holds(data, p + Offset(xs, i), Encode(xs[i]))
    ensures Offset(xs, i + 1) == Offset(xs, i) + |Encode(xs[i])| <= |EncodeAll(xs)|
    ensures |Encode(xs[i])| < Pow256(8)
    ensures ItemLength(data, p + Offset(xs, i)) == |Encode(xs[i])|
  {
    var a, b := xs[..i], xs[i + 1..];
    assert xs == a + ([xs[i]] + b);
    assert xs[..i + 1] == a + [xs[i]];
    EncodeAllConcat(a, [xs[i]]);
    EncodeAllConcat(a, [xs[i]] + b);
    EncodeAllConcat([xs[i]], b);
    EncodeAllOne(xs[i]);
    HoldsSplit(data, p, EncodeAll(a), Encode(xs[i]) + EncodeAll(b));
    HoldsSplit(data, p + |EncodeAll(a)|, Encode(xs[i]), EncodeAll(b));
    ReadsBack(data, p + Offset(xs, i), xs[i]);
  }

  lemma OffsetEnds(xs: seq<Item>)
    ensures Offset(xs, 0) == 0
    ensures Offset(xs, |xs|) == |EncodeAll(xs)|
  {
    assert xs[..|xs|] == xs;
  }

  lemma SameItem(data: seq<Byte>, p: nat, x: Item, y: Item)
    requires Holds(data, p, Encode(x)) && Holds(data, p, Encode(y))
    requires |Encode(x)| < Pow256(8) && |Encode(y)| < Pow256(8)
    ensures |Encode(x)| == |Encode(y)| && Payload(x) == Payload(y)
  {
    ReadsBack(data, p, x);
    ReadsBack(data, p, y);
  }

  /** Two lists of the same length with the same encoding have the same payloads item by item. */
  lemma {:induction false} SameItems(data: seq<Byte>, p: nat, xs: seq<Item>, ys: seq<Item>, i: nat)
    requires i < |xs| == |ys| && Holds(data, p, EncodeAll(xs)) && Holds(data, p, EncodeAll(ys))
    requires |EncodeAll(xs)| < Pow256(8) && |EncodeAll(ys)| < Pow256(8)
    ensures Payload(xs[i]) == Payload(ys[i]) && Offset(xs, i + 1) == Offset(ys, i + 1)
  {
    if i > 0 {
      SameItems(data, p, xs, ys, i - 1);
    } else {
      OffsetEnds(xs);
      OffsetEnds(ys);
    }
    ItemAt(data, p, xs, i);
    ItemAt(data, p, ys, i);
    SameItem(data, p + Offset(xs, i), xs[i], ys[i]);
  }
}
