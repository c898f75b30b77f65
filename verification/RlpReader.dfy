/** RLPReader.sol: items in memory. An item is a length and a pointer; nothing says that the bytes
    behind it are well formed. */
module RlpReader {
  import opened Bytes
  import opened Rlp
  import opened Wrappers

  datatype RLPItem = RLPItem(len: nat, memPtr: nat)

  predicate IsList(mem: seq<Byte>, item: RLPItem) {
    item.len > 0 && At(mem, item.memPtr) >= 0xc0
  }

  /** The raw bytes of an item. */
  function ToRlpBytes(mem: seq<Byte>, item: RLPItem): seq<Byte> {
    Slice(mem, item.memPtr, item.len)
  }

  /** The payload of an item; its length is computed with checked subtraction. */
  function ToBytes(mem: seq<Byte>, item: RLPItem): Result<seq<Byte>> {
    var offset := PayloadOffset(mem, item.memPtr);
    if item.len == 0 || item.len < offset then Revert("")
    else Ok(Slice(mem, item.memPtr + offset, item.len - offset))
  }

  /** The word of a 33-byte item; any other length reverts. */
  function ToUintStrict(mem: seq<Byte>, item: RLPItem): Result<nat> {
    if item.len != 33 then Revert("") else Ok(Load(mem, item.memPtr + 1))
  }

  /** An item that is shorter than its own prefix says it is, or empty, reverts; every other one has the bytes behind
      the prefix, whatever they are. */
  lemma PayloadOfItem(mem: seq<Byte>, item: RLPItem)
    ensures ToBytes(mem, item) == Revert("") <==> item.len == 0 || item.len < PayloadOffset(mem, item.memPtr)
    ensures ToBytes(mem, item).Ok? ==>
      var s, offset := ToBytes(mem, item).value, PayloadOffset(mem, item.memPtr);
      offset + |s| == item.len && Holds(mem, item.memPtr + offset, s)
  {
  }

  /** The items met when stepping from `cur` to the first position at or past `end`. */
  function Spans(mem: seq<Byte>, cur: nat, end: nat): seq<RLPItem>
    decreases end - cur
  {
    if cur >= end then []
    else [RLPItem(ItemLength(mem, cur), cur)] + Spans(mem, cur + ItemLength(mem, cur), end)
  }

  function ItemsOf(mem: seq<Byte>, item: RLPItem): seq<RLPItem> {
    Spans(mem, item.memPtr + PayloadOffset(mem, item.memPtr), item.memPtr + item.len)
  }

  /** On arbitrary bytes the counting ends after at most one step per byte, because no item is
      shorter than one byte. */
  method NumItems(mem: seq<Byte>, item: RLPItem) returns (count: nat)
    ensures item.len > 0 ==> count == |ItemsOf(mem, item)|
    ensures count <= item.len
  {
    if item.len == 0 {
      return 0;
    }
    count := 0;
    var currPtr := item.memPtr + PayloadOffset(mem, item.memPtr);
    var endPtr := item.memPtr + item.len;
    ghost var start := currPtr;
    while currPtr < endPtr
      invariant count + |Spans(mem, currPtr, endPtr)| == |Spans(mem, start, endPtr)|
      invariant start + count <= currPtr
      invariant count <= item.len
      decreases endPtr - currPtr
    {
      currPtr := currPtr + ItemLength(mem, currPtr);
      count := count + 1;
    }
  }

  method ToList(mem: seq<Byte>, item: RLPItem) returns (r: Result<seq<RLPItem>>)
    ensures r == if IsList(mem, item) then Ok(ItemsOf(mem, item)) else Revert("")
  {
    if !IsList(mem, item) {
      return Revert("");
    }
    var items := NumItems(mem, item);
    var result := new RLPItem[items];
    var memPtr: nat := item.memPtr + PayloadOffset(mem, item.memPtr);
    ghost var all := ItemsOf(mem, item);
    ghost var end := item.memPtr + item.len;
    for i := 0 to items
      invariant all[i..] == Spans(mem, memPtr, end)
      invariant result[..i] == all[..i]
    {
      var dataLen := ItemLength(mem, memPtr);
      assert all[i] == all[i..][0];
      result[i] := RLPItem(dataLen, memPtr);
      memPtr := memPtr + dataLen;
      assert all[i + 1..] == all[i..][1..];
    }
    assert result[..items] == result[..] && all[..items] == all;
    return Ok(result[..]);
  }

  /** Spans are consecutive, start at `cur`, and the last one begins before `end`. */
  lemma {:induction false} SpansAreConsecutive(mem: seq<Byte>, cur: nat, end: nat)
    ensures var s := Spans(mem, cur, end);
      && (forall i :: 0 <= i < |s| ==> s[i].len == ItemLength(mem, s[i].memPtr) && cur <= s[i].memPtr < end)
      && (s != [] ==> s[0].memPtr == cur && s[|s| - 1].memPtr + s[|s| - 1].len >= end)
      && (forall i, j :: 0 <= i < |s| && j == i + 1 < |s| ==> s[j].memPtr == s[i].memPtr + s[i].len)
    decreases end - cur
  {
    if cur < end {
      SpansAreConsecutive(mem, cur + ItemLength(mem, cur), end);
    }
  }

  /** The span of the i-th item of a canonical list body at p. */
  function SpanOf(p: nat, xs: seq<Item>, i: nat): RLPItem
    requires i < |xs|
  {
    RLPItem(|Encode(xs[i])|, p + Offset(xs, i))
  }

  lemma {:induction false} SpansOfBody(mem: seq<Byte>, p: nat, xs: seq<Item>, k: nat)
    requires k <= |xs| && Holds(mem, p, EncodeAll(xs)) && |EncodeAll(xs)| < Pow256(8)
    ensures Offset(xs, k) <= |EncodeAll(xs)|
    ensures var s := Spans(mem, p + Offset(xs, k), p + |EncodeAll(xs)|);
      |s| == |xs| - k && forall i :: k <= i < |xs| ==> s[i - k] == SpanOf(p, xs, i)
    decreases |xs| - k
  {
    OffsetEnds(xs);
    if k < |xs| {
      ItemAt(mem, p, xs, k);
      SpansOfBody(mem, p, xs, k + 1);
      NeverEmpty(xs[k]);
      var s := Spans(mem, p + Offset(xs, k), p + |EncodeAll(xs)|);
      var t := Spans(mem, p + Offset(xs, k + 1), p + |EncodeAll(xs)|);
      assert s == [SpanOf(p, xs, k)] + t;
      forall i | k <= i < |xs|
        ensures s[i - k] == SpanOf(p, xs, i)
      {
        if i > k {
          assert s[i - k] == t[i - (k + 1)];
        }
      }
    }
  }

  /** On the canonical encoding of a list, the items are exactly the consecutive spans of its
      elements, each holding the element's encoding. */
  lemma ItemsOfList(mem: seq<Byte>, item: RLPItem, xs: seq<Item>)
    requires ToRlpBytes(mem, item) == Encode(List(xs)) && item.len < Pow256(8)
    ensures IsList(mem, item) && |ItemsOf(mem, item)| == |xs|
    ensures forall i :: 0 <= i < |xs| ==>
      ToRlpBytes(mem, ItemsOf(mem, item)[i]) == Encode(xs[i]) && |Encode(xs[i])| < Pow256(8)
  {
    ReadsBack(mem, item.memPtr, List(xs));
    var p := item.memPtr + PayloadOffset(mem, item.memPtr);
    OffsetEnds(xs);
    SpansOfBody(mem, p, xs, 0);
    forall i | 0 <= i < |xs|
      ensures ToRlpBytes(mem, ItemsOf(mem, item)[i]) == Encode(xs[i]) && |Encode(xs[i])| < Pow256(8)
    {
      assert ItemsOf(mem, item)[i - 0] == SpanOf(p, xs, i);
      ItemAt(mem, p, xs, i);
    }
  }

  /** The payload of an item that holds a canonical encoding. */
  lemma BytesOfItem(mem: seq<Byte>, item: RLPItem, x: Item)
    requires ToRlpBytes(mem, item) == Encode(x) && item.len < Pow256(8)
    ensures ToBytes(mem, item) == Ok(Payload(x))
    ensures IsList(mem, item) <==> x.List?
  {
    ReadsBack(mem, item.memPtr, x);
    NeverEmpty(x);
  }

  /** A 32-byte string is a 33-byte item and reads as its word. */
  lemma WordOfItem(mem: seq<Byte>, item: RLPItem, x: Item)
    requires ToRlpBytes(mem, item) == Encode(x) && item.len < Pow256(8)
    ensures x.Str? && |x.bytes| == 32 ==> ToUintStrict(mem, item) == Ok(BE(x.bytes))
    ensures x.Str? && |x.bytes| != 32 ==> ToUintStrict(mem, item).Revert?
  {
    ReadsBack(mem, item.memPtr, x);
    Pow256Values();
    if x.Str? && |x.bytes| == 32 {
      assert |ItemHead(x)| == 1;
    } else if x.Str? && |x.bytes| >= 56 {
      MinBEHead(|x.bytes|);
    }
  }
}
