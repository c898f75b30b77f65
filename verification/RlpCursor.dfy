/** RLP.sol: a cursor over the items of a list in the calldata, moved by `next`, and the typed reads
    at the cursor. */
module RlpCursor {
  import opened Bytes
  import opened Rlp
  import opened RlpIntegers
  import opened Header
  import opened Wrappers

  /** The cursor `it` stands at the k-th item of the list body xs that starts at p. */
  ghost predicate AtField(cd: seq<Byte>, p: nat, xs: seq<Item>, k: nat, it: nat) {
    k <= |xs| && |EncodeAll(xs)| < Pow256(8) && Holds(cd, p, EncodeAll(xs)) && it == p + Offset(xs, k)
  }

  /** `beginIteration` puts the cursor at the first item of a list. */
  lemma ListStarts(cd: seq<Byte>, at: nat, xs: seq<Item>)
    requires Holds(cd, at, Encode(List(xs))) && |Encode(List(xs))| < Pow256(8)
    ensures ItemLength(cd, at) == |Encode(List(xs))|
    ensures AtField(cd, at + PayloadOffset(cd, at), xs, 0, at + PayloadOffset(cd, at))
    ensures |Encode(List(xs))| == PayloadOffset(cd, at) + Offset(xs, |xs|)
  {
    var x := List(xs);
    ReadsBack(cd, at, x);
    assert Payload(x) == EncodeAll(xs);
    OffsetEnds(xs);
  }

  /** `next`: the cursor behind the item. */
  function Next(cd: seq<Byte>, it: nat): (next: nat)
    ensures next > it
  {
    it + ItemLength(cd, it)
  }

  /** Over a canonical list it moves the cursor from one item to the following one. */
  lemma NextField(cd: seq<Byte>, it: nat, p: nat, xs: seq<Item>, k: nat)
    ensures AtField(cd, p, xs, k, it) && k < |xs| ==> AtField(cd, p, xs, k + 1, Next(cd, it))
  {
    if AtField(cd, p, xs, k, it) && k < |xs| {
      ItemAt(cd, p, xs, k);
    }
  }

  /** `toBytes32`: the first 33 bytes of the item without its prefix. */
  function ReadBytes32(cd: seq<Byte>, it: nat): nat {
    ToUint(cd, it, 33).value
  }

  lemma Bytes32Field(cd: seq<Byte>, it: nat, p: nat, xs: seq<Item>, k: nat)
    ensures AtField(cd, p, xs, k, it) && k < |xs| && xs[k].Str? && |xs[k].bytes| == 32 ==>
      ReadBytes32(cd, it) == BE(xs[k].bytes)
  {
    if AtField(cd, p, xs, k, it) && k < |xs| && xs[k].Str? && |xs[k].bytes| == 32 {
      ItemAt(cd, p, xs, k);
      StringReadsBack(cd, it, xs[k].bytes);
    }
  }

  /** `toAddress`: the low 160 bits of the first 21 bytes of the item without its prefix. */
  function ReadAddress(cd: seq<Byte>, it: nat): (a: Address)
    ensures a < Pow256(20)
  {
    ToUint(cd, it, 21).value % Pow256(20)
  }

  lemma AddressField(cd: seq<Byte>, it: nat, p: nat, xs: seq<Item>, k: nat)
    ensures AtField(cd, p, xs, k, it) && k < |xs| && xs[k].Str? && |xs[k].bytes| == 20 ==>
      ReadAddress(cd, it) == BE(xs[k].bytes)
  {
    if AtField(cd, p, xs, k, it) && k < |xs| && xs[k].Str? && |xs[k].bytes| == 20 {
      ItemAt(cd, p, xs, k);
      StringReadsBack(cd, it, xs[k].bytes);
      BEBound(xs[k].bytes);
      SmallRemainder(BE(xs[k].bytes), Pow256(|xs[k].bytes|));
    }
  }

  /** uint64(toUint256(it, itemLength(it))). */
  function ReadNumber(cd: seq<Byte>, it: nat): Result<nat> {
    var v :- ToUint(cd, it, ItemLength(cd, it));
    Ok(v % Pow256(8))
  }

  lemma NumberField(cd: seq<Byte>, it: nat, p: nat, xs: seq<Item>, k: nat, n: nat)
    ensures AtField(cd, p, xs, k, it) && k < |xs| && xs[k] == Int(n) ==>
      ReadNumber(cd, it) == if n < Pow256(32) then Ok(n % Pow256(8)) else Revert("")
  {
    if AtField(cd, p, xs, k, it) && k < |xs| && xs[k] == Int(n) {
      ItemAt(cd, p, xs, k);
      IntReadsBack(cd, it, n);
    }
  }
}
