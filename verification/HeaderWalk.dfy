/** PoSaBlockVerifier.sol: the walk over the fields of a raw header, on arbitrary bytes. */
module HeaderWalk {
  import opened Bytes
  import opened Rlp
  import opened RlpCursor
  import opened Header
  import opened Wrappers

  /** The fields read, and the cursors before and after the extra data. */
  datatype RawFields = RawFields(parentHash: nat, coinbase: Address, stateRoot: nat, txsRoot: nat,
                                 receiptsRoot: nat, number: nat, before: nat, after: nat)

  /** The cursor k items behind p. */
  function CursorAt(cd: seq<Byte>, p: nat, k: nat): (it: nat)
    ensures it >= p + k
  {
    if k == 0 then p else Next(cd, CursorAt(cd, p, k - 1))
  }

  lemma CursorMoves(cd: seq<Byte>, p: nat, k: nat, it: nat)
    requires it == CursorAt(cd, p, k)
    ensures Next(cd, it) == CursorAt(cd, p, k + 1)
  {
  }

  /** Three hashes, the coinbase, the number, and the bounds of the extra data, at their places in the list. */
  function WalkedFields(cd: seq<Byte>, p: nat): (r: Result<RawFields>)
    ensures r.Ok? ==> p + 12 <= r.value.before < r.value.after
  {
    var number :- ReadNumber(cd, CursorAt(cd, p, 8));
    Ok(RawFields(ReadBytes32(cd, p), ReadAddress(cd, CursorAt(cd, p, 2)), ReadBytes32(cd, CursorAt(cd, p, 3)),
                 ReadBytes32(cd, CursorAt(cd, p, 4)), ReadBytes32(cd, CursorAt(cd, p, 5)), number,
                 CursorAt(cd, p, 12), CursorAt(cd, p, 13)))
  }

  /** First part of the walk: the hashes and the coinbase. */
  method ReadHashes(cd: seq<Byte>, p: nat) returns (f: RawFields, it: nat)
    ensures it == CursorAt(cd, p, 6)
    ensures f == RawFields(ReadBytes32(cd, p), ReadAddress(cd, CursorAt(cd, p, 2)), ReadBytes32(cd, CursorAt(cd, p, 3)),
                           ReadBytes32(cd, CursorAt(cd, p, 4)), ReadBytes32(cd, CursorAt(cd, p, 5)), 0, 0, 0)
  {
    var parentHash := ReadBytes32(cd, p);
    it := Next(cd, Next(cd, p));
    CursorMoves(cd, p, 0, p);
    CursorMoves(cd, p, 1, Next(cd, p));
    var coinbase := ReadAddress(cd, it);
    CursorMoves(cd, p, 2, it);
    it := Next(cd, it);
    var stateRoot := ReadBytes32(cd, it);
    CursorMoves(cd, p, 3, it);
    it := Next(cd, it);
    var txsRoot := ReadBytes32(cd, it);
    CursorMoves(cd, p, 4, it);
    it := Next(cd, it);
    var receiptsRoot := ReadBytes32(cd, it);
    CursorMoves(cd, p, 5, it);
    it := Next(cd, it);
    f := RawFields(parentHash, coinbase, stateRoot, txsRoot, receiptsRoot, 0, 0, 0);
  }

  /** The walk over the fields: bloom and difficulty are skipped, the number is read, then gas limit,
      gas used and time are skipped up to the extra data. */
  method ReadFields(cd: seq<Byte>, p: nat) returns (r: Result<RawFields>)
    ensures r == WalkedFields(cd, p)
  {
    var f, it := ReadHashes(cd, p);
    CursorMoves(cd, p, 6, it);
    CursorMoves(cd, p, 7, Next(cd, it));
    it := Next(cd, Next(cd, it));
    var number :- ReadNumber(cd, it);
    for i := 8 to 12
      invariant it == CursorAt(cd, p, i)
    {
      CursorMoves(cd, p, i, it);
      it := Next(cd, it);
    }
    CursorMoves(cd, p, 12, it);
    return Ok(f.(number := number, before := it, after := Next(cd, it)));
  }

  // ---------- the walk over a canonical header ----------

  function HeaderFields(h: Header): seq<Item> {
    FrontFields(h) + ([Str(h.extra)] + TailFields(h))
  }

  /** The fields the parser reads, at their places in the list. */
  ghost predicate ListsFields(xs: seq<Item>, h: Header) {
    && |xs| == 15 && WellSized(h)
    && xs[0] == Str(h.parentHash) && xs[2] == Str(h.coinbase) && xs[3] == Str(h.root)
    && xs[4] == Str(h.txHash) && xs[5] == Str(h.receiptHash) && xs[8] == Int(h.number)
  }

  /** What the walk over a canonical header must find, but for the bounds of the extra data. */
  ghost predicate FieldsOf(r: Result<RawFields>, h: Header) {
    if h.number >= Pow256(32) then r == Revert("")
    else
      && r.Ok?
      && r.value.parentHash == BE(h.parentHash) && r.value.coinbase == BE(h.coinbase) && r.value.stateRoot == BE(h.root)
      && r.value.txsRoot == BE(h.txHash) && r.value.receiptsRoot == BE(h.receiptHash) &&
           r.value.number == h.number % Pow256(8)
  }

  lemma {:induction false} CursorIsField(cd: seq<Byte>, p: nat, xs: seq<Item>, k: nat)
    requires AtField(cd, p, xs, 0, p) && k <= |xs|
    ensures AtField(cd, p, xs, k, CursorAt(cd, p, k))
  {
    if k > 0 {
      CursorIsField(cd, p, xs, k - 1);
      NextField(cd, CursorAt(cd, p, k - 1), p, xs, k - 1);
    }
  }

  lemma {:induction false} HashIsField(cd: seq<Byte>, p: nat, xs: seq<Item>, k: nat, hash: seq<Byte>)
    requires AtField(cd, p, xs, 0, p) && k < |xs| && xs[k] == Str(hash) && |hash| == 32
    ensures ReadBytes32(cd, CursorAt(cd, p, k)) == BE(hash)
  {
    CursorIsField(cd, p, xs, k);
    Bytes32Field(cd, CursorAt(cd, p, k), p, xs, k);
  }

  lemma {:induction false} CoinbaseIsField(cd: seq<Byte>, p: nat, xs: seq<Item>, k: nat, coinbase: seq<Byte>)
    requires AtField(cd, p, xs, 0, p) && k < |xs| && xs[k] == Str(coinbase) && |coinbase| == 20
    ensures ReadAddress(cd, CursorAt(cd, p, k)) == BE(coinbase)
  {
    CursorIsField(cd, p, xs, k);
    AddressField(cd, CursorAt(cd, p, k), p, xs, k);
  }

  lemma {:induction false} NumberIsField(cd: seq<Byte>, p: nat, xs: seq<Item>, k: nat, n: nat)
    requires AtField(cd, p, xs, 0, p) && k < |xs| && xs[k] == Int(n)
    ensures ReadNumber(cd, CursorAt(cd, p, k)) == if n < Pow256(32) then Ok(n % Pow256(8)) else Revert("")
  {
    CursorIsField(cd, p, xs, k);
    NumberField(cd, CursorAt(cd, p, k), p, xs, k, n);
  }

  /** Over a canonical header the walk finds exactly the header's fields and stops around the extra data. */
  lemma {:induction false} WalkFindsFields(cd: seq<Byte>, p: nat, h: Header, xs: seq<Item>)
    requires ListsFields(xs, h) && AtField(cd, p, xs, 0, p)
    ensures FieldsOf(WalkedFields(cd, p), h)
    ensures WalkedFields(cd, p).Ok? ==>
      && AtField(cd, p, xs, 12, WalkedFields(cd, p).value.before)
      && AtField(cd, p, xs, 13, WalkedFields(cd, p).value.after)
  {
    HashIsField(cd, p, xs, 0, h.parentHash);
    CoinbaseIsField(cd, p, xs, 2, h.coinbase);
    HashIsField(cd, p, xs, 3, h.root);
    HashIsField(cd, p, xs, 4, h.txHash);
    HashIsField(cd, p, xs, 5, h.receiptHash);
    NumberIsField(cd, p, xs, 8, h.number);
    CursorIsField(cd, p, xs, 12);
    CursorIsField(cd, p, xs, 13);
  }
}
