/** Whoever can sign can write headers: the shipped parser takes a canonical header of any number, with
    any parent, receipts root and validators, from everyone with a key. */
module SealedHeaders {
  import opened Bytes
  import opened Rlp
  import opened RlpIntegers
  import opened Header
  import opened HeaderWalk
  import opened PoSaBlockVerifier
  import opened ParliaBlockVerifier
  import opened Wrappers

  /** The account has a key: whatever has to be signed, some seal of its recovers to it. */
  ghost predicate CanSign(c: Crypto, a: Address) {
    forall w: Word :: CanSeal(c, a, w)
  }

  ghost predicate CanSeal(c: Crypto, a: Address, w: Word) {
    exists rs, v :: Signs(c, a, w, rs, v)
  }

  /** The signature of two words is the account's, with recovery byte 27 or 28. */
  predicate Signs(c: Crypto, a: Address, w: Word, rs: seq<Byte>, v: Byte) {
    |rs| == 64 && 27 <= v <= 28 && c.recover(w, rs + [v]) == Some(a)
  }

  /** A seal ends in 1 for recovery byte 28; every other last byte stands for 27. */
  predicate SealIsOf(c: Crypto, a: Address, w: Word, seal: seq<Byte>) {
    |seal| == 65 && Signs(c, a, w, seal[..64], if seal[64] == 1 then 28 else 27)
  }

  /** What the parser hands to the recovery is the signature with that byte. */
  lemma SealRecovers(c: Crypto, a: Address, w: Word, seal: seq<Byte>)
    requires |seal| == EXTRA_SEAL
    ensures c.recover(w, SealWithRecoveryByte(seal)) == Some(a) <==> SealIsOf(c, a, w, seal)
  {
    RecoveryByte(seal[..64], seal[64]);
    assert seal == seal[..64] + [seal[64]];
  }

  /** 0 becomes 27 and 1 becomes 28. */
  lemma RecoveryByte(rs: seq<Byte>, v: Byte)
    requires |rs| == 64
    ensures SealWithRecoveryByte(rs + [v]) == rs + [if v == 1 then 28 else 27]
  {
  }

  /** The seal of a signature. */
  lemma SealOfSignature(c: Crypto, a: Address, w: Word, rs: seq<Byte>, v: Byte) returns (seal: seq<Byte>)
    requires Signs(c, a, w, rs, v)
    ensures SealIsOf(c, a, w, seal)
  {
    seal := rs + [v - 27];
    assert seal[..64] == rs;
  }

  predicate IsAddress(a: Address) {
    a < Pow256(20)
  }

  /** The reader behaves like the shipped parser on every canonical header. */
  ghost predicate ReadsAll(read: HeaderReader, c: Crypto, chainId: nat, epochLength: nat) {
    forall h: Header :: WellSized(h) && |EncodeHeader(h)| <= 65535 ==>
      read(chainId, EncodeHeader(h), epochLength) == VerifiedHeader(c, h, chainId, epochLength)
  }

  // ---------- encodings and the shipped reader ----------

  /** Headers with the same encoding have the same fields. */
  lemma FieldsAgree(h: Header, g: Header, k: nat)
    requires WellSized(h) && WellSized(g) && |EncodeHeader(h)| <= 65535 && EncodeHeader(h) == EncodeHeader(g)
    requires k < 15
    ensures Payload(HeaderFields(h)[k]) == Payload(HeaderFields(g)[k])
  {
    var data := EncodeHeader(h);
    assert Holds(data, 0, Encode(List(HeaderFields(h)))) && Holds(data, 0, Encode(List(HeaderFields(g))));
    Pow256Values();
    ReadsBack(data, 0, List(HeaderFields(h)));
    ReadsBack(data, 0, List(HeaderFields(g)));
    SameItems(data, PayloadOffset(data, 0), HeaderFields(h), HeaderFields(g), k);
  }

  lemma SameInteger(a: nat, b: nat)
    requires MinBE(a) == MinBE(b)
    ensures a == b
  {
    BEOfMinBE(a);
    BEOfMinBE(b);
  }

  lemma HashesAgree(h: Header, g: Header)
    requires WellSized(h) && WellSized(g) && |EncodeHeader(h)| <= 65535 && EncodeHeader(h) == EncodeHeader(g)
    ensures h.parentHash == g.parentHash && h.uncleHash == g.uncleHash && h.coinbase == g.coinbase
    ensures h.root == g.root && h.txHash == g.txHash && h.receiptHash == g.receiptHash && h.bloom == g.bloom
  {
    FieldsAgree(h, g, 0);
    FieldsAgree(h, g, 1);
    FieldsAgree(h, g, 2);
    FieldsAgree(h, g, 3);
    FieldsAgree(h, g, 4);
    FieldsAgree(h, g, 5);
    FieldsAgree(h, g, 6);
  }

  lemma NumbersAgree(h: Header, g: Header)
    requires WellSized(h) && WellSized(g) && |EncodeHeader(h)| <= 65535 && EncodeHeader(h) == EncodeHeader(g)
    ensures h.difficulty == g.difficulty && h.number == g.number && h.gasLimit == g.gasLimit
    ensures h.gasUsed == g.gasUsed && h.time == g.time
  {
    FieldsAgree(h, g, 7);
    FieldsAgree(h, g, 8);
    FieldsAgree(h, g, 9);
    FieldsAgree(h, g, 10);
    FieldsAgree(h, g, 11);
    SameInteger(h.difficulty, g.difficulty);
    SameInteger(h.number, g.number);
    SameInteger(h.gasLimit, g.gasLimit);
    SameInteger(h.gasUsed, g.gasUsed);
    SameInteger(h.time, g.time);
  }

  /** No two headers within the size limit have the same encoding. */
  lemma EncodingIsInjective(h: Header, g: Header)
    requires WellSized(h) && WellSized(g) && |EncodeHeader(h)| <= 65535 && EncodeHeader(h) == EncodeHeader(g)
    ensures h == g
  {
    HashesAgree(h, g);
    NumbersAgree(h, g);
    FieldsAgree(h, g, 12);
    FieldsAgree(h, g, 13);
    FieldsAgree(h, g, 14);
  }

  /** The raw bytes are the encoding of h, within the size limit. */
  predicate IsEncoding(raw: seq<Byte>, h: Header) {
    WellSized(h) && |raw| <= 65535 && raw == EncodeHeader(h)
  }

  /** The shipped parser on single headers. */
  function ShippedReader(c: Crypto): HeaderReader {
    (chainId: nat, raw: seq<Byte>, epochLength: nat) => VerifiedRaw(c, raw, 0, |raw|, chainId, epochLength)
  }

  lemma ShippedReads(c: Crypto, chainId: nat, epochLength: nat)
    ensures ReadsAll(ShippedReader(c), c, chainId, epochLength)
  {
    forall h: Header | WellSized(h) && |EncodeHeader(h)| <= 65535
      ensures VerifiedRaw(c, EncodeHeader(h), 0, |EncodeHeader(h)|, chainId, epochLength) ==
        VerifiedHeader(c, h, chainId, epochLength)
    {
      RawIsHeader(c, EncodeHeader(h), 0, |EncodeHeader(h)|, chainId, epochLength, h);
    }
  }

  lemma {:induction false} ShippedHash(c: Crypto, chainId: nat, raw: seq<Byte>, epochLength: nat, p: ParsedHeader)
    requires ShippedReader(c)(chainId, raw, epochLength) == Ok(p)
    ensures |raw| <= 65535 && p.header.blockHash == c.keccak(raw)
  {
    assert raw[0..0 + |raw|] == raw;
  }

  /** The links of a list that the shipped parser reads: every header after the first names the hash of the raw
      bytes before it as its parent. */
  lemma ShippedLinks(c: Crypto, chainId: nat, blockProofs: seq<seq<Byte>>, epochLength: nat, chain: seq<ParsedHeader>)
    ensures ReadChain(ShippedReader(c), chainId, blockProofs, epochLength) == Ok(chain) <==>
      && ReadAs(ShippedReader(c), chainId, blockProofs, epochLength, chain)
      && forall i :: 1 <= i < |chain| ==> chain[i].header.parentHash == c.keccak(blockProofs[i - 1])
  {
    ReadExactlyIfLinked(ShippedReader(c), chainId, blockProofs, epochLength, chain);
    if ReadAs(ShippedReader(c), chainId, blockProofs, epochLength, chain) {
      ShippedHashes(c, chainId, blockProofs, epochLength, chain);
      HashesAreLinks(chain, Hashes(c, blockProofs));
    }
  }

  function Hashes(c: Crypto, blockProofs: seq<seq<Byte>>): (r: seq<Word>)
    ensures |r| == |blockProofs| && forall i :: 0 <= i < |r| ==> r[i] == c.keccak(blockProofs[i])
  {
    seq(|blockProofs|, i requires 0 <= i < |blockProofs| => c.keccak(blockProofs[i]))
  }

  lemma ShippedHashes(c: Crypto, chainId: nat, blockProofs: seq<seq<Byte>>, epochLength: nat, chain: seq<ParsedHeader>)
    requires ReadAs(ShippedReader(c), chainId, blockProofs, epochLength, chain)
    ensures forall i :: 0 <= i < |chain| ==> chain[i].header.blockHash == Hashes(c, blockProofs)[i]
  {
    forall i | 0 <= i < |chain|
      ensures chain[i].header.blockHash == Hashes(c, blockProofs)[i]
    {
      ShippedHash(c, chainId, blockProofs[i], epochLength, chain[i]);
    }
  }

  lemma HashesAreLinks(chain: seq<ParsedHeader>, hashes: seq<Word>)
    requires |chain| == |hashes| && forall i :: 0 <= i < |chain| ==> chain[i].header.blockHash == hashes[i]
    ensures Linked(chain) <==> forall i :: 1 <= i < |chain| ==> chain[i].header.parentHash == hashes[i - 1]
  {
  }

  // ---------- a header to order ----------

  /** The addresses side by side, 20 bytes each. */
  function PackAddresses(list: seq<Address>): (s: seq<Byte>)
    ensures |s| == 20 * |list|
  {
    if list == [] then [] else PackAddresses(list[..|list| - 1]) + FixedBE(list[|list| - 1], 20)
  }

  lemma {:induction false} PackedAddressAt(list: seq<Address>, i: nat)
    requires i < |list|
    ensures PackAddresses(list)[20 * i..20 * i + 20] == FixedBE(list[i], 20)
  {
    var n := |list| - 1;
    var front := PackAddresses(list[..n]);
    if i < n {
      PackedAddressAt(list[..n], i);
      assert PackAddresses(list)[20 * i..20 * i + 20] == front[20 * i..20 * i + 20];
    }
  }

  /** Vanity, validators and seal. */
  function Extra(list: seq<Address>, seal: seq<Byte>): (s: seq<Byte>)
    ensures |s| == EXTRA_VANITY + 20 * |list| + |seal|
  {
    FixedBE(0, EXTRA_VANITY) + PackAddresses(list) + seal
  }

  lemma {:induction false} ExtraSlice(list: seq<Address>, seal: seq<Byte>, i: nat)
    requires i < |list|
    ensures var k := EXTRA_VANITY + 20 * i;
      Extra(list, seal)[k..k + 20] == FixedBE(list[i], 20)
  {
    PackedAddressAt(list, i);
    MiddleSlice(FixedBE(0, EXTRA_VANITY), PackAddresses(list), seal, 20 * i);
  }

  lemma MiddleSlice(front: seq<Byte>, middle: seq<Byte>, back: seq<Byte>, k: nat)
    requires k + 20 <= |middle|
    ensures (front + middle + back)[|front| + k..|front| + k + 20] == middle[k..k + 20]
  {
  }

  lemma {:induction false} ListedAreGiven(list: seq<Address>, seal: seq<Byte>)
    requires forall a :: a in list ==> IsAddress(a)
    ensures ListedValidators(Extra(list, seal), |list|) == list
  {
    var listed := ListedValidators(Extra(list, seal), |list|);
    forall i | 0 <= i < |list|
      ensures listed[i] == list[i]
    {
      ExtraSlice(list, seal, i);
      assert IsAddress(list[i]);
      BEOfFixed(list[i], 20);
    }
  }

  /** The contract's count is the number of addresses. */
  lemma CountIsLength(n: nat)
    requires n <= 3000
    ensures ContractCount(EXTRA_VANITY + 20 * n + EXTRA_SEAL) == n
  {
    var length := EXTRA_VANITY + 20 * n + EXTRA_SEAL;
    assert UintRlpPrefixLength(length) == if length < 256 then 1 else 2;
  }

  /** A header with the given fields, everything else zero. */
  function Ordered(a: Address, number: nat, parent: nat, root: nat, list: seq<Address>, seal: seq<Byte>): Header {
    Header(FixedBE(parent, 32), FixedBE(0, 32), FixedBE(a, 20), FixedBE(0, 32), FixedBE(0, 32), FixedBE(root, 32),
           FixedBE(0, 256), 0, number, 0, 0, 0, Extra(list, seal), FixedBE(0, 32), FixedBE(0, 8))
  }

  lemma ItemBound(s: seq<Byte>)
    requires |s| < 0x1_0000
    ensures |Encode(Str(s))| <= |s| + 3
  {
    Pow256Values();
    MinBELength(|s|, 2);
  }

  lemma {:induction false} ItemsBound(xs: seq<Item>)
    requires forall i :: 0 <= i < |xs| ==> xs[i].Str? && |xs[i].bytes| <= 256
    ensures |EncodeAll(xs)| <= 259 * |xs|
  {
    if xs != [] {
      ItemBound(xs[0].bytes);
      ItemsBound(xs[1..]);
    }
  }

  lemma FrontBound(h: Header)
    requires WellSized(h) && h.difficulty == h.gasLimit == h.gasUsed == h.time == 0 && h.number < Pow256(8)
    ensures |EncodeAll(FrontFields(h))| <= 3108
  {
    MinBELength(h.number, 8);
    ItemsBound(FrontFields(h));
  }

  lemma HeaderBound(h: Header)
    requires WellSized(h) && h.difficulty == h.gasLimit == h.gasUsed == h.time == 0 && h.number < Pow256(8)
    requires |h.extra| <= 62000
    ensures |EncodeHeader(h)| <= 65535
  {
    FrontBound(h);
    ItemBound(h.extra);
    TailLength(h);
    BodyPieces(FrontFields(h), Str(h.extra), TailFields(h));
    FrontLength(h);
    TwoByteLength(0xc0, |EncodeAll(FrontFields(h) + ([Str(h.extra)] + TailFields(h)))|);
  }

  /** What is signed does not depend on the seal. */
  lemma SplicedWithoutSeal(a: Address, number: nat, parent: nat, root: nat, list: seq<Address>, seal: seq<Byte>,
                           other: seq<Byte>, chainId: nat)
    requires |seal| == |other| == EXTRA_SEAL
    ensures SplicedHeader(Ordered(a, number, parent, root, list, seal), chainId) ==
      SplicedHeader(Ordered(a, number, parent, root, list, other), chainId)
  {
    var h, g := Ordered(a, number, parent, root, list, seal), Ordered(a, number, parent, root, list, other);
    assert Unsealed(h) == FixedBE(0, EXTRA_VANITY) + PackAddresses(list) == Unsealed(g);
    assert FrontFields(h) == FrontFields(g) && TailFields(h) == TailFields(g);
  }

  lemma SealAtEnd(list: seq<Address>, seal: seq<Byte>)
    ensures Extra(list, seal)[|Extra(list, seal)| - |seal|..] == seal
  {
  }

  lemma SealerIs(c: Crypto, h: Header, a: Address, number: nat, seal: seq<Byte>, chainId: nat)
    requires 0 < number < Pow256(8) && h.number == number && BE(h.coinbase) == a
    requires |h.extra| >= EXTRA_SEAL && h.extra[|h.extra| - EXTRA_SEAL..] == seal
    requires SealIsOf(c, a, c.keccak(SplicedHeader(h, chainId)), seal)
    ensures SealerOf(c, h, chainId) == Ok(a)
  {
    SmallRemainder(number, Pow256(8));
    SealerOfSeal(c, number, a, SplicedHeader(h, chainId), seal);
  }

  lemma SealerOfSeal(c: Crypto, number: nat, a: Address, signed: seq<Byte>, seal: seq<Byte>)
    requires number != 0 && |seal| == EXTRA_SEAL && SealIsOf(c, a, c.keccak(signed), seal)
    ensures Sealer(c, number, a, signed, seal) == Ok(a)
  {
    SealRecovers(c, a, c.keccak(signed), seal);
  }

  lemma OrderedSealer(c: Crypto, a: Address, number: nat, parent: nat, root: nat, list: seq<Address>, seal: seq<Byte>,
                      chainId: nat)
    requires IsAddress(a) && 0 < number < Pow256(8) && |seal| == EXTRA_SEAL
    requires SealIsOf(c, a, c.keccak(SplicedHeader(Ordered(a, number, parent, root, list, seal), chainId)), seal)
    ensures SealerOf(c, Ordered(a, number, parent, root, list, seal), chainId) == Ok(a)
  {
    BEOfFixed(a, 20);
    SealAtEnd(list, seal);
    SealerIs(c, Ordered(a, number, parent, root, list, seal), a, number, seal, chainId);
  }

  lemma ValidatorsAre(h: Header, number: nat, list: seq<Address>, epochLength: nat)
    requires epochLength > 0 && h.number == number < Pow256(8) && |h.extra| >= EXTRA_SEAL
    requires ContractCount(|h.extra|) == |list| && EXTRA_VANITY + 20 * |list| <= |h.extra|
    requires ListedValidators(h.extra, |list|) == list
    ensures EpochValidators(h, epochLength) == Ok(if number % epochLength == 0 then list else [])
  {
    SmallRemainder(number, Pow256(8));
  }

  lemma OrderedValidators(a: Address, number: nat, parent: nat, root: nat, list: seq<Address>, seal: seq<Byte>,
                          epochLength: nat)
    requires epochLength > 0 && number < Pow256(8) && |seal| == EXTRA_SEAL
    requires |list| <= 3000 && forall x :: x in list ==> IsAddress(x)
    ensures EpochValidators(Ordered(a, number, parent, root, list, seal), epochLength) ==
      Ok(if number % epochLength == 0 then list else [])
  {
    CountIsLength(|list|);
    ListedAreGiven(list, seal);
    ValidatorsAre(Ordered(a, number, parent, root, list, seal), number, list, epochLength);
  }

  /** The parser's view of a header is the one ordered. */
  predicate AsOrdered(p: ParsedHeader, a: Address, number: nat, parent: nat, root: nat, list: seq<Address>,
                      epochLength: nat)
    requires epochLength > 0
  {
    && p.header.coinbase == a && p.header.blockNumber == number && p.header.parentHash == parent
    && p.header.receiptsRoot == root && p.validators == if number % epochLength == 0 then list else []
  }

  lemma OrderedFields(a: Address, number: nat, parent: Word, root: Word, list: seq<Address>, seal: seq<Byte>)
    ensures var h := Ordered(a, number, parent, root, list, seal);
      BE(h.parentHash) == parent && BE(h.receiptHash) == root && h.number == number
  {
    BEOfFixed(parent, 32);
    BEOfFixed(root, 32);
  }

  lemma OrderedParsed(c: Crypto, h: Header, a: Address, number: nat, parent: nat, root: nat, list: seq<Address>,
                      chainId: nat, epochLength: nat)
    requires epochLength > 0 && number < Pow256(8) && |h.extra| >= EXTRA_SEAL
    requires BE(h.parentHash) == parent && BE(h.receiptHash) == root && h.number == number
    requires SealerOf(c, h, chainId) == Ok(a)
    requires EpochValidators(h, epochLength) == Ok(if number % epochLength == 0 then list else [])
    ensures var r := VerifiedHeader(c, h, chainId, epochLength);
      r.Ok? && AsOrdered(r.value, a, number, parent, root, list, epochLength)
  {
    Pow256Monotone(8, 32);
    SmallRemainder(number, Pow256(8));
  }

  lemma OwnSeal(c: Crypto, a: Address, chainId: nat, number: nat, parent: nat, root: nat, list: seq<Address>)
    returns (seal: seq<Byte>)
    requires CanSign(c, a)
    ensures |seal| == EXTRA_SEAL
    ensures SealIsOf(c, a, c.keccak(SplicedHeader(Ordered(a, number, parent, root, list, seal), chainId)), seal)
  {
    var none := FixedBE(0, EXTRA_SEAL);
    var w := c.keccak(SplicedHeader(Ordered(a, number, parent, root, list, none), chainId));
    assert CanSeal(c, a, w);
    var rs, v :| Signs(c, a, w, rs, v);
    seal := SealOfSignature(c, a, w, rs, v);
    SplicedWithoutSeal(a, number, parent, root, list, seal, none, chainId);
  }

  /** Everyone with a key can write a canonical header that the parser takes: of any number but 0, on any
      parent, with any receipts root, and at an epoch's first block with any validators (up to 3000). */
  lemma AnyoneSeals(c: Crypto, a: Address, chainId: nat, epochLength: nat, number: nat, parent: Word, root: Word,
                    list: seq<Address>)
    returns (h: Header)
    requires CanSign(c, a) && IsAddress(a) && epochLength > 0 && 0 < number < Pow256(8)
    requires |list| <= 3000 && forall x :: x in list ==> IsAddress(x)
    ensures WellSized(h) && |EncodeHeader(h)| <= 65535
    ensures var r := VerifiedHeader(c, h, chainId, epochLength);
      r.Ok? && AsOrdered(r.value, a, number, parent, root, list, epochLength)
  {
    var seal := OwnSeal(c, a, chainId, number, parent, root, list);
    h := Ordered(a, number, parent, root, list, seal);
    HeaderBound(h);
    OrderedSealer(c, a, number, parent, root, list, seal, chainId);
    OrderedValidators(a, number, parent, root, list, seal, epochLength);
    OrderedFields(a, number, parent, root, list, seal);
    OrderedParsed(c, h, a, number, parent, root, list, chainId, epochLength);
  }
}
