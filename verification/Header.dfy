/** Parlia block headers: the fields, the encoding of a header, and the data a sealer signs, as the
    relayer builds them (a plain RLP list). */
module Header {
  import opened Bytes
  import opened Rlp
  import opened Wrappers

  const EXTRA_VANITY := 32
  const EXTRA_SEAL := 65

  /** A 256-bit word of the virtual machine; hashes are words. */
  type Word = w: nat | w < Pow256(32) witness 0
  /** A 160-bit address. */
  type Address = nat

  /** The hash function and signature recovery, both parameters of the model. Recovery fails on a
      signature the library refuses. */
  datatype Crypto = Crypto(keccak: seq<Byte> -> Word, recover: (Word, seq<Byte>) -> Option<Address>)

  datatype Header = Header(
    parentHash: seq<Byte>, uncleHash: seq<Byte>, coinbase: seq<Byte>,
    root: seq<Byte>, txHash: seq<Byte>, receiptHash: seq<Byte>, bloom: seq<Byte>,
    difficulty: nat, number: nat, gasLimit: nat, gasUsed: nat, time: nat,
    extra: seq<Byte>, mixDigest: seq<Byte>, nonce: seq<Byte>)

  /** The fixed-width fields have their widths. */
  predicate WellSized(h: Header) {
    && |h.parentHash| == 32 && |h.uncleHash| == 32 && |h.coinbase| == 20
    && |h.root| == 32 && |h.txHash| == 32 && |h.receiptHash| == 32 && |h.bloom| == 256
    && |h.mixDigest| == 32 && |h.nonce| == 8
  }

  /** The twelve fields in front of the extra data. */
  function FrontFields(h: Header): seq<Item> {
    [Str(h.parentHash), Str(h.uncleHash), Str(h.coinbase), Str(h.root), Str(h.txHash),
     Str(h.receiptHash), Str(h.bloom), Int(h.difficulty), Int(h.number), Int(h.gasLimit),
     Int(h.gasUsed), Int(h.time)]
  }

  /** The first `count` validators listed in the extra data, 20 bytes each after the vanity. */
  function ListedValidators(extra: seq<Byte>, count: nat): (vs: seq<Address>)
    requires EXTRA_VANITY + 20 * count <= |extra|
    ensures |vs| == count
    ensures forall i :: 0 <= i < count ==> vs[i] == BE(extra[EXTRA_VANITY + 20 * i..EXTRA_VANITY + 20 * i + 20])
  {
    seq(count, i requires 0 <= i < count => BE(extra[EXTRA_VANITY + 20 * i..EXTRA_VANITY + 20 * i + 20]))
  }

  function TailFields(h: Header): seq<Item> {
    [Str(h.mixDigest), Str(h.nonce)]
  }

  function EncodeHeader(h: Header): seq<Byte> {
    Encode(List(FrontFields(h) + ([Str(h.extra)] + TailFields(h))))
  }

  /** `encodeSigHeader`: the list of chain id, front fields, extra data without its seal, mix
      digest and nonce. */
  function EncodeSigHeader(h: Header, chainId: nat): seq<Byte>
    requires |h.extra| >= EXTRA_SEAL
  {
    Encode(List([Int(chainId)] + (FrontFields(h) + ([Str(h.extra[..|h.extra| - EXTRA_SEAL])] + TailFields(h)))))
  }

  /** The body of a header-like list, piece by piece. */
  lemma BodyPieces(front: seq<Item>, extra: Item, tail: seq<Item>)
    ensures EncodeAll(front + ([extra] + tail)) == EncodeAll(front) + (Encode(extra) + EncodeAll(tail))
  {
    EncodeAllConcat(front, [extra] + tail);
    EncodeAllConcat([extra], tail);
    EncodeAllOne(extra);
  }

  lemma SigBodyPieces(chain: Item, front: seq<Item>, extra: Item, tail: seq<Item>)
    ensures EncodeAll([chain] + (front + ([extra] + tail)))
         == Encode(chain) + (EncodeAll(front) + (Encode(extra) + EncodeAll(tail)))
  {
    BodyPieces(front, extra, tail);
    EncodeAllConcat([chain], front + ([extra] + tail));
    EncodeAllOne(chain);
  }

  /** Mix digest and nonce take 42 bytes. */
  lemma TailLength(h: Header)
    requires WellSized(h)
    ensures |EncodeAll(TailFields(h))| == 42
  {
    EncodeAllConcat([Str(h.mixDigest)], [Str(h.nonce)]);
    EncodeAllOne(Str(h.mixDigest));
    EncodeAllOne(Str(h.nonce));
    assert TailFields(h) == [Str(h.mixDigest)] + [Str(h.nonce)];
  }

  /** The bloom filter alone makes the front fields longer than 255 bytes. */
  lemma FrontLength(h: Header)
    requires WellSized(h)
    ensures |EncodeAll(FrontFields(h))| >= 256
  {
    var fs := FrontFields(h);
    assert fs == fs[..6] + ([fs[6]] + fs[7..]);
    EncodeAllConcat(fs[..6], [fs[6]] + fs[7..]);
    EncodeAllConcat([fs[6]], fs[7..]);
    EncodeAllOne(fs[6]);
    assert |Encode(fs[6])| >= |h.bloom|;
  }

  /** A payload of 256 to 65535 bytes has a three-byte prefix. */
  lemma TwoByteLength(base: Byte, n: nat)
    requires base == 0x80 || base == 0xc0
    requires 0x100 <= n < 0x1_0000
    ensures Head(base, n) == [base + 57, (n / 0x100) as Byte, (n % 0x100) as Byte]
  {
    Pow256Values();
    assert MinBE(n / 0x100 / 0x100) == [];
    assert MinBE(n / 0x100) == [(n / 0x100) as Byte];
    assert MinBE(n) == [(n / 0x100) as Byte, (n % 0x100) as Byte];
  }

  /** What follows from the size limit of 65535 bytes: the outer prefix has three bytes, and the
      front fields, the extra data and the 42-byte tail follow it. */
  lemma HeaderLayout(h: Header)
    requires WellSized(h) && |EncodeHeader(h)| <= 65535
    ensures var body := EncodeAll(FrontFields(h)) + (Encode(Str(h.extra)) + EncodeAll(TailFields(h)));
            EncodeHeader(h) == Head(0xc0, |body|) + body && |Head(0xc0, |body|)| == 3
    ensures |EncodeAll(FrontFields(h))| >= 256
    ensures |EncodeAll(TailFields(h))| == 42
    ensures |Encode(Str(h.extra))| >= |h.extra|
  {
    BodyPieces(FrontFields(h), Str(h.extra), TailFields(h));
    TailLength(h);
    FrontLength(h);
    var body := EncodeAll(FrontFields(h)) + (Encode(Str(h.extra)) + EncodeAll(TailFields(h)));
    assert EncodeHeader(h) == Head(0xc0, |body|) + body;
    TwoByteLength(0xc0, |body|);
  }
}
