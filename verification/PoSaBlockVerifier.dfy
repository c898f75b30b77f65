/** PoSaBlockVerifier.sol: parsing a raw header and rebuilding the signed data by editing its bytes. */
module PoSaBlockVerifier {
  import opened Bytes
  import opened Rlp
  import opened RlpIntegers
  import opened RlpCursor
  import opened Memory
  import opened Header
  import opened HeaderWalk
  import opened Wrappers

  datatype BlockHeader = BlockHeader(
    blockHash: Word, parentHash: nat, blockNumber: nat, coinbase: Address,
    receiptsRoot: nat, txsRoot: nat, stateRoot: nat)

  datatype ParsedHeader = ParsedHeader(header: BlockHeader, validators: seq<Address>)

  // ---------- what the parser is for, stated on header fields ----------

  /** The extra data without its seal. */
  function Unsealed(h: Header): seq<Byte>
    requires |h.extra| >= EXTRA_SEAL
  {
    h.extra[..|h.extra| - EXTRA_SEAL]
  }

  /** The list prefix 0xf9 with its two length bytes. */
  function OuterPrefix(n: nat): seq<Byte> {
    [0xf9, ByteOf(n, 1), ByteOf(n, 0)]
  }

  /** Signing data put together from the chain id's encoding, the front fields, the unsealed extra
      data and the tail. The extra data always gets a length prefix. */
  function SigningData(chain: seq<Byte>, front: seq<Byte>, extra: seq<Byte>, tail: seq<Byte>): seq<Byte> {
    var end := Head(0x80, |extra|) + (extra + tail);
    OuterPrefix(|chain| + |front| + |end|) + chain + front + end
  }

  /** The bytes the contract hashes for a header. */
  function SplicedHeader(h: Header, chainId: nat): seq<Byte>
    requires |h.extra| >= EXTRA_SEAL
  {
    SigningData(UintRlp(chainId), EncodeAll(FrontFields(h)), Unsealed(h), EncodeAll(TailFields(h)))
  }

  /** One byte below 0x80 is its own RLP encoding, without a prefix. */
  predicate SelfEncoded(s: seq<Byte>) {
    |s| == 1 && s[0] < 0x80
  }

  function SealWithRecoveryByte(seal: seq<Byte>): seq<Byte>
    requires |seal| == EXTRA_SEAL
  {
    seal[64 := if seal[64] == 1 then 28 else 27]
  }

  /** The sealer: recovered from the hash of the signing data and checked against the coinbase.
      Block 0 has no seal and reports the zero address. */
  function Sealer(c: Crypto, number: nat, coinbase: Address, signingData: seq<Byte>, seal: seq<Byte>): Result<Address>
    requires |seal| == EXTRA_SEAL
  {
    if number == 0 then Ok(0)
    else
      match c.recover(c.keccak(signingData), SealWithRecoveryByte(seal))
      case None => Revert("invalid signature")
      case Some(signer) => if signer == coinbase then Ok(signer) else Revert("bad coinbase")
  }

  /** The sealer of a canonical header signed the spliced header. */
  function SealerOf(c: Crypto, h: Header, chainId: nat): Result<Address> {
    if |h.extra| < EXTRA_SEAL then Revert("")
    else Sealer(c, h.number % Pow256(8), BE(h.coinbase), SplicedHeader(h, chainId), h.extra[|h.extra| - EXTRA_SEAL..])
  }

  /** The validators a canonical header installs: those listed in the extra data of an epoch block. */
  function EpochValidators(h: Header, epochLength: nat): Result<seq<Address>>
    requires |h.extra| >= EXTRA_SEAL
  {
    if epochLength == 0 then Revert("")
    else if h.number % Pow256(8) % epochLength != 0 then Ok([])
    else if ContractCount(|h.extra|) < 0 then Revert("")
    else Ok(ListedValidators(h.extra, ContractCount(|h.extra|)))
  }

  /** The outcome of parsing and verifying a canonical header. */
  function VerifiedHeader(c: Crypto, h: Header, chainId: nat, epochLength: nat): Result<ParsedHeader> {
    if h.number >= Pow256(32) then Revert("")
    else
      var sealer :- SealerOf(c, h, chainId);
      var validators :- EpochValidators(h, epochLength);
      Ok(ParsedHeader(
           BlockHeader(c.keccak(EncodeHeader(h)), BE(h.parentHash), h.number % Pow256(8), sealer,
                       BE(h.receiptHash), BE(h.txHash), BE(h.root)),
           validators))
  }

  /** Block 0 is accepted whatever signatures there are. */
  lemma {:induction false} NoSealNeeded(c: Crypto, recover: (Word, seq<Byte>) -> Option<Address>, h: Header,
                                        chainId: nat,
                                        epochLength: nat)
    requires |h.extra| >= EXTRA_SEAL && h.number < Pow256(32) && EpochValidators(h, epochLength).Ok?
    requires h.number % Pow256(8) == 0
    ensures VerifiedHeader(Crypto(c.keccak, recover), h, chainId, epochLength).Ok?
    ensures VerifiedHeader(Crypto(c.keccak, recover), h, chainId, epochLength) ==
      VerifiedHeader(c, h, chainId, epochLength)
  {
    assert SealerOf(Crypto(c.keccak, recover), h, chainId) == SealerOf(c, h, chainId);
  }

  /** For other blocks the verdict changes with what is recovered. */
  lemma {:induction false} SealDecides(c: Crypto, h: Header, chainId: nat, epochLength: nat)
    returns (recover: (Word, seq<Byte>) -> Option<Address>)
    requires |h.extra| >= EXTRA_SEAL && h.number < Pow256(32) && EpochValidators(h, epochLength).Ok?
    requires h.number % Pow256(8) != 0
    ensures VerifiedHeader(Crypto(c.keccak, recover), h, chainId, epochLength) !=
      VerifiedHeader(c, h, chainId, epochLength)
  {
    if VerifiedHeader(c, h, chainId, epochLength).Ok? {
      recover := (_, _) => None;
    } else {
      recover := (_, _) => Some(BE(h.coinbase));
    }
  }

  /** Whether a parsable header is accepted does not depend on its seal if and only if it is block 0. */
  lemma {:induction false} BlockZeroIsNotSealed(c: Crypto, h: Header, chainId: nat, epochLength: nat)
    requires |h.extra| >= EXTRA_SEAL && h.number < Pow256(32) && EpochValidators(h, epochLength).Ok?
    ensures (forall recover ::
              VerifiedHeader(Crypto(c.keccak, recover), h, chainId, epochLength) ==
                VerifiedHeader(c, h, chainId, epochLength))
      <==> h.number % Pow256(8) == 0
  {
    if h.number % Pow256(8) == 0 {
      forall recover
        ensures VerifiedHeader(Crypto(c.keccak, recover), h, chainId, epochLength) ==
          VerifiedHeader(c, h, chainId, epochLength)
      {
        NoSealNeeded(c, recover, h, chainId, epochLength);
      }
    } else {
      var recover := SealDecides(c, h, chainId, epochLength);
    }
  }

  /** The contract's count adds the length of the extra data's prefix (2 or 3) twice. */
  function ContractCount(extraLength: nat): (n: int)
    requires extraLength >= EXTRA_SEAL
    ensures n >= 0 ==> EXTRA_VANITY + 20 * n <= extraLength
  {
    var p := 1 + UintRlpPrefixLength(extraLength);
    if extraLength + 2 * p < EXTRA_SEAL + EXTRA_VANITY then -1
    else (extraLength + 2 * p - EXTRA_SEAL - EXTRA_VANITY) / 20
  }

  // ---------- editing the raw bytes in place ----------

  /** The prefix bytes patched in front of n bytes of extra data; their number p is computed from n. */
  function LengthBytes(p: nat, n: nat): (r: seq<Byte>)
    ensures |r| <= 4
  {
    if p == 4 then [0xb7 + 3, ByteOf(n, 2), ByteOf(n, 1), ByteOf(n, 0)]
    else if p == 3 then [0xb7 + 2, ByteOf(n, 1), ByteOf(n, 0)]
    else if p == 2 then [0xb7 + 1, ByteOf(n, 0)]
    else if n < 56 then [(0x80 + n) as Byte]
    else []
  }

  /** The buffer with the prefix patched in, so far from its end as extra data and tail need. A write
      outside the buffer reverts. */
  function Patched(s: seq<Byte>, p: nat, n: nat): Result<seq<Byte>> {
    if LengthBytes(p, n) == [] then Ok(s)
    else if n + p + 42 > |s| then Revert("")
    else Ok(Overwrite(s, |s| - (n + p + 42), LengthBytes(p, n)))
  }

  /** Patches the length of the shortened extra data in front of it. */
  method PatchExtraLength(signingData: array<Byte>, newPrefixLength: nat, newLength: nat) returns (ok: bool)
    modifies signingData
    ensures ok <==> Patched(old(signingData[..]), newPrefixLength, newLength).Ok?
    ensures ok ==> Ok(signingData[..]) == Patched(old(signingData[..]), newPrefixLength, newLength)
  {
    if LengthBytes(newPrefixLength, newLength) == [] {
      return true;
    }
    if newLength + newPrefixLength + 42 > signingData.Length {
      return false;
    }
    var patchAt := signingData.Length - (newLength + newPrefixLength + 42);
    if newPrefixLength == 4 {
      StoreBytes(signingData, patchAt, [0xb7 + 3, ByteOf(newLength, 2), ByteOf(newLength, 1), ByteOf(newLength, 0)]);
    } else if newPrefixLength == 3 {
      StoreBytes(signingData, patchAt, [0xb7 + 2, ByteOf(newLength, 1), ByteOf(newLength, 0)]);
    } else if newPrefixLength == 2 {
      StoreBytes(signingData, patchAt, [0xb7 + 1, ByteOf(newLength, 0)]);
    } else {
      StoreBytes(signingData, patchAt, [(0x80 + newLength) as Byte]);
    }
    return true;
  }

  /** The parts on both sides of the gap that the prefix of the extra data is written into. */
  ghost predicate GapOpen(s: seq<Byte>, gap: nat, left: seq<Byte>, right: seq<Byte>) {
    |s| == |left| + gap + |right| && Holds(s, 0, left) && Holds(s, |left| + gap, right)
  }

  /** Patching a gap of the right width closes it with the RLP prefix. */
  lemma PatchClosesGap(s: seq<Byte>, n: nat, left: seq<Byte>, right: seq<Byte>)
    requires n < 0x100_0000 && |right| == n + 42 && GapOpen(s, NewPrefixLength(n), left, right)
    ensures Patched(s, NewPrefixLength(n), n) == Ok(left + (Head(0x80, n) + right))
  {
    HeadBytes(n);
    var t := LengthBytes(NewPrefixLength(n), n);
    assert t == Head(0x80, n);
    GapClosed(s, Overwrite(s, |left|, t), t, left, right);
  }

  /** The string prefix, byte by byte. */
  lemma HeadBytes(n: nat)
    requires n < 0x100_0000
    ensures |Head(0x80, n)| == NewPrefixLength(n)
    ensures NewPrefixLength(n) == 1 ==> n < 56 && Head(0x80, n) == [(0x80 + n) as Byte]
    ensures NewPrefixLength(n) == 2 ==> Head(0x80, n) == [0xb8, ByteOf(n, 0)]
    ensures NewPrefixLength(n) == 3 ==> Head(0x80, n) == [0xb9, ByteOf(n, 1), ByteOf(n, 0)]
    ensures NewPrefixLength(n) == 4 ==> Head(0x80, n) == [0xba, ByteOf(n, 2), ByteOf(n, 1), ByteOf(n, 0)]
    ensures 1 <= NewPrefixLength(n) <= 4
  {
    if n >= 56 {
      Pow256Values();
      PrefixLengthIsMinimal(n);
      var k := UintRlpPrefixLength(n);
      MinBEIsFixed(n, k);
      FixedBEAt(n, k, 0);
      FixedBEAt(n, k, k - 1);
      FixedBEAt(n, k, k / 2);
    }
  }

  /** Prefix length of the shortened extra data. */
  function NewPrefixLength(newLength: nat): nat {
    if newLength < 56 then 1 else 1 + UintRlpPrefixLength(newLength)
  }

  function Zeros(n: nat): (s: seq<Byte>)
    ensures |s| == n
  {
    seq(n, _ => 0)
  }

  /** The buffer with the list prefix and the chain id in front. */
  function Opened(size: nat, chain: seq<Byte>): (s: seq<Byte>)
    requires size >= 3 + |chain|
    ensures |s| == size
  {
    OuterPrefix(size - 3) + chain + Zeros(size - 3 - |chain|)
  }

  /** Allocates the buffer and writes the list prefix and the chain id. */
  method OpenSigningData(size: nat, chainRlp: seq<Byte>) returns (r: Result<array<Byte>>)
    ensures if size >= 3 + |chainRlp| then r.Ok? else r == Revert("")
    ensures r.Ok? ==> fresh(r.value) && r.value[..] == Opened(size, chainRlp)
  {
    if size < 3 + |chainRlp| {
      return Revert("");
    }
    var signingData := new Byte[size](_ => 0);
    var bodyLength := size - 3;
    signingData[0] := 0xf9;
    signingData[1] := ByteOf(bodyLength, 1);
    signingData[2] := ByteOf(bodyLength, 0);
    ghost var start := Opened(size, chainRlp);
    for i := 0 to |chainRlp|
      invariant forall k :: 0 <= k < 3 + i ==> signingData[k] == start[k]
      invariant forall k :: 3 + i <= k < size ==> signingData[k] == 0
    {
      signingData[3 + i] := chainRlp[i];
    }
    assert signingData[..] == start;
    return Ok(signingData);
  }

  /** Three pieces copied into the buffer as far as it reaches: one at `start`, two more from `mid` on. */
  function Copied(s: seq<Byte>, start: nat, front: seq<Byte>, mid: nat, extra: seq<Byte>, end: nat,
                  tail: seq<Byte>): seq<Byte> {
    Clipped(Clipped(Clipped(s, start, front), mid, extra), end, tail)
  }

  /** Copies front fields, extra data without its seal, and the tail; a gap is left before `mid` for the
      new prefix of the extra data. */
  method CopyRawParts(dst: array<Byte>, start: nat, mid: nat, end: nat, cd: seq<Byte>, src: nat, srcLen: nat,
                      extra: nat, extraLen: nat, tail: nat)
    modifies dst
    ensures dst[..] == Copied(old(dst[..]), start, Slice(cd, src, srcLen), mid, Slice(cd, extra, extraLen), end,
                              Slice(cd, tail, 42))
  {
    CalldataCopy(dst, start, cd, src, srcLen);
    CalldataCopy(dst, mid, cd, extra, extraLen);
    CalldataCopy(dst, end, cd, tail, 42);
  }

  /** In a buffer of the right size the pieces lie side by side, with the gap between them. */
  lemma CopiedSideBySide(s: seq<Byte>, left: seq<Byte>, gap: nat, front: seq<Byte>, mid: nat, extra: seq<Byte>,
                         end: nat, tail: seq<Byte>)
    requires mid == |left| + |front| + gap && end == mid + |extra|
    requires |s| == end + |tail| && s[..|left|] == left
    ensures GapOpen(Copied(s, |left|, front, mid, extra, end, tail), gap, left + front, extra + tail)
  {
    ClippedFits(s, |left|, front);
    var s1 := Overwrite(s, |left|, front);
    ClippedFits(s1, mid, extra);
    var s2 := Overwrite(s1, mid, extra);
    ClippedFits(s2, end, tail);
    ThreePieces(s, s1, s2, Overwrite(s2, end, tail), |left|, gap, front, extra, tail);
  }

  lemma ThreePieces(s0: seq<Byte>, s1: seq<Byte>, s2: seq<Byte>, s3: seq<Byte>, start: nat, gap: nat,
                    front: seq<Byte>, extra: seq<Byte>, tail: seq<Byte>)
    requires |s0| == start + |front| + gap + |extra| + |tail|
    requires s1 == Overwrite(s0, start, front)
    requires s2 == Overwrite(s1, start + |front| + gap, extra)
    requires s3 == Overwrite(s2, start + |front| + gap + |extra|, tail)
    ensures Holds(s3, 0, s0[..start] + front)
    ensures Holds(s3, start + |front| + gap, extra + tail)
  {
    var left, e := s0[..start], start + |front| + gap;
    assert Slice(s0, 0, start) == left;
    FillGap(s0, start, front, left, []);
    assert front + [] == front;
    OverwriteKeeps(s1, e, extra, 0, left + front);
    OverwriteKeeps(s2, e + |extra|, tail, 0, left + front);
    OverwriteKeeps(s2, e + |extra|, tail, e, extra);
    HoldsSplit(s3, e, extra, tail);
  }

  lemma GapClosed(s: seq<Byte>, r: seq<Byte>, t: seq<Byte>, left: seq<Byte>, right: seq<Byte>)
    requires |s| == |left| + |t| + |right|
    requires Holds(s, 0, left) && Holds(s, |left| + |t|, right)
    requires r == Overwrite(s, |left|, t)
    ensures r == left + (t + right)
  {
    FillGap(s, |left|, t, left, right);
    assert Slice(r, 0, |r|) == r;
  }

  lemma SigningDataIs(size: nat, chain: seq<Byte>, front: seq<Byte>, extra: seq<Byte>, tail: seq<Byte>)
    requires size == 3 + |chain| + |front| + |Head(0x80, |extra|)| + |extra| + |tail|
    ensures SigningData(chain, front, extra, tail) ==
      OuterPrefix(size - 3) + chain + front + (Head(0x80, |extra|) + (extra + tail))
  {
  }

  /** The filled buffer, whatever its size. */
  function Filled(size: nat, chain: seq<Byte>, p: nat, start: nat, front: seq<Byte>, mid: nat, n: nat,
                  extra: seq<Byte>, end: nat, tail: seq<Byte>): Result<seq<Byte>> {
    if size < 3 + |chain| then Revert("")
    else Patched(Copied(Opened(size, chain), start, front, mid, extra, end, tail), p, n)
  }

  method Fill(size: nat, chainRlp: seq<Byte>, newPrefixLength: nat, start: nat, mid: nat, end: nat,
              cd: seq<Byte>, src: nat, srcLen: nat, extra: nat, newLength: nat, tail: nat)
    returns (r: Result<array<Byte>>)
    ensures Written(r) == Filled(size, chainRlp, newPrefixLength, start, Slice(cd, src, srcLen), mid, newLength,
                                 Slice(cd, extra, newLength), end, Slice(cd, tail, 42))
  {
    var signingData :- OpenSigningData(size, chainRlp);
    CopyRawParts(signingData, start, mid, end, cd, src, srcLen, extra, newLength, tail);
    var ok := PatchExtraLength(signingData, newPrefixLength, newLength);
    return if ok then Ok(signingData) else Revert("");
  }

  /** A buffer of the right size is filled with the signing data of the three pieces. */
  lemma FilledIsSigningData(size: nat, chain: seq<Byte>, p: nat, start: nat, front: seq<Byte>, mid: nat,
                            extra: seq<Byte>, end: nat, tail: seq<Byte>)
    requires |extra| < 0x100_0000 && |tail| == 42 && p == NewPrefixLength(|extra|)
    requires start == 3 + |chain| && mid == start + |front| + p && end == mid + |extra| && size == end + 42
    ensures Filled(size, chain, p, start, front, mid, |extra|, extra, end, tail) ==
      Ok(SigningData(chain, front, extra, tail))
  {
    var left := OuterPrefix(size - 3) + chain;
    CopiedSideBySide(Opened(size, chain), left, p, front, mid, extra, end, tail);
    var copied := Copied(Opened(size, chain), start, front, mid, extra, end, tail);
    PatchClosesGap(copied, |extra|, left + front, extra + tail);
    HeadBytes(|extra|);
    SigningDataIs(size, chain, front, extra, tail);
  }

  /** The buffer filled from the raw ranges: front fields, extra data behind its old prefix, tail. */
  function FilledFrom(cd: seq<Byte>, off: nat, f: RawFields, oldPrefixLength: nat, newLength: nat, size: nat,
                      chain: seq<Byte>): Result<seq<Byte>>
    requires off + 3 <= f.before
  {
    var start, p := 3 + |chain|, NewPrefixLength(newLength);
    var mid := start + (f.before - off - 3) + p;
    Filled(size, chain, p, start, Slice(cd, off + 3, f.before - off - 3), mid, newLength,
           Slice(cd, f.before + oldPrefixLength, newLength), mid + newLength, Slice(cd, f.after, 42))
  }

  /** Allocates and fills the buffer from the chain id and three ranges of the raw bytes. */
  method FillSigningData(cd: seq<Byte>, off: nat, f: RawFields, oldPrefixLength: nat, newPrefixLength: nat,
                         newLength: nat, size: nat, chainRlp: seq<Byte>)
    returns (r: Result<array<Byte>>)
    requires off + 3 <= f.before && newPrefixLength == NewPrefixLength(newLength)
    ensures Written(r) == FilledFrom(cd, off, f, oldPrefixLength, newLength, size, chainRlp)
  {
    var start := 3 + |chainRlp|;
    var mid := start + (f.before - off - 3) + newPrefixLength;
    r := Fill(size, chainRlp, newPrefixLength, start, mid, mid + newLength, cd, off + 3, f.before - off - 3,
              f.before + oldPrefixLength, newLength, f.after);
  }

  /** The bytes in a buffer. */
  function Written(r: Result<array<Byte>>): Result<seq<Byte>>
    reads if r.Ok? then {r.value} else {}
  {
    if r.Ok? then Ok(r.value[..]) else Revert(r.reason)
  }

  /** The buffer has the size that the list's declared length calls for. */
  function SizedFor(cd: seq<Byte>, off: nat, f: RawFields, oldPrefixLength: nat, newLength: nat, declared: nat,
                    chain: seq<Byte>): Result<seq<Byte>>
    requires off + 3 <= f.before
  {
    var size := |chain| + declared - oldPrefixLength + NewPrefixLength(newLength) - EXTRA_SEAL;
    if |chain| + declared < oldPrefixLength || size < 0 then Revert("")
    else FilledFrom(cd, off, f, oldPrefixLength, newLength, size, chain)
  }

  /** The bytes hashed for the fields found in raw bytes: nothing is re-encoded, the bytes between `off`
      and `after` + 42 are reused. */
  function SignedBytes(cd: seq<Byte>, off: nat, f: RawFields, chainId: nat): Result<seq<Byte>>
    requires off + 3 <= f.before <= f.after
  {
    Spliced(cd, off, f, PayloadOffset(cd, f.before), ItemLength(cd, off), UintRlp(chainId))
  }

  function Spliced(cd: seq<Byte>, off: nat, f: RawFields, oldPrefixLength: nat, declared: nat,
                   chain: seq<Byte>): Result<seq<Byte>>
    requires off + 3 <= f.before <= f.after
  {
    if f.after - f.before - oldPrefixLength < EXTRA_SEAL then Revert("")
    else SizedFor(cd, off, f, oldPrefixLength, f.after - f.before - oldPrefixLength - EXTRA_SEAL, declared, chain)
  }

  /** The splice. */
  method SpliceSigningData(cd: seq<Byte>, off: nat, f: RawFields, originalLength: nat, chainId: nat)
    returns (r: Result<array<Byte>>)
    requires off + 3 <= f.before <= f.after && originalLength == ItemLength(cd, off)
    ensures Written(r) == SignedBytes(cd, off, f, chainId)
  {
    var oldPrefixLength := PayloadOffset(cd, f.before);
    var chainBuffer := UintToRlp(chainId);
    r := SpliceParts(cd, off, f, oldPrefixLength, originalLength, chainBuffer[..]);
  }

  /** Computes the lengths and fills a buffer of the size that they call for. */
  method SpliceParts(cd: seq<Byte>, off: nat, f: RawFields, oldPrefixLength: nat, originalLength: nat,
                     chainRlp: seq<Byte>)
    returns (r: Result<array<Byte>>)
    requires off + 3 <= f.before <= f.after
    ensures Written(r) == Spliced(cd, off, f, oldPrefixLength, originalLength, chainRlp)
  {
    if f.after - f.before - oldPrefixLength < EXTRA_SEAL {
      return Revert("");
    }
    var newLength := f.after - f.before - oldPrefixLength - EXTRA_SEAL;
    var newPrefixLength := NewPrefixLength(newLength);
    var size := |chainRlp| + originalLength - oldPrefixLength + newPrefixLength - EXTRA_SEAL;
    if |chainRlp| + originalLength < oldPrefixLength || size < 0 {
      return Revert("");
    }
    r := FillSigningData(cd, off, f, oldPrefixLength, newPrefixLength, newLength, size, chainRlp);
  }

  /** The raw extra data without its prefix and seal; empty when there is no room for a seal. */
  function RawUnsealed(cd: seq<Byte>, f: RawFields): seq<Byte> {
    UnsealedBehind(cd, f, PayloadOffset(cd, f.before))
  }

  function UnsealedBehind(cd: seq<Byte>, f: RawFields, prefixLength: nat): seq<Byte> {
    var n := f.after - f.before - prefixLength - EXTRA_SEAL;
    if n < 0 then [] else Slice(cd, f.before + prefixLength, n)
  }

  /** The extra data between the cursors holds a seal, and the list ends 42 bytes behind it, as it declares. */
  predicate EndsWithTail(off: nat, f: RawFields, prefixLength: nat, declared: nat) {
    off + 3 <= f.before && f.after - f.before - prefixLength >= EXTRA_SEAL && declared == f.after + 42 - off
  }

  /** The signing data of the raw ranges. */
  function RangesSigned(cd: seq<Byte>, off: nat, f: RawFields, chain: seq<Byte>, unsealed: seq<Byte>): seq<Byte>
    requires off + 3 <= f.before
  {
    SigningData(chain, Slice(cd, off + 3, f.before - off - 3), unsealed, Slice(cd, f.after, 42))
  }

  /** Where the list ends as it declares, the signed bytes are the signing data of the raw ranges. */
  lemma SignedBytesAre(cd: seq<Byte>, off: nat, f: RawFields, chainId: nat)
    requires EndsWithTail(off, f, PayloadOffset(cd, f.before), ItemLength(cd, off))
    requires |RawUnsealed(cd, f)| < 0x100_0000
    ensures SignedBytes(cd, off, f, chainId) == Ok(RangesSigned(cd, off, f, UintRlp(chainId), RawUnsealed(cd, f)))
  {
    SplicedIs(cd, off, f, PayloadOffset(cd, f.before), ItemLength(cd, off), UintRlp(chainId), RawUnsealed(cd, f));
  }

  lemma SplicedIs(cd: seq<Byte>, off: nat, f: RawFields, oldPrefixLength: nat, declared: nat, chain: seq<Byte>,
                  unsealed: seq<Byte>)
    requires EndsWithTail(off, f, oldPrefixLength, declared)
    requires unsealed == UnsealedBehind(cd, f, oldPrefixLength) && |unsealed| < 0x100_0000
    ensures Spliced(cd, off, f, oldPrefixLength, declared, chain) == Ok(RangesSigned(cd, off, f, chain, unsealed))
  {
    var start, p := 3 + |chain|, NewPrefixLength(|unsealed|);
    var mid := start + (f.before - off - 3) + p;
    FilledIsSigningData(|chain| + declared - oldPrefixLength + p - EXTRA_SEAL, chain, p, start,
                        Slice(cd, off + 3, f.before - off - 3), mid, unsealed, mid + |unsealed|,
                        Slice(cd, f.after, 42));
  }

  /** The edited bytes are the plain encoding of the relayer for exactly the chain ids below 2^64
      and the headers whose unsealed extra data is not a single byte below 0x80 (such a byte has no
      prefix in RLP, but the contract always writes one). */
  lemma {:induction false} SpliceIsEncoding(h: Header, chainId: nat)
    requires WellSized(h) && |EncodeHeader(h)| <= 65535 && |h.extra| >= EXTRA_SEAL
    requires chainId < Pow256(32)
    ensures SplicedHeader(h, chainId) == EncodeSigHeader(h, chainId) <==>
      chainId < Pow256(8) && !SelfEncoded(Unsealed(h))
  {
    var n := SigLayout(h, chainId);
    if chainId < Pow256(8) && !SelfEncoded(Unsealed(h)) {
      SpliceAgrees(h, chainId, n);
    } else if chainId >= Pow256(8) {
      UintRlpRange(chainId);
      assert EncodeSigHeader(h, chainId)[3] == Encode(Int(chainId))[0];
      assert SplicedHeader(h, chainId)[3] == UintRlp(chainId)[0];
    }
  }

  /** The relayer's encoding: also a three-byte prefix, then the pieces one after the other. */
  lemma {:induction false} SigLayout(h: Header, chainId: nat) returns (n: nat)
    requires WellSized(h) && |EncodeHeader(h)| <= 65535 && |h.extra| >= EXTRA_SEAL
    requires chainId < Pow256(32)
    ensures 256 <= n < 0x1_0000
    ensures EncodeSigHeader(h, chainId) == OuterPrefix(n)
      + (Encode(Int(chainId)) + (EncodeAll(FrontFields(h)) + (Encode(Str(Unsealed(h))) + EncodeAll(TailFields(h)))))
    ensures n == |EncodeSigHeader(h, chainId)| - 3
    ensures 1 <= |Encode(Int(chainId))|
    ensures |Head(0x80, |Unsealed(h)|)| >= 1
  {
    SigIsList(h, chainId);
    SigLength(h, chainId);
    n := PiecesLaidOut(Encode(Int(chainId)), EncodeAll(FrontFields(h)), Encode(Str(Unsealed(h))),
                       EncodeAll(TailFields(h)),
                       EncodeSigHeader(h, chainId));
  }

  lemma {:induction false} PiecesLaidOut(chain: seq<Byte>, front: seq<Byte>, extra: seq<Byte>, tail: seq<Byte>,
                                         all: seq<Byte>)
    returns (n: nat)
    requires 256 <= |chain| + |front| + |extra| + |tail| < 0x1_0000
    requires var body := chain + (front + (extra + tail)); all == Head(0xc0, |body|) + body
    ensures 256 <= n < 0x1_0000 && n == |all| - 3 && all == OuterPrefix(n) + (chain + (front + (extra + tail)))
  {
    n := |chain + (front + (extra + tail))|;
    TwoByteLength(0xc0, n);
  }

  lemma {:induction false} SigIsList(h: Header, chainId: nat)
    requires |h.extra| >= EXTRA_SEAL
    ensures var body := Encode(Int(chainId)) +
      (EncodeAll(FrontFields(h)) + (Encode(Str(Unsealed(h))) + EncodeAll(TailFields(h))));
      EncodeSigHeader(h, chainId) == Head(0xc0, |body|) + body
  {
    SigBodyPieces(Int(chainId), FrontFields(h), Str(Unsealed(h)), TailFields(h));
  }

  lemma {:induction false} SigLength(h: Header, chainId: nat)
    requires WellSized(h) && |EncodeHeader(h)| <= 65535 && |h.extra| >= EXTRA_SEAL
    requires chainId < Pow256(32)
    ensures 1 <= |Encode(Int(chainId))|
    ensures 1 <= |Head(0x80, |Unsealed(h)|)|
    ensures 256 <= |Encode(Int(chainId))| + |EncodeAll(FrontFields(h))| + |Encode(Str(Unsealed(h)))| +
      |EncodeAll(TailFields(h))| < 0x1_0000
  {
    HeaderLayout(h);
    HeadBytes(|Unsealed(h)|);
    Pow256Values();
    MinBELength(chainId, 32);
    assert 1 <= |Encode(Int(chainId))| <= 33;
    assert |Encode(Str(Unsealed(h)))| <= 4 + |Unsealed(h)|;
  }

  lemma SpliceAgrees(h: Header, chainId: nat, n: nat)
    requires WellSized(h) && |h.extra| >= EXTRA_SEAL
    requires chainId < Pow256(8) && !SelfEncoded(Unsealed(h))
    requires n == |Encode(Int(chainId)) +
      (EncodeAll(FrontFields(h)) + (Encode(Str(Unsealed(h))) + EncodeAll(TailFields(h))))|
    ensures SplicedHeader(h, chainId) == OuterPrefix(n)
      + (Encode(Int(chainId)) + (EncodeAll(FrontFields(h)) + (Encode(Str(Unsealed(h))) + EncodeAll(TailFields(h)))))
  {
    SigningDataIs(3 + n, Encode(Int(chainId)), EncodeAll(FrontFields(h)), Unsealed(h), EncodeAll(TailFields(h)));
    Reassociate(OuterPrefix(n), Encode(Int(chainId)), EncodeAll(FrontFields(h)),
                Head(0x80, |Unsealed(h)|), Unsealed(h), EncodeAll(TailFields(h)));
  }

  lemma Reassociate(a: seq<Byte>, b: seq<Byte>, c: seq<Byte>, d: seq<Byte>, e: seq<Byte>, f: seq<Byte>)
    ensures a + b + c + (d + (e + f)) == a + (b + (c + ((d + e) + f)))
  {
    assert (d + e) + f == d + (e + f);
    assert a + b + c + (d + (e + f)) == a + (b + (c + (d + (e + f))));
  }

  // ---------- the parser ----------

  /** Signed bytes and seal. */
  function RawSigned(cd: seq<Byte>, off: nat, f: RawFields, chainId: nat): (r: Result<(seq<Byte>, seq<Byte>)>)
    requires off + 3 <= f.before <= f.after
    ensures r.Ok? ==> |r.value.1| == EXTRA_SEAL
  {
    WithSeal(cd, f.after, SignedBytes(cd, off, f, chainId))
  }

  /** With the 65 bytes in front of `after`. */
  function WithSeal(cd: seq<Byte>, after: nat, signed: Result<seq<Byte>>): (r: Result<(seq<Byte>, seq<Byte>)>)
    ensures r.Ok? ==> |r.value.1| == EXTRA_SEAL
  {
    var data :- signed;
    if after < EXTRA_SEAL then Revert("") else Ok((data, Slice(cd, after - EXTRA_SEAL, EXTRA_SEAL)))
  }

  function SealerFromParts(c: Crypto, number: nat, coinbase: Address,
                           signed: Result<(seq<Byte>, seq<Byte>)>): Result<Address>
    requires signed.Ok? ==> |signed.value.1| == EXTRA_SEAL
  {
    var parts :- signed;
    Sealer(c, number, coinbase, parts.0, parts.1)
  }

  /** The number of validators read from the raw extra data. */
  function RawCount(cd: seq<Byte>, f: RawFields): int {
    (f.after - f.before + PayloadOffset(cd, f.before) - EXTRA_SEAL - EXTRA_VANITY) / 20
  }

  /** The validators of the raw extra data of an epoch block. */
  function RawValidators(cd: seq<Byte>, f: RawFields, epochLength: nat): Result<seq<Address>> {
    if epochLength == 0 then Revert("")
    else if f.number % epochLength != 0 then Ok([])
    else if f.after - f.before + PayloadOffset(cd, f.before) < EXTRA_SEAL + EXTRA_VANITY then Revert("")
    else Ok(AddressesAt(cd, f.before + PayloadOffset(cd, f.before) + EXTRA_VANITY, RawCount(cd, f)))
  }

  /** Addresses of 20 bytes, one behind the other. */
  function AddressesAt(cd: seq<Byte>, first: nat, count: nat): (r: seq<Address>)
    ensures |r| == count && forall i :: 0 <= i < count ==> r[i] == ReadBE(cd, first + 20 * i, 20)
  {
    seq(count, i requires 0 <= i => ReadBE(cd, first + 20 * i, 20))
  }

  /** The header put together from its parts. */
  function Assembled(hash: Word, f: RawFields, sealer: Result<Address>,
                     validators: Result<seq<Address>>): Result<ParsedHeader> {
    var a :- sealer;
    var list :- validators;
    Ok(ParsedHeader(BlockHeader(hash, f.parentHash, f.number, a, f.receiptsRoot, f.txsRoot, f.stateRoot), list))
  }

  /** The outcome of parsing and verifying arbitrary raw bytes. */
  function VerifiedRaw(c: Crypto, cd: seq<Byte>, off: nat, len: nat, chainId: nat,
                       epochLength: nat): Result<ParsedHeader>
    requires off + len <= |cd|
  {
    if len > 65535 then Revert("")
    else
      var f :- WalkedFields(cd, off + PayloadOffset(cd, off));
      Assembled(c.keccak(cd[off..off + len]), f,
                SealerFromParts(c, f.number, f.coinbase, RawSigned(cd, off, f, chainId)),
                RawValidators(cd, f, epochLength))
  }

  /** Reads `count` addresses of 20 bytes each. */
  method ExtractValidators(cd: seq<Byte>, first: nat, count: nat) returns (validators: seq<Address>)
    ensures validators == AddressesAt(cd, first, count)
  {
    var newValidatorSet := new Address[count];
    for i := 0 to count
      invariant forall j :: 0 <= j < i ==> newValidatorSet[j] == ReadBE(cd, first + 20 * j, 20)
    {
      LoadTopIsRead(cd, first + 20 * i, 20);
      newValidatorSet[i] := LoadTop(cd, first + 20 * i, 20);
    }
    return newValidatorSet[..];
  }

  method ReadEpochValidators(cd: seq<Byte>, f: RawFields, epochLength: nat) returns (r: Result<seq<Address>>)
    requires f.before <= f.after
    ensures r == RawValidators(cd, f, epochLength)
  {
    if epochLength == 0 {
      return Revert("");
    }
    if f.number % epochLength != 0 {
      return Ok([]);
    }
    var oldPrefixLength := PayloadOffset(cd, f.before);
    if f.after - f.before + oldPrefixLength < EXTRA_SEAL + EXTRA_VANITY {
      return Revert("");
    }
    var totalValidators := (f.after - f.before + oldPrefixLength - EXTRA_SEAL - EXTRA_VANITY) / 20;
    var validators := ExtractValidators(cd, f.before + oldPrefixLength + EXTRA_VANITY, totalValidators);
    return Ok(validators);
  }

  /** The sealer of the fields found and the signed data. */
  method RecoverSealer(c: Crypto, cd: seq<Byte>, off: nat, originalLength: nat, chainId: nat, f: RawFields)
    returns (r: Result<Address>)
    requires off + 3 <= f.before <= f.after && originalLength == ItemLength(cd, off)
    ensures r == SealerFromParts(c, f.number, f.coinbase, RawSigned(cd, off, f, chainId))
  {
    var spliced := SpliceSigningData(cd, off, f, originalLength, chainId);
    r := SealerFromParts(c, f.number, f.coinbase, WithSeal(cd, f.after, Written(spliced)));
  }

  /** The parser, on arbitrary raw bytes. For every canonical header, wherever it lies in the calldata, it returns or
      reverts as `VerifiedHeader` says. */
  method ParseAndVerifyPoSaBlockHeader(c: Crypto, cd: seq<Byte>, off: nat, len: nat, chainId: nat, epochLength: nat)
    returns (r: Result<ParsedHeader>)
    requires off + len <= |cd|
    ensures r == VerifiedRaw(c, cd, off, len, chainId, epochLength)
    ensures len > 65535 ==> r == Revert("")
    ensures r.Ok? ==> r.value.header.blockHash == c.keccak(cd[off..off + len])
    ensures forall h :: IsRawHeader(cd, off, len, h) ==> r == VerifiedHeader(c, h, chainId, epochLength)
  {
    forall h | IsRawHeader(cd, off, len, h)
      ensures VerifiedRaw(c, cd, off, len, chainId, epochLength) == VerifiedHeader(c, h, chainId, epochLength)
    {
      RawIsHeader(c, cd, off, len, chainId, epochLength, h);
    }
    if len > 65535 {
      return Revert("");
    }
    var originalLength := ItemLength(cd, off);
    var f :- ReadFields(cd, off + PayloadOffset(cd, off));
    var sealer := RecoverSealer(c, cd, off, originalLength, chainId, f);
    if sealer.Revert? {
      return Revert(sealer.reason);
    }
    var validators := ReadEpochValidators(cd, f, epochLength);
    r := Assembled(c.keccak(cd[off..off + len]), f, sealer, validators);
  }

  // ---------- canonical headers ----------

  /** The calldata slice [off, off + len) is the encoding of h. */
  ghost predicate IsRawHeader(cd: seq<Byte>, off: nat, len: nat, h: Header) {
    WellSized(h) && len == |EncodeHeader(h)| <= 65535 && Holds(cd, off, EncodeHeader(h))
  }

  lemma WalkStarts(cd: seq<Byte>, off: nat, len: nat, h: Header)
    requires IsRawHeader(cd, off, len, h)
    ensures PayloadOffset(cd, off) == 3 && ItemLength(cd, off) == len
    ensures ListsFields(HeaderFields(h), h)
    ensures AtField(cd, off + 3, HeaderFields(h), 0, off + 3)
  {
    HeaderLayout(h);
    BodyPieces(FrontFields(h), Str(h.extra), TailFields(h));
    Pow256Values();
    ReadsBack(cd, off, List(HeaderFields(h)));
    OffsetEnds(HeaderFields(h));
  }

  /** Where the area holds the front fields, the extra data and the tail. */
  lemma PartsOfBody(cd: seq<Byte>, p: nat, front: seq<Byte>, extra: seq<Byte>, tail: seq<Byte>)
    requires Holds(cd, p, front + (Encode(Str(extra)) + tail))
    requires |Encode(Str(extra))| < Pow256(8)
    ensures Slice(cd, p, |front|) == front
    ensures PayloadOffset(cd, p + |front|) == |ItemHead(Str(extra))|
    ensures |Encode(Str(extra))| == |ItemHead(Str(extra))| + |extra|
    ensures Holds(cd, p + |front| + |ItemHead(Str(extra))|, extra)
    ensures Slice(cd, p + |front| + |Encode(Str(extra))|, |tail|) == tail
  {
    PiecesHeld(cd, p, front, Encode(Str(extra)), tail);
    ReadsBack(cd, p + |front|, Str(extra));
  }

  /** The two cursors around an item of a list body. */
  lemma {:induction false} BoundsOfItem(cd: seq<Byte>, p: nat, front: seq<Item>, x: Item, tail: seq<Item>,
                                        before: nat, after: nat)
    requires AtField(cd, p, front + ([x] + tail), |front|, before)
    requires AtField(cd, p, front + ([x] + tail), |front| + 1, after)
    ensures before == p + |EncodeAll(front)| && after == before + |Encode(x)|
    ensures Holds(cd, p, EncodeAll(front) + (Encode(x) + EncodeAll(tail)))
    ensures Holds(cd, before, Encode(x)) && |Encode(x)| < Pow256(8)
  {
    var xs := front + ([x] + tail);
    assert xs[..|front|] == front && xs[|front|] == x;
    ItemAt(cd, p, xs, |front|);
    BodyPieces(front, x, tail);
  }

  lemma PiecesHeld(cd: seq<Byte>, p: nat, a: seq<Byte>, b: seq<Byte>, c: seq<Byte>)
    requires Holds(cd, p, a + (b + c))
    ensures Slice(cd, p, |a|) == a && Slice(cd, p + |a| + |b|, |c|) == c && Holds(cd, p + |a|, b)
  {
    HoldsSplit(cd, p, a, b + c);
    HoldsSplit(cd, p + |a|, b, c);
  }

  lemma LongStringHead(s: seq<Byte>)
    requires 56 <= |s| < 0x100_0000
    ensures |ItemHead(Str(s))| == 1 + UintRlpPrefixLength(|s|)
  {
    HeadBytes(|s|);
  }

  /** Unsealed extra data and seal inside the area. */
  lemma SealedParts(cd: seq<Byte>, e: nat, extra: seq<Byte>)
    requires Holds(cd, e, extra) && |extra| >= EXTRA_SEAL
    ensures Slice(cd, e, |extra| - EXTRA_SEAL) == extra[..|extra| - EXTRA_SEAL]
    ensures Slice(cd, e + |extra| - EXTRA_SEAL, EXTRA_SEAL) == extra[|extra| - EXTRA_SEAL..]
  {
    var n := |extra| - EXTRA_SEAL;
    SubSlice(cd, e, extra, 0, n);
    SubSlice(cd, e, extra, n, EXTRA_SEAL);
  }

  lemma ValidatorsOfExtra(cd: seq<Byte>, e: nat, extra: seq<Byte>, vs: seq<Address>)
    requires Holds(cd, e, extra) && EXTRA_VANITY + 20 * |vs| <= |extra|
    requires forall i :: 0 <= i < |vs| ==> vs[i] == ReadBE(cd, e + EXTRA_VANITY + 20 * i, 20)
    ensures vs == ListedValidators(extra, |vs|)
  {
    forall i | 0 <= i < |vs|
      ensures vs[i] == ListedValidators(extra, |vs|)[i]
    {
      var k := EXTRA_VANITY + 20 * i;
      SubSlice(cd, e, extra, k, 20);
    }
  }

  /** The walk has cut the raw header of h correctly: number and coinbase are read, the extra data
      lies between the two cursors, the front fields before it and the tail behind it. */
  ghost predicate CutOut(cd: seq<Byte>, off: nat, len: nat, h: Header, f: RawFields) {
    && f.number == h.number % Pow256(8) && f.coinbase == BE(h.coinbase)
    && off + 3 <= f.before <= f.after && len == f.after + 42 - off
    && f.after - f.before - PayloadOffset(cd, f.before) == |h.extra| < 0x1_0000
    && Slice(cd, off + 3, f.before - off - 3) == EncodeAll(FrontFields(h))
    && Slice(cd, f.after, 42) == EncodeAll(TailFields(h))
    && Holds(cd, f.before + PayloadOffset(cd, f.before), h.extra)
    && (|h.extra| >= 56 ==> PayloadOffset(cd, f.before) == 1 + UintRlpPrefixLength(|h.extra|))
  }

  lemma CursorsCut(cd: seq<Byte>, off: nat, len: nat, h: Header, f: RawFields)
    requires IsRawHeader(cd, off, len, h)
    requires f.number == h.number % Pow256(8) && f.coinbase == BE(h.coinbase)
    requires AtField(cd, off + 3, HeaderFields(h), 12, f.before) && AtField(cd, off + 3, HeaderFields(h), 13, f.after)
    ensures CutOut(cd, off, len, h, f)
  {
    BoundsOfItem(cd, off + 3, FrontFields(h), Str(h.extra), TailFields(h), f.before, f.after);
    BodyHeld(cd, off, len, h);
    BoundsCut(cd, off, len, h, f);
  }

  lemma BoundsCut(cd: seq<Byte>, off: nat, len: nat, h: Header, f: RawFields)
    requires f.number == h.number % Pow256(8) && f.coinbase == BE(h.coinbase)
    requires f.before == off + 3 + |EncodeAll(FrontFields(h))| && f.after == f.before + |Encode(Str(h.extra))|
    requires Holds(cd, off + 3, EncodeAll(FrontFields(h)) + (Encode(Str(h.extra)) + EncodeAll(TailFields(h))))
    requires |EncodeAll(TailFields(h))| == 42
    requires len == 3 + |EncodeAll(FrontFields(h))| + |Encode(Str(h.extra))| + 42
    requires |h.extra| <= |Encode(Str(h.extra))| < 0x1_0000 < Pow256(8)
    ensures CutOut(cd, off, len, h, f)
  {
    var front, tail := EncodeAll(FrontFields(h)), EncodeAll(TailFields(h));
    PartsOfBody(cd, off + 3, front, h.extra, tail);
    if |h.extra| >= 56 {
      LongStringHead(h.extra);
    }
    assert f.before - off - 3 == |front|;
  }

  lemma BodyHeld(cd: seq<Byte>, off: nat, len: nat, h: Header)
    requires IsRawHeader(cd, off, len, h)
    ensures Holds(cd, off + 3, EncodeAll(FrontFields(h)) + (Encode(Str(h.extra)) + EncodeAll(TailFields(h))))
    ensures |EncodeAll(TailFields(h))| == 42
    ensures len == 3 + |EncodeAll(FrontFields(h))| + |Encode(Str(h.extra))| + 42
    ensures |h.extra| <= |Encode(Str(h.extra))| < 0x1_0000 < Pow256(8)
  {
    HeaderLayout(h);
    Pow256Values();
    var body := EncodeAll(FrontFields(h)) + (Encode(Str(h.extra)) + EncodeAll(TailFields(h)));
    HoldsSplit(cd, off, Head(0xc0, |body|), body);
  }

  /** What the signed parts of a header are. */
  ghost predicate SignedPartsOf(r: Result<(seq<Byte>, seq<Byte>)>, h: Header, chainId: nat) {
    if |h.extra| < EXTRA_SEAL then r == Revert("")
    else r == Ok((SplicedHeader(h, chainId), h.extra[|h.extra| - EXTRA_SEAL..]))
  }

  /** For a canonical header the signed data is the spliced header. */
  lemma HeaderIsSigned(cd: seq<Byte>, off: nat, len: nat, h: Header, chainId: nat, f: RawFields)
    requires CutOut(cd, off, len, h, f) && len == ItemLength(cd, off)
    ensures SignedPartsOf(RawSigned(cd, off, f, chainId), h, chainId)
  {
    PiecesAreSigned(cd, off, len, h, chainId, f, PayloadOffset(cd, f.before));
  }

  lemma PiecesAreSigned(cd: seq<Byte>, off: nat, len: nat, h: Header, chainId: nat, f: RawFields, prefixLength: nat)
    requires off + 3 <= f.before <= f.after && len == f.after + 42 - off
    requires f.after - f.before - prefixLength == |h.extra| < 0x1_0000
    requires Slice(cd, off + 3, f.before - off - 3) == EncodeAll(FrontFields(h))
    requires Slice(cd, f.after, 42) == EncodeAll(TailFields(h))
    requires Holds(cd, f.before + prefixLength, h.extra)
    ensures SignedPartsOf(WithSeal(cd, f.after, Spliced(cd, off, f, prefixLength, len, UintRlp(chainId))), h, chainId)
  {
    if |h.extra| >= EXTRA_SEAL {
      PartsOfExtra(cd, f, prefixLength, h.extra);
      SplicedIs(cd, off, f, prefixLength, len, UintRlp(chainId), Unsealed(h));
      RangesAreHeader(cd, off, h, chainId, f);
    }
  }

  lemma RangesAreHeader(cd: seq<Byte>, off: nat, h: Header, chainId: nat, f: RawFields)
    requires off + 3 <= f.before && |h.extra| >= EXTRA_SEAL
    requires Slice(cd, off + 3, f.before - off - 3) == EncodeAll(FrontFields(h))
    requires Slice(cd, f.after, 42) == EncodeAll(TailFields(h))
    ensures RangesSigned(cd, off, f, UintRlp(chainId), Unsealed(h)) == SplicedHeader(h, chainId)
  {
  }

  lemma PartsOfExtra(cd: seq<Byte>, f: RawFields, prefixLength: nat, extra: seq<Byte>)
    requires f.after == f.before + prefixLength + |extra| && |extra| >= EXTRA_SEAL
    requires Holds(cd, f.before + prefixLength, extra)
    ensures UnsealedBehind(cd, f, prefixLength) == extra[..|extra| - EXTRA_SEAL]
    ensures Slice(cd, f.after - EXTRA_SEAL, EXTRA_SEAL) == extra[|extra| - EXTRA_SEAL..]
  {
    SealedParts(cd, f.before + prefixLength, extra);
  }

  lemma {:induction false} HeaderIsSealed(c: Crypto, h: Header, chainId: nat, signed: Result<(seq<Byte>, seq<Byte>)>)
    requires SignedPartsOf(signed, h, chainId) && (signed.Ok? ==> |signed.value.1| == EXTRA_SEAL)
    ensures SealerFromParts(c, h.number % Pow256(8), BE(h.coinbase), signed) == SealerOf(c, h, chainId)
  {
  }

  /** And the validators are those it lists. */
  lemma HeaderLists(cd: seq<Byte>, off: nat, len: nat, h: Header, epochLength: nat, f: RawFields)
    requires CutOut(cd, off, len, h, f) && |h.extra| >= EXTRA_SEAL
    ensures RawValidators(cd, f, epochLength) == EpochValidators(h, epochLength)
  {
    var r := RawValidators(cd, f, epochLength);
    if r.Ok? && f.number % epochLength == 0 {
      assert RawCount(cd, f) == ContractCount(|h.extra|);
      ValidatorsOfExtra(cd, f.before + PayloadOffset(cd, f.before), h.extra, r.value);
    }
  }

  lemma {:induction false} AssembledIsVerified(c: Crypto, h: Header, chainId: nat, epochLength: nat, f: RawFields,
                                               validators: Result<seq<Address>>)
    requires FieldsOf(Ok(f), h)
    requires |h.extra| >= EXTRA_SEAL ==> validators == EpochValidators(h, epochLength)
    ensures Assembled(c.keccak(EncodeHeader(h)), f, SealerOf(c, h, chainId), validators) ==
      VerifiedHeader(c, h, chainId, epochLength)
  {
  }

  /** The outcome on raw bytes is the specification on header fields. */
  lemma {:induction false} RawIsHeader(c: Crypto, cd: seq<Byte>, off: nat, len: nat, chainId: nat, epochLength: nat,
                                       h: Header)
    requires off + len <= |cd| && IsRawHeader(cd, off, len, h)
    ensures VerifiedRaw(c, cd, off, len, chainId, epochLength) == VerifiedHeader(c, h, chainId, epochLength)
  {
    WalkStarts(cd, off, len, h);
    WalkFindsFields(cd, off + 3, h, HeaderFields(h));
    RawBytes(cd, off, len, h);
    if WalkedFields(cd, off + 3).Ok? {
      FoundIsHeader(c, cd, off, len, chainId, epochLength, h, WalkedFields(cd, off + 3).value);
    }
  }

  lemma {:induction false} FoundIsHeader(c: Crypto, cd: seq<Byte>, off: nat, len: nat, chainId: nat, epochLength: nat,
                                         h: Header, f: RawFields)
    requires IsRawHeader(cd, off, len, h) && ItemLength(cd, off) == len && FieldsOf(Ok(f), h)
    requires AtField(cd, off + 3, HeaderFields(h), 12, f.before) && AtField(cd, off + 3, HeaderFields(h), 13, f.after)
    ensures off + 3 <= f.before <= f.after
    ensures Assembled(c.keccak(EncodeHeader(h)), f,
                      SealerFromParts(c, f.number, f.coinbase, RawSigned(cd, off, f, chainId)),
                      RawValidators(cd, f, epochLength)) == VerifiedHeader(c, h, chainId, epochLength)
  {
    CursorsCut(cd, off, len, h, f);
    HeaderIsSigned(cd, off, len, h, chainId, f);
    HeaderIsSealed(c, h, chainId, RawSigned(cd, off, f, chainId));
    if |h.extra| >= EXTRA_SEAL {
      HeaderLists(cd, off, len, h, epochLength, f);
    }
    AssembledIsVerified(c, h, chainId, epochLength, f, RawValidators(cd, f, epochLength));
  }

  lemma {:induction false} RawBytes(cd: seq<Byte>, off: nat, len: nat, h: Header)
    requires off + len <= |cd| && IsRawHeader(cd, off, len, h)
    ensures cd[off..off + len] == EncodeHeader(h)
  {
  }
}
