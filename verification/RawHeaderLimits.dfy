/** A list that declares too few bytes: its signed data leaves fields out. */
module RawHeaderLimits {
  import opened Bytes
  import opened Rlp
  import opened RlpIntegers
  import opened RlpCursor
  import opened Memory
  import opened Header
  import opened HeaderWalk
  import opened PoSaBlockVerifier
  import opened Wrappers

  /** The length declared, and the bytes in front of the receipts root. */
  const DECLARED := 200
  const BEFORE_ROOT := 153

  /** The fields of the header behind a prefix that declares 200 bytes. */
  function Understated(h: Header): seq<Byte> {
    OuterPrefix(DECLARED) + EncodeAll(HeaderFields(h))
  }

  lemma PrefixReads(cd: seq<Byte>)
    requires |cd| >= 3 && cd[..3] == OuterPrefix(DECLARED)
    ensures PayloadOffset(cd, 0) == 3 && ItemLength(cd, 0) == DECLARED + 3
  {
    Pow256Values();
    assert cd[0] == 0xf9 && cd[1] == 0 && cd[2] == 200;
    LoadTopIsRead(cd, 1, 2);
    ReadBEStep(cd, 1, 2);
    ReadBEStep(cd, 1, 1);
    assert ReadBE(cd, 1, 0) == 0;
  }

  lemma BodyIsThere(h: Header)
    requires WellSized(h) && |EncodeHeader(h)| <= 65535
    ensures AtField(Understated(h), 3, HeaderFields(h), 0, 3) && ListsFields(HeaderFields(h), h)
    ensures Understated(h)[..3] == OuterPrefix(DECLARED)
  {
    var data := EncodeHeader(h);
    assert Holds(data, 0, data);
    WalkStarts(data, 0, |data|, h);
    OffsetEnds(HeaderFields(h));
    assert Understated(h)[3..] == EncodeAll(HeaderFields(h));
  }

  /** The walk does not look at the declared length. */
  lemma FieldsAreFound(h: Header) returns (f: RawFields)
    requires WellSized(h) && |EncodeHeader(h)| <= 65535 && h.number < Pow256(32)
    ensures WalkedFields(Understated(h), 3) == Ok(f) && FieldsOf(Ok(f), h)
    ensures AtField(Understated(h), 3, HeaderFields(h), 12, f.before)
    ensures AtField(Understated(h), 3, HeaderFields(h), 13, f.after)
  {
    BodyIsThere(h);
    WalkFindsFields(Understated(h), 3, h, HeaderFields(h));
    f := WalkedFields(Understated(h), 3).value;
  }

  // ---------- the front fields up to the receipts root ----------

  lemma FiveFields(a: seq<Byte>, b: seq<Byte>, c: seq<Byte>, d: seq<Byte>, e: seq<Byte>)
    requires |a| == 32 && |b| == 32 && |c| == 20 && |d| == 32 && |e| == 32
    ensures |EncodeAll([Str(a), Str(b), Str(c), Str(d), Str(e)])| == BEFORE_ROOT
  {
    EncodeAllOne(Str(a));
    EncodeAllOne(Str(b));
    EncodeAllOne(Str(c));
    EncodeAllOne(Str(d));
    EncodeAllOne(Str(e));
    EncodeAllConcat([Str(a)], [Str(b)]);
    EncodeAllConcat([Str(a)] + [Str(b)], [Str(c)]);
    EncodeAllConcat([Str(a)] + [Str(b)] + [Str(c)], [Str(d)]);
    EncodeAllConcat([Str(a)] + [Str(b)] + [Str(c)] + [Str(d)], [Str(e)]);
    assert [Str(a), Str(b), Str(c), Str(d), Str(e)] == [Str(a)] + [Str(b)] + [Str(c)] + [Str(d)] + [Str(e)];
  }

  /** The encoded fields in front of the receipts root. */
  function BeforeRoot(h: Header): seq<Byte> {
    EncodeAll([Str(h.parentHash), Str(h.uncleHash), Str(h.coinbase), Str(h.root), Str(h.txHash)])
  }

  lemma FrontBegins(h: Header)
    requires WellSized(h)
    ensures |BeforeRoot(h)| == BEFORE_ROOT && BeforeRoot(h) <= EncodeAll(FrontFields(h))
  {
    var xs := FrontFields(h);
    assert xs == xs[..5] + xs[5..];
    EncodeAllConcat(xs[..5], xs[5..]);
    assert xs[..5] == [Str(h.parentHash), Str(h.uncleHash), Str(h.coinbase), Str(h.root), Str(h.txHash)];
    FiveFields(h.parentHash, h.uncleHash, h.coinbase, h.root, h.txHash);
  }

  lemma SameBeforeRoot(h: Header, h': Header)
    requires h' == h.(receiptHash := h'.receiptHash)
    ensures BeforeRoot(h) == BeforeRoot(h')
  {
  }

  // ---------- the buffer ends in front of the root ----------

  lemma ClippedAlike(s: seq<Byte>, at: nat, t: seq<Byte>, u: seq<Byte>, common: seq<Byte>)
    requires common <= t && common <= u && |s| <= at + |common|
    ensures Clipped(s, at, t) == Clipped(s, at, u)
  {
  }

  lemma NothingCopied(s: seq<Byte>, mid: nat, extra: seq<Byte>, end: nat, tail: seq<Byte>)
    requires |s| <= mid <= end
    ensures Clipped(Clipped(s, mid, extra), end, tail) == s
  {
  }

  /** In a buffer that ends inside the common part of the front fields nothing else shows. */
  lemma FilledAlike(size: nat, chain: seq<Byte>, p: nat, start: nat, n: nat, front: seq<Byte>, mid: nat,
                    extra: seq<Byte>, end: nat, tail: seq<Byte>, front': seq<Byte>, mid': nat, extra': seq<Byte>,
                    end': nat, tail': seq<Byte>, common: seq<Byte>)
    requires common <= front && common <= front' && size <= start + |common|
    requires size <= mid <= end && size <= mid' <= end'
    ensures Filled(size, chain, p, start, front, mid, n, extra, end, tail) ==
      Filled(size, chain, p, start, front', mid', n, extra', end', tail')
  {
    if size >= 3 + |chain| {
      var s := Opened(size, chain);
      ClippedAlike(s, start, front, front', common);
      NothingCopied(Clipped(s, start, front), mid, extra, end, tail);
      NothingCopied(Clipped(s, start, front'), mid', extra', end', tail');
    }
  }

  // ---------- two headers with the same signed data ----------

  /** The walk over raw bytes that declare 200 bytes has found the header's fields, and the 97 bytes of extra data,
      vanity and seal, behind the front fields. */
  ghost predicate Found(cd: seq<Byte>, f: RawFields, front: seq<Byte>, seal: seq<Byte>) {
    && PayloadOffset(cd, 0) == 3 && ItemLength(cd, 0) == DECLARED + 3 && |front| >= 256
    && f.before == 3 + |front| && f.after == f.before + 2 + EXTRA_VANITY + EXTRA_SEAL
    && PayloadOffset(cd, f.before) == 2 && Slice(cd, 3, |front|) == front
    && Slice(cd, f.after - EXTRA_SEAL, EXTRA_SEAL) == seal
  }

  lemma ExtraIsThere(cd: seq<Byte>, front: seq<Byte>, extra: seq<Byte>, tail: seq<Byte>, f: RawFields)
    requires |cd| >= 3 && cd[..3] == OuterPrefix(DECLARED)
    requires |extra| == EXTRA_VANITY + EXTRA_SEAL && |front| >= 256
    requires f.before == 3 + |front| && f.after == f.before + |Encode(Str(extra))|
    requires Holds(cd, 3, front + (Encode(Str(extra)) + tail)) && |Encode(Str(extra))| < Pow256(8)
    ensures Found(cd, f, front, extra[EXTRA_VANITY..])
  {
    PrefixReads(cd);
    HeadBytes(|extra|);
    PartsOfBody(cd, 3, front, extra, tail);
    SealedParts(cd, f.before + 2, extra);
  }

  lemma HeaderIsFound(h: Header) returns (f: RawFields, front: seq<Byte>)
    requires WellSized(h) && |EncodeHeader(h)| <= 65535 && |h.extra| == EXTRA_VANITY + EXTRA_SEAL
    requires h.number < Pow256(32)
    ensures WalkedFields(Understated(h), 3) == Ok(f) && FieldsOf(Ok(f), h)
    ensures Found(Understated(h), f, front, h.extra[EXTRA_VANITY..])
    ensures |BeforeRoot(h)| == BEFORE_ROOT && BeforeRoot(h) <= front
  {
    f := FieldsAreFound(h);
    front := ExtraIsFound(h, f);
  }

  lemma ExtraIsFound(h: Header, f: RawFields) returns (front: seq<Byte>)
    requires WellSized(h) && |EncodeHeader(h)| <= 65535 && |h.extra| == EXTRA_VANITY + EXTRA_SEAL
    requires AtField(Understated(h), 3, HeaderFields(h), 12, f.before)
    requires AtField(Understated(h), 3, HeaderFields(h), 13, f.after)
    ensures Found(Understated(h), f, front, h.extra[EXTRA_VANITY..])
    ensures |BeforeRoot(h)| == BEFORE_ROOT && BeforeRoot(h) <= front
  {
    front := EncodeAll(FrontFields(h));
    BodyIsThere(h);
    FrontLength(h);
    FrontBegins(h);
    ExtraLies(Understated(h), h, f);
    ExtraIsThere(Understated(h), front, h.extra, EncodeAll(TailFields(h)), f);
  }

  lemma ExtraLies(cd: seq<Byte>, h: Header, f: RawFields)
    requires AtField(cd, 3, HeaderFields(h), 12, f.before) && AtField(cd, 3, HeaderFields(h), 13, f.after)
    ensures f.before == 3 + |EncodeAll(FrontFields(h))| && f.after == f.before + |Encode(Str(h.extra))|
    ensures Holds(cd, 3, EncodeAll(FrontFields(h)) + (Encode(Str(h.extra)) + EncodeAll(TailFields(h))))
    ensures |Encode(Str(h.extra))| < Pow256(8)
  {
    BoundsOfItem(cd, 3, FrontFields(h), Str(h.extra), TailFields(h), f.before, f.after);
  }

  /** The buffer for the signed data, which is too small for the front fields. */
  lemma BufferIsSmall(cd: seq<Byte>, f: RawFields, front: seq<Byte>, seal: seq<Byte>, chain: seq<Byte>, size: nat,
                      start: nat)
    returns (mid: nat, extra: seq<Byte>, end: nat, tail: seq<Byte>)
    requires Found(cd, f, front, seal) && size == |chain| + 137 && start == 3 + |chain|
    ensures size <= mid <= end
    ensures Spliced(cd, 0, f, 2, DECLARED + 3, chain) ==
      Filled(size, chain, 1, start, front, mid, 32, extra, end, tail)
  {
    mid := start + (f.before - 3) + 1;
    extra, end, tail := Slice(cd, f.before + 2, 32), mid + 32, Slice(cd, f.after, 42);
    assert Spliced(cd, 0, f, 2, DECLARED + 3, chain) == SizedFor(cd, 0, f, 2, 32, DECLARED + 3, chain);
    assert SizedFor(cd, 0, f, 2, 32, DECLARED + 3, chain) == FilledFrom(cd, 0, f, 2, 32, size, chain);
  }

  /** The buffer is filled. */
  lemma BufferSuffices(size: nat, chain: seq<Byte>, start: nat, front: seq<Byte>, mid: nat, extra: seq<Byte>,
                       end: nat, tail: seq<Byte>)
    requires size == |chain| + 137
    ensures Filled(size, chain, 1, start, front, mid, 32, extra, end, tail).Ok?
  {
  }

  lemma SmallBuffersAgree(cd: seq<Byte>, f: RawFields, front: seq<Byte>, cd': seq<Byte>, f': RawFields,
                          front': seq<Byte>, seal: seq<Byte>, chain: seq<Byte>, common: seq<Byte>)
    requires Found(cd, f, front, seal) && Found(cd', f', front', seal)
    requires common <= front && common <= front' && |common| == BEFORE_ROOT
    ensures Spliced(cd, 0, f, 2, DECLARED + 3, chain).Ok?
    ensures Spliced(cd, 0, f, 2, DECLARED + 3, chain) == Spliced(cd', 0, f', 2, DECLARED + 3, chain)
  {
    var size, start := |chain| + 137, 3 + |chain|;
    var mid, extra, end, tail := BufferIsSmall(cd, f, front, seal, chain, size, start);
    var mid', extra', end', tail' := BufferIsSmall(cd', f', front', seal, chain, size, start);
    FilledAlike(size, chain, 1, start, 32, front, mid, extra, end, tail, front', mid', extra', end', tail', common);
    BufferSuffices(size, chain, start, front, mid, extra, end, tail);
  }

  lemma FoundIsSigned(cd: seq<Byte>, f: RawFields, front: seq<Byte>, seal: seq<Byte>, chainId: nat)
    requires Found(cd, f, front, seal)
    ensures RawSigned(cd, 0, f, chainId) == WithSeal(cd, f.after, Spliced(cd, 0, f, 2, DECLARED + 3, UintRlp(chainId)))
  {
  }

  lemma SealIsFound(cd: seq<Byte>, f: RawFields, front: seq<Byte>, seal: seq<Byte>, signed: seq<Byte>)
    requires Found(cd, f, front, seal)
    ensures WithSeal(cd, f.after, Ok(signed)) == Ok((signed, seal))
  {
  }

  lemma SignedAlike(cd: seq<Byte>, f: RawFields, front: seq<Byte>, cd': seq<Byte>, f': RawFields,
                    front': seq<Byte>, seal: seq<Byte>, chainId: nat, common: seq<Byte>)
    requires Found(cd, f, front, seal) && Found(cd', f', front', seal)
    requires common <= front && common <= front' && |common| == BEFORE_ROOT
    ensures RawSigned(cd, 0, f, chainId).Ok? && RawSigned(cd, 0, f, chainId) == RawSigned(cd', 0, f', chainId)
  {
    FoundIsSigned(cd, f, front, seal, chainId);
    FoundIsSigned(cd', f', front', seal, chainId);
    SmallBuffersAgree(cd, f, front, cd', f', front', seal, UintRlp(chainId), common);
    var signed := Spliced(cd, 0, f, 2, DECLARED + 3, UintRlp(chainId)).value;
    SealIsFound(cd, f, front, seal, signed);
    SealIsFound(cd', f', front', seal, signed);
  }

  /** A list that declares 200 bytes signs none of the receipts root: for every two headers that differ in it alone
      there are raw bytes that are read as their fields, with the same signed bytes and the same seal. */
  lemma RootIsNotSigned(h: Header, h': Header, chainId: nat) returns (f: RawFields, f': RawFields)
    requires WellSized(h) && |EncodeHeader(h)| <= 65535 && |h.extra| == EXTRA_VANITY + EXTRA_SEAL
    requires WellSized(h') && |EncodeHeader(h')| <= 65535 && h' == h.(receiptHash := h'.receiptHash)
    requires h.number < Pow256(32)
    ensures PayloadOffset(Understated(h), 0) == 3 && PayloadOffset(Understated(h'), 0) == 3
    ensures WalkedFields(Understated(h), 3) == Ok(f) && FieldsOf(Ok(f), h)
    ensures WalkedFields(Understated(h'), 3) == Ok(f') && FieldsOf(Ok(f'), h')
    ensures RawSigned(Understated(h), 0, f, chainId).Ok?
    ensures RawSigned(Understated(h), 0, f, chainId) == RawSigned(Understated(h'), 0, f', chainId)
  {
    var front, front';
    f, front := HeaderIsFound(h);
    f', front' := HeaderIsFound(h');
    SameBeforeRoot(h, h');
    SignedAlike(Understated(h), f, front, Understated(h'), f', front', h.extra[EXTRA_VANITY..], chainId, BeforeRoot(h));
  }
}
