/** What the signed bytes of a raw header fix, canonical or not. */
module RawHeaders {
  import opened Bytes
  import opened Rlp
  import opened RlpIntegers
  import opened RlpCursor
  import opened Header
  import opened HeaderWalk
  import opened PoSaBlockVerifier
  import opened Wrappers

  // ---------- readers see no further than the item ----------

  /** The n bytes from p on are the n bytes of the other area from q on. */
  predicate Alike(a: seq<Byte>, p: nat, b: seq<Byte>, q: nat, n: nat) {
    Slice(a, p, n) == Slice(b, q, n)
  }

  lemma AlikeInside(a: seq<Byte>, p: nat, b: seq<Byte>, q: nat, n: nat, k: nat, m: nat)
    requires Alike(a, p, b, q, n) && k + m <= n
    ensures Alike(a, p + k, b, q + k, m)
  {
    SubSlice(a, p, Slice(a, p, n), k, m);
    SubSlice(b, q, Slice(b, q, n), k, m);
  }

  lemma SameFirstByte(a: seq<Byte>, p: nat, b: seq<Byte>, q: nat, n: nat)
    requires Alike(a, p, b, q, n) && n > 0
    ensures At(a, p) == At(b, q)
  {
    assert Slice(a, p, n)[0] == Slice(b, q, n)[0];
  }

  lemma SameNumber(a: seq<Byte>, p: nat, b: seq<Byte>, q: nat, n: nat)
    requires Alike(a, p, b, q, n) && n <= 32
    ensures LoadTop(a, p, n) == LoadTop(b, q, n)
  {
    LoadTopIsRead(a, p, n);
    LoadTopIsRead(b, q, n);
  }

  /** The length of an item is written in its own bytes. */
  lemma SameLength(a: seq<Byte>, p: nat, b: seq<Byte>, q: nat, n: nat)
    requires Alike(a, p, b, q, n) && ItemLength(a, p) <= n
    ensures ItemLength(b, q) == ItemLength(a, p) && PayloadOffset(b, q) == PayloadOffset(a, p)
  {
    SameFirstByte(a, p, b, q, n);
    var byte0 := At(a, p) as int;
    if 0xb8 <= byte0 < 0xc0 || 0xf8 <= byte0 {
      var k: nat := if byte0 < 0xc0 then byte0 - 0xb7 else byte0 - 0xf7;
      AlikeInside(a, p, b, q, n, 1, k);
      SameNumber(a, p + 1, b, q + 1, k);
    }
  }

  /** So the cursor moves alike as long as it stays inside. */
  lemma {:induction false} SameCursor(a: seq<Byte>, p: nat, b: seq<Byte>, q: nat, n: nat, k: nat)
    requires Alike(a, p, b, q, n) && CursorAt(a, p, k) <= p + n
    ensures CursorAt(b, q, k) - q == CursorAt(a, p, k) - p
  {
    if k > 0 {
      var it := CursorAt(a, p, k - 1);
      SameCursor(a, p, b, q, n, k - 1);
      AlikeInside(a, p, b, q, n, it - p, n - (it - p));
      SameLength(a, it, b, CursorAt(b, q, k - 1), n - (it - p));
    }
  }

  lemma SameUint(a: seq<Byte>, p: nat, b: seq<Byte>, q: nat, len: nat)
    requires Alike(a, p, b, q, len)
    ensures ToUint(a, p, len) == ToUint(b, q, len)
  {
    if 0 < len <= 33 {
      SameFirstByte(a, p, b, q, len);
      var offset := PayloadOffset(a, p);
      if 0 <= len - offset <= 32 {
        AlikeInside(a, p, b, q, len, offset, len - offset);
        SameNumber(a, p + offset, b, q + offset, len - offset);
      }
    }
  }

  /** `len` bytes at the k-th item, read as a number. */
  lemma SameField(a: seq<Byte>, p: nat, b: seq<Byte>, q: nat, n: nat, k: nat, len: nat)
    requires Alike(a, p, b, q, n) && CursorAt(a, p, k) + len <= p + n
    ensures ToUint(a, CursorAt(a, p, k), len) == ToUint(b, CursorAt(b, q, k), len)
  {
    SameCursor(a, p, b, q, n, k);
    AlikeInside(a, p, b, q, n, CursorAt(a, p, k) - p, len);
    SameUint(a, CursorAt(a, p, k), b, CursorAt(b, q, k), len);
  }

  lemma {:induction false} CursorsAscend(cd: seq<Byte>, p: nat, i: nat, k: nat)
    requires i <= k
    ensures CursorAt(cd, p, i) <= CursorAt(cd, p, k)
    decreases k
  {
    if i < k {
      CursorsAscend(cd, p, i, k - 1);
    }
  }

  lemma SameHash(a: seq<Byte>, p: nat, b: seq<Byte>, q: nat, n: nat, k: nat, last: nat)
    requires Alike(a, p, b, q, n) && k <= last && CursorAt(a, p, last) + 33 <= p + n
    ensures ReadBytes32(a, CursorAt(a, p, k)) == ReadBytes32(b, CursorAt(b, q, k))
  {
    CursorsAscend(a, p, k, last);
    SameField(a, p, b, q, n, k, 33);
  }

  lemma SameAddress(a: seq<Byte>, p: nat, b: seq<Byte>, q: nat, n: nat, k: nat, last: nat)
    requires Alike(a, p, b, q, n) && k <= last && CursorAt(a, p, last) + 33 <= p + n
    ensures ReadAddress(a, CursorAt(a, p, k)) == ReadAddress(b, CursorAt(b, q, k))
  {
    CursorsAscend(a, p, k, last);
    SameField(a, p, b, q, n, k, 21);
  }

  lemma SameBlockNumber(a: seq<Byte>, p: nat, b: seq<Byte>, q: nat, n: nat, k: nat, end: nat)
    requires Alike(a, p, b, q, n) && k < end && CursorAt(a, p, end) <= p + n
    ensures ReadNumber(a, CursorAt(a, p, k)) == ReadNumber(b, CursorAt(b, q, k))
  {
    CursorsAscend(a, p, k, k + 1);
    CursorsAscend(a, p, k + 1, end);
    SameCursor(a, p, b, q, n, k);
    var it := CursorAt(a, p, k);
    SameItemNumber(a, p, it, b, q, CursorAt(b, q, k), n, it - p, ItemLength(a, it));
  }

  lemma SameItemNumber(a: seq<Byte>, p: nat, it: nat, b: seq<Byte>, q: nat, jt: nat, n: nat, i: nat, m: nat)
    requires Alike(a, p, b, q, n) && it == p + i && jt == q + i && i + m <= n && m == ItemLength(a, it)
    ensures ReadNumber(a, it) == ReadNumber(b, jt)
  {
    AlikeInside(a, p, b, q, n, i, m);
    SameOwnNumber(a, it, b, jt, m);
  }

  lemma SameOwnNumber(a: seq<Byte>, it: nat, b: seq<Byte>, jt: nat, n: nat)
    requires n == ItemLength(a, it) && Alike(a, it, b, jt, n)
    ensures ReadNumber(a, it) == ReadNumber(b, jt)
  {
    SameLength(a, it, b, jt, n);
    SameUint(a, it, b, jt, n);
  }

  /** The fields read, but for the cursors. */
  predicate SameFields(f: RawFields, g: RawFields) {
    f.(before := 0, after := 0) == g.(before := 0, after := 0)
  }

  /** The words in front of the extra data: all hashes are read from bytes in front of it. */
  predicate HashesInFront(cd: seq<Byte>, p: nat, f: RawFields) {
    CursorAt(cd, p, 5) + 33 <= f.before
  }

  lemma {:induction false} SameHashes(a: seq<Byte>, p: nat, b: seq<Byte>, q: nat, n: nat)
    requires Alike(a, p, b, q, n) && CursorAt(a, p, 5) + 33 <= p + n
    ensures ReadBytes32(a, p) == ReadBytes32(b, q)
    ensures ReadAddress(a, CursorAt(a, p, 2)) == ReadAddress(b, CursorAt(b, q, 2))
    ensures ReadBytes32(a, CursorAt(a, p, 3)) == ReadBytes32(b, CursorAt(b, q, 3))
    ensures ReadBytes32(a, CursorAt(a, p, 4)) == ReadBytes32(b, CursorAt(b, q, 4))
    ensures ReadBytes32(a, CursorAt(a, p, 5)) == ReadBytes32(b, CursorAt(b, q, 5))
  {
    SameHash(a, p, b, q, n, 0, 5);
    SameAddress(a, p, b, q, n, 2, 5);
    SameHash(a, p, b, q, n, 3, 5);
    SameHash(a, p, b, q, n, 4, 5);
    SameHash(a, p, b, q, n, 5, 5);
  }

  /** Where the bytes in front of the extra data are alike, so are the fields. */
  lemma {:induction false} SameWalk(a: seq<Byte>, p: nat, b: seq<Byte>, q: nat, f: RawFields, g: RawFields, n: nat)
    requires WalkedFields(a, p) == Ok(f) && WalkedFields(b, q) == Ok(g) && HashesInFront(a, p, f)
    requires f.before == p + n && Alike(a, p, b, q, n)
    ensures SameFields(f, g) && g.before == q + n
  {
    SameHashes(a, p, b, q, n);
    FieldsRead(a, p, f);
    FieldsRead(b, q, g);
    SameBlockNumber(a, p, b, q, n, 8, 12);
    SameCursor(a, p, b, q, n, 12);
  }

  lemma {:induction false} FieldsRead(a: seq<Byte>, p: nat, f: RawFields)
    requires WalkedFields(a, p) == Ok(f)
    ensures f.parentHash == ReadBytes32(a, p) && f.coinbase == ReadAddress(a, CursorAt(a, p, 2))
    ensures f.stateRoot == ReadBytes32(a, CursorAt(a, p, 3)) && f.txsRoot == ReadBytes32(a, CursorAt(a, p, 4))
    ensures f.receiptsRoot == ReadBytes32(a, CursorAt(a, p, 5)) && Ok(f.number) == ReadNumber(a, CursorAt(a, p, 8))
    ensures f.before == CursorAt(a, p, 12)
  {
  }

  // ---------- signing data taken apart ----------

  lemma SplitsAlike(a: seq<Byte>, b: seq<Byte>, c: seq<Byte>, d: seq<Byte>)
    requires a + b == c + d && |a| <= |c|
    ensures c[..|a|] == a
    ensures |a| == |c| ==> a == c && b == d
  {
    assert (a + b)[..|a|] == a && (a + b)[|a|..] == b;
    assert (c + d)[..|a|] == c[..|a|];
    assert (c + d)[|c|..] == d;
  }

  /** The prefix and what it announces grow together. */
  lemma LongerExtra(m: nat, n: nat)
    requires m < n < 0x100_0000
    ensures |Head(0x80, m)| + m < |Head(0x80, n)| + n
  {
    HeadBytes(m);
    HeadBytes(n);
  }

  lemma EndsAlike(extra: seq<Byte>, tail: seq<Byte>, extra': seq<Byte>, tail': seq<Byte>)
    requires |extra| < 0x100_0000 && |extra'| < 0x100_0000 && |tail| == |tail'|
    requires Head(0x80, |extra|) + (extra + tail) == Head(0x80, |extra'|) + (extra' + tail')
    ensures extra == extra' && tail == tail'
  {
    if |extra| < |extra'| {
      LongerExtra(|extra|, |extra'|);
    } else if |extra'| < |extra| {
      LongerExtra(|extra'|, |extra|);
    }
    SplitsAlike(Head(0x80, |extra|), extra + tail, Head(0x80, |extra'|), extra' + tail');
    SplitsAlike(extra, tail, extra', tail');
  }

  lemma BodiesAlike(chain: seq<Byte>, front: seq<Byte>, extra: seq<Byte>, tail: seq<Byte>, front': seq<Byte>,
                    extra': seq<Byte>, tail': seq<Byte>)
    requires SigningData(chain, front, extra, tail) == SigningData(chain, front', extra', tail')
    ensures front + (Head(0x80, |extra|) + (extra + tail)) == front' + (Head(0x80, |extra'|) + (extra' + tail'))
  {
    var end, end' := Head(0x80, |extra|) + (extra + tail), Head(0x80, |extra'|) + (extra' + tail');
    var outer, outer' := OuterPrefix(|chain| + |front| + |end|), OuterPrefix(|chain| + |front'| + |end'|);
    assert outer + chain + front + end == (outer + chain) + (front + end);
    assert outer' + chain + front' + end' == (outer' + chain) + (front' + end');
    SplitsAlike(outer + chain, front + end, outer' + chain, front' + end');
  }

  // ---------- signed data fixes the fields ----------

  /** The walk from p on finds f, and the hashes lie in front of the extra data. */
  ghost predicate Walked(cd: seq<Byte>, p: nat, f: RawFields) {
    p <= f.before && WalkedFields(cd, p) == Ok(f) && HashesInFront(cd, p, f)
  }

  /** The list's prefix has three bytes, the walk behind it finds f, and the declared length ends 42 bytes behind
      the extra data. */
  ghost predicate Framed(cd: seq<Byte>, off: nat, f: RawFields) {
    && PayloadOffset(cd, off) == 3 && Walked(cd, off + 3, f)
    && EndsWithTail(off, f, PayloadOffset(cd, f.before), ItemLength(cd, off))
  }

  lemma UnsealedIsShort(cd: seq<Byte>, off: nat, f: RawFields)
    requires Framed(cd, off, f)
    ensures |RawUnsealed(cd, f)| < 0x100_0000
  {
    ShortPrefix(cd, off);
    ShortUnsealed(cd, off, f, PayloadOffset(cd, f.before), ItemLength(cd, off));
  }

  lemma ShortPrefix(cd: seq<Byte>, off: nat)
    requires PayloadOffset(cd, off) == 3
    ensures ItemLength(cd, off) < 0x100_0000
  {
    LoadTopIsRead(cd, off + 1, 2);
    BEBound(Slice(cd, off + 1, 2));
    Pow256Values();
  }

  lemma ShortUnsealed(cd: seq<Byte>, off: nat, f: RawFields, prefixLength: nat, declared: nat)
    requires EndsWithTail(off, f, prefixLength, declared) && declared < 0x100_0000
    ensures |UnsealedBehind(cd, f, prefixLength)| < 0x100_0000
  {
  }

  /** The bytes in front of the extra data. */
  function Front(cd: seq<Byte>, p: nat, f: RawFields): (r: seq<Byte>)
    requires p <= f.before
    ensures |r| == f.before - p
  {
    Slice(cd, p, f.before - p)
  }

  lemma FrontIsShared(cd: seq<Byte>, p: nat, f: RawFields, cd': seq<Byte>, p': nat, f': RawFields)
    requires Walked(cd, p, f) && Walked(cd', p', f') && Front(cd, p, f) <= Front(cd', p', f')
    ensures SameFields(f, f') && |Front(cd, p, f)| == |Front(cd', p', f')|
  {
    SubSlice(cd', p', Front(cd', p', f'), 0, |Front(cd, p, f)|);
    SameWalk(cd, p, cd', p', f, f', |Front(cd, p, f)|);
  }

  lemma FrontsAgree(cd: seq<Byte>, p: nat, f: RawFields, cd': seq<Byte>, p': nat, f': RawFields,
                    end: seq<Byte>, end': seq<Byte>)
    requires Walked(cd, p, f) && Walked(cd', p', f') && Front(cd, p, f) + end == Front(cd', p', f') + end'
    ensures SameFields(f, f') && end == end'
  {
    if |Front(cd, p, f)| <= |Front(cd', p', f')| {
      SplitsAlike(Front(cd, p, f), end, Front(cd', p', f'), end');
      FrontIsShared(cd, p, f, cd', p', f');
    } else {
      SplitsAlike(Front(cd', p', f'), end', Front(cd, p, f), end);
      FrontIsShared(cd', p', f', cd, p, f);
    }
  }

  /** The signing data of the raw ranges, behind the list's prefix. */
  function BodySigned(cd: seq<Byte>, p: nat, f: RawFields, chain: seq<Byte>, unsealed: seq<Byte>): seq<Byte>
    requires p <= f.before
  {
    SigningData(chain, Front(cd, p, f), unsealed, Slice(cd, f.after, 42))
  }

  lemma BodiesAgree(cd: seq<Byte>, p: nat, f: RawFields, cd': seq<Byte>, p': nat, f': RawFields,
                    chain: seq<Byte>, unsealed: seq<Byte>, unsealed': seq<Byte>)
    requires Walked(cd, p, f) && Walked(cd', p', f') && |unsealed| < 0x100_0000 && |unsealed'| < 0x100_0000
    requires BodySigned(cd, p, f, chain, unsealed) == BodySigned(cd', p', f', chain, unsealed')
    ensures SameFields(f, f') && unsealed == unsealed'
  {
    var tail, tail' := Slice(cd, f.after, 42), Slice(cd', f'.after, 42);
    BodiesAlike(chain, Front(cd, p, f), unsealed, tail, Front(cd', p', f'), unsealed', tail');
    FrontsAgree(cd, p, f, cd', p', f', Head(0x80, |unsealed|) + (unsealed + tail),
                Head(0x80, |unsealed'|) + (unsealed' + tail'));
    EndsAlike(unsealed, tail, unsealed', tail');
  }

  lemma RangesAreBody(cd: seq<Byte>, off: nat, f: RawFields, p: nat, chain: seq<Byte>, unsealed: seq<Byte>)
    requires p == off + 3 <= f.before
    ensures RangesSigned(cd, off, f, chain, unsealed) == BodySigned(cd, p, f, chain, unsealed)
  {
  }

  /** What is signed for a framed header. */
  lemma FramedIsSigned(cd: seq<Byte>, off: nat, f: RawFields, chainId: nat, p: nat)
    requires Framed(cd, off, f) && p == off + 3
    ensures Walked(cd, p, f) && |RawUnsealed(cd, f)| < 0x100_0000
    ensures off + 3 <= f.before <= f.after
    ensures SignedBytes(cd, off, f, chainId) == Ok(BodySigned(cd, p, f, UintRlp(chainId), RawUnsealed(cd, f)))
  {
    UnsealedIsShort(cd, off, f);
    SignedBytesAre(cd, off, f, chainId);
    RangesAreBody(cd, off, f, p, UintRlp(chainId), RawUnsealed(cd, f));
  }

  /** Where two raw headers have the same signed bytes, the same fields and the same unsealed extra data are found. */
  lemma SignedFieldsAgree(cd: seq<Byte>, off: nat, f: RawFields, cd': seq<Byte>, off': nat, f': RawFields, chainId: nat)
    requires Framed(cd, off, f) && Framed(cd', off', f')
    requires SignedBytes(cd, off, f, chainId) == SignedBytes(cd', off', f', chainId)
    ensures SameFields(f, f') && RawUnsealed(cd, f) == RawUnsealed(cd', f')
  {
    var p, p' := off + 3, off' + 3;
    FramedIsSigned(cd, off, f, chainId, p);
    FramedIsSigned(cd', off', f', chainId, p');
    BodiesAgree(cd, p, f, cd', p', f', UintRlp(chainId), RawUnsealed(cd, f), RawUnsealed(cd', f'));
  }

  /** The validators of an accepted header, from its number and its unsealed extra data. */
  function UnsealedValidators(number: nat, unsealed: seq<Byte>, epochLength: nat): seq<Address>
    requires epochLength > 0
  {
    if number % epochLength != 0 || |unsealed| < EXTRA_VANITY then []
    else ListedValidators(unsealed, (|unsealed| - EXTRA_VANITY) / 20)
  }

  /** The addresses that are read from an epoch block end in front of the seal. */
  predicate ListInFront(cd: seq<Byte>, f: RawFields, epochLength: nat) {
    epochLength > 0 && f.number % epochLength == 0 && RawCount(cd, f) > 0 ==>
      EXTRA_VANITY + 20 * RawCount(cd, f) <= |RawUnsealed(cd, f)|
  }

  lemma ListIsSigned(cd: seq<Byte>, f: RawFields, epochLength: nat, prefixLength: nat, list: seq<Address>)
    requires prefixLength == PayloadOffset(cd, f.before) && f.after - f.before - prefixLength >= EXTRA_SEAL
    requires ListInFront(cd, f, epochLength) && RawValidators(cd, f, epochLength) == Ok(list)
    ensures epochLength > 0 && list == UnsealedValidators(f.number, RawUnsealed(cd, f), epochLength)
  {
    var unsealed := RawUnsealed(cd, f);
    if f.number % epochLength == 0 && |list| > 0 {
      CountFits(|unsealed|, prefixLength, |list|);
      ValidatorsOfExtra(cd, f.before + prefixLength, unsealed, list);
    } else if f.number % epochLength == 0 && |unsealed| >= EXTRA_VANITY {
      CountFits(|unsealed|, prefixLength, 0);
    }
  }

  lemma CountFits(n: nat, prefixLength: nat, count: nat)
    requires count == (n + 2 * prefixLength - EXTRA_VANITY) / 20 && EXTRA_VANITY + 20 * count <= n
    ensures count == (n - EXTRA_VANITY) / 20
  {
  }

  /** Extra data that holds vanity, whole addresses and seal has its list in front of the seal. */
  lemma WholeListInFront(cd: seq<Byte>, f: RawFields, epochLength: nat)
    requires var n := |RawUnsealed(cd, f)|; n >= EXTRA_VANITY && (n - EXTRA_VANITY) % 20 == 0
    ensures ListInFront(cd, f, epochLength)
  {
    var n := |RawUnsealed(cd, f)|;
    assert RawCount(cd, f) == (n + 2 * PayloadOffset(cd, f.before) - EXTRA_VANITY) / 20;
  }

  lemma SealedCoinbase(c: Crypto, f: RawFields, signed: Result<(seq<Byte>, seq<Byte>)>, a: Address)
    requires signed.Ok? ==> |signed.value.1| == EXTRA_SEAL
    requires SealerFromParts(c, f.number, f.coinbase, signed) == Ok(a)
    ensures a == if f.number == 0 then 0 else f.coinbase
  {
  }

  /** What an accepted raw header is read as. */
  lemma AcceptedRaw(c: Crypto, cd: seq<Byte>, off: nat, len: nat, chainId: nat, epochLength: nat, f: RawFields)
    requires off + len <= |cd| && VerifiedRaw(c, cd, off, len, chainId, epochLength).Ok?
    requires WalkedFields(cd, off + PayloadOffset(cd, off)) == Ok(f)
    ensures var r := VerifiedRaw(c, cd, off, len, chainId, epochLength).value;
      && r.header.parentHash == f.parentHash && r.header.blockNumber == f.number
      && r.header.coinbase == (if f.number == 0 then 0 else f.coinbase) && r.header.receiptsRoot == f.receiptsRoot
      && r.header.txsRoot == f.txsRoot && r.header.stateRoot == f.stateRoot
      && Ok(r.validators) == RawValidators(cd, f, epochLength)
  {
    var sealer := SealerFromParts(c, f.number, f.coinbase, RawSigned(cd, off, f, chainId));
    SealedCoinbase(c, f, RawSigned(cd, off, f, chainId), sealer.value);
  }

  /** Two raw headers that are accepted with the same signed bytes are read alike, but for the hash of the raw bytes:
      whatever prefixes and integers their bytes use, the fields are those that were signed. */
  lemma SignedDataDetermines(c: Crypto, cd: seq<Byte>, off: nat, len: nat, f: RawFields, cd': seq<Byte>, off': nat,
                             len': nat, f': RawFields, chainId: nat, epochLength: nat)
    requires off + len <= |cd| && Framed(cd, off, f) && ListInFront(cd, f, epochLength)
    requires off' + len' <= |cd'| && Framed(cd', off', f') && ListInFront(cd', f', epochLength)
    requires SignedBytes(cd, off, f, chainId) == SignedBytes(cd', off', f', chainId)
    requires VerifiedRaw(c, cd, off, len, chainId, epochLength).Ok?
    requires VerifiedRaw(c, cd', off', len', chainId, epochLength).Ok?
    ensures var r := VerifiedRaw(c, cd, off, len, chainId, epochLength).value;
      var r' := VerifiedRaw(c, cd', off', len', chainId, epochLength).value;
      r'.validators == r.validators && r'.header == r.header.(blockHash := r'.header.blockHash)
  {
    SignedFieldsAgree(cd, off, f, cd', off', f', chainId);
    AcceptedRaw(c, cd, off, len, chainId, epochLength, f);
    AcceptedRaw(c, cd', off', len', chainId, epochLength, f');
    ListIsSigned(cd, f, epochLength, PayloadOffset(cd, f.before),
                 VerifiedRaw(c, cd, off, len, chainId, epochLength).value.validators);
    ListIsSigned(cd', f', epochLength, PayloadOffset(cd', f'.before),
                 VerifiedRaw(c, cd', off', len', chainId, epochLength).value.validators);
  }

  // ---------- canonical headers ----------

  /** Every canonical header with room for a seal is framed. */
  lemma {:induction false} HeaderIsFramed(cd: seq<Byte>, off: nat, len: nat, h: Header)
    requires IsRawHeader(cd, off, len, h) && |h.extra| >= EXTRA_SEAL && h.number < Pow256(32)
    ensures WalkedFields(cd, off + 3).Ok? && Framed(cd, off, WalkedFields(cd, off + 3).value)
  {
    WalkStarts(cd, off, len, h);
    WalkFindsFields(cd, off + 3, h, HeaderFields(h));
    CursorsCut(cd, off, len, h, WalkedFields(cd, off + 3).value);
    RootInFront(cd, off + 3, h, HeaderFields(h), 5);
  }

  lemma {:induction false} RootInFront(cd: seq<Byte>, p: nat, h: Header, xs: seq<Item>, k: nat)
    requires AtField(cd, p, xs, 0, p) && k < 12 <= |xs| && xs[k] == Str(h.receiptHash) && |h.receiptHash| == 32
    ensures CursorAt(cd, p, k) + 33 <= CursorAt(cd, p, 12)
  {
    CursorIsField(cd, p, xs, k);
    ItemAt(cd, p, xs, k);
    assert |Encode(xs[k])| == 33;
    CursorsAscend(cd, p, k + 1, 12);
  }

  /** The header with another seal. */
  function Resealed(h: Header, seal: seq<Byte>): Header
    requires |h.extra| >= EXTRA_SEAL
  {
    h.(extra := Unsealed(h) + seal)
  }

  predicate SameList(h: Header, seal: seq<Byte>, epochLength: nat)
    requires |h.extra| >= EXTRA_SEAL
  {
    |seal| == EXTRA_SEAL ==> EpochValidators(Resealed(h, seal), epochLength) == EpochValidators(h, epochLength)
  }

  /** The validators an epoch block installs are fixed by what is signed if and only if none are counted or those
      counted end in front of the seal. */
  lemma {:induction false} SealedListExactly(h: Header, epochLength: nat)
    requires |h.extra| >= EXTRA_SEAL && ContractCount(|h.extra|) >= 0
    requires epochLength > 0 && h.number % Pow256(8) % epochLength == 0
    ensures (forall seal :: SameList(h, seal, epochLength)) <==>
      ContractCount(|h.extra|) == 0 || EXTRA_VANITY + 20 * ContractCount(|h.extra|) <= |Unsealed(h)|
  {
    var count := ContractCount(|h.extra|);
    if count == 0 || EXTRA_VANITY + 20 * count <= |Unsealed(h)| {
      forall seal: seq<Byte>
        ensures SameList(h, seal, epochLength)
      {
        if |seal| == EXTRA_SEAL && count > 0 {
          ListsAgree(h.extra, Unsealed(h) + seal, count, |Unsealed(h)|);
        }
      }
    } else {
      var seal := OtherSeal(h, count);
      assert !SameList(h, seal, epochLength);
    }
  }

  lemma ListsAgree(extra: seq<Byte>, other: seq<Byte>, count: nat, n: nat)
    requires EXTRA_VANITY + 20 * count <= n <= |extra| && n <= |other| && extra[..n] == other[..n]
    ensures ListedValidators(extra, count) == ListedValidators(other, count)
  {
    forall i | 0 <= i < count
      ensures ListedValidators(extra, count)[i] == ListedValidators(other, count)[i]
    {
      var k := EXTRA_VANITY + 20 * i;
      assert extra[k..k + 20] == extra[..n][k..k + 20] == other[..n][k..k + 20] == other[k..k + 20];
    }
  }

  /** A seal that changes the last byte of the last address. */
  lemma {:induction false} OtherSeal(h: Header, count: nat) returns (seal: seq<Byte>)
    requires |h.extra| >= EXTRA_SEAL && |Unsealed(h)| < EXTRA_VANITY + 20 * count <= |h.extra| && count > 0
    ensures |seal| == EXTRA_SEAL && ListedValidators(Unsealed(h) + seal, count) != ListedValidators(h.extra, count)
  {
    var last := EXTRA_VANITY + 20 * count - 1;
    var other := h.extra[last := if h.extra[last] == 0 then 1 else 0];
    seal := other[|Unsealed(h)|..];
    assert Unsealed(h) + seal == other;
    LastByteShows(h.extra, other, last - 19);
    assert ListedValidators(other, count)[count - 1] != ListedValidators(h.extra, count)[count - 1];
  }

  lemma LastByteShows(a: seq<Byte>, b: seq<Byte>, k: nat)
    requires k + 20 <= |a| && k + 20 <= |b| && a[k + 19] != b[k + 19]
    ensures BE(a[k..k + 20]) != BE(b[k..k + 20])
  {
    LastByte(a[k..k + 20]);
    LastByte(b[k..k + 20]);
  }

  lemma LastByte(s: seq<Byte>)
    requires s != []
    ensures BE(s) % 256 == s[|s| - 1] as int
  {
  }
}
