/** The loops of contracts/RelayHub.sol over the validator history: installing a set, reading one
    back and counting signers. Each is proved against the plain view of the storage. */
module HistoryStorage {
  import opened BitUtils
  import opened Header
  import opened ValidatorHistory
  import opened Wrappers

  /** The bit of address number i in an array of buckets. */
  predicate BitAt(buckets: seq<nat>, i: nat) {
    i / 256 < |buckets| && Bit(buckets[i / 256], i % 256)
  }

  /** The buckets mark exactly the addresses that are in the list. */
  ghost predicate Marks(buckets: seq<nat>, values: seq<Address>, list: seq<Address>) {
    && (forall b: nat, k: nat :: b < |buckets| && Bit(buckets[b], k) ==> k < 256 && 256 * b + k < |values|)
    && (forall i: nat :: i < |values| ==> (BitAt(buckets, i) <==> values[i] in list))
  }

  /** Setting one bit: buckets[i >> 8] |= 1 << (i & 0xff). */
  function SetBit(buckets: seq<nat>, i: nat): seq<nat>
    requires i / 256 < |buckets|
  {
    buckets[i / 256 := Or(buckets[i / 256], Pow2(i % 256))]
  }

  lemma BitAfterSet(buckets: seq<nat>, i: nat, b: nat, k: nat)
    requires i / 256 < |buckets| && b < |buckets|
    ensures Bit(SetBit(buckets, i)[b], k) <==> Bit(buckets[b], k) || (b == i / 256 && k == i % 256)
  {
    BitOfOr(buckets[i / 256], Pow2(i % 256), k);
    BitOfPow2(i % 256, k);
  }

  lemma MarksOneMore(buckets: seq<nat>, values: seq<Address>, list: seq<Address>, all: seq<Address>, i: nat)
    requires Marks(buckets, values, list) && NoDuplicates(all) && values <= all && |all| <= |values| + 1
    requires i < |all| && i / 256 < |buckets| && Members(list) <= Members(values)
    requires |all| > |values| ==> i == |values|
    ensures Marks(SetBit(buckets, i), all, list + [all[i]])
  {
    var r := SetBit(buckets, i);
    forall b: nat, k: nat | b < |r| && Bit(r[b], k)
      ensures k < 256 && 256 * b + k < |all|
    {
      BitAfterSet(buckets, i, b, k);
    }
    forall j: nat | j < |all|
      ensures BitAt(r, j) <==> all[j] in list + [all[i]]
    {
      if j / 256 < |buckets| {
        BitAfterSet(buckets, i, j / 256, j % 256);
      }
      if j < |values| {
        assert values[j] == all[j];
        assert BitAt(buckets, j) <==> values[j] in list;
      } else {
        assert j == i;
      }
    }
  }

  /** The copied buckets stand for the list, and they replace whatever the epoch held before. */
  lemma BucketsStand(old': Bitmap, new': Bitmap, buckets: seq<nat>, before: nat, values: seq<Address>,
                     list: seq<Address>)
    requires Marks(buckets, values, list) && Members(list) <= Members(values)
    requires Within(old', before) && before / 256 < |buckets|
    requires forall b: nat :: Bucket(new', b) == if b < |buckets| then buckets[b] else Bucket(old', b)
    requires |values| <= 256 * |buckets|
    ensures Marked(values, new') == Members(list)
    ensures Within(new', |values|)
  {
    forall b: nat, k: nat | Bit(Bucket(new', b), k)
      ensures k < 256 && 256 * b + k < |values|
    {
      if b >= |buckets| {
        assert false;
      }
    }
    forall i: nat | i < |values|
      ensures Get(new', i) <==> values[i] in list
    {
      assert BitAt(buckets, i) <==> values[i] in list;
    }
    forall a | a in list
      ensures a in Marked(values, new')
    {
      assert a in Members(values);
      var i :| 0 <= i < |values| && values[i] == a;
    }
  }

  /** One round: the address is known afterwards and its bit is set, or its index lies past the
      buckets. */
  method AddValidator(all: AddressSet, buckets: seq<nat>, validator: Address, ghost list: seq<Address>)
    returns (ok: bool, all': AddressSet, buckets': seq<nat>)
    requires all.Valid() && Marks(buckets, all.values, list) && Members(list) <= Members(all.values)
    requires |all.values| <= 256 * |buckets|
    ensures all'.Valid() && all'.values == (if validator in all.values then all.values else all.values + [validator])
    ensures |buckets'| == |buckets|
    ensures ok <==> |all'.values| <= 256 * |buckets|
    ensures ok ==> Marks(buckets', all'.values, list + [validator])
  {
    all', buckets' := all.Add(validator), buckets;
    all'.IndexOf(validator);
    var index := all'.indexes[validator] - 1;
    if validator !in all.values {
      NewIndex(all', all.values, validator);
    }
    ok := index / 256 < |buckets|;
    if ok {
      MarksOneMore(buckets, all.values, list, all'.values, index);
      buckets' := SetBit(buckets, index);
    }
  }

  /** First loop of `_updateActiveValidatorSet`: adds the validators and collects their bits. */
  method CollectBuckets(all: AddressSet, list: seq<Address>) returns (r: Result<(AddressSet, seq<nat>)>)
    requires all.Valid()
    ensures r.Ok? <==> |AppendNew(all.values, list)| <= Capacity(|all.values|)
    ensures r.Revert? ==> r.reason == ""
    ensures r.Ok? ==>
      && r.value.0.Valid() && r.value.0.values == AppendNew(all.values, list)
      && |r.value.1| == |all.values| / 256 + 1 && Marks(r.value.1, r.value.0.values, list)
  {
    var known := all;
    var buckets := seq(|all.values| / 256 + 1, _ => 0);
    NothingMarked(buckets, all.values);
    for i := 0 to |list|
      invariant known.Valid() && known.values == AppendNew(all.values, list[..i])
      invariant |buckets| == |all.values| / 256 + 1 && |known.values| <= 256 * |buckets|
      invariant Marks(buckets, known.values, list[..i])
    {
      AppendNewMembers(all.values, list[..i]);
      AppendNewStep(all.values, list, i);
      AppendNewGrows(all.values, list, i + 1);
      var ok;
      ok, known, buckets := AddValidator(known, buckets, list[i], list[..i]);
      if !ok {
        return Revert("");
      }
    }
    assert list[..|list|] == list;
    return Ok((known, buckets));
  }

  lemma AppendNewStep(known: seq<Address>, list: seq<Address>, i: nat)
    requires i < |list|
    ensures list[..i + 1] == list[..i] + [list[i]]
    ensures var r := AppendNew(known, list[..i]);
      AppendNew(known, list[..i + 1]) == if list[i] in r then r else r + [list[i]]
  {
    assert list[..i + 1][..i] == list[..i];
  }

  lemma NewIndex(s: AddressSet, before: seq<Address>, a: Address)
    requires s.Valid() && s.values == before + [a]
    ensures s.indexes[a] - 1 == |before|
  {
    assert s.values[|before|] == a;
  }

  lemma NothingMarked(buckets: seq<nat>, values: seq<Address>)
    requires forall b :: 0 <= b < |buckets| ==> buckets[b] == 0
    ensures Marks(buckets, values, [])
  {
    forall b: nat, k: nat | b < |buckets|
      ensures !Bit(buckets[b], k)
    {
      NoBitsInZero(k);
    }
  }

  /** `_updateActiveValidatorSet`. */
  method UpdateActiveValidatorSet(h: Storage, newValidatorSet: seq<Address>,
                                  epochNumber: nat) returns (r: Result<Storage>)
    requires h.Valid()
    ensures r.Revert? ==> Install(h.View(), newValidatorSet, epochNumber) == Revert(r.reason)
    ensures r.Ok? ==> r.value.Valid() && Install(h.View(), newValidatorSet, epochNumber) == Ok(r.value.View())
  {
    if h.latestKnownEpoch > 0 && epochNumber > 0 {
      if epochNumber != h.latestKnownEpoch + 1 {
        return Revert("bad epoch");
      }
    }
    var collected :- CollectBuckets(h.all, newValidatorSet);
    var (all, buckets) := collected;
    var oldBitmap := h.BitmapAt(epochNumber);
    var bitmap: Bitmap := oldBitmap;
    for i := 0 to |buckets|
      invariant forall b: nat :: Bucket(bitmap, b) == if b < i then buckets[b] else Bucket(oldBitmap, b)
    {
      bitmap := bitmap[i := buckets[i]];
    }
    var h' := Storage(all, h.activeValidators[epochNumber := bitmap],
                      h.validatorCount[epochNumber := |newValidatorSet|],
                      h.epochCheckpoints, epochNumber);
    Installed(h, h', newValidatorSet, epochNumber, buckets, bitmap);
    return Ok(h');
  }

  lemma Installed(h: Storage, h': Storage, list: seq<Address>, epoch: nat, buckets: seq<nat>, bitmap: Bitmap)
    requires h.Valid() && h'.all.Valid() && h'.all.values == AppendNew(h.all.values, list)
    requires |h'.all.values| <= Capacity(|h.all.values|)
    requires |buckets| == |h.all.values| / 256 + 1 && Marks(buckets, h'.all.values, list)
    requires forall b: nat :: Bucket(bitmap, b) == if b < |buckets| then buckets[b] else Bucket(h.BitmapAt(epoch), b)
    requires h'.activeValidators == h.activeValidators[epoch := bitmap]
    ensures h'.Valid()
    ensures h'.View().known == AppendNew(h.View().known, list)
    ensures h'.View().sets == h.View().sets[epoch := Members(list)]
  {
    var values, more := h.all.values, h'.all.values;
    AppendNewMembers(values, list);
    EmptyWithin(|values|);
    BucketsStand(h.BitmapAt(epoch), bitmap, buckets, |values|, more, list);
    forall e | e in h.activeValidators
      ensures Marked(more, h.activeValidators[e]) == Marked(values, h.activeValidators[e])
      ensures Within(h.activeValidators[e], |more|)
    {
      MarkedStable(values, more, h.activeValidators[e]);
    }
    SetsAfter(h, h', epoch, bitmap, Members(list));
  }

  lemma SetsAfter(h: Storage, h': Storage, epoch: nat, bitmap: Bitmap, members: set<Address>)
    requires h'.activeValidators == h.activeValidators[epoch := bitmap]
    requires Marked(h'.all.values, bitmap) == members && Within(bitmap, |h'.all.values|)
    requires forall e :: e in h.activeValidators ==>
      Marked(h'.all.values, h.activeValidators[e]) == Marked(h.all.values, h.activeValidators[e])
      && Within(h.activeValidators[e], |h'.all.values|)
    ensures h'.View().sets == h.View().sets[epoch := members]
    ensures forall e :: e in h'.activeValidators ==> Within(h'.activeValidators[e], |h'.all.values|)
  {
  }

  lemma EmptyWithin(n: nat)
    ensures Within(map[], n)
  {
    forall b: nat, k: nat
      ensures !Bit(Bucket(map[], b), k)
    {
      NoBitsInZero(k);
    }
  }

  // ---------- reading a set back ----------

  lemma SetAtIsMarked(h: Storage, epoch: nat)
    requires h.Valid()
    ensures h.View().SetAt(epoch) == Marked(h.all.values, h.BitmapAt(epoch))
    ensures Within(h.BitmapAt(epoch), |h.all.values|)
  {
    EmptyWithin(|h.all.values|);
    if epoch !in h.activeValidators {
      forall i: nat | i < |h.all.values|
        ensures !Get(map[], i)
      {
        NoBitsInZero(i % 256);
      }
    }
  }

  lemma {:induction false} InOrderSkips(values: seq<Address>, s: set<Address>, a: nat, b: nat)
    requires a <= b <= |values|
    requires forall i :: a <= i < b ==> values[i] !in s
    ensures InOrder(values[..b], s) == InOrder(values[..a], s)
    decreases b
  {
    if a < b {
      assert values[..b][..b - 1] == values[..b - 1];
      InOrderSkips(values, s, a, b - 1);
    }
  }

  lemma InOrderTakes(values: seq<Address>, s: set<Address>, a: nat)
    requires a < |values| && values[a] in s
    ensures InOrder(values[..a + 1], s) == InOrder(values[..a], s) + [values[a]]
  {
    assert values[..a + 1][..a] == values[..a];
  }

  lemma {:induction false} InOrderLength(known: seq<Address>, s: set<Address>)
    ensures |InOrder(known, s)| <= |known|
  {
    if known != [] {
      InOrderLength(known[..|known| - 1], s);
    }
  }

  /** The bits of a bucket that are still to be read: those from `pos` on. */
  ghost predicate Rest(bucket: nat, word: nat, pos: nat) {
    forall k: nat :: Bit(bucket, k) <==> Bit(word, k) && k >= pos
  }

  lemma RestAfter(bucket: nat, word: nat, pos: nat, z: nat)
    requires Rest(bucket, word, pos) && IsLowestBit(bucket, z)
    ensures z >= pos && Rest(Xor(bucket, Pow2(z)), word, z + 1)
    ensures forall k :: pos <= k < z ==> !Bit(word, k)
  {
    forall k: nat
      ensures Bit(Xor(bucket, Pow2(z)), k) <==> Bit(word, k) && k >= z + 1
    {
      BitOfXor(bucket, Pow2(z), k);
      BitOfPow2(z, k);
      if k < z {
        assert !Bit(bucket, k);
      }
    }
    forall k | pos <= k < z
      ensures !Bit(word, k)
    {
      assert !Bit(bucket, k);
    }
  }

  function Min(a: nat, b: nat): nat {
    if a < b then a else b
  }

  /** One bucket: its active addresses follow those of the buckets before it. */
  method ExtractBucket(values: seq<Address>, ghost bm: Bitmap, ghost s: set<Address>, b: nat, word: nat,
                       found: seq<Address>)
    returns (found': seq<Address>)
    requires Within(bm, |values|) && s == Marked(values, bm) && NoDuplicates(values) && word == Bucket(bm, b)
    requires 256 * b <= |values| && found == InOrder(values[..256 * b], s)
    ensures found' == InOrder(values[..Min(|values|, 256 * b + 256)], s)
  {
    found' := found;
    var bucket := word;
    ghost var pos: nat := 0;
    while bucket != 0
      invariant pos <= 256 && 256 * b + pos <= |values|
      invariant Rest(bucket, word, pos)
      invariant found' == InOrder(values[..256 * b + pos], s)
      decreases 256 - pos
    {
      RestWithin(values, bm, b, bucket, word, pos);
      var zeroes := Ctz(bucket);
      RestAfter(bucket, word, pos, zeroes);
      BucketHead(values, bm, s, b, pos, zeroes);
      bucket := Xor(bucket, Pow2(zeroes));
      found' := found' + [values[256 * b + zeroes]];
      pos := zeroes + 1;
    }
    forall k: nat | pos <= k
      ensures !Bit(word, k)
    {
      NoBitsInZero(k);
    }
    BucketTail(values, bm, s, b, pos);
  }

  lemma RestWithin(values: seq<Address>, bm: Bitmap, b: nat, bucket: nat, word: nat, pos: nat)
    requires Within(bm, |values|) && word == Bucket(bm, b) && Rest(bucket, word, pos)
    ensures IsWord(bucket)
    ensures forall k: nat :: Bit(bucket, k) ==> Bit(word, k) && 256 * b + k < |values|
  {
    forall k: nat | Bit(bucket, k)
      ensures Bit(word, k) && k < 256 && 256 * b + k < |values|
    {
      assert Bit(Bucket(bm, b), k);
    }
  }

  lemma BucketTail(values: seq<Address>, bm: Bitmap, s: set<Address>, b: nat, pos: nat)
    requires s == Marked(values, bm) && NoDuplicates(values) && pos <= 256 && 256 * b + pos <= |values|
    requires forall k: nat :: pos <= k ==> !Bit(Bucket(bm, b), k)
    ensures InOrder(values[..Min(|values|, 256 * b + 256)], s) == InOrder(values[..256 * b + pos], s)
  {
    var from, to := 256 * b + pos, Min(|values|, 256 * b + 256);
    forall i | from <= i < to
      ensures values[i] !in s
    {
      MarkedAt(values, bm, i);
      assert i / 256 == b && i % 256 == i - 256 * b;
    }
    InOrderSkips(values, s, from, to);
  }

  /** The next bit of a bucket names the next active address. */
  lemma BucketHead(values: seq<Address>, bm: Bitmap, s: set<Address>, b: nat, pos: nat, z: nat)
    requires s == Marked(values, bm) && NoDuplicates(values)
    requires pos <= z < 256 && 256 * b + z < |values|
    requires Bit(Bucket(bm, b), z) && forall k :: pos <= k < z ==> !Bit(Bucket(bm, b), k)
    ensures InOrder(values[..256 * b + z + 1], s) == InOrder(values[..256 * b + pos], s) + [values[256 * b + z]]
  {
    BucketMembers(values, bm, s, b, pos, z);
    InOrderSkips(values, s, 256 * b + pos, 256 * b + z);
    InOrderTakes(values, s, 256 * b + z);
  }

  /** Membership of the addresses of one bucket, read from its bits. */
  lemma BucketMembers(values: seq<Address>, bm: Bitmap, s: set<Address>, b: nat, pos: nat, z: nat)
    requires s == Marked(values, bm) && NoDuplicates(values)
    requires pos <= z < 256 && 256 * b + z < |values|
    requires Bit(Bucket(bm, b), z) && forall k :: pos <= k < z ==> !Bit(Bucket(bm, b), k)
    ensures values[256 * b + z] in s
    ensures forall i :: 256 * b + pos <= i < 256 * b + z ==> values[i] !in s
  {
    forall i | 256 * b + pos <= i <= 256 * b + z
      ensures values[i] in s <==> i == 256 * b + z
    {
      MarkedAt(values, bm, i);
      assert i / 256 == b && i % 256 == i - 256 * b;
    }
  }

  /** `_extractActiveValidators`: the members of the epoch's set, in the order they were first seen. */
  method ExtractActiveValidators(h: Storage, epoch: nat) returns (list: seq<Address>)
    requires h.Valid()
    ensures list == InOrder(h.View().known, h.View().SetAt(epoch))
  {
    var values, bm := h.all.values, h.BitmapAt(epoch);
    var totalBuckets := |values| / 256 + 1;
    ghost var s := h.View().SetAt(epoch);
    SetAtIsMarked(h, epoch);
    list := [];
    for i := 0 to totalBuckets
      invariant i < totalBuckets ==> 256 * i <= |values|
      invariant list == InOrder(values[..Min(|values|, 256 * i)], s)
    {
      list := ExtractBucket(values, bm, s, i, Bucket(bm, i), list);
    }
    assert values[..|values|] == values;
  }

  /** What extraction promises, read off the view: the set itself, each member once. */
  lemma ExtractedIsInstalled(h: Storage, list: seq<Address>, epoch: nat)
    requires h.Valid() && list == InOrder(h.View().known, h.View().SetAt(epoch))
    ensures Members(list) == h.View().SetAt(epoch) && NoDuplicates(list)
  {
    SetAtIsMarked(h, epoch);
    InOrderIsSet(h.all.values, h.View().SetAt(epoch));
    assert h.View().SetAt(epoch) <= Members(h.all.values);
  }
}
