/** The validator history of a chain (contracts/RelayHub.sol): one growing indexed set of addresses
    and one bitmap per epoch, refining a plain map from epochs to validator sets. */
module ValidatorHistory {
  import opened BitUtils
  import opened Header
  import opened Wrappers

  // ---------- the plain view ----------

  /** What the storage stands for: addresses in the order first seen, the validator set, list length
      and checkpoint of each epoch, and the latest epoch. */
  datatype History = History(known: seq<Address>, sets: map<nat, set<Address>>, counts: map<nat, nat>,
                             checkpoints: map<nat, Word>, latest: nat)
  {
    function SetAt(epoch: nat): set<Address> {
      if epoch in sets then sets[epoch] else {}
    }

    function CountAt(epoch: nat): nat {
      if epoch in counts then counts[epoch] else 0
    }
  }

  const EMPTY := History([], map[], map[], map[], 0)

  function Members(list: seq<Address>): set<Address> {
    set a | a in list
  }

  /** Addresses of the list not yet known, appended in order. */
  function AppendNew(known: seq<Address>, list: seq<Address>): (r: seq<Address>)
    ensures known <= r
  {
    if list == [] then known
    else
      var r, a := AppendNew(known, list[..|list| - 1]), list[|list| - 1];
      if a in r then r else r + [a]
  }

  /** Indices that fit the buckets sized before the update: the next multiple of 256 above L. */
  function Capacity(length: nat): nat {
    256 * (length / 256 + 1)
  }

  /** Installing a validator list for an epoch. Epochs go one by one, except that nothing is checked
      when the latest or the new epoch is 0. */
  function Install(v: History, list: seq<Address>, epoch: nat): Result<History> {
    if v.latest > 0 && epoch > 0 && epoch != v.latest + 1 then Revert("bad epoch")
    else if |AppendNew(v.known, list)| > Capacity(|v.known|) then Revert("")
    else Ok(v.(known := AppendNew(v.known, list), sets := v.sets[epoch := Members(list)],
               counts := v.counts[epoch := |list|], latest := epoch))
  }

  /** The members of s in first-seen order. */
  function InOrder(known: seq<Address>, s: set<Address>): (r: seq<Address>) {
    if known == [] then []
    else
      var r, a := InOrder(known[..|known| - 1], s), known[|known| - 1];
      if a in s then r + [a] else r
  }

  predicate NoDuplicates(list: seq<Address>) {
    forall i, j :: 0 <= i < j < |list| ==> list[i] != list[j]
  }

  lemma {:induction false} AppendNewMembers(known: seq<Address>, list: seq<Address>)
    ensures Members(AppendNew(known, list)) == Members(known) + Members(list)
    ensures NoDuplicates(known) ==> NoDuplicates(AppendNew(known, list))
  {
    if list != [] {
      var front, a := list[..|list| - 1], list[|list| - 1];
      AppendNewMembers(known, front);
      assert list == front + [a];
      assert Members(list) == Members(front) + {a};
      assert forall x :: x in AppendNew(known, front) <==> x in Members(known) + Members(front);
    }
  }

  lemma {:induction false} AppendNewGrows(known: seq<Address>, list: seq<Address>, i: nat)
    requires i <= |list|
    ensures AppendNew(known, list[..i]) <= AppendNew(known, list)
    decreases |list|
  {
    if i < |list| {
      AppendNewGrows(known, list[..|list| - 1], i);
      assert list[..|list| - 1][..i] == list[..i];
    } else {
      assert list[..i] == list;
    }
  }

  /** The ordered members are the set itself, without repetition. */
  lemma {:induction false} InOrderIsSet(known: seq<Address>, s: set<Address>)
    requires NoDuplicates(known)
    ensures Members(InOrder(known, s)) == Members(known) * s
    ensures NoDuplicates(InOrder(known, s))
  {
    if known != [] {
      var front, a := known[..|known| - 1], known[|known| - 1];
      InOrderIsSet(front, s);
      assert known == front + [a];
      assert Members(known) == Members(front) + {a};
      assert forall x :: x in InOrder(front, s) ==> x in Members(front) * s;
      if a in s {
        assert InOrder(known, s) == InOrder(front, s) + [a];
        assert Members(InOrder(known, s)) == Members(InOrder(front, s)) + {a};
      }
    }
  }

  // ---------- the storage ----------

  /** The address set of the library: values and their positions, counted from 1. */
  datatype AddressSet = AddressSet(values: seq<Address>, indexes: map<Address, nat>)
  {
    ghost predicate Valid() {
      && NoDuplicates(values)
      && indexes.Keys == Members(values)
      && forall i :: 0 <= i < |values| ==> indexes[values[i]] == i + 1
    }

    function Add(a: Address): (r: AddressSet)
      requires Valid()
      ensures r.Valid() && a in r.indexes
      ensures r.values == if a in values then values else values + [a]
    {
      if a in indexes then this else
        var r := AddressSet(values + [a], indexes[a := |values| + 1]);
        assert Members(r.values) == Members(values) + {a};
        r
    }

    /** The stored position is a real one. */
    lemma IndexOf(a: Address)
      requires Valid() && a in indexes
      ensures 1 <= indexes[a] <= |values| && values[indexes[a] - 1] == a
    {
      var i :| 0 <= i < |values| && values[i] == a;
    }
  }

  /** Buckets of 256 bits; a missing bucket is zero. */
  type Bitmap = map<nat, nat>

  function Bucket(bm: Bitmap, b: nat): nat {
    if b in bm then bm[b] else 0
  }

  /** `BitMaps.get`. */
  predicate Get(bm: Bitmap, index: nat) {
    Bit(Bucket(bm, index / 256), index % 256)
  }

  /** Every bit of the bitmap is the index of one of n addresses. */
  ghost predicate Within(bm: Bitmap, n: nat) {
    forall b: nat, k: nat :: Bit(Bucket(bm, b), k) ==> k < 256 && 256 * b + k < n
  }

  datatype Storage = Storage(all: AddressSet, activeValidators: map<nat, Bitmap>, validatorCount: map<nat, nat>,
                             epochCheckpoints: map<nat, Word>, latestKnownEpoch: nat)
  {
    ghost predicate Valid() {
      && all.Valid()
      && forall e :: e in activeValidators ==> Within(activeValidators[e], |all.values|)
    }

    function BitmapAt(epoch: nat): Bitmap {
      if epoch in activeValidators then activeValidators[epoch] else map[]
    }

    /** What the storage stands for. */
    function View(): History {
      History(all.values, map e | e in activeValidators :: Marked(all.values, activeValidators[e]),
              validatorCount, epochCheckpoints, latestKnownEpoch)
    }
  }

  const FRESH := Storage(AddressSet([], map[]), map[], map[], map[], 0)

  /** The addresses whose bits are set. */
  function Marked(values: seq<Address>, bm: Bitmap): set<Address> {
    set i | 0 <= i < |values| && Get(bm, i) :: values[i]
  }

  lemma FreshIsEmpty()
    ensures FRESH.Valid() && FRESH.View() == EMPTY
  {
  }

  lemma MarkedAt(values: seq<Address>, bm: Bitmap, i: nat)
    requires NoDuplicates(values) && i < |values|
    ensures values[i] in Marked(values, bm) <==> Get(bm, i)
  {
  }

  /** Later growth of the address set does not touch an old bitmap's meaning. */
  lemma MarkedStable(values: seq<Address>, more: seq<Address>, bm: Bitmap)
    requires values <= more && Within(bm, |values|)
    ensures Marked(more, bm) == Marked(values, bm) && Within(bm, |more|)
  {
    forall i | 0 <= i < |more| && Get(bm, i)
      ensures i < |values| && more[i] == values[i]
    {
      assert Bit(Bucket(bm, i / 256), i % 256);
    }
    forall i | 0 <= i < |values| && Get(bm, i)
      ensures more[i] == values[i]
    {
    }
  }
}
