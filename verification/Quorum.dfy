/** `checkValidatorsAndQuorumReached` (contracts/RelayHub.sol): counting distinct signers with a bitmap. */
module Quorum {
  import opened BitUtils
  import opened Header
  import opened ValidatorHistory
  import opened HistoryStorage
  import opened Wrappers

  /** One of the signers has an index past the given number of words. */
  ghost predicate SomeBeyond(values: seq<Address>, words: nat, signers: set<Address>) {
    values != [] &&
    var n := |values| - 1;
    (SomeBeyond(values[..n], words, signers) || (256 * words <= n && values[n] in signers))
  }

  lemma {:induction false} BeyondMeans(values: seq<Address>, words: nat, signers: set<Address>)
    ensures SomeBeyond(values, words, signers) <==> exists i :: 256 * words <= i < |values| && values[i] in signers
  {
    if values != [] {
      var n := |values| - 1;
      BeyondMeans(values[..n], words, signers);
      if exists i :: 256 * words <= i < |values| && values[i] in signers {
        var i :| 256 * words <= i < |values| && values[i] in signers;
        assert i < n ==> values[..n][i] in signers;
      }
    }
  }

  /** A signer has no bit in `markedValidators`, which is sized by the epoch's count. */
  ghost predicate OutOfRange(v: History, signers: set<Address>, epoch: nat) {
    SomeBeyond(v.known, (v.CountAt(epoch) + 255) / 256, signers)
  }

  /** Two thirds, rounded down. */
  function Threshold(count: nat): nat {
    count * 2 / 3
  }

  /** The listed addresses that are active. */
  function Signers(v: History, list: seq<Address>, epoch: nat): set<Address> {
    Members(list) * v.SetAt(epoch)
  }

  /** The check on plain sets: distinct active signers against two thirds of the epoch's count; it
      reverts exactly when one of the signers is out of range. */
  ghost function CheckQuorum(v: History, list: seq<Address>, epoch: nat): Result<bool> {
    if OutOfRange(v, Signers(v, list, epoch), epoch) then Revert("")
    else Ok(|Signers(v, list, epoch)| >= Threshold(v.CountAt(epoch)))
  }

  /** The bits set so far: those of the signers met so far. */
  ghost predicate MarksSigners(marked: seq<nat>, values: seq<Address>, signers: set<Address>) {
    forall i: nat :: i < |values| ==> (BitAt(marked, i) <==> values[i] in signers)
  }

  lemma MarkSigner(marked: seq<nat>, values: seq<Address>, signers: set<Address>, index: nat)
    requires MarksSigners(marked, values, signers) && NoDuplicates(values)
    requires index < |values| && index / 256 < |marked|
    ensures MarksSigners(SetBit(marked, index), values, signers + {values[index]})
    ensures And(marked[index / 256], Pow2(index % 256)) == 0 <==> values[index] !in signers
  {
    forall i: nat | i < |values|
      ensures BitAt(SetBit(marked, index), i) <==> values[i] in signers + {values[index]}
    {
      if i / 256 < |marked| {
        BitAfterSet(marked, index, i / 256, i % 256);
      }
      assert BitAt(marked, i) <==> values[i] in signers;
    }
    var masked := And(marked[index / 256], Pow2(index % 256));
    BitOfAnd(marked[index / 256], Pow2(index % 256), index % 256);
    BitOfPow2(index % 256, index % 256);
    assert BitAt(marked, index) <==> values[index] in signers;
    NoBitsInZero(index % 256);
    if masked != 0 {
      var k := SomeBit(masked);
      BitOfAnd(marked[index / 256], Pow2(index % 256), k);
      BitOfPow2(index % 256, k);
    }
  }

  /** The address's index when it is active. */
  method FindSigner(all: AddressSet, bitMap: Bitmap, a: Address,
                    ghost active: set<Address>) returns (found: Option<nat>)
    requires all.Valid() && active == Marked(all.values, bitMap)
    ensures found == None <==> a !in active
    ensures found.Some? ==> found.value < |all.values| && all.values[found.value] == a
  {
    var rawIndex := if a in all.indexes then all.indexes[a] else 0;
    if a in all.indexes {
      all.IndexOf(a);
      MarkedAt(all.values, bitMap, rawIndex - 1);
    }
    if rawIndex == 0 || !Get(bitMap, rawIndex - 1) {
      return None;
    }
    return Some(rawIndex - 1);
  }

  /** Marks an active address and counts it when it was not marked before; reverts past the words. */
  method CountSigner(values: seq<Address>, index: nat, marked: seq<nat>, unique: nat, ghost signers: set<Address>)
    returns (ok: bool, marked': seq<nat>, unique': nat)
    requires MarksSigners(marked, values, signers) && unique == |signers| && NoDuplicates(values) && index < |values|
    ensures ok <==> index < 256 * |marked|
    ensures |marked'| == |marked|
    ensures ok ==> MarksSigners(marked', values, signers + {values[index]}) && unique' == |signers + {values[index]}|
  {
    if index / 256 >= |marked| {
      return false, marked, unique;
    }
    MarkSigner(marked, values, signers, index);
    unique' := unique;
    if And(marked[index / 256], Pow2(index % 256)) == 0 {
      unique' := unique + 1;
    } else {
      assert signers + {values[index]} == signers;
    }
    return true, SetBit(marked, index), unique';
  }

  lemma BeyondGrows(values: seq<Address>, words: nat, signers: set<Address>, index: nat)
    requires NoDuplicates(values) && index < |values|
    ensures SomeBeyond(values, words, signers + {values[index]}) <==>
      SomeBeyond(values, words, signers) || index >= 256 * words
  {
    BeyondMeans(values, words, signers);
    BeyondMeans(values, words, signers + {values[index]});
    if SomeBeyond(values, words, signers) {
      var i :| 256 * words <= i < |values| && values[i] in signers;
      assert values[i] in signers + {values[index]};
    }
    if index >= 256 * words {
      assert values[index] in signers + {values[index]};
    }
  }

  lemma BeyondMonotone(values: seq<Address>, words: nat, a: set<Address>, b: set<Address>)
    requires a <= b
    ensures SomeBeyond(values, words, a) ==> SomeBeyond(values, words, b)
  {
    BeyondMeans(values, words, a);
    BeyondMeans(values, words, b);
  }

  lemma OneMoreMember(list: seq<Address>, i: nat, active: set<Address>)
    requires i < |list|
    ensures Members(list[..i + 1]) * active == Members(list[..i]) * active + {list[i]} * active
    ensures Members(list[..i + 1]) * active <= Members(list) * active
  {
    assert list[..i + 1] == list[..i] + [list[i]];
  }

  /** One round: an outsider is skipped, an active address is counted unless it was before. */
  method CountListed(all: AddressSet, bitMap: Bitmap, a: Address, marked: seq<nat>, unique: nat,
                     ghost active: set<Address>, ghost signers: set<Address>)
    returns (ok: bool, marked': seq<nat>, unique': nat)
    requires all.Valid() && active == Marked(all.values, bitMap)
    requires MarksSigners(marked, all.values, signers) && unique == |signers| &&
      !SomeBeyond(all.values, |marked|, signers)
    ensures |marked'| == |marked|
    ensures ok <==> !SomeBeyond(all.values, |marked|, signers + {a} * active)
    ensures ok ==> MarksSigners(marked', all.values, signers + {a} * active) && unique' == |signers + {a} * active|
  {
    var found := FindSigner(all, bitMap, a, active);
    if found == None {
      assert signers + {a} * active == signers;
      return true, marked, unique;
    }
    assert {a} * active == {a};
    BeyondGrows(all.values, |marked|, signers, found.value);
    ok, marked', unique' := CountSigner(all.values, found.value, marked, unique, signers);
  }

  /** The loop. */
  method CountSigners(all: AddressSet, bitMap: Bitmap, words: nat, list: seq<Address>, ghost active: set<Address>)
    returns (r: Result<nat>)
    requires all.Valid() && active == Marked(all.values, bitMap)
    ensures SomeBeyond(all.values, words, Members(list) * active) ==> r == Revert("")
    ensures !SomeBeyond(all.values, words, Members(list) * active) ==> r == Ok(|Members(list) * active|)
  {
    var unique := 0;
    var marked := seq(words, _ => 0);
    NothingMarkedYet(marked, all.values);
    BeyondMeans(all.values, words, {});
    ghost var signers: set<Address> := {};
    for i := 0 to |list|
      invariant |marked| == words
      invariant MarksSigners(marked, all.values, signers) && unique == |signers| &&
        !SomeBeyond(all.values, words, signers)
      invariant signers == Members(list[..i]) * active
    {
      OneMoreMember(list, i, active);
      var ok;
      ok, marked, unique := CountListed(all, bitMap, list[i], marked, unique, active, signers);
      signers := signers + {list[i]} * active;
      if !ok {
        BeyondMonotone(all.values, words, signers, Members(list) * active);
        return Revert("");
      }
    }
    assert list[..|list|] == list;
    return Ok(unique);
  }

  lemma NothingMarkedYet(marked: seq<nat>, values: seq<Address>)
    requires forall b :: 0 <= b < |marked| ==> marked[b] == 0
    ensures MarksSigners(marked, values, {})
  {
    forall i: nat | i < |values|
      ensures !BitAt(marked, i)
    {
      NoBitsInZero(i % 256);
    }
  }

  method CheckValidatorsAndQuorumReached(h: Storage, validatorSet: seq<Address>,
                                         epochNumber: nat) returns (r: Result<bool>)
    requires h.Valid()
    ensures r == CheckQuorum(h.View(), validatorSet, epochNumber)
  {
    SetAtIsMarked(h, epochNumber);
    var totalValidators := if epochNumber in h.validatorCount then h.validatorCount[epochNumber] else 0;
    ghost var active := h.View().SetAt(epochNumber);
    var words := (totalValidators + 0xff) / 256;
    var unique := CountSigners(h.all, h.BitmapAt(epochNumber), words, validatorSet, active);
    CheckedByCount(h.View(), validatorSet, epochNumber, active, words, totalValidators, unique);
    return if unique.Ok? then Ok(unique.value >= totalValidators * 2 / 3) else Revert("");
  }

  lemma {:induction false} CheckedByCount(v: History, list: seq<Address>, epoch: nat, active: set<Address>, words: nat,
                                          total: nat, unique: Result<nat>)
    requires active == v.SetAt(epoch) && total == v.CountAt(epoch) && words == (total + 255) / 256
    requires SomeBeyond(v.known, words, Members(list) * active) ==> unique == Revert("")
    requires !SomeBeyond(v.known, words, Members(list) * active) ==> unique == Ok(|Members(list) * active|)
    ensures CheckQuorum(v, list, epoch) == if unique.Ok? then Ok(unique.value >= total * 2 / 3) else Revert("")
  {
    assert Signers(v, list, epoch) == Members(list) * active;
    assert OutOfRange(v, Signers(v, list, epoch), epoch) <==> SomeBeyond(v.known, words, Members(list) * active);
  }

  // ---------- what the check means ----------

  /** Order, repetition and outsiders do not matter: lists with the same active members agree. */
  lemma QuorumIsAboutMembers(v: History, a: seq<Address>, b: seq<Address>, epoch: nat)
    requires forall x :: x in v.SetAt(epoch) ==> (x in a <==> x in b)
    ensures CheckQuorum(v, a, epoch) == CheckQuorum(v, b, epoch)
  {
    assert Signers(v, a, epoch) == Signers(v, b, epoch);
  }

  /** Without addresses out of range the check never reverts. */
  lemma InRangeNeverReverts(v: History, list: seq<Address>, epoch: nat)
    requires !OutOfRange(v, v.SetAt(epoch), epoch)
    ensures CheckQuorum(v, list, epoch) == Ok(|Signers(v, list, epoch)| >= Threshold(v.CountAt(epoch)))
  {
    BeyondMonotone(v.known, (v.CountAt(epoch) + 255) / 256, Signers(v, list, epoch), v.SetAt(epoch));
  }

  lemma {:induction false} SubsetSize<T>(a: set<T>, b: set<T>)
    requires a <= b
    ensures |a| <= |b|
  {
    if a != {} {
      var x :| x in a;
      SubsetSize(a - {x}, b - {x});
    }
  }

  /** More signers never undo a quorum, unless one of them makes the check revert. */
  lemma QuorumIsMonotone(v: History, a: seq<Address>, b: seq<Address>, epoch: nat)
    requires Members(a) <= Members(b) && CheckQuorum(v, a, epoch) == Ok(true)
    ensures CheckQuorum(v, b, epoch) == Ok(true) || CheckQuorum(v, b, epoch).Revert?
  {
    SubsetSize(Signers(v, a, epoch), Signers(v, b, epoch));
  }

  lemma {:induction false} OverlapSize<T>(a: set<T>, b: set<T>, n: set<T>)
    requires a <= n && b <= n
    ensures |a * b| + |n| >= |a| + |b|
  {
    assert a + b <= n;
    SubsetSize(a + b, n);
    assert |a + b| == |a| + |b| - |a * b|;
  }

  /** Two accepted signer lists of an epoch installed with n distinct validators share at least
      2 * floor(2n/3) - n active members; that is one or more for n = 3 and all n >= 5. */
  lemma QuorumsIntersect(v: History, a: seq<Address>, b: seq<Address>, epoch: nat)
    requires CheckQuorum(v, a, epoch) == Ok(true) && CheckQuorum(v, b, epoch) == Ok(true)
    requires v.CountAt(epoch) == |v.SetAt(epoch)|
    ensures var n := |v.SetAt(epoch)|;
      && |Signers(v, a, epoch) * Signers(v, b, epoch)| >= 2 * Threshold(n) - n
      && (n == 3 || n >= 5 ==> Meet(v, a, b, epoch))
  {
    var n, both := |v.SetAt(epoch)|, Signers(v, a, epoch) * Signers(v, b, epoch);
    OverlapSize(Signers(v, a, epoch), Signers(v, b, epoch), v.SetAt(epoch));
    assert |both| >= 2 * Threshold(n) - n;
    if n == 3 || n >= 5 {
      assert |both| >= 1;
      var x :| x in both;
    }
  }

  /** The two lists have an active member in common. */
  ghost predicate Meet(v: History, a: seq<Address>, b: seq<Address>, epoch: nat) {
    exists x :: x in a && x in b && x in v.SetAt(epoch)
  }

  /** A list of distinct active members is accepted if it is long enough. */
  lemma MembersAreAccepted(v: History, list: seq<Address>, epoch: nat)
    requires !OutOfRange(v, v.SetAt(epoch), epoch)
    requires Members(list) <= v.SetAt(epoch) && |Members(list)| >= Threshold(v.CountAt(epoch))
    ensures CheckQuorum(v, list, epoch) == Ok(true)
  {
    InRangeNeverReverts(v, list, epoch);
    assert Signers(v, list, epoch) == Members(list);
  }

  /** Up to two and with four validators there are two accepted lists without a common member. */
  lemma SmallQuorumsMayMiss(v: History, epoch: nat) returns (a: seq<Address>, b: seq<Address>)
    requires v.CountAt(epoch) == |v.SetAt(epoch)| && !OutOfRange(v, v.SetAt(epoch), epoch)
    requires |v.SetAt(epoch)| <= 2 || |v.SetAt(epoch)| == 4
    ensures CheckQuorum(v, a, epoch) == Ok(true) && CheckQuorum(v, b, epoch) == Ok(true)
    ensures !Meet(v, a, b, epoch)
  {
    var all := v.SetAt(epoch);
    a, b := [], [];
    if |all| >= 2 {
      var x :| x in all;
      assert |all - {x}| >= 1;
      var y :| y in all - {x};
      a, b := [x], [y];
      assert Members(a) == {x} && Members(b) == {y};
      if |all| == 4 {
        assert |all - {x} - {y}| == 2;
        var z :| z in all - {x} - {y};
        assert |all - {x} - {y} - {z}| == 1;
        var w :| w in all - {x} - {y} - {z};
        a, b := [x, z], [y, w];
        assert Members(a) == {x, z} && Members(b) == {y, w};
      }
    }
    MembersAreAccepted(v, a, epoch);
    MembersAreAccepted(v, b, epoch);
  }

  /** Every two accepted lists of an epoch with n distinct validators have an active member in common if
      and only if n is 3 or at least 5. */
  lemma QuorumsMeetExactly(v: History, epoch: nat)
    requires v.CountAt(epoch) == |v.SetAt(epoch)| && !OutOfRange(v, v.SetAt(epoch), epoch)
    ensures (forall a, b :: CheckQuorum(v, a, epoch) == Ok(true) && CheckQuorum(v, b, epoch) == Ok(true) ==>
               Meet(v, a, b, epoch))
      <==> |v.SetAt(epoch)| == 3 || |v.SetAt(epoch)| >= 5
  {
    if |v.SetAt(epoch)| == 3 || |v.SetAt(epoch)| >= 5 {
      forall a, b | CheckQuorum(v, a, epoch) == Ok(true) && CheckQuorum(v, b, epoch) == Ok(true)
        ensures Meet(v, a, b, epoch)
      {
        QuorumsIntersect(v, a, b, epoch);
      }
    } else {
      var a, b := SmallQuorumsMayMiss(v, epoch);
    }
  }

  // ---------- how much a quorum is worth ----------

  /** An accepted list holds at least two thirds, rounded down, of the count, all of them members. */
  lemma AcceptedListHoldsMembers(v: History, list: seq<Address>, epoch: nat)
    requires CheckQuorum(v, list, epoch) == Ok(true)
    ensures |Signers(v, list, epoch)| >= Threshold(v.CountAt(epoch))
    ensures v.CountAt(epoch) >= 2 ==> exists x :: x in list && x in v.SetAt(epoch)
  {
    if v.CountAt(epoch) >= 2 {
      assert |Signers(v, list, epoch)| >= 1;
      var x :| x in Signers(v, list, epoch);
    }
  }

  /** A list without any member is accepted exactly if the epoch's count is 0 or 1: two thirds of these,
      rounded down, are none. An epoch that was never recorded has count 0. */
  lemma StrangersAreAccepted(v: History, list: seq<Address>, epoch: nat)
    requires forall x :: x in list ==> x !in v.SetAt(epoch)
    ensures CheckQuorum(v, list, epoch) == Ok(v.CountAt(epoch) <= 1)
  {
    assert Signers(v, list, epoch) == {};
    BeyondMeans(v.known, (v.CountAt(epoch) + 255) / 256, {});
  }

  /** So accepted lists are sure to name a member exactly if the epoch has a count of two or more. */
  lemma QuorumNamesMember(v: History, epoch: nat)
    ensures (forall list :: CheckQuorum(v, list, epoch) == Ok(true) ==> Meet(v, list, list, epoch)) <==>
      v.CountAt(epoch) >= 2
  {
    if v.CountAt(epoch) >= 2 {
      forall list | CheckQuorum(v, list, epoch) == Ok(true)
        ensures Meet(v, list, list, epoch)
      {
        AcceptedListHoldsMembers(v, list, epoch);
      }
    } else {
      StrangersAreAccepted(v, [], epoch);
      assert !Meet(v, [], [], epoch);
    }
  }

  // ---------- when a quorum can be reached ----------

  /** The members of the epoch's set that have no mark: a list with one of them reverts. */
  function WithoutMark(v: History, epoch: nat): set<Address> {
    var first := 256 * ((v.CountAt(epoch) + 255) / 256);
    set i | first <= i < |v.known| && v.known[i] in v.SetAt(epoch) :: v.known[i]
  }

  /** The members whose signatures can be counted. */
  function Countable(v: History, epoch: nat): set<Address> {
    v.SetAt(epoch) - WithoutMark(v, epoch)
  }

  lemma OutOfRangeMeans(v: History, signers: set<Address>, epoch: nat)
    requires signers <= v.SetAt(epoch)
    ensures OutOfRange(v, signers, epoch) <==> signers * WithoutMark(v, epoch) != {}
  {
    var first := 256 * ((v.CountAt(epoch) + 255) / 256);
    BeyondMeans(v.known, (v.CountAt(epoch) + 255) / 256, signers);
    if exists i :: first <= i < |v.known| && v.known[i] in signers {
      var i :| first <= i < |v.known| && v.known[i] in signers;
      assert v.known[i] in signers * WithoutMark(v, epoch);
    }
    if signers * WithoutMark(v, epoch) != {} {
      var a :| a in signers * WithoutMark(v, epoch);
    }
  }

  lemma {:induction false} ListOf(s: set<Address>) returns (list: seq<Address>)
    ensures Members(list) == s
    decreases |s|
  {
    list := [];
    if s != {} {
      var a :| a in s;
      var rest := ListOf(s - {a});
      list := rest + [a];
      assert Members(list) == Members(rest) + {a};
    }
  }

  /** Some list of signers reaches the quorum of an epoch if and only if the members whose signatures can be
      counted are two thirds, rounded down, of its count. */
  lemma QuorumIsReachable(v: History, epoch: nat)
    ensures (exists list :: CheckQuorum(v, list, epoch) == Ok(true)) <==>
      |Countable(v, epoch)| >= Threshold(v.CountAt(epoch))
  {
    if exists list :: CheckQuorum(v, list, epoch) == Ok(true) {
      var list :| CheckQuorum(v, list, epoch) == Ok(true);
      OutOfRangeMeans(v, Signers(v, list, epoch), epoch);
      SubsetSize(Signers(v, list, epoch), Countable(v, epoch));
    }
    if |Countable(v, epoch)| >= Threshold(v.CountAt(epoch)) {
      var list := ListOf(Countable(v, epoch));
      assert Signers(v, list, epoch) == Countable(v, epoch);
      OutOfRangeMeans(v, Countable(v, epoch), epoch);
      assert CheckQuorum(v, list, epoch) == Ok(true);
    }
  }

  /** A list that repeats addresses until fewer than two thirds are distinct makes the quorum of its epoch
      unreachable. */
  lemma RepeatedListIsStuck(v: History, list: seq<Address>, epoch: nat)
    requires Install(v, list, epoch).Ok? && |Members(list)| < Threshold(|list|)
    ensures forall signers :: CheckQuorum(Install(v, list, epoch).value, signers, epoch) != Ok(true)
  {
    var w := Install(v, list, epoch).value;
    SubsetSize(Countable(w, epoch), Members(list));
    QuorumIsReachable(w, epoch);
  }
}
