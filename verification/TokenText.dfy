/** Token names and symbols as they travel between chains: packed into a word by StringUtils.sol, and
    unpacked by SimpleToken.sol, which looks for the last non-zero byte by halving. */
module TokenText {
  import opened Bytes

  const ZERO_WORD := seq(32, _ => 0 as Byte)

  type Bytes32 = s: seq<Byte> | |s| == 32 witness ZERO_WORD

  /** `stringToBytes32`: the word at the start of the string's bytes. A shorter string is padded with
      zeros, a longer one is cut. */
  function Pack(s: seq<Byte>): Bytes32 {
    Slice(s, 0, 32)
  }

  predicate IsZero(w: Bytes32) {
    forall i :: 0 <= i < 32 ==> w[i] == 0
  }

  /** The halving search from step i on, when `cnt` is reached. */
  function Search(w: Bytes32, cnt: nat, i: nat): (r: nat)
    requires cnt + 2 * i <= 32 && cnt < 32
    ensures cnt <= r <= cnt + 2 * i && r < 32
    ensures i > 0 ==> r < cnt + 2 * i
    decreases i
  {
    if i == 0 then cnt
    else Search(w, if w[cnt + i] != 0 then cnt + i else cnt, i / 2)
  }

  function Unpack(w: Bytes32): seq<Byte> {
    if IsZero(w) then [] else w[..Search(w, 0, 16) + 1]
  }

  /** `bytes32ToString`. */
  method BytesToString(w: Bytes32) returns (result: seq<Byte>)
    ensures result == Unpack(w)
  {
    if w == ZERO_WORD {
      assert IsZero(w);
      return [];
    }
    assert !IsZero(w);
    var cntNonZero := 0;
    var i := 16;
    while i > 0
      invariant 0 <= i && 0 <= cntNonZero < 32 && cntNonZero + 2 * i <= 32
      invariant Search(w, cntNonZero, i) == Search(w, 0, 16)
    {
      if w[cntNonZero + i] != 0 {
        cntNonZero := cntNonZero + i;
      }
      i := i / 2;
    }
    result := CopyFirst(w, cntNonZero + 1);
  }

  /** The buffer for the text is filled byte by byte. */
  method CopyFirst(w: Bytes32, n: nat) returns (result: seq<Byte>)
    requires n <= 32
    ensures result == w[..n]
  {
    var buffer := new Byte[n](k requires 0 <= k < n => w[k]);
    assert buffer[..] == w[..n];
    return buffer[..];
  }

  /** The way to position n: the search steps forward exactly where a bit of n is set, and must find a
      non-zero byte at every position it steps on. */
  predicate Reaches(w: Bytes32, cnt: nat, i: nat, n: nat)
    requires cnt <= n < 32 && cnt + 2 * i <= 32
    decreases i
  {
    if i == 0 then cnt == n
    else if cnt + i <= n then w[cnt + i] != 0 && Reaches(w, cnt + i, i / 2, n)
    else Reaches(w, cnt, i / 2, n)
  }

  predicate ZeroBehind(w: Bytes32, n: nat) {
    forall k :: n < k < 32 ==> w[k] == 0
  }

  /** In a word that is zero behind n the search ends at n exactly if the way leads there. */
  lemma {:induction false} SearchFinds(w: Bytes32, cnt: nat, i: nat, n: nat)
    requires cnt <= n < 32 && cnt + 2 * i <= 32 && ZeroBehind(w, n)
    ensures Search(w, cnt, i) == n <==> Reaches(w, cnt, i, n)
    decreases i
  {
    if i > 0 {
      if cnt + i <= n && w[cnt + i] != 0 {
        SearchFinds(w, cnt + i, i / 2, n);
      } else if cnt + i > n {
        SearchFinds(w, cnt, i / 2, n);
      } else {
        SearchBelow(w, cnt, i);
      }
    }
  }

  /** A step not taken is never made up for. */
  lemma SearchBelow(w: Bytes32, cnt: nat, i: nat)
    requires cnt + 2 * i <= 32 && i > 0 && w[cnt + i] == 0
    ensures Search(w, cnt, i) < cnt + i
  {
  }

  /** The text can be found again: its last byte is not zero, nor is a byte on the way to it. */
  predicate Findable(s: seq<Byte>)
    requires 0 < |s| <= 32
  {
    s[|s| - 1] != 0 && Reaches(Pack(s), 0, 16, |s| - 1)
  }

  /** Text survives packing and unpacking exactly if it has at most 32 bytes and can be found again. */
  lemma {:induction false} RoundTrip(s: seq<Byte>)
    ensures Unpack(Pack(s)) == s <==> |s| <= 32 && (s == [] || Findable(s))
  {
    if s == [] {
      assert IsZero(Pack(s));
    } else if |s| <= 32 {
      RoundTripOf(s, Pack(s), |s| - 1);
    }
  }

  lemma {:induction false} RoundTripOf(s: seq<Byte>, w: Bytes32, n: nat)
    requires 0 < |s| <= 32 && n == |s| - 1 && w == Pack(s)
    ensures Unpack(w) == s <==> Findable(s)
  {
    assert w[..n + 1] == s;
    assert w[n] == s[n];
    SearchFinds(w, 0, 16, n);
    if Unpack(w) == s {
      LastByte(w, n);
    }
  }

  /** Where the search ends in a word that is not zero, the byte is not zero if it is the last one. */
  lemma {:induction false} LastByte(w: Bytes32, n: nat)
    requires n < 32 && !IsZero(w) && ZeroBehind(w, n) && Search(w, 0, 16) == n
    ensures w[n] != 0
  {
    if n == 0 {
    } else {
      EndsOnNonZero(w, 0, 16);
    }
  }

  lemma {:induction false} EndsOnNonZero(w: Bytes32, cnt: nat, i: nat)
    requires cnt + 2 * i <= 32 && cnt < 32
    ensures Search(w, cnt, i) == cnt || w[Search(w, cnt, i)] != 0
    decreases i
  {
    if i > 0 {
      EndsOnNonZero(w, if w[cnt + i] != 0 then cnt + i else cnt, i / 2);
    }
  }

  /** A step: 0 or a power of two up to 16. */
  predicate IsStep(i: nat) {
    i == 0 || i == 1 || i == 2 || i == 4 || i == 8 || i == 16
  }

  /** Text without zero bytes can always be found again. */
  lemma {:induction false} NonZeroText(s: seq<Byte>)
    requires |s| <= 32 && forall k :: 0 <= k < |s| ==> s[k] != 0
    ensures Unpack(Pack(s)) == s
  {
    RoundTrip(s);
    if s != [] {
      NonZeroReaches(s, Pack(s), 0, 16);
    }
  }

  lemma {:induction false} NonZeroReaches(s: seq<Byte>, w: Bytes32, cnt: nat, i: nat)
    requires 0 < |s| <= 32 && w == Pack(s) && forall k :: 0 <= k < |s| ==> s[k] != 0
    requires cnt < |s| && |s| <= cnt + (if i == 0 then 1 else 2 * i) && cnt + 2 * i <= 32 && IsStep(i)
    ensures Reaches(w, cnt, i, |s| - 1)
    decreases i
  {
    if i > 0 {
      if cnt + i < |s| {
        assert w[cnt + i] == s[cnt + i];
        NonZeroReaches(s, w, cnt + i, i / 2);
      } else {
        NonZeroReaches(s, w, cnt, i / 2);
      }
    }
  }

  /** One hop of a pegged token: unpacked from the token, packed into the event. */
  function Hop(w: Bytes32): Bytes32 {
    Pack(Unpack(w))
  }

  /** Whatever the first hop makes of a word, later hops keep it. */
  lemma {:induction false} HopTwice(w: Bytes32)
    ensures Hop(Hop(w)) == Hop(w)
  {
    var h := Hop(w);
    if IsZero(w) || IsZero(h) {
      assert forall i :: 0 <= i < 32 ==> Pack([])[i] == 0;
      assert IsZero(h);
      assert Hop(h) == Pack([]);
      assert h == Pack([]);
    } else {
      SameSearch(w, h, Search(w, 0, 16) + 1, 0, 16);
      assert h[..Search(w, 0, 16) + 1] == w[..Search(w, 0, 16) + 1];
    }
  }

  /** Cutting a word behind the position found does not change the search. */
  lemma {:induction false} SameSearch(w: Bytes32, h: Bytes32, n: nat, cnt: nat, i: nat)
    requires cnt + 2 * i <= 32 && cnt < 32 && Search(w, cnt, i) < n <= 32
    requires forall k :: 0 <= k < 32 ==> h[k] == if k < n then w[k] else 0
    ensures Search(h, cnt, i) == Search(w, cnt, i)
    decreases i
  {
    if i > 0 {
      SameSearch(w, h, n, if w[cnt + i] != 0 then cnt + i else cnt, i / 2);
    }
  }
}
