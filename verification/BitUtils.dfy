/** 256-bit words as numbers, with the bitwise operators the contracts use, and BitUtils.sol. */
module BitUtils {

  function Pow2(k: nat): (p: nat)
    ensures p > 0
  {
    if k == 0 then 1 else 2 * Pow2(k - 1)
  }

  /** Bit k of a number. */
  predicate Bit(n: nat, k: nat) {
    if k == 0 then n % 2 == 1 else Bit(n / 2, k - 1)
  }

  /** n & m. */
  function And(n: nat, m: nat): nat {
    if n == 0 then 0 else 2 * And(n / 2, m / 2) + (if n % 2 == 1 && m % 2 == 1 then 1 else 0)
  }

  /** n | m. */
  function Or(n: nat, m: nat): nat
    decreases n + m
  {
    if n == 0 && m == 0 then 0 else 2 * Or(n / 2, m / 2) + (if n % 2 == 1 || m % 2 == 1 then 1 else 0)
  }

  /** n ^ m. */
  function Xor(n: nat, m: nat): nat
    decreases n + m
  {
    if n == 0 && m == 0 then 0 else 2 * Xor(n / 2, m / 2) + (if n % 2 != m % 2 then 1 else 0)
  }

  /** n >> k. */
  function Shr(n: nat, k: nat): nat {
    if k == 0 then n else Shr(n / 2, k - 1)
  }

  lemma {:induction false} NoBitsInZero(k: nat)
    ensures !Bit(0, k)
  {
    if k > 0 {
      NoBitsInZero(k - 1);
    }
  }

  lemma {:induction false} BitOfAnd(n: nat, m: nat, k: nat)
    ensures Bit(And(n, m), k) <==> Bit(n, k) && Bit(m, k)
  {
    if n == 0 {
      NoBitsInZero(k);
    } else if k > 0 {
      BitOfAnd(n / 2, m / 2, k - 1);
    }
  }

  lemma {:induction false} BitOfOr(n: nat, m: nat, k: nat)
    ensures Bit(Or(n, m), k) <==> Bit(n, k) || Bit(m, k)
  {
    if n == 0 && m == 0 {
      NoBitsInZero(k);
    } else if k > 0 {
      BitOfOr(n / 2, m / 2, k - 1);
    }
  }

  lemma {:induction false} BitOfXor(n: nat, m: nat, k: nat)
    ensures Bit(Xor(n, m), k) <==> Bit(n, k) != Bit(m, k)
  {
    if n == 0 && m == 0 {
      NoBitsInZero(k);
    } else if k > 0 {
      BitOfXor(n / 2, m / 2, k - 1);
    }
  }

  lemma {:induction false} BitOfShr(n: nat, s: nat, k: nat)
    ensures Bit(Shr(n, s), k) <==> Bit(n, s + k)
  {
    if s > 0 {
      BitOfShr(n / 2, s - 1, k);
    }
  }

  lemma {:induction false} BitOfPow2(s: nat, k: nat)
    ensures Bit(Pow2(s), k) <==> k == s
  {
    if s == 0 && k > 0 {
      NoBitsInZero(k - 1);
    } else if s > 0 && k > 0 {
      BitOfPow2(s - 1, k - 1);
    }
  }

  /** The mask of the low s bits. */
  function Ones(s: nat): nat {
    Pow2(s) - 1
  }

  lemma {:induction false} BitOfOnes(s: nat, k: nat)
    ensures Bit(Ones(s), k) <==> k < s
  {
    if s == 0 {
      NoBitsInZero(k);
    } else if k > 0 {
      assert Ones(s) / 2 == Ones(s - 1);
      BitOfOnes(s - 1, k - 1);
    }
  }

  /** A number is zero exactly when it has no bit. */
  lemma {:induction false} SomeBit(n: nat) returns (k: nat)
    requires n > 0
    ensures Bit(n, k)
  {
    if n % 2 == 1 {
      k := 0;
    } else {
      k := SomeBit(n / 2);
      k := k + 1;
    }
  }

  /** All bits lie below 256. */
  ghost predicate IsWord(n: nat) {
    forall k :: Bit(n, k) ==> k < 256
  }

  ghost predicate IsLowestBit(n: nat, k: nat) {
    Bit(n, k) && forall j :: 0 <= j < k ==> !Bit(n, j)
  }

  lemma LowBits(num: nat, s: nat)
    ensures forall k: nat :: Bit(And(num, Ones(s)), k) <==> Bit(num, k) && k < s
  {
    forall k: nat
      ensures Bit(And(num, Ones(s)), k) <==> Bit(num, k) && k < s
    {
      BitOfAnd(num, Ones(s), k);
      BitOfOnes(s, k);
    }
  }

  lemma ShiftedBits(num: nat, s: nat)
    ensures forall k: nat :: Bit(Shr(num, s), k) <==> Bit(num, s + k)
    ensures forall k: nat :: !Bit(0, k)
  {
    forall k: nat
      ensures Bit(Shr(num, s), k) <==> Bit(num, s + k)
      ensures !Bit(0, k)
    {
      BitOfShr(num, s, k);
      NoBitsInZero(k);
    }
  }

  /** One halving step of `ctz`: when the low s bits are all zero they are shifted out. */
  method SkipZeroes(num: nat, n: nat, s: nat, ghost word: nat) returns (num': nat, n': nat)
    requires s > 0 && (exists k :: 0 <= k < 2 * s && Bit(num, k))
    requires forall k :: Bit(num, k) <==> Bit(word, n + k)
    requires forall j :: 0 <= j < n ==> !Bit(word, j)
    ensures exists k :: 0 <= k < s && Bit(num', k)
    ensures forall k :: Bit(num', k) <==> Bit(word, n' + k)
    ensures forall j :: 0 <= j < n' ==> !Bit(word, j)
  {
    var low := And(num, Ones(s));
    LowBits(num, s);
    if low == 0 {
      ShiftedBits(num, s);
      num', n' := Shr(num, s), n + s;
      ghost var k :| 0 <= k < 2 * s && Bit(num, k);
      assert Bit(Shr(num, s), k - s);
      forall j | 0 <= j < n'
        ensures !Bit(word, j)
      {
        if j >= n {
          assert !Bit(num, j - n);
        }
      }
    } else {
      num', n' := num, n;
      ghost var k := SomeBit(low);
      assert k < s && Bit(num, k);
    }
  }

  /** `ctz`: the index of the lowest one bit, found by eight halving steps; 256 for zero. */
  method Ctz(word: nat) returns (n: nat)
    requires IsWord(word)
    ensures word == 0 ==> n == 256
    ensures word > 0 ==> IsLowestBit(word, n) && n < 256
  {
    if word == 0 {
      return 256;
    }
    ghost var k := SomeBit(word);
    var num: nat;
    num, n := SkipZeroes(word, 0, 128, word);
    num, n := SkipZeroes(num, n, 64, word);
    num, n := SkipZeroes(num, n, 32, word);
    num, n := SkipZeroes(num, n, 16, word);
    num, n := SkipZeroes(num, n, 8, word);
    num, n := SkipZeroes(num, n, 4, word);
    num, n := SkipZeroes(num, n, 2, word);
    num, n := SkipZeroes(num, n, 1, word);
    assert Bit(num, 0);
  }
}
