/** RLPReader.sol: `copy` moves bytes word by word and blends the last word with what lies behind the
    destination. */
module RlpReaderCopy {
  import opened Bytes
  import opened Memory
  import opened RlpReader

  const WORD_SIZE := 32

  // ---------- words as bytes ----------

  /** A word without its low k bytes, and its low k bytes. */
  function High(x: nat, k: nat): nat {
    Quotient(x, Pow256(k))
  }

  function Low(x: nat, k: nat): nat {
    Remainder(x, Pow256(k))
  }

  lemma {:induction false} FixedBESplit(x: nat, n: nat, k: nat)
    ensures FixedBE(x, n + k) == FixedBE(High(x, k), n) + FixedBE(Low(x, k), k)
    decreases k
  {
    if k > 0 {
      FixedBESplit(x / 256, n, k - 1);
      SplitStep(x, k);
      assert FixedBE(x, n + k) == FixedBE(x / 256, n + (k - 1)) + [(x % 256) as Byte];
      assert FixedBE(Low(x, k), k) == FixedBE(Low(x / 256, k - 1), k - 1) + [(x % 256) as Byte];
    } else {
      QuotientIs(x, 1, x, 0);
    }
  }

  lemma SplitStep(x: nat, k: nat)
    requires k > 0
    ensures High(x, k) == High(x / 256, k - 1)
    ensures Low(x, k) / 256 == Low(x / 256, k - 1) && Low(x, k) % 256 == x % 256
  {
    var q, r, p := x / 256, x % 256, Pow256(k - 1);
    assert 256 * q + r == x && Pow256(k) == 256 * p;
    DivideTwice(q, r, p);
    RemainderTwice(q, r, p);
  }

  lemma RemainderTwice(q: nat, r: nat, p: nat)
    requires r < 256 && p > 0
    ensures Remainder(256 * q + r, 256 * p) == 256 * Remainder(q, p) + r
  {
    DivideTwice(q, r, p);
    QuotientSplits(q, p);
    QuotientSplits(256 * q + r, 256 * p);
    Scaled(Quotient(q, p), p);
  }

  lemma Scaled(d: nat, p: nat)
    ensures d * (256 * p) == 256 * (d * p)
  {
  }

  /** The high part of w with the low part of v. */
  function Blend(w: nat, v: nat, k: nat): nat {
    High(w, k) * Pow256(k) + Low(v, k)
  }

  lemma BlendParts(w: nat, v: nat, k: nat)
    ensures High(Blend(w, v, k), k) == High(w, k) && Low(Blend(w, v, k), k) == Low(v, k)
  {
    PartsOf(High(w, k), Low(v, k), Pow256(k));
  }

  lemma PartsOf(q: nat, r: nat, p: nat)
    requires r < p
    ensures Quotient(q * p + r, p) == q && Remainder(q * p + r, p) == r
  {
    QuotientIs(q * p + r, p, q, r);
    QuotientSplits(q * p + r, p);
  }

  /** A blended word spells the high bytes of one word and the low bytes of the other. */
  lemma {:induction false} BlendBytes(w: nat, v: nat, n: nat, k: nat, a: seq<Byte>, b: seq<Byte>)
    requires n + k == |a| == |b| && FixedBE(w, n + k) == a && FixedBE(v, n + k) == b
    ensures FixedBE(Blend(w, v, k), n + k) == a[..n] + b[n..]
  {
    FixedBESplit(w, n, k);
    FixedBESplit(v, n, k);
    FixedBESplit(Blend(w, v, k), n, k);
    BlendParts(w, v, k);
  }

  /** A word loaded and spelled out again. */
  lemma LoadSpelled(m: seq<Byte>, p: nat)
    ensures FixedBE(Load(m, p), WORD_SIZE) == Slice(m, p, WORD_SIZE)
  {
    FixedBEOfBE(Slice(m, p, WORD_SIZE));
  }

  // ---------- the copy ----------

  /** The distance from the source of the byte that ends up at distance j from the destination, d bytes
      further on: past the destination the copy reads what it wrote itself, so it starts over. */
  function Wrapped(j: nat, d: nat): (r: nat)
    requires d > 0
    ensures r < d && r <= j
    ensures j < d ==> r == j
  {
    if j < d then j else Wrapped(j - d, d)
  }

  /** The memory m after k bytes are copied; no other byte has changed. */
  ghost predicate Copied(m: seq<Byte>, cur: seq<Byte>, src: nat, dest: nat, k: nat) {
    && src < dest && dest + k <= |m| == |cur|
    && (forall i :: dest <= i < dest + k ==> cur[i] == m[src + Wrapped(i - dest, dest - src)])
    && (forall i :: 0 <= i < |m| && !(dest <= i < dest + k) ==> cur[i] == m[i])
  }

  lemma {:induction false} OverwrittenAt(s: seq<Byte>, at: nat, t: seq<Byte>, i: nat)
    requires at + |t| <= |s| && i < |s|
    ensures Overwrite(s, at, t)[i] == if at <= i < at + |t| then t[i - at] else s[i]
  {
  }

  /** The byte read next is the one meant, whether it lies in the old memory or in the copy. */
  lemma {:induction false} ReadsSource(m: seq<Byte>, cur: seq<Byte>, src: nat, dest: nat, k: nat, j: nat)
    requires Copied(m, cur, src, dest, k) && k <= j < k + (dest - src) && dest + j < |m|
    ensures cur[src + j] == m[src + Wrapped(j, dest - src)]
  {
    var d, i := dest - src, src + j;
    if i < dest {
      assert cur[i] == m[i];
    } else {
      assert cur[i] == m[src + Wrapped(i - dest, d)];
      assert i - dest == j - d && Wrapped(j, d) == Wrapped(j - d, d);
    }
  }

  /** n more bytes, at most as many as lie between source and destination. */
  lemma {:induction false} CopyStep(m: seq<Byte>, cur: seq<Byte>, src: nat, dest: nat, k: nat, n: nat)
    requires src + n <= dest && dest + k + n <= |m| && Copied(m, cur, src, dest, k)
    ensures |cur| == |m| && Copied(m, Overwrite(cur, dest + k, Slice(cur, src + k, n)), src, dest, k + n)
  {
    var cur' := Overwrite(cur, dest + k, Slice(cur, src + k, n));
    forall i | dest <= i < dest + (k + n)
      ensures cur'[i] == m[src + Wrapped(i - dest, dest - src)]
    {
      NewByte(m, cur, src, dest, k, n, i);
    }
    forall i | 0 <= i < |m| && !(dest <= i < dest + (k + n))
      ensures cur'[i] == m[i]
    {
      OverwrittenAt(cur, dest + k, Slice(cur, src + k, n), i);
    }
  }

  lemma {:induction false} NewByte(m: seq<Byte>, cur: seq<Byte>, src: nat, dest: nat, k: nat, n: nat, i: nat)
    requires src + n <= dest && dest + k + n <= |m| && Copied(m, cur, src, dest, k) && dest <= i < dest + k + n
    ensures Overwrite(cur, dest + k, Slice(cur, src + k, n))[i] == m[src + Wrapped(i - dest, dest - src)]
  {
    OverwrittenAt(cur, dest + k, Slice(cur, src + k, n), i);
    if i >= dest + k {
      ReadsSource(m, cur, src, dest, k, i - dest);
    }
  }

  /** A source that ends before the destination is copied as it stands. */
  lemma {:induction false} CopiedPlainly(m: seq<Byte>, cur: seq<Byte>, src: nat, dest: nat, k: nat)
    requires Copied(m, cur, src, dest, k) && src + k <= dest
    ensures cur == Overwrite(m, dest, Slice(m, src, k))
  {
    var plain := Overwrite(m, dest, Slice(m, src, k));
    forall i | 0 <= i < |m|
      ensures cur[i] == plain[i]
    {
      OverwrittenAt(m, dest, Slice(m, src, k), i);
    }
  }

  /** The word at dest with its first n bytes taken from src. */
  function Blended(m: seq<Byte>, src: nat, dest: nat, n: nat): (r: seq<Byte>)
    requires n < WORD_SIZE
    ensures |r| == WORD_SIZE
  {
    FixedBE(Blend(Load(m, src), Load(m, dest), WORD_SIZE - n), WORD_SIZE)
  }

  /** Storing a blended word at dest writes the n bytes at src and nothing else. */
  lemma {:induction false} LastWord(m: seq<Byte>, src: nat, dest: nat, n: nat)
    requires 0 < n < WORD_SIZE && dest + WORD_SIZE <= |m|
    ensures Overwrite(m, dest, Blended(m, src, dest, n)) == Overwrite(m, dest, Slice(m, src, n))
  {
    var a, b := Slice(m, src, WORD_SIZE), Slice(m, dest, WORD_SIZE);
    LoadSpelled(m, src);
    LoadSpelled(m, dest);
    BlendBytes(Load(m, src), Load(m, dest), n, WORD_SIZE - n, a, b);
    SliceParts(m, src, n, WORD_SIZE - n);
    SliceParts(m, dest, n, WORD_SIZE - n);
    SliceInside(m, dest + n, WORD_SIZE - n);
    BlendOverwrites(m, dest, a[..n], b[n..]);
  }

  lemma {:induction false} SliceParts(m: seq<Byte>, p: nat, n: nat, k: nat)
    ensures Slice(m, p, n + k)[..n] == Slice(m, p, n) && Slice(m, p, n + k)[n..] == Slice(m, p + n, k)
  {
  }

  lemma {:induction false} SliceInside(m: seq<Byte>, p: nat, n: nat)
    requires p + n <= |m|
    ensures Slice(m, p, n) == m[p..p + n]
  {
  }

  lemma {:induction false} BlendOverwrites(m: seq<Byte>, dest: nat, s: seq<Byte>, t: seq<Byte>)
    requires dest + |s| + |t| <= |m| && t == m[dest + |s|..dest + |s| + |t|]
    ensures Overwrite(m, dest, s + t) == Overwrite(m, dest, s)
  {
  }

  lemma {:induction false} RestStep(m: seq<Byte>, cur: seq<Byte>, src: nat, dest: nat, k: nat, n: nat)
    requires 0 < n < WORD_SIZE && src + n <= dest && dest + k + WORD_SIZE <= |m| && Copied(m, cur, src, dest, k)
    ensures |cur| == |m|
    ensures Copied(m, Overwrite(cur, dest + k, Blended(cur, src + k, dest + k, n)), src, dest, k + n)
  {
    LastWord(cur, src + k, dest + k, n);
    CopyStep(m, cur, src, dest, k, n);
  }

  lemma {:induction false} WordStep(m: seq<Byte>, cur: seq<Byte>, src: nat, dest: nat, k: nat)
    requires src + WORD_SIZE <= dest && dest + k + WORD_SIZE <= |m| && Copied(m, cur, src, dest, k)
    ensures |cur| == |m|
    ensures Copied(m, Overwrite(cur, dest + k, FixedBE(Load(cur, src + k), WORD_SIZE)), src, dest, k + WORD_SIZE)
  {
    LoadSpelled(cur, src + k);
    CopyStep(m, cur, src, dest, k, WORD_SIZE);
  }

  /** mstore: after it k bytes are copied if the word completes them. */
  method StoreCopied(mem: array<Byte>, at: nat, word: seq<Byte>, ghost m: seq<Byte>, ghost src: nat, ghost dest: nat,
                     ghost k: nat)
    requires at + |word| <= mem.Length && Copied(m, Overwrite(mem[..], at, word), src, dest, k)
    modifies mem
    ensures Copied(m, mem[..], src, dest, k)
  {
    StoreBytes(mem, at, word);
  }

  /** One word of the loop, after k bytes. */
  method CopyWord(mem: array<Byte>, src: nat, dest: nat, k: nat, ghost m: seq<Byte>)
    requires src + WORD_SIZE <= dest && dest + k + WORD_SIZE <= |m| == mem.Length
    requires Copied(m, mem[..], src, dest, k)
    modifies mem
    ensures Copied(m, mem[..], src, dest, k + WORD_SIZE)
  {
    var cur := mem[..];
    WordStep(m, cur, src, dest, k);
    StoreCopied(mem, dest + k, FixedBE(Load(cur, src + k), WORD_SIZE), m, src, dest, k + WORD_SIZE);
  }

  /** The n left-over bytes: one word is blended and stored. */
  method CopyRest(mem: array<Byte>, src: nat, dest: nat, k: nat, n: nat, ghost m: seq<Byte>)
    requires 0 < n < WORD_SIZE && src + n <= dest && dest + k + WORD_SIZE <= |m| == mem.Length
    requires Copied(m, mem[..], src, dest, k)
    modifies mem
    ensures Copied(m, mem[..], src, dest, k + n)
  {
    var cur := mem[..];
    RestStep(m, cur, src, dest, k, n);
    StoreCopied(mem, dest + k, Blended(cur, src + k, dest + k, n), m, src, dest, k + n);
  }

  /** `copy`, to a destination a word or more behind the source: the destination gets the bytes of the
      source, over and over where the source runs into the destination, and every other byte keeps its
      value, also those that share the last word. */
  method Copy(mem: array<Byte>, src: nat, dest: nat, len: nat)
    requires src + WORD_SIZE <= dest && dest + len + WORD_SIZE <= mem.Length
    modifies mem
    ensures Copied(old(mem[..]), mem[..], src, dest, len)
    ensures src + len <= dest ==> mem[..] == Overwrite(old(mem[..]), dest, Slice(old(mem[..]), src, len))
  {
    ghost var m := mem[..];
    if len == 0 {
      return;
    }
    var done: nat := 0;
    while len - done >= WORD_SIZE
      invariant done <= len
      invariant Copied(m, mem[..], src, dest, done)
    {
      CopyWord(mem, src, dest, done, m);
      done := done + WORD_SIZE;
    }
    if len - done > 0 {
      CopyRest(mem, src, dest, done, len - done, m);
    }
    if src + len <= dest {
      CopiedPlainly(m, mem[..], src, dest, len);
    }
  }

  /** `toRlpBytes` into fresh memory behind the item's start gives the item's bytes, and the item still
      reads as them, when it ends before the copy. An item that claims to reach into the copy repeats
      what lies before it. */
  method CopyRlpBytes(mem: array<Byte>, item: RLPItem, dest: nat)
    requires item.memPtr + WORD_SIZE <= dest && dest + item.len + WORD_SIZE <= mem.Length
    modifies mem
    ensures forall i :: dest <= i < dest + item.len ==>
      mem[i] == old(mem[item.memPtr + Wrapped(i - dest, dest - item.memPtr)])
    ensures item.memPtr + item.len <= dest ==>
      Slice(mem[..], dest, item.len) == ToRlpBytes(old(mem[..]), item) == ToRlpBytes(mem[..], item)
  {
    ghost var m := mem[..];
    Copy(mem, item.memPtr, dest, item.len);
    CopiedBytes(m, mem[..], item.memPtr, dest, item.len);
  }

  lemma {:induction false} CopiedBytes(m: seq<Byte>, cur: seq<Byte>, src: nat, dest: nat, len: nat)
    requires Copied(m, cur, src, dest, len)
    ensures forall i :: dest <= i < dest + len ==> cur[i] == m[src + Wrapped(i - dest, dest - src)]
    ensures src + len <= dest ==> Slice(cur, dest, len) == Slice(m, src, len) == Slice(cur, src, len)
  {
  }
}
