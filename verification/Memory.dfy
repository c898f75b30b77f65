/** In-place writes to memory buffers: calldatacopy and stores of consecutive bytes. */
module Memory {
  import opened Bytes

  /** The buffer s with t written over it at position `at`. */
  function Overwrite(s: seq<Byte>, at: nat, t: seq<Byte>): (r: seq<Byte>)
    requires at + |t| <= |s|
    ensures |r| == |s|
  {
    s[..at] + t + s[at + |t|..]
  }

  lemma OverwriteKeeps(s: seq<Byte>, at: nat, t: seq<Byte>, p: nat, u: seq<Byte>)
    requires at + |t| <= |s| && p + |u| <= |s| && Holds(s, p, u)
    requires p + |u| <= at || at + |t| <= p
    ensures Holds(Overwrite(s, at, t), p, u)
    ensures Holds(Overwrite(s, at, t), at, t)
  {
    var r := Overwrite(s, at, t);
    forall i | 0 <= i < |u|
      ensures r[p + i] == u[i]
    {
      assert Slice(s, p, |u|)[i] == u[i];
    }
  }

  /** The buffer s with t written over it at position `at`, as far as the buffer reaches. */
  function Clipped(s: seq<Byte>, at: nat, t: seq<Byte>): (r: seq<Byte>)
    ensures |r| == |s|
  {
    if at >= |s| then s else Overwrite(s, at, t[..Least(|t|, |s| - at)])
  }

  function Least(a: nat, b: nat): nat {
    if a < b then a else b
  }

  lemma ClippedAt(s: seq<Byte>, at: nat, t: seq<Byte>, k: nat)
    requires k < |s|
    ensures Clipped(s, at, t)[k] == if at <= k < at + |t| then t[k - at] else s[k]
  {
  }

  lemma ClippedFits(s: seq<Byte>, at: nat, t: seq<Byte>)
    requires at + |t| <= |s|
    ensures Clipped(s, at, t) == Overwrite(s, at, t)
  {
    assert t[..|t|] == t;
  }

  /** calldatacopy. Bytes that fall past the end of the buffer land in memory nothing reads. */
  method CalldataCopy(dst: array<Byte>, at: nat, cd: seq<Byte>, src: nat, len: nat)
    modifies dst
    ensures dst[..] == Clipped(old(dst[..]), at, Slice(cd, src, len))
  {
    for i := 0 to len
      invariant forall k :: 0 <= k < dst.Length ==>
        dst[k] == if at <= k < at + i then At(cd, src + (k - at)) else old(dst[k])
    {
      if at + i < dst.Length {
        dst[at + i] := At(cd, src + i);
      }
    }
    forall k: nat | k < dst.Length
      ensures dst[..][k] == Clipped(old(dst[..]), at, Slice(cd, src, len))[k]
    {
      ClippedAt(old(dst[..]), at, Slice(cd, src, len), k);
    }
  }

  /** Stores given bytes one after the other. */
  method StoreBytes(dst: array<Byte>, at: nat, bytes: seq<Byte>)
    requires at + |bytes| <= dst.Length
    modifies dst
    ensures dst[..] == Overwrite(old(dst[..]), at, bytes)
  {
    for i := 0 to |bytes|
      invariant forall k :: 0 <= k < dst.Length ==>
        dst[k] == if at <= k < at + i then bytes[k - at] else old(dst[k])
    {
      dst[at + i] := bytes[i];
    }
  }

  /** Writing over a gap keeps the pieces on its left and on its right. */
  lemma FillGap(s: seq<Byte>, at: nat, t: seq<Byte>, left: seq<Byte>, right: seq<Byte>)
    requires at + |t| <= |s| && |left| == at && |right| <= |s| - at - |t|
    requires Holds(s, 0, left) && Holds(s, at + |t|, right)
    ensures Holds(Overwrite(s, at, t), 0, left + (t + right))
  {
    var r := Overwrite(s, at, t);
    OverwriteKeeps(s, at, t, 0, left);
    OverwriteKeeps(s, at, t, at + |t|, right);
    HoldsSplit(r, at, t, right);
    HoldsSplit(r, 0, left, t + right);
  }
}
