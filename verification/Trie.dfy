/** The Merkle-Patricia trie (Yellow Paper, Appendix D) and its hex-prefix paths (Appendix C). */
module Trie {
  import opened Bytes
  import opened Rlp
  import opened Header
  import opened Wrappers

  type Keccak = seq<Byte> -> Word

  predicate IsNibbles(s: seq<Byte>) {
    forall i :: 0 <= i < |s| ==> s[i] < 16
  }

  /** The n-th nibble of a byte string. */
  function NthNibble(n: nat, str: seq<Byte>): (r: Byte)
    requires n / 2 < |str|
    ensures r < 16
  {
    if n % 2 == 0 then str[n / 2] / 0x10 else str[n / 2] % 0x10
  }

  /** Pairs of nibbles as bytes. */
  function PackNibbles(s: seq<Byte>): (b: seq<Byte>)
    requires IsNibbles(s) && |s| % 2 == 0
    ensures |b| == |s| / 2
  {
    seq(|s| / 2, i requires 0 <= i < |s| / 2 => 16 * s[2 * i] + s[2 * i + 1])
  }

  function UnpackNibbles(b: seq<Byte>): (s: seq<Byte>)
    ensures |s| == 2 * |b| && IsNibbles(s)
  {
    if b == [] then [] else [b[0] / 0x10, b[0] % 0x10] + UnpackNibbles(b[1..])
  }

  lemma {:induction false} UnpackedAt(b: seq<Byte>, k: nat)
    requires k < 2 * |b|
    ensures UnpackNibbles(b)[k] == NthNibble(k, b)
  {
    if k >= 2 {
      UnpackedAt(b[1..], k - 2);
      assert b[1..][(k - 2) / 2] == b[k / 2];
    }
  }

  /** A byte falls apart into the nibbles it was made of. */
  lemma NibblesOfByte(high: Byte, low: Byte)
    requires high < 16 && low < 16
    ensures (16 * high + low) / 0x10 == high && (16 * high + low) % 0x10 == low
  {
  }

  lemma {:induction false} PackedAt(s: seq<Byte>, k: nat)
    requires IsNibbles(s) && |s| % 2 == 0 && k < |s|
    ensures NthNibble(k, PackNibbles(s)) == s[k]
  {
    var i := k / 2;
    assert k == 2 * i || k == 2 * i + 1;
    assert PackNibbles(s)[i] == 16 * s[2 * i] + s[2 * i + 1];
    NibblesOfByte(s[2 * i], s[2 * i + 1]);
  }

  lemma {:induction false} UnpackOfPack(s: seq<Byte>)
    requires IsNibbles(s) && |s| % 2 == 0
    ensures UnpackNibbles(PackNibbles(s)) == s
  {
    var b := PackNibbles(s);
    forall k | 0 <= k < |s|
      ensures UnpackNibbles(b)[k] == s[k]
    {
      UnpackedAt(b, k);
      PackedAt(s, k);
    }
  }

  /** Hex-prefix encoding: the first nibble tells parity and kind of node. */
  function HexPrefix(path: seq<Byte>, leaf: bool): seq<Byte>
    requires IsNibbles(path)
  {
    var flag: Byte := if leaf then 2 else 0;
    if |path| % 2 == 0 then [16 * flag] + PackNibbles(path)
    else [16 * (flag + 1) + path[0]] + PackNibbles(path[1..])
  }

  /** What `_getNibbleArray` reads from a hex-prefixed string: all nibbles after the first one (odd
      paths) or after the first two. The kind of node is ignored. */
  function DecodePath(b: seq<Byte>): (s: seq<Byte>)
    ensures IsNibbles(s)
  {
    if b == [] then [] else UnpackNibbles(b)[PathStart(b)..]
  }

  function PathStart(b: seq<Byte>): nat
    requires b != []
  {
    if NthNibble(0, b) == 1 || NthNibble(0, b) == 3 then 1 else 2
  }

  /** Decoding what a first byte and packed nibbles say. */
  lemma {:induction false} DecodedParts(first: Byte, rest: seq<Byte>)
    requires IsNibbles(rest) && |rest| % 2 == 0
    ensures DecodePath([first] + PackNibbles(rest)) ==
      if first / 0x10 == 1 || first / 0x10 == 3 then [first % 0x10] + rest else rest
  {
    UnpackOfPack(rest);
    FirstUnpacked(first, PackNibbles(rest));
  }

  lemma {:induction false} FirstUnpacked(first: Byte, more: seq<Byte>)
    ensures UnpackNibbles([first] + more) == [first / 0x10, first % 0x10] + UnpackNibbles(more)
  {
    assert ([first] + more)[1..] == more;
  }

  lemma {:induction false} DecodeOfHexPrefix(path: seq<Byte>, leaf: bool)
    requires IsNibbles(path)
    ensures DecodePath(HexPrefix(path, leaf)) == path
  {
    var flag: Byte := if leaf then 2 else 0;
    if |path| % 2 == 0 {
      NibblesOfByte(flag, 0);
      DecodedParts(16 * flag, path);
    } else {
      NibblesOfByte(flag + 1, path[0]);
      DecodedParts(16 * (flag + 1) + path[0], path[1..]);
      assert path == [path[0]] + path[1..];
    }
  }

  // ---------- tries ----------

  datatype Node =
    | Empty
    | Leaf(path: seq<Byte>, value: seq<Byte>)
    | Extension(path: seq<Byte>, child: Node)
    | Branch(children: seq<Node>, value: seq<Byte>)

  /** The RLP item of a node. */
  function NodeItem(keccak: Keccak, t: Node): Item
    requires Shaped(t)
    decreases t, 0
  {
    match t
    case Empty => Str([])
    case Leaf(path, value) => List([Str(HexPrefix(path, true)), Str(value)])
    case Extension(path, child) => List([Str(HexPrefix(path, false)), Reference(keccak, child)])
    case Branch(children, value) => List(References(keccak, children) + [Str(value)])
  }

  function NodeBytes(keccak: Keccak, t: Node): seq<Byte>
    requires Shaped(t)
    decreases t, 1
  {
    Encode(NodeItem(keccak, t))
  }

  /** A node inside its parent: itself when its encoding is shorter than 32 bytes, else its hash. */
  function Reference(keccak: Keccak, t: Node): Item
    requires Shaped(t)
    decreases t, 2
  {
    if t.Empty? then Str([])
    else if |NodeBytes(keccak, t)| < 32 then NodeItem(keccak, t)
    else Str(FixedBE(keccak(NodeBytes(keccak, t)), 32))
  }

  function References(keccak: Keccak, ts: seq<Node>): (r: seq<Item>)
    requires forall i :: 0 <= i < |ts| ==> Shaped(ts[i])
    ensures |r| == |ts|
    ensures forall i :: 0 <= i < |ts| ==> r[i] == Reference(keccak, ts[i])
    decreases ts, 0
  {
    if ts == [] then [] else [Reference(keccak, ts[0])] + References(keccak, ts[1..])
  }

  /** Paths consist of nibbles and branches have sixteen children. */
  predicate Shaped(t: Node) {
    match t
    case Empty => true
    case Leaf(path, value) => IsNibbles(path)
    case Extension(path, child) => IsNibbles(path) && Shaped(child)
    case Branch(children, value) => |children| == 16 && forall i :: 0 <= i < 16 ==> Shaped(children[i])
  }

  /** The value a trie holds for a path of nibbles. */
  function Lookup(t: Node, path: seq<Byte>): Option<seq<Byte>>
    requires Shaped(t) && IsNibbles(path)
  {
    match t
    case Empty => None
    case Leaf(p, value) => if p == path then Some(value) else None
    case Extension(p, child) => if p <= path then Lookup(child, path[|p|..]) else None
    case Branch(children, value) =>
      if path == [] then (if value == [] then None else Some(value))
      else Lookup(children[path[0] as int], path[1..])
  }
}
