/** Which honest proofs the checker accepts: root-to-leaf node lists of stored keys. */
module TrieCompleteness {
  import opened Bytes
  import opened Rlp
  import opened RlpIntegers
  import opened RlpReader
  import opened Trie
  import opened MerklePatriciaProof
  import opened TrieProofs
  import opened Wrappers

  /** The nodes met on the way to a key, root first. */
  function OnPath(t: Node, path: seq<Byte>): (r: seq<Node>)
    requires Shaped(t) && IsNibbles(path)
    ensures |r| >= 1 && r[0] == t && forall i :: 0 <= i < |r| ==> Shaped(r[i])
  {
    match t
    case Extension(p, child) => if p <= path then [t] + OnPath(child, path[|p|..]) else [t]
    case Branch(children, _) => if path == [] then [t] else [t] + OnPath(children[path[0] as int], path[1..])
    case _ => [t]
  }

  /** Extensions carry a non-empty path and lead to a branch; branches have a child. */
  ghost predicate Canonical(t: Node)
    requires Shaped(t)
  {
    match t
    case Extension(p, child) => p != [] && child.Branch? && Canonical(child)
    case Branch(children, _) =>
      && (exists i :: 0 <= i < 16 && !children[i].Empty?)
      && forall i :: 0 <= i < 16 ==> Canonical(children[i])
    case _ => true
  }

  /** The first proof items hold the nodes, all of them encodable, and no node but the first is embedded
      in its parent. */
  ghost predicate HoldNodes(keccak: Keccak, mem: seq<Byte>, items: seq<RLPItem>, nodes: seq<Node>)
    requires forall i :: 0 <= i < |nodes| ==> Shaped(nodes[i])
  {
    && |items| >= |nodes|
    && (forall i :: 0 <= i < |nodes| ==>
          ToRlpBytes(mem, items[i]) == NodeBytes(keccak, nodes[i]) && items[i].len < Pow256(8))
    && (forall i :: 1 <= i < |nodes| ==> |NodeBytes(keccak, nodes[i])| >= 32)
  }

  lemma TraversesOwnPath(keccak: Keccak, p: seq<Byte>, leaf: bool, path: seq<Byte>, pathPtr: nat)
    requires IsNibbles(p) && IsNibbles(path) && pathPtr <= |path| && p <= path[pathPtr..]
    ensures NibblesToTraverse(keccak, HexPrefix(p, leaf), path, pathPtr) == Ok(|p|)
  {
    DecodeOfHexPrefix(p, leaf);
    PrefixIsWindow(p, path, pathPtr);
  }

  /** What a round on an honest node must give: a comparison at the end of the key, else the way down
      to a child that is not embedded, or to whatever 32 bytes of a leaf may be the hash of. */
  ghost predicate HonestOutcome(keccak: Keccak, t: Node, rest: seq<Byte>, pathPtr: nat, value: nat, r: Result<Outcome>)
    requires Shaped(t) && IsNibbles(rest)
  {
    match t
    case Empty => true
    case Leaf(p, v) =>
      if p == rest then r == Ok(Verdict(keccak(v) == value))
      else |v| == 32 ==> r == Ok(Descend(BE(v), pathPtr + |p|))
    case Extension(p, child) =>
      if p == rest then r == Ok(Verdict(keccak(Payload(Reference(keccak, child))) == value))
      else |NodeBytes(keccak, child)| >= 32 ==> r == Ok(Descend(keccak(NodeBytes(keccak, child)), pathPtr + |p|))
    case Branch(children, v) =>
      if rest == [] then r == Ok(Verdict(keccak(v) == value))
      else
        var child := children[rest[0] as int];
        |NodeBytes(keccak, child)| >= 32 && !child.Empty? ==>
          r == Ok(Descend(keccak(NodeBytes(keccak, child)), pathPtr + 1))
  }

  lemma HonestShort(keccak: Keccak, mem: seq<Byte>, list: seq<RLPItem>, p: seq<Byte>, leaf: bool, payload: seq<Byte>,
                    path: seq<Byte>, pathPtr: nat, value: nat)
    requires IsNibbles(p) && IsNibbles(path) && pathPtr <= |path| && |list| == 2
    requires ToBytes(mem, list[0]) == Ok(HexPrefix(p, leaf)) && ToBytes(mem, list[1]) == Ok(payload)
    requires p <= path[pathPtr..]
    ensures var r := CheckShort(keccak, mem, list, path, pathPtr, value);
      if pathPtr + |p| == |path| then r == Ok(Verdict(keccak(payload) == value))
      else p != [] && ToUintStrict(mem, list[1]).Ok? ==>
        r == Ok(Descend(ToUintStrict(mem, list[1]).value, pathPtr + |p|))
  {
    OwnPathTraversed(keccak, mem, list, p, leaf, path, pathPtr, value);
    HonestAfterPath(keccak, mem, list[1], |p|, payload, |path|, pathPtr, value);
  }

  lemma OwnPathTraversed(keccak: Keccak, mem: seq<Byte>, list: seq<RLPItem>, p: seq<Byte>, leaf: bool,
                         path: seq<Byte>, pathPtr: nat, value: nat)
    requires IsNibbles(p) && IsNibbles(path) && pathPtr <= |path| && |list| == 2
    requires ToBytes(mem, list[0]) == Ok(HexPrefix(p, leaf)) && p <= path[pathPtr..]
    ensures CheckShort(keccak, mem, list, path, pathPtr, value) ==
      AfterPath(keccak, mem, list[1], |path|, pathPtr, Ok(|p|), value)
  {
    TraversesOwnPath(keccak, p, leaf, path, pathPtr);
  }

  lemma HonestAfterPath(keccak: Keccak, mem: seq<Byte>, item: RLPItem, traversed: nat, payload: seq<Byte>,
                        keyLength: nat, pathPtr: nat, value: nat)
    requires ToBytes(mem, item) == Ok(payload)
    ensures var r := AfterPath(keccak, mem, item, keyLength, pathPtr, Ok(traversed), value);
      if pathPtr + traversed == keyLength then r == Ok(Verdict(keccak(payload) == value))
      else traversed > 0 && ToUintStrict(mem, item).Ok? ==>
        r == Ok(Descend(ToUintStrict(mem, item).value, pathPtr + traversed))
  {
  }

  /** A prefix of the rest of the key is all of it if it ends where the key ends. */
  lemma {:induction false} WholeRest(p: seq<Byte>, path: seq<Byte>, pathPtr: nat)
    requires pathPtr <= |path| && p <= path[pathPtr..]
    ensures p == path[pathPtr..] <==> pathPtr + |p| == |path|
  {
  }

  lemma HonestLeaf(keccak: Keccak, mem: seq<Byte>, list: seq<RLPItem>, t: Node, path: seq<Byte>, pathPtr: nat,
                   value: nat)
    requires Shaped(t) && t.Leaf? && IsNibbles(path) && pathPtr <= |path| && |list| == 2
    requires ToRlpBytes(mem, list[0]) == Encode(Str(HexPrefix(t.path, true))) && list[0].len < Pow256(8)
    requires ToRlpBytes(mem, list[1]) == Encode(Str(t.value)) && list[1].len < Pow256(8)
    requires t.path == path[pathPtr..] || (t.path != [] && t.path <= path[pathPtr..])
    ensures HonestOutcome(keccak, t, path[pathPtr..], pathPtr, value,
                          CheckShort(keccak, mem, list, path, pathPtr, value))
  {
    BytesOfItem(mem, list[0], Str(HexPrefix(t.path, true)));
    BytesOfItem(mem, list[1], Str(t.value));
    WordOfItem(mem, list[1], Str(t.value));
    LeafByItems(keccak, mem, list, t, path, pathPtr, value);
  }

  lemma {:induction false} LeafByItems(keccak: Keccak, mem: seq<Byte>, list: seq<RLPItem>, t: Node, path: seq<Byte>,
                                       pathPtr: nat, value: nat)
    requires Shaped(t) && t.Leaf? && IsNibbles(path) && pathPtr <= |path| && |list| == 2
    requires ToBytes(mem, list[0]) == Ok(HexPrefix(t.path, true)) && ToBytes(mem, list[1]) == Ok(t.value)
    requires |t.value| == 32 ==> ToUintStrict(mem, list[1]) == Ok(BE(t.value))
    requires t.path == path[pathPtr..] || (t.path != [] && t.path <= path[pathPtr..])
    ensures HonestOutcome(keccak, t, path[pathPtr..], pathPtr, value,
                          CheckShort(keccak, mem, list, path, pathPtr, value))
  {
    var r := CheckShort(keccak, mem, list, path, pathPtr, value);
    HonestShort(keccak, mem, list, t.path, true, t.value, path, pathPtr, value);
    WholeRest(t.path, path, pathPtr);
    if pathPtr + |t.path| == |path| {
      assert r == Ok(Verdict(keccak(t.value) == value));
    } else if |t.value| == 32 {
      assert r == Ok(Descend(BE(t.value), pathPtr + |t.path|));
    }
  }

  lemma HonestExtension(keccak: Keccak, mem: seq<Byte>, list: seq<RLPItem>, t: Node, path: seq<Byte>, pathPtr: nat,
                        value: nat)
    requires Shaped(t) && t.Extension? && !t.child.Empty? && t.path != [] && IsNibbles(path) && pathPtr <= |path| &&
      |list| == 2
    requires ToRlpBytes(mem, list[0]) == Encode(Str(HexPrefix(t.path, false))) && list[0].len < Pow256(8)
    requires ToRlpBytes(mem, list[1]) == Encode(Reference(keccak, t.child)) && list[1].len < Pow256(8)
    requires t.path <= path[pathPtr..]
    ensures HonestOutcome(keccak, t, path[pathPtr..], pathPtr, value,
                          CheckShort(keccak, mem, list, path, pathPtr, value))
  {
    BytesOfItem(mem, list[0], Str(HexPrefix(t.path, false)));
    BytesOfItem(mem, list[1], Reference(keccak, t.child));
    ReferenceWord(keccak, mem, list[1], t.child);
    ExtensionByItems(keccak, mem, list, t, path, pathPtr, value);
  }

  lemma {:induction false} ExtensionByItems(keccak: Keccak, mem: seq<Byte>, list: seq<RLPItem>, t: Node,
                                            path: seq<Byte>, pathPtr: nat, value: nat)
    requires Shaped(t) && t.Extension? && t.path != [] && IsNibbles(path) && pathPtr <= |path| && |list| == 2
    requires ToBytes(mem, list[0]) == Ok(HexPrefix(t.path, false)) &&
      ToBytes(mem, list[1]) == Ok(Payload(Reference(keccak, t.child)))
    requires |NodeBytes(keccak, t.child)| >= 32 ==> ToUintStrict(mem, list[1]) == Ok(keccak(NodeBytes(keccak, t.child)))
    requires t.path <= path[pathPtr..]
    ensures HonestOutcome(keccak, t, path[pathPtr..], pathPtr, value,
                          CheckShort(keccak, mem, list, path, pathPtr, value))
  {
    HonestShort(keccak, mem, list, t.path, false, Payload(Reference(keccak, t.child)), path, pathPtr, value);
    WholeRest(t.path, path, pathPtr);
  }

  lemma HonestRound(keccak: Keccak, mem: seq<Byte>, item: RLPItem, t: Node, path: seq<Byte>, pathPtr: nat, value: nat)
    requires Shaped(t) && Canonical(t) && IsNibbles(path) && pathPtr <= |path|
    requires ToRlpBytes(mem, item) == NodeBytes(keccak, t) && item.len < Pow256(8)
    requires !EndOf(keccak, t, path[pathPtr..]).Nowhere?
    ensures HonestOutcome(keccak, t, path[pathPtr..], pathPtr, value,
                          CheckNode(keccak, mem, item, keccak(NodeBytes(keccak, t)), path, pathPtr, value))
  {
    BytesOfItem(mem, item, NodeItem(keccak, t));
    var xs := NodeItem(keccak, t).items;
    ItemsOfList(mem, item, xs);
    var list := ItemsOf(mem, item);
    assert ToRlpBytes(mem, list[0]) == Encode(xs[0]);
    assert ToRlpBytes(mem, list[1]) == Encode(xs[1]);
    match t
    case Leaf(_, _) => HonestLeaf(keccak, mem, list, t, path, pathPtr, value);
    case Extension(_, _) => HonestExtension(keccak, mem, list, t, path, pathPtr, value);
    case Branch(_, _) => HonestBranch(keccak, mem, list, t, path, pathPtr, value);
  }

  lemma HonestBranch(keccak: Keccak, mem: seq<Byte>, list: seq<RLPItem>, t: Node, path: seq<Byte>, pathPtr: nat,
                     value: nat)
    requires Shaped(t) && t.Branch? && IsNibbles(path) && pathPtr <= |path| && |list| == 17
    requires forall i :: 0 <= i < 16 ==>
      ToRlpBytes(mem, list[i]) == Encode(Reference(keccak, t.children[i])) && list[i].len < Pow256(8)
    requires ToRlpBytes(mem, list[16]) == Encode(Str(t.value)) && list[16].len < Pow256(8)
    ensures HonestOutcome(keccak, t, path[pathPtr..], pathPtr, value,
                          CheckBranch(keccak, mem, list, path, pathPtr, value))
  {
    if pathPtr == |path| {
      BytesOfItem(mem, list[16], Str(t.value));
    } else {
      ReferenceWord(keccak, mem, list[path[pathPtr] as int], t.children[path[pathPtr] as int]);
    }
  }

  /** The position with so much of the key left. */
  function Behind(path: seq<Byte>, left: nat): nat
    requires left <= |path|
  {
    |path| - left
  }

  /** What is compared at a key's end decides the verdict r; where a leaf of 32 bytes leads on, the rest of
      the list does, whatever it is. */
  ghost predicate Decides(keccak: Keccak, mem: seq<Byte>, e: End, more: seq<RLPItem>, path: seq<Byte>, value: nat,
                          r: Result<bool>) {
    match e
    case Compared(bytes) => r == Ok(keccak(bytes) == value)
    case Followed(word, left) =>
      left <= |path| && r == Walk(keccak, mem, more, BE(word), path, Behind(path, left), value)
    case Nowhere => true
  }

  /** The verdict on a list of nodes that begins with the honest ones for the rest of a key. */
  ghost predicate HonestVerdict(keccak: Keccak, mem: seq<Byte>, items: seq<RLPItem>, t: Node, path: seq<Byte>,
                                pathPtr: nat, value: nat)
    requires Shaped(t) && IsNibbles(path) && pathPtr <= |path| && |items| >= |OnPath(t, path[pathPtr..])|
  {
    Decides(keccak, mem, EndOf(keccak, t, path[pathPtr..]), items[|OnPath(t, path[pathPtr..])|..], path, value,
            Walk(keccak, mem, items, keccak(NodeBytes(keccak, t)), path, pathPtr, value))
  }

  /** One round of the loop. */
  lemma {:induction false} WalkOnce(keccak: Keccak, mem: seq<Byte>, items: seq<RLPItem>, nodeKey: nat, path: seq<Byte>,
                                    pathPtr: nat, value: nat, outcome: Outcome)
    requires items != [] && CheckNode(keccak, mem, items[0], nodeKey, path, pathPtr, value) == Ok(outcome)
    ensures Walk(keccak, mem, items, nodeKey, path, pathPtr, value) ==
      match outcome
      case Verdict(accepted) => Ok(accepted)
      case Descend(key, ptr) => Walk(keccak, mem, items[1..], key, path, ptr, value)
  {
  }

  lemma {:induction false} VerdictDecides(keccak: Keccak, mem: seq<Byte>, items: seq<RLPItem>, nodeKey: nat,
                                          path: seq<Byte>, pathPtr: nat, value: nat, bytes: seq<Byte>,
                                          more: seq<RLPItem>)
    requires items != []
    requires CheckNode(keccak, mem, items[0], nodeKey, path, pathPtr, value) == Ok(Verdict(keccak(bytes) == value))
    ensures Decides(keccak, mem, Compared(bytes), more, path, value,
                    Walk(keccak, mem, items, nodeKey, path, pathPtr, value))
  {
  }

  lemma {:induction false} WordDecides(keccak: Keccak, mem: seq<Byte>, items: seq<RLPItem>, nodeKey: nat,
                                       path: seq<Byte>, pathPtr: nat, value: nat, word: seq<Byte>, ptr: nat, left: nat)
    requires items != [] && left <= |path| && ptr == Behind(path, left)
    requires CheckNode(keccak, mem, items[0], nodeKey, path, pathPtr, value) == Ok(Descend(BE(word), ptr))
    ensures Decides(keccak, mem, Followed(word, left), items[1..], path, value,
                    Walk(keccak, mem, items, nodeKey, path, pathPtr, value))
  {
    WalkOnce(keccak, mem, items, nodeKey, path, pathPtr, value, Descend(BE(word), ptr));
  }

  lemma {:induction false} StepDecides(keccak: Keccak, mem: seq<Byte>, items: seq<RLPItem>, nodeKey: nat,
                                       path: seq<Byte>, pathPtr: nat, value: nat, childKey: nat, next: nat, e: End,
                                       below: nat, n: nat)
    requires n == below + 1 && n <= |items|
    requires CheckNode(keccak, mem, items[0], nodeKey, path, pathPtr, value) == Ok(Descend(childKey, next))
    requires Decides(keccak, mem, e, items[1..][below..], path, value,
                     Walk(keccak, mem, items[1..], childKey, path, next, value))
    ensures Decides(keccak, mem, e, items[n..], path, value, Walk(keccak, mem, items, nodeKey, path, pathPtr, value))
  {
    WalkOnce(keccak, mem, items, nodeKey, path, pathPtr, value, Descend(childKey, next));
    assert items[1..][below..] == items[n..];
  }

  /** The exact verdict on the honest node list of a key, for any value, and on all that may come behind. */
  lemma {:induction false} WalkOnHonestProof(keccak: Keccak, mem: seq<Byte>, items: seq<RLPItem>, t: Node,
                                             path: seq<Byte>, pathPtr: nat, value: nat)
    requires Shaped(t) && Canonical(t) && IsNibbles(path) && pathPtr <= |path|
    requires HoldNodes(keccak, mem, items, OnPath(t, path[pathPtr..]))
    ensures HonestVerdict(keccak, mem, items, t, path, pathPtr, value)
    decreases t, 2
  {
    if !EndOf(keccak, t, path[pathPtr..]).Nowhere? {
      HonestRound(keccak, mem, items[0], t, path, pathPtr, value);
      match t
      case Leaf(_, _) => HonestAtLeaf(keccak, mem, items, t, path, pathPtr, value);
      case Extension(_, _) => HonestAtExtension(keccak, mem, items, t, path, pathPtr, value);
      case Branch(_, _) => HonestAtBranch(keccak, mem, items, t, path, pathPtr, value);
    }
  }

  lemma {:induction false} HonestAtLeaf(keccak: Keccak, mem: seq<Byte>, items: seq<RLPItem>, t: Node,
                                        path: seq<Byte>, pathPtr: nat, value: nat)
    requires Shaped(t) && t.Leaf? && IsNibbles(path) && pathPtr <= |path| && items != []
    requires HonestOutcome(keccak, t, path[pathPtr..], pathPtr, value,
                           CheckNode(keccak, mem, items[0], keccak(NodeBytes(keccak, t)), path, pathPtr, value))
    ensures HonestVerdict(keccak, mem, items, t, path, pathPtr, value)
  {
    if t.path == path[pathPtr..] {
      LeafCompared(keccak, mem, items, t, path, pathPtr, value);
    } else if EndOf(keccak, t, path[pathPtr..]).Followed? {
      var ptr, left := LeafFollows(keccak, t, path, pathPtr);
      LeafOutcome(keccak, t, path[pathPtr..], pathPtr, value,
                  CheckNode(keccak, mem, items[0], keccak(NodeBytes(keccak, t)), path, pathPtr, value), ptr);
      LeafFollowed(keccak, mem, items, t, path, pathPtr, value, ptr, left);
    }
  }

  lemma {:induction false} LeafOutcome(keccak: Keccak, t: Node, rest: seq<Byte>, pathPtr: nat, value: nat,
                                       r: Result<Outcome>, ptr: nat)
    requires Shaped(t) && t.Leaf? && IsNibbles(rest) && t.path != rest && |t.value| == 32 && ptr == pathPtr + |t.path|
    requires HonestOutcome(keccak, t, rest, pathPtr, value, r)
    ensures r == Ok(Descend(BE(t.value), ptr))
  {
  }

  lemma {:induction false} LeafCompared(keccak: Keccak, mem: seq<Byte>, items: seq<RLPItem>, t: Node, path: seq<Byte>,
                                        pathPtr: nat, value: nat)
    requires Shaped(t) && t.Leaf? && IsNibbles(path) && pathPtr <= |path| && items != []
    requires t.path == path[pathPtr..]
    requires CheckNode(keccak, mem, items[0], keccak(NodeBytes(keccak, t)), path, pathPtr, value) ==
      Ok(Verdict(keccak(t.value) == value))
    ensures HonestVerdict(keccak, mem, items, t, path, pathPtr, value)
  {
    VerdictDecides(keccak, mem, items, keccak(NodeBytes(keccak, t)), path, pathPtr, value, t.value, items[1..]);
  }

  lemma {:induction false} LeafFollowed(keccak: Keccak, mem: seq<Byte>, items: seq<RLPItem>, t: Node, path: seq<Byte>,
                                        pathPtr: nat, value: nat, ptr: nat, left: nat)
    requires Shaped(t) && t.Leaf? && IsNibbles(path) && pathPtr <= |path| && items != []
    requires EndOf(keccak, t, path[pathPtr..]) == Followed(t.value, left) && left <= |path| && ptr == Behind(path, left)
    requires CheckNode(keccak, mem, items[0], keccak(NodeBytes(keccak, t)), path, pathPtr, value) ==
      Ok(Descend(BE(t.value), ptr))
    ensures HonestVerdict(keccak, mem, items, t, path, pathPtr, value)
  {
    WordDecides(keccak, mem, items, keccak(NodeBytes(keccak, t)), path, pathPtr, value, t.value, ptr, left);
  }

  /** Where a leaf of 32 bytes leads on, the key goes on behind its path. */
  lemma {:induction false} LeafFollows(keccak: Keccak, t: Node, path: seq<Byte>, pathPtr: nat)
    returns (ptr: nat, left: nat)
    requires Shaped(t) && t.Leaf? && IsNibbles(path) && pathPtr <= |path|
    requires EndOf(keccak, t, path[pathPtr..]).Followed?
    ensures EndOf(keccak, t, path[pathPtr..]) == Followed(t.value, left) && |t.value| == 32
    ensures ptr == pathPtr + |t.path| && left <= |path| && ptr == Behind(path, left)
  {
    ptr, left := pathPtr + |t.path|, EndOf(keccak, t, path[pathPtr..]).left;
  }

  lemma {:induction false} HonestAtExtension(keccak: Keccak, mem: seq<Byte>, items: seq<RLPItem>, t: Node,
                                             path: seq<Byte>, pathPtr: nat, value: nat)
    requires Shaped(t) && t.Extension? && Canonical(t) && IsNibbles(path) && pathPtr <= |path|
    requires !EndOf(keccak, t, path[pathPtr..]).Nowhere?
    requires HoldNodes(keccak, mem, items, OnPath(t, path[pathPtr..]))
    requires HonestOutcome(keccak, t, path[pathPtr..], pathPtr, value,
                           CheckNode(keccak, mem, items[0], keccak(NodeBytes(keccak, t)), path, pathPtr, value))
    ensures HonestVerdict(keccak, mem, items, t, path, pathPtr, value)
    decreases t, 1
  {
    var rest := path[pathPtr..];
    if t.path == rest {
      VerdictDecides(keccak, mem, items, keccak(NodeBytes(keccak, t)), path, pathPtr, value,
                     Payload(Reference(keccak, t.child)), items[1..]);
    } else {
      var next := pathPtr + |t.path|;
      assert path[next..] == rest[|t.path|..];
      assert OnPath(t, rest)[1] == t.child;
      BelowDecides(keccak, mem, items, t, t.child, path, pathPtr, next, value);
    }
  }

  lemma {:induction false} HonestAtBranch(keccak: Keccak, mem: seq<Byte>, items: seq<RLPItem>, t: Node,
                                          path: seq<Byte>, pathPtr: nat, value: nat)
    requires Shaped(t) && t.Branch? && Canonical(t) && IsNibbles(path) && pathPtr <= |path|
    requires !EndOf(keccak, t, path[pathPtr..]).Nowhere?
    requires HoldNodes(keccak, mem, items, OnPath(t, path[pathPtr..]))
    requires HonestOutcome(keccak, t, path[pathPtr..], pathPtr, value,
                           CheckNode(keccak, mem, items[0], keccak(NodeBytes(keccak, t)), path, pathPtr, value))
    ensures HonestVerdict(keccak, mem, items, t, path, pathPtr, value)
    decreases t, 1
  {
    if pathPtr == |path| {
      VerdictDecides(keccak, mem, items, keccak(NodeBytes(keccak, t)), path, pathPtr, value, t.value, items[1..]);
    } else {
      var child := t.children[path[pathPtr] as int];
      ThroughBranch(keccak, t, path, pathPtr);
      SecondIsLong(keccak, mem, items, t, OnPath(t, path[pathPtr..]), child);
      assert !child.Empty? && path[pathPtr..][0] == path[pathPtr];
      BelowDecides(keccak, mem, items, t, child, path, pathPtr, pathPtr + 1, value);
    }
  }

  lemma {:induction false} SecondIsLong(keccak: Keccak, mem: seq<Byte>, items: seq<RLPItem>, t: Node, nodes: seq<Node>,
                                        child: Node)
    requires Shaped(child) && (forall i :: 0 <= i < |nodes| ==> Shaped(nodes[i]))
    requires HoldNodes(keccak, mem, items, nodes)
    requires |nodes| >= 2 && nodes[1] == child
    ensures |NodeBytes(keccak, child)| >= 32
  {
  }

  /** A branch leads on with the next nibble. */
  lemma {:induction false} ThroughBranch(keccak: Keccak, t: Node, path: seq<Byte>, pathPtr: nat)
    requires Shaped(t) && t.Branch? && IsNibbles(path) && pathPtr < |path|
    ensures var child := t.children[path[pathPtr] as int];
      && OnPath(t, path[pathPtr..]) == [t] + OnPath(child, path[pathPtr + 1..])
      && EndOf(keccak, t, path[pathPtr..]) == EndOf(keccak, child, path[pathPtr + 1..])
  {
    assert path[pathPtr..][1..] == path[pathPtr + 1..];
  }

  /** The verdict on a child is the one on a node that leads to it. */
  lemma {:induction false} BelowDecides(keccak: Keccak, mem: seq<Byte>, items: seq<RLPItem>, t: Node, child: Node,
                                        path: seq<Byte>, pathPtr: nat, next: nat, value: nat)
    requires Shaped(t) && Shaped(child) && Canonical(child) && child < t
    requires IsNibbles(path) && pathPtr <= next <= |path|
    requires OnPath(t, path[pathPtr..]) == [t] + OnPath(child, path[next..])
    requires EndOf(keccak, t, path[pathPtr..]) == EndOf(keccak, child, path[next..])
    requires HoldNodes(keccak, mem, items, OnPath(t, path[pathPtr..]))
    requires CheckNode(keccak, mem, items[0], keccak(NodeBytes(keccak, t)), path, pathPtr, value)
          == Ok(Descend(keccak(NodeBytes(keccak, child)), next))
    ensures HonestVerdict(keccak, mem, items, t, path, pathPtr, value)
    decreases t, 0
  {
    HoldRest(keccak, mem, items, t, child, OnPath(child, path[next..]));
    OneDown(keccak, mem, items, keccak(NodeBytes(keccak, t)), child, path, pathPtr, next, value,
            EndOf(keccak, t, path[pathPtr..]), |OnPath(t, path[pathPtr..])|);
  }

  /** The part of the loop below a node that leads on to a child. */
  lemma {:induction false} OneDown(keccak: Keccak, mem: seq<Byte>, items: seq<RLPItem>, nodeKey: nat, child: Node,
                                   path: seq<Byte>, pathPtr: nat, next: nat, value: nat, e: End, n: nat)
    requires Shaped(child) && Canonical(child) && IsNibbles(path) && pathPtr <= next <= |path| && items != []
    requires e == EndOf(keccak, child, path[next..]) && n == |OnPath(child, path[next..])| + 1
    requires HoldNodes(keccak, mem, items[1..], OnPath(child, path[next..]))
    requires CheckNode(keccak, mem, items[0], nodeKey, path, pathPtr, value)
          == Ok(Descend(keccak(NodeBytes(keccak, child)), next))
    ensures n <= |items|
    ensures Decides(keccak, mem, e, items[n..], path, value, Walk(keccak, mem, items, nodeKey, path, pathPtr, value))
    decreases child, 3
  {
    WalkOnHonestProof(keccak, mem, items[1..], child, path, next, value);
    StepDecides(keccak, mem, items, nodeKey, path, pathPtr, value, keccak(NodeBytes(keccak, child)), next, e,
                |OnPath(child, path[next..])|, n);
  }

  lemma HoldRest(keccak: Keccak, mem: seq<Byte>, items: seq<RLPItem>, t: Node, child: Node, nodes: seq<Node>)
    requires Shaped(t) && |nodes| >= 1 && nodes[0] == child
    requires forall i :: 0 <= i < |nodes| ==> Shaped(nodes[i])
    requires forall i :: 0 <= i < |[t] + nodes| ==> Shaped(([t] + nodes)[i])
    requires HoldNodes(keccak, mem, items, [t] + nodes)
    ensures HoldNodes(keccak, mem, items[1..], nodes)
  {
    var all := [t] + nodes;
    forall i | 0 <= i < |nodes|
      ensures ToRlpBytes(mem, items[1..][i]) == NodeBytes(keccak, nodes[i]) && items[1..][i].len < Pow256(8)
      ensures i >= 1 ==> |NodeBytes(keccak, nodes[i])| >= 32
    {
      assert all[i + 1] == nodes[i];
    }
  }

  // ---------- prefix-free keys ----------

  ghost predicate PrefixFreeKeys(t: Node)
    requires Shaped(t)
  {
    forall a, b :: IsNibbles(a) && IsNibbles(b) && Lookup(t, a).Some? && Lookup(t, b).Some? && a <= b ==> a == b
  }

  lemma {:induction false} SomeKey(t: Node) returns (k: seq<Byte>)
    requires Shaped(t) && Canonical(t) && !t.Empty?
    ensures IsNibbles(k) && Lookup(t, k).Some?
    decreases t
  {
    match t
    case Leaf(p, _) => k := p;
    case Extension(p, child) =>
      var rest := SomeKey(child);
      k := p + rest;
      assert k[|p|..] == rest;
    case Branch(children, _) =>
      var i :| 0 <= i < 16 && !children[i].Empty?;
      var rest := SomeKey(children[i]);
      k := [i as Byte] + rest;
      assert k[1..] == rest;
  }

  /** Prefix-free keys stay so below an extension or a branch: s is the part of the key in front. */
  lemma PrefixFreeBelow(t: Node, s: seq<Byte>, child: Node)
    requires Shaped(t) && Shaped(child) && IsNibbles(s) && PrefixFreeKeys(t)
    requires forall k {:trigger Lookup(child, k)} :: IsNibbles(k) ==> Lookup(t, s + k) == Lookup(child, k)
    ensures PrefixFreeKeys(child)
  {
    forall a, b | IsNibbles(a) && IsNibbles(b) && Lookup(child, a).Some? && Lookup(child, b).Some? && a <= b
      ensures a == b
    {
      assert Lookup(t, s + a).Some? && Lookup(t, s + b).Some?;
      assert b[..|a|] == a;
      assert (s + b)[..|s + a|] == s + a;
      assert (s + a)[|s|..] == a && (s + b)[|s|..] == b;
    }
  }

  /** Below an extension there is a key longer than its path. */
  lemma LongerKey(t: Node) returns (k: seq<Byte>)
    requires Shaped(t) && Canonical(t) && t.Extension?
    ensures IsNibbles(k) && t.path <= k && t.path != k && Lookup(t, k).Some?
  {
    var i :| 0 <= i < 16 && !t.child.children[i].Empty?;
    var rest := SomeKey(t.child.children[i]);
    var below := [i as Byte] + rest;
    assert below[1..] == rest;
    k := t.path + below;
    assert k[|t.path|..] == below;
  }

  /** A key stored at the end of an extension would be a proper prefix of another one. */
  lemma NoKeyAtExtension(t: Node)
    requires Shaped(t) && Canonical(t) && PrefixFreeKeys(t) && t.Extension?
    ensures Lookup(t, t.path).None?
  {
    var k := LongerKey(t);
  }

  /** With prefix-free keys no stored key ends at an extension. */
  lemma {:induction false} PrefixFreeNeverEnds(t: Node, path: seq<Byte>)
    requires Shaped(t) && Canonical(t) && PrefixFreeKeys(t) && IsNibbles(path)
    requires Lookup(t, path).Some?
    ensures !EndsAtExtension(t, path)
    decreases t
  {
    match t
    case Extension(p, child) =>
      forall k | IsNibbles(k)
        ensures Lookup(t, p + k) == Lookup(child, k)
      {
        assert (p + k)[|p|..] == k;
      }
      PrefixFreeBelow(t, p, child);
      if p == path {
        NoKeyAtExtension(t);
      } else {
        PrefixFreeNeverEnds(child, path[|p|..]);
      }
    case Branch(children, _) =>
      if path != [] {
        var child := children[path[0] as int];
        forall k | IsNibbles(k)
          ensures Lookup(t, [path[0]] + k) == Lookup(child, k)
        {
          assert ([path[0]] + k)[1..] == k;
        }
        PrefixFreeBelow(t, [path[0]], child);
        PrefixFreeNeverEnds(child, path[1..]);
      }
    case _ =>
  }

  // ---------- completeness ----------

  function NodeItems(keccak: Keccak, nodes: seq<Node>): (r: seq<Item>)
    requires forall i :: 0 <= i < |nodes| ==> Shaped(nodes[i])
    ensures |r| == |nodes| && forall i :: 0 <= i < |nodes| ==> r[i] == NodeItem(keccak, nodes[i])
  {
    if nodes == [] then [] else [NodeItem(keccak, nodes[0])] + NodeItems(keccak, nodes[1..])
  }

  /** No node below the root is embedded in its parent. */
  ghost predicate NoneEmbedded(keccak: Keccak, nodes: seq<Node>)
    requires forall i :: 0 <= i < |nodes| ==> Shaped(nodes[i])
  {
    forall i :: 1 <= i < |nodes| ==> |NodeBytes(keccak, nodes[i])| >= 32
  }

  /** Completeness: for a trie with prefix-free keys, the list of the nodes from the root to a stored
      key is accepted for the value stored there. */
  lemma HonestProofIsAccepted(keccak: Keccak, t: Node, v: seq<Byte>, encodedPath: seq<Byte>, mem: seq<Byte>,
                              siblings: RLPItem)
    requires Shaped(t) && Canonical(t) && PrefixFreeKeys(t)
    requires DecodePath(encodedPath) != [] && Lookup(t, DecodePath(encodedPath)) == Some(v)
    requires NoneEmbedded(keccak, OnPath(t, DecodePath(encodedPath)))
    requires siblings.len < Pow256(8)
    requires ToRlpBytes(mem, siblings) == Encode(List(NodeItems(keccak, OnPath(t, DecodePath(encodedPath)))))
    ensures Verified(keccak, keccak(v), encodedPath, mem, siblings, keccak(NodeBytes(keccak, t))) == Ok(true)
  {
    var path := DecodePath(encodedPath);
    var nodes := OnPath(t, path);
    ItemsOfList(mem, siblings, NodeItems(keccak, nodes));
    assert path[0..] == path;
    PrefixFreeNeverEnds(t, path);
    EndMeans(keccak, t, path);
    WalkOnHonestProof(keccak, mem, ItemsOf(mem, siblings), t, path, 0, keccak(v));
  }

  // ---------- long values are never embedded ----------

  lemma {:induction false} ItemFits(xs: seq<Item>, i: nat)
    requires i < |xs|
    ensures |EncodeAll(xs)| >= |Encode(xs[i])|
  {
    if i > 0 {
      ItemFits(xs[1..], i - 1);
    }
  }

  lemma {:induction false} ListHolds(xs: seq<Item>, i: nat, bytes: seq<Byte>)
    requires i < |xs| && xs[i] == Str(bytes)
    ensures |Encode(List(xs))| >= |bytes|
  {
    ItemFits(xs, i);
    EncodeParts(List(xs));
    EncodeParts(Str(bytes));
  }

  /** The parent of a node that is not embedded is not embedded. */
  lemma {:induction false} ParentIsLong(keccak: Keccak, xs: seq<Item>, i: nat, child: Node)
    requires Shaped(child) && !child.Empty? && |NodeBytes(keccak, child)| >= 32
    requires i < |xs| && xs[i] == Reference(keccak, child)
    ensures |Encode(List(xs))| >= 32
  {
    ListHolds(xs, i, FixedBE(keccak(NodeBytes(keccak, child)), 32));
  }

  ghost predicate AllLong(keccak: Keccak, nodes: seq<Node>)
    requires forall i :: 0 <= i < |nodes| ==> Shaped(nodes[i])
  {
    forall i :: 0 <= i < |nodes| ==> |NodeBytes(keccak, nodes[i])| >= 32
  }

  /** No node on the way to a value of 32 bytes or more is embedded in its parent. */
  lemma {:induction false} LongValueIsNotEmbedded(keccak: Keccak, t: Node, path: seq<Byte>)
    requires Shaped(t) && IsNibbles(path) && Lookup(t, path).Some? && |Lookup(t, path).value| >= 32
    ensures AllLong(keccak, OnPath(t, path))
    decreases t
  {
    match t
    case Leaf(p, value) => ListHolds([Str(HexPrefix(p, true)), Str(value)], 1, value);
    case Extension(p, child) =>
      LongValueIsNotEmbedded(keccak, child, path[|p|..]);
      ParentIsLong(keccak, NodeItem(keccak, t).items, 1, OnPath(child, path[|p|..])[0]);
      OneMoreLong(keccak, t, OnPath(child, path[|p|..]));
    case Branch(children, value) =>
      var xs := NodeItem(keccak, t).items;
      if path == [] {
        ListHolds(xs, 16, value);
      } else {
        LongValueIsNotEmbedded(keccak, children[path[0] as int], path[1..]);
        ParentIsLong(keccak, xs, path[0] as nat, OnPath(children[path[0] as int], path[1..])[0]);
        OneMoreLong(keccak, t, OnPath(children[path[0] as int], path[1..]));
      }
  }

  lemma {:induction false} OneMoreLong(keccak: Keccak, t: Node, nodes: seq<Node>)
    requires Shaped(t) && |NodeBytes(keccak, t)| >= 32
    requires (forall i :: 0 <= i < |nodes| ==> Shaped(nodes[i])) && AllLong(keccak, nodes)
    ensures forall i :: 0 <= i < |[t] + nodes| ==> Shaped(([t] + nodes)[i])
    ensures AllLong(keccak, [t] + nodes)
  {
  }

  // ---------- what is accepted though the trie does not hold it ----------

  /** For a key at the end of an extension the honest nodes are a proof of the child reference, and they
      are one of the value stored there only if the two have the same hash. */
  lemma ReferenceIsProved(keccak: Keccak, t: Node, path: seq<Byte>, mem: seq<Byte>, items: seq<RLPItem>, v: seq<Byte>)
    requires Shaped(t) && Canonical(t) && IsNibbles(path) && EndsAtExtension(t, path)
    requires HoldNodes(keccak, mem, items, OnPath(t, path))
    ensures var e := EndOf(keccak, t, path);
      && e.Compared? && |e.bytes| <= 32
      && (Walk(keccak, mem, items, keccak(NodeBytes(keccak, t)), path, 0, keccak(v)) == Ok(true) <==>
            keccak(e.bytes) == keccak(v))
  {
    assert path[0..] == path;
    EndMeans(keccak, t, path);
    WalkOnHonestProof(keccak, mem, items, t, path, 0, keccak(v));
  }

  /** A concrete case: below an extension with path [1] there is a branch with two long leaves and no
      value. The key [1] holds nothing, but the hash of the branch is proved for it. */
  lemma {:induction false} ReferenceIsForged(keccak: Keccak, t: Node, a: seq<Byte>, b: seq<Byte>, mem: seq<Byte>,
                                             items: seq<RLPItem>)
    requires t == Extension([1], Branch(TwoLeaves(a, b), [])) && |a| > 32 && |b| > 32
    requires HoldNodes(keccak, mem, items, [t, t.child])
    ensures Lookup(t, [1]) == None
    ensures Walk(keccak, mem, items, keccak(NodeBytes(keccak, t)), [1], 0,
                 keccak(FixedBE(keccak(NodeBytes(keccak, t.child)), 32))) == Ok(true)
  {
    assert !t.child.children[2].Empty?;
    assert OnPath(t, [1]) == [t] + OnPath(t.child, []);
    assert [t, t.child][1] == t.child;
    ReferenceIsProved(keccak, t, [1], mem, items, FixedBE(keccak(NodeBytes(keccak, t.child)), 32));
  }

  /** Sixteen children, two of them leaves. */
  function TwoLeaves(a: seq<Byte>, b: seq<Byte>): (r: seq<Node>)
    ensures |r| == 16 && forall i :: 0 <= i < 16 ==> Shaped(r[i]) && Canonical(r[i])
  {
    [Empty, Empty, Leaf([], a), Leaf([], b), Empty, Empty, Empty, Empty, Empty, Empty, Empty, Empty, Empty, Empty,
     Empty, Empty]
  }

  /** Where a leaf stores 32 bytes that are the hash of a leaf of no concern to the trie, that leaf's value,
      of whatever length, is proved for the longer key, where the trie holds nothing. */
  lemma ForeignLeafIsProved(keccak: Keccak, t: Node, path: seq<Byte>, v: seq<Byte>, mem: seq<Byte>, items: seq<RLPItem>)
    requires Shaped(t) && Canonical(t) && IsNibbles(path) && EndOf(keccak, t, path).Followed?
    requires HoldNodes(keccak, mem, items, OnPath(t, path)) && |items| > |OnPath(t, path)|
    requires var e := EndOf(keccak, t, path);
      var foreign := Leaf(path[|path| - e.left..], v);
      && Shaped(foreign) && e.word == FixedBE(keccak(NodeBytes(keccak, foreign)), 32)
      && var item := items[|OnPath(t, path)|];
      ToRlpBytes(mem, item) == NodeBytes(keccak, foreign) && item.len < Pow256(8)
    ensures Lookup(t, path) == None
    ensures Walk(keccak, mem, items, keccak(NodeBytes(keccak, t)), path, 0, keccak(v)) == Ok(true)
  {
    var e, more := EndOf(keccak, t, path), items[|OnPath(t, path)|..];
    assert path[0..] == path;
    EndMeans(keccak, t, path);
    WalkOnHonestProof(keccak, mem, items, t, path, 0, keccak(v));
    ForeignLeafDecides(keccak, mem, more, path, Behind(path, e.left), v, e.word);
  }

  lemma {:induction false} ForeignLeafDecides(keccak: Keccak, mem: seq<Byte>, more: seq<RLPItem>, path: seq<Byte>,
                                              ptr: nat, v: seq<Byte>, word: seq<Byte>)
    requires IsNibbles(path) && ptr <= |path| && more != []
    requires word == FixedBE(keccak(NodeBytes(keccak, Leaf(path[ptr..], v))), 32)
    requires ToRlpBytes(mem, more[0]) == NodeBytes(keccak, Leaf(path[ptr..], v)) && more[0].len < Pow256(8)
    ensures Walk(keccak, mem, more, BE(word), path, ptr, keccak(v)) == Ok(true)
  {
    var foreign := Leaf(path[ptr..], v);
    BEOfFixed(keccak(NodeBytes(keccak, foreign)), 32);
    HonestRound(keccak, mem, more[0], foreign, path, ptr, keccak(v));
    WalkOnce(keccak, mem, more, BE(word), path, ptr, keccak(v), Verdict(true));
  }

  // ---------- receipt keys ----------

  lemma {:induction false} NibblePrefix(a: seq<Byte>, b: seq<Byte>)
    requires UnpackNibbles(a) <= UnpackNibbles(b)
    ensures a <= b
  {
    forall i | 0 <= i < |a|
      ensures a[i] == b[i]
    {
      UnpackedAt(a, 2 * i);
      UnpackedAt(a, 2 * i + 1);
      UnpackedAt(b, 2 * i);
      UnpackedAt(b, 2 * i + 1);
      assert a[i] == 16 * (a[i] / 0x10) + a[i] % 0x10;
      assert b[i] == 16 * (b[i] / 0x10) + b[i] % 0x10;
    }
  }

  /** A receipts trie: its keys are encoded indices. */
  ghost predicate ReceiptsTrie(t: Node)
    requires Shaped(t)
  {
    forall k :: IsNibbles(k) && Lookup(t, k).Some? ==>
      exists n: nat :: n < Pow256(8) && k == UnpackNibbles(Encode(Int(n)))
  }

  /** Receipts are stored under the RLP encodings of their indices, which are prefix-free. */
  lemma ReceiptKeysArePrefixFree(t: Node)
    requires Shaped(t) && ReceiptsTrie(t)
    ensures PrefixFreeKeys(t)
  {
    forall a, b | IsNibbles(a) && IsNibbles(b) && Lookup(t, a).Some? && Lookup(t, b).Some? && a <= b
      ensures a == b
    {
      var m: nat :| m < Pow256(8) && a == UnpackNibbles(Encode(Int(m)));
      var n: nat :| n < Pow256(8) && b == UnpackNibbles(Encode(Int(n)));
      NibblePrefix(Encode(Int(m)), Encode(Int(n)));
      UintRlpRange(m);
      UintRlpRange(n);
      Pow256Values();
      PrefixFree(Int(m), Int(n));
    }
  }

  /** The path of a proof: a zero byte and the key's bytes decode to the key's nibbles. */
  lemma ZeroBytePath(key: seq<Byte>)
    ensures DecodePath([0] + key) == UnpackNibbles(key)
  {
    assert ([0] + key)[1..] == key;
  }

  /** The proof built for a stored receipt is accepted: a zero byte and the encoded index as path, and the
      list of the nodes found on the way as siblings. No receipt has 32 bytes or less. */
  lemma StoredReceiptIsProved(keccak: Keccak, t: Node, n: nat, v: seq<Byte>, mem: seq<Byte>, siblings: RLPItem)
    requires Shaped(t) && Canonical(t) && ReceiptsTrie(t)
    requires Lookup(t, UnpackNibbles(Encode(Int(n)))) == Some(v) && |v| > 32
    requires siblings.len < Pow256(8)
    requires ToRlpBytes(mem, siblings) == Encode(List(NodeItems(keccak, OnPath(t, UnpackNibbles(Encode(Int(n)))))))
    ensures Verified(keccak, keccak(v), [0] + Encode(Int(n)), mem, siblings, keccak(NodeBytes(keccak, t))) == Ok(true)
  {
    var key := UnpackNibbles(Encode(Int(n)));
    ZeroBytePath(Encode(Int(n)));
    ReceiptKeysArePrefixFree(t);
    LongValueIsNotEmbedded(keccak, t, key);
    SomeIndex(t, n);
    HonestProofIsAccepted(keccak, t, v, [0] + Encode(Int(n)), mem, siblings);
  }

  /** A stored index is below 2^64, so its encoding is not empty. */
  lemma SomeIndex(t: Node, n: nat)
    requires Shaped(t) && ReceiptsTrie(t) && Lookup(t, UnpackNibbles(Encode(Int(n)))).Some?
    ensures UnpackNibbles(Encode(Int(n))) != []
  {
    var m: nat :| m < Pow256(8) && UnpackNibbles(Encode(Int(n))) == UnpackNibbles(Encode(Int(m)));
    UintRlpRange(m);
    NeverEmpty(Int(m));
  }
}
