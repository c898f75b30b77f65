/** What an accepted proof means: the checker against the trie. */
module TrieProofs {
  import opened Bytes
  import opened Rlp
  import opened RlpReader
  import opened Trie
  import opened MerklePatriciaProof
  import opened Wrappers

  /** No two different strings of the set have the same hash. A hash of 32 bytes cannot be injective
      on all strings, so every result names the finite set it needs. */
  ghost predicate NoCollision(keccak: Keccak, strings: set<seq<Byte>>) {
    forall a, b :: a in strings && b in strings && keccak(a) == keccak(b) ==> a == b
  }

  /** The set holds what the trie consists of: node encodings, paths, values and child references;
      and every node has an encoding (fewer than 2^64 bytes). */
  ghost predicate Covers(strings: set<seq<Byte>>, keccak: Keccak, t: Node)
    requires Shaped(t)
  {
    && NodeBytes(keccak, t) in strings && |NodeBytes(keccak, t)| < Pow256(8)
    && match t
       case Empty => true
       case Leaf(path, value) => path in strings && value in strings
       case Extension(path, child) =>
         path in strings && Payload(Reference(keccak, child)) in strings && Covers(strings, keccak, child)
       case Branch(children, value) =>
         && value in strings
         && forall i :: 0 <= i < 16 ==> Covers(strings, keccak, children[i])
  }

  /** The set holds every part of the key. */
  ghost predicate CoversParts(strings: set<seq<Byte>>, path: seq<Byte>) {
    forall a, b :: 0 <= a <= b <= |path| ==> path[a..b] in strings
  }

  ghost predicate CoversNodes(strings: set<seq<Byte>>, mem: seq<Byte>, nodes: seq<RLPItem>) {
    forall i :: 0 <= i < |nodes| ==> ToRlpBytes(mem, nodes[i]) in strings
  }

  /** A child reference read as a word: the child's hash, and a revert for an embedded or missing
      child. */
  lemma ReferenceWord(keccak: Keccak, mem: seq<Byte>, item: RLPItem, child: Node)
    requires Shaped(child)
    requires ToRlpBytes(mem, item) == Encode(Reference(keccak, child)) && item.len < Pow256(8)
    ensures ToUintStrict(mem, item).Ok? ==> ToUintStrict(mem, item).value == keccak(NodeBytes(keccak, child))
    ensures |NodeBytes(keccak, child)| >= 32 && !child.Empty? ==> ToUintStrict(mem, item).Ok?
  {
    var x := Reference(keccak, child);
    WordOfItem(mem, item, x);
    if !child.Empty? && |NodeBytes(keccak, child)| >= 32 {
      BEOfFixed(keccak(NodeBytes(keccak, child)), 32);
    }
  }

  // ---------- what a key comes down to ----------

  /** In the checker's eyes a key ends in bytes that are compared with the value, or in 32 bytes that are
      followed as the hash of a further node with that much of the key left, or nowhere. */
  datatype End = Compared(bytes: seq<Byte>) | Followed(word: seq<Byte>, left: nat) | Nowhere

  /** Leaves and extensions are not told apart: at the end of an extension's path the child reference is
      compared, and a leaf's value is followed when the key goes on. A branch without value compares the
      empty string. */
  function EndOf(keccak: Keccak, t: Node, path: seq<Byte>): (r: End)
    requires Shaped(t) && IsNibbles(path)
    ensures r.Followed? ==> r.left <= |path|
  {
    match t
    case Empty => Nowhere
    case Leaf(p, value) =>
      if p == path then Compared(value)
      else if p != [] && p <= path && |value| == 32 then Followed(value, |path| - |p|)
      else Nowhere
    case Extension(p, child) =>
      if p == path then Compared(Payload(Reference(keccak, child)))
      else if p <= path then EndOf(keccak, child, path[|p|..])
      else Nowhere
    case Branch(children, value) =>
      if path == [] then Compared(value) else EndOf(keccak, children[path[0] as int], path[1..])
  }

  /** The key is used up exactly at the end of an extension's path. */
  predicate EndsAtExtension(t: Node, path: seq<Byte>)
    requires Shaped(t) && IsNibbles(path)
  {
    match t
    case Extension(p, child) => p <= path && (p == path || EndsAtExtension(child, path[|p|..]))
    case Branch(children, _) => path != [] && EndsAtExtension(children[path[0] as int], path[1..])
    case _ => false
  }

  /** The end of a key against the value stored there. They differ in three cases: at an extension a
      reference of at most 32 bytes stands for the value, at a branch without value the empty string does,
      and a leaf of 32 bytes above the key is followed. */
  lemma {:induction false} EndMeans(keccak: Keccak, t: Node, path: seq<Byte>)
    requires Shaped(t) && IsNibbles(path)
    ensures var e, stored := EndOf(keccak, t, path), Lookup(t, path);
      && (EndsAtExtension(t, path) ==> e.Compared? && |e.bytes| <= 32)
      && (!EndsAtExtension(t, path) && stored.Some? ==> e == Compared(stored.value))
      && (!EndsAtExtension(t, path) && e.Compared? ==> stored == Some(e.bytes) || (stored == None && e.bytes == []))
      && (e.Followed? ==> stored == None && |e.word| == 32)
    decreases t
  {
    match t
    case Empty =>
    case Leaf(_, _) =>
    case Extension(p, child) =>
      ReferenceIsShort(keccak, child);
      if p <= path {
        EndMeans(keccak, child, path[|p|..]);
      }
    case Branch(children, _) =>
      if path != [] {
        EndMeans(keccak, children[path[0] as int], path[1..]);
      }
  }

  /** The 32 bytes followed are a value that the trie stores under a shorter key. */
  lemma {:induction false} FollowedIsStored(keccak: Keccak, t: Node, path: seq<Byte>)
    requires Shaped(t) && IsNibbles(path) && EndOf(keccak, t, path).Followed?
    ensures var e := EndOf(keccak, t, path); Lookup(t, path[..|path| - e.left]) == Some(e.word)
    decreases t
  {
    var key := path[..|path| - EndOf(keccak, t, path).left];
    match t
    case Empty =>
    case Leaf(p, _) => assert path[..|p|] == p;
    case Extension(p, child) =>
      FollowedIsStored(keccak, child, path[|p|..]);
      assert path[|p|..][..|key| - |p|] == key[|p|..];
    case Branch(children, _) =>
      FollowedIsStored(keccak, children[path[0] as int], path[1..]);
      assert path[1..][..|key| - 1] == key[1..];
  }

  /** No value of the trie has the length of a hash; receipts are longer. */
  ghost predicate NoWordStored(t: Node)
    requires Shaped(t)
  {
    forall key :: IsNibbles(key) && Lookup(t, key).Some? ==> |Lookup(t, key).value| != 32
  }

  /** In such a trie no key is led on. */
  lemma {:induction false} NothingFollowed(keccak: Keccak, t: Node, path: seq<Byte>)
    requires Shaped(t) && NoWordStored(t) && IsNibbles(path)
    ensures !EndOf(keccak, t, path).Followed?
  {
    EndMeans(keccak, t, path);
    if EndOf(keccak, t, path).Followed? {
      FollowedIsStored(keccak, t, path);
    }
  }

  // ---------- soundness ----------

  /** The outcome of a round is right for the subtrie t and the rest of the key: acceptance means
      that the key ends in v there, going down means that it ends alike in the child reached. */
  ghost predicate RightOutcome(keccak: Keccak, strings: set<seq<Byte>>, t: Node, path: seq<Byte>, pathPtr: nat,
                               v: seq<Byte>, r: Result<Outcome>)
    requires Shaped(t) && IsNibbles(path) && pathPtr <= |path|
  {
    match r
    case Revert(_) => true
    case Ok(Verdict(accepted)) => accepted ==> EndOf(keccak, t, path[pathPtr..]) == Compared(v)
    case Ok(Descend(key, ptr)) =>
      ptr <= |path| &&
      exists child :: ReachesChild(keccak, strings, t, path, pathPtr, key, ptr, child)
  }

  ghost predicate ReachesChild(keccak: Keccak, strings: set<seq<Byte>>, t: Node, path: seq<Byte>, pathPtr: nat,
                               key: nat, ptr: nat, child: Node)
    requires Shaped(t) && IsNibbles(path) && pathPtr <= |path| && ptr <= |path|
  {
    && Shaped(child) && Covers(strings, keccak, child)
    && key == keccak(NodeBytes(keccak, child))
    && EndOf(keccak, t, path[pathPtr..]) == EndOf(keccak, child, path[ptr..])
  }

  lemma BranchRound(keccak: Keccak, strings: set<seq<Byte>>, mem: seq<Byte>, list: seq<RLPItem>, t: Node,
                    path: seq<Byte>, pathPtr: nat, v: seq<Byte>)
    requires NoCollision(keccak, strings) && v in strings
    requires Shaped(t) && t.Branch? && Covers(strings, keccak, t)
    requires IsNibbles(path) && pathPtr <= |path| && |list| == 17
    requires forall i :: 0 <= i < 16 ==>
      ToRlpBytes(mem, list[i]) == Encode(Reference(keccak, t.children[i])) && list[i].len < Pow256(8)
    requires ToRlpBytes(mem, list[16]) == Encode(Str(t.value)) && list[16].len < Pow256(8)
    ensures RightOutcome(keccak, strings, t, path, pathPtr, v, CheckBranch(keccak, mem, list, path, pathPtr, keccak(v)))
  {
    if pathPtr == |path| {
      BytesOfItem(mem, list[16], Str(t.value));
      assert path[pathPtr..] == [];
    } else {
      var n := path[pathPtr] as int;
      var child := t.children[n];
      ReferenceWord(keccak, mem, list[n], child);
      var key := ToUintStrict(mem, list[n]);
      if key.Ok? {
        assert path[pathPtr..][1..] == path[pathPtr + 1..];
        assert ReachesChild(keccak, strings, t, path, pathPtr, key.value, pathPtr + 1, child);
      }
    }
  }

  /** A path is a prefix of the rest of the key if it equals the part of its length there. */
  lemma {:induction false} PrefixIsWindow(p: seq<Byte>, path: seq<Byte>, pathPtr: nat)
    requires pathPtr + |p| <= |path|
    ensures p <= path[pathPtr..] <==> p == path[pathPtr..pathPtr + |p|]
  {
    assert path[pathPtr..][..|p|] == path[pathPtr..pathPtr + |p|];
  }

  /** The partial path of a node against the rest of the key: a prefix is traversed whole, anything
      else not at all, and a path longer than the rest reverts. */
  lemma {:induction false} TraversesPrefix(keccak: Keccak, strings: set<seq<Byte>>, p: seq<Byte>, leaf: bool,
                                           path: seq<Byte>, pathPtr: nat)
    requires NoCollision(keccak, strings) && p in strings && CoversParts(strings, path)
    requires IsNibbles(p) && IsNibbles(path) && pathPtr <= |path|
    ensures var r := NibblesToTraverse(keccak, HexPrefix(p, leaf), path, pathPtr);
      if pathPtr + |p| > |path| then r.Revert? else r == Ok(if p <= path[pathPtr..] then |p| else 0)
  {
    DecodeOfHexPrefix(p, leaf);
    TraversesDecoded(keccak, strings, HexPrefix(p, leaf), p, path, pathPtr);
  }

  lemma {:induction false} TraversesDecoded(keccak: Keccak, strings: set<seq<Byte>>, encoded: seq<Byte>, p: seq<Byte>,
                                            path: seq<Byte>, pathPtr: nat)
    requires NoCollision(keccak, strings) && p in strings && CoversParts(strings, path)
    requires DecodePath(encoded) == p && pathPtr <= |path|
    ensures var r := NibblesToTraverse(keccak, encoded, path, pathPtr);
      if pathPtr + |p| > |path| then r.Revert? else r == Ok(if p <= path[pathPtr..] then |p| else 0)
  {
    if pathPtr + |p| <= |path| {
      PrefixIsWindow(p, path, pathPtr);
      assert path[pathPtr..pathPtr + |p|] in strings;
    }
  }

  lemma LeafRound(keccak: Keccak, strings: set<seq<Byte>>, mem: seq<Byte>, list: seq<RLPItem>, t: Node,
                  path: seq<Byte>, pathPtr: nat, v: seq<Byte>)
    requires NoCollision(keccak, strings) && v in strings && CoversParts(strings, path)
    requires Shaped(t) && t.Leaf? && Covers(strings, keccak, t)
    requires IsNibbles(path) && pathPtr <= |path| && |list| == 2 && !EndOf(keccak, t, path[pathPtr..]).Followed?
    requires ToRlpBytes(mem, list[0]) == Encode(Str(HexPrefix(t.path, true))) && list[0].len < Pow256(8)
    requires ToRlpBytes(mem, list[1]) == Encode(Str(t.value)) && list[1].len < Pow256(8)
    ensures RightOutcome(keccak, strings, t, path, pathPtr, v, CheckShort(keccak, mem, list, path, pathPtr, keccak(v)))
  {
    BytesOfItem(mem, list[0], Str(HexPrefix(t.path, true)));
    BytesOfItem(mem, list[1], Str(t.value));
    WordOfItem(mem, list[1], Str(t.value));
    TraversesPrefix(keccak, strings, t.path, true, path, pathPtr);
    if t.path <= path[pathPtr..] && pathPtr + |t.path| == |path| {
      assert t.path == path[pathPtr..];
    }
  }

  lemma ExtensionRound(keccak: Keccak, strings: set<seq<Byte>>, mem: seq<Byte>, list: seq<RLPItem>, t: Node,
                       path: seq<Byte>, pathPtr: nat, v: seq<Byte>)
    requires NoCollision(keccak, strings) && v in strings && CoversParts(strings, path)
    requires Shaped(t) && t.Extension? && Covers(strings, keccak, t)
    requires IsNibbles(path) && pathPtr <= |path| && |list| == 2
    requires ToRlpBytes(mem, list[0]) == Encode(Str(HexPrefix(t.path, false))) && list[0].len < Pow256(8)
    requires ToRlpBytes(mem, list[1]) == Encode(Reference(keccak, t.child)) && list[1].len < Pow256(8)
    ensures RightOutcome(keccak, strings, t, path, pathPtr, v, CheckShort(keccak, mem, list, path, pathPtr, keccak(v)))
  {
    BytesOfItem(mem, list[0], Str(HexPrefix(t.path, false)));
    BytesOfItem(mem, list[1], Reference(keccak, t.child));
    ReferenceWord(keccak, mem, list[1], t.child);
    TraversesPrefix(keccak, strings, t.path, false, path, pathPtr);
    ExtensionOutcome(keccak, strings, mem, list[1], t, path, pathPtr, v,
                     NibblesToTraverse(keccak, HexPrefix(t.path, false), path, pathPtr),
                     Payload(Reference(keccak, t.child)));
  }

  /** The outcome for an extension, from what its two items say. */
  lemma {:induction false} ExtensionOutcome(keccak: Keccak, strings: set<seq<Byte>>, mem: seq<Byte>, item: RLPItem,
                                            t: Node,
                                            path: seq<Byte>, pathPtr: nat, v: seq<Byte>,
                                            traversal: Result<nat>, payload: seq<Byte>)
    requires NoCollision(keccak, strings) && v in strings && payload in strings
    requires Shaped(t) && t.Extension? && Covers(strings, keccak, t) && payload == Payload(Reference(keccak, t.child))
    requires IsNibbles(path) && pathPtr <= |path|
    requires ToBytes(mem, item) == Ok(payload)
    requires ToUintStrict(mem, item).Ok? ==> ToUintStrict(mem, item).value == keccak(NodeBytes(keccak, t.child))
    requires if pathPtr + |t.path| > |path| then traversal.Revert?
             else traversal == Ok(if t.path <= path[pathPtr..] then |t.path| else 0)
    ensures RightOutcome(keccak, strings, t, path, pathPtr, v,
                         AfterPath(keccak, mem, item, |path|, pathPtr, traversal, keccak(v)))
  {
    if pathPtr + |t.path| < |path| && t.path <= path[pathPtr..] {
      ExtensionReached(keccak, strings, t, path, pathPtr);
    }
  }

  lemma {:induction false} ExtensionReached(keccak: Keccak, strings: set<seq<Byte>>, t: Node, path: seq<Byte>,
                                            pathPtr: nat)
    requires Shaped(t) && t.Extension? && Covers(strings, keccak, t)
    requires IsNibbles(path) && pathPtr + |t.path| < |path| && t.path <= path[pathPtr..]
    ensures ReachesChild(keccak, strings, t, path, pathPtr, keccak(NodeBytes(keccak, t.child)), pathPtr + |t.path|,
                         t.child)
  {
    assert path[pathPtr..][|t.path|..] == path[pathPtr + |t.path|..];
  }

  /** A child reference has at most 32 bytes of payload. */
  lemma ReferenceIsShort(keccak: Keccak, t: Node)
    requires Shaped(t)
    ensures |Payload(Reference(keccak, t))| <= 32
  {
    if !t.Empty? {
      EncodeParts(NodeItem(keccak, t));
    }
  }

  /** One round on a node whose bytes hash to the key of the subtrie t: no collision, so the bytes are
      the encoding of t, whatever item of the proof they came from. */
  lemma RightRound(keccak: Keccak, strings: set<seq<Byte>>, mem: seq<Byte>, node: RLPItem, t: Node,
                   path: seq<Byte>, pathPtr: nat, v: seq<Byte>)
    requires NoCollision(keccak, strings) && v in strings && CoversParts(strings, path)
    requires ToRlpBytes(mem, node) in strings
    requires Shaped(t) && Covers(strings, keccak, t)
    requires IsNibbles(path) && pathPtr <= |path| && !EndOf(keccak, t, path[pathPtr..]).Followed?
    ensures RightOutcome(keccak, strings, t, path, pathPtr, v,
                         CheckNode(keccak, mem, node, keccak(NodeBytes(keccak, t)), path, pathPtr, keccak(v)))
  {
    if keccak(NodeBytes(keccak, t)) == keccak(ToRlpBytes(mem, node)) {
      assert ToRlpBytes(mem, node) == NodeBytes(keccak, t);
      BytesOfItem(mem, node, NodeItem(keccak, t));
      if !t.Empty? {
        var xs := NodeItem(keccak, t).items;
        ItemsOfList(mem, node, xs);
        var list := ItemsOf(mem, node);
        assert ToRlpBytes(mem, list[0]) == Encode(xs[0]);
        assert ToRlpBytes(mem, list[1]) == Encode(xs[1]);
        match t
        case Leaf(_, _) => LeafRound(keccak, strings, mem, list, t, path, pathPtr, v);
        case Extension(_, _) => ExtensionRound(keccak, strings, mem, list, t, path, pathPtr, v);
        case Branch(_, _) => BranchRound(keccak, strings, mem, list, t, path, pathPtr, v);
      }
    }
  }

  /** Soundness of the loop. */
  lemma {:induction false} WalkIsSound(keccak: Keccak, strings: set<seq<Byte>>, mem: seq<Byte>, nodes: seq<RLPItem>,
                                       t: Node,
                                       path: seq<Byte>, pathPtr: nat, v: seq<Byte>)
    requires NoCollision(keccak, strings) && v in strings && CoversParts(strings, path)
    requires CoversNodes(strings, mem, nodes)
    requires Shaped(t) && Covers(strings, keccak, t)
    requires IsNibbles(path) && pathPtr <= |path| && !EndOf(keccak, t, path[pathPtr..]).Followed?
    requires Walk(keccak, mem, nodes, keccak(NodeBytes(keccak, t)), path, pathPtr, keccak(v)) == Ok(true)
    ensures EndOf(keccak, t, path[pathPtr..]) == Compared(v)
    decreases |nodes|
  {
    RightRound(keccak, strings, mem, nodes[0], t, path, pathPtr, v);
    var outcome := CheckNode(keccak, mem, nodes[0], keccak(NodeBytes(keccak, t)), path, pathPtr, keccak(v)).value;
    if outcome.Descend? {
      var child :| ReachesChild(keccak, strings, t, path, pathPtr, outcome.nodeKey, outcome.pathPtr, child);
      WalkIsSound(keccak, strings, mem, nodes[1..], child, path, outcome.pathPtr, v);
    }
  }

  /** Soundness: if the key is not led on by a leaf of 32 bytes, a proof accepted against the root of a
      trie shows that the key ends in the given bytes, whatever list of nodes was supplied. When these are
      more than 32, or not empty with no extension ending at the key, the trie holds them there. */
  lemma AcceptedProofIsSound(keccak: Keccak, strings: set<seq<Byte>>, t: Node, v: seq<Byte>, encodedPath: seq<Byte>,
                             mem: seq<Byte>, siblings: RLPItem)
    requires NoCollision(keccak, strings) && v in strings && CoversParts(strings, DecodePath(encodedPath))
    requires CoversNodes(strings, mem, ItemsOf(mem, siblings))
    requires Shaped(t) && Covers(strings, keccak, t) && !EndOf(keccak, t, DecodePath(encodedPath)).Followed?
    requires Verified(keccak, keccak(v), encodedPath, mem, siblings, keccak(NodeBytes(keccak, t))) == Ok(true)
    ensures EndOf(keccak, t, DecodePath(encodedPath)) == Compared(v)
    ensures |v| > 32 || (v != [] && !EndsAtExtension(t, DecodePath(encodedPath))) ==>
      Lookup(t, DecodePath(encodedPath)) == Some(v)
  {
    var path := DecodePath(encodedPath);
    assert path[0..] == path;
    WalkIsSound(keccak, strings, mem, ItemsOf(mem, siblings), t, path, 0, v);
    EndMeans(keccak, t, path);
  }

  // ---------- what acceptance means without any trie ----------

  /** The node is a list of two or seventeen items that hashes to the key. */
  predicate HashesTo(keccak: Keccak, mem: seq<Byte>, node: RLPItem, key: nat) {
    && keccak(ToRlpBytes(mem, node)) == key && IsList(mem, node)
    && (|ItemsOf(mem, node)| == 2 || |ItemsOf(mem, node)| == 17)
  }

  /** One of the node's items is this word. */
  predicate RefersTo(mem: seq<Byte>, node: RLPItem, key: nat) {
    exists i :: 0 <= i < |ItemsOf(mem, node)| && ToUintStrict(mem, ItemsOf(mem, node)[i]) == Ok(key)
  }

  /** One of the node's items hashes to the value. */
  predicate HoldsValue(keccak: Keccak, mem: seq<Byte>, node: RLPItem, value: nat) {
    exists i :: 0 <= i < |ItemsOf(mem, node)| && ToBytes(mem, ItemsOf(mem, node)[i]).Ok? &&
      keccak(ToBytes(mem, ItemsOf(mem, node)[i]).value) == value
  }

  /** The first nodes hash to the keys, each key but the first stands in the node before, and the last node holds the
      value. */
  ghost predicate HashChain(keccak: Keccak, mem: seq<Byte>, nodes: seq<RLPItem>, keys: seq<nat>, value: nat) {
    && 0 < |keys| <= |nodes|
    && (forall i :: 0 <= i < |keys| ==> HashesTo(keccak, mem, nodes[i], keys[i]))
    && (forall i :: 1 <= i < |keys| ==> RefersTo(mem, nodes[i - 1], keys[i]))
    && HoldsValue(keccak, mem, nodes[|keys| - 1], value)
  }

  lemma NodeMeans(keccak: Keccak, mem: seq<Byte>, node: RLPItem, key: nat, path: seq<Byte>, ptr: nat, value: nat)
    requires var r := CheckNode(keccak, mem, node, key, path, ptr, value);
      r.Ok? && r.value != Verdict(false)
    ensures HashesTo(keccak, mem, node, key)
    ensures var r := CheckNode(keccak, mem, node, key, path, ptr, value).value;
      match r
      case Verdict(_) => HoldsValue(keccak, mem, node, value)
      case Descend(next, _) => RefersTo(mem, node, next)
  {
  }

  /** Whatever bytes are brought: an accepted walk is a chain of hashes from the key to the value. */
  lemma {:induction false} AcceptedWalk(keccak: Keccak, mem: seq<Byte>, nodes: seq<RLPItem>, key: nat, path: seq<Byte>,
                                        ptr: nat, value: nat)
    returns (keys: seq<nat>)
    requires Walk(keccak, mem, nodes, key, path, ptr, value) == Ok(true)
    ensures HashChain(keccak, mem, nodes, keys, value) && keys[0] == key
    decreases |nodes|
  {
    var outcome := CheckNode(keccak, mem, nodes[0], key, path, ptr, value).value;
    NodeMeans(keccak, mem, nodes[0], key, path, ptr, value);
    match outcome
    case Verdict(_) => keys := [key];
    case Descend(next, ptr') =>
      var rest := AcceptedWalk(keccak, mem, nodes[1..], next, path, ptr', value);
      keys := [key] + rest;
      ChainGrows(keccak, mem, nodes, key, rest, value);
  }

  lemma ChainGrows(keccak: Keccak, mem: seq<Byte>, nodes: seq<RLPItem>, key: nat, rest: seq<nat>, value: nat)
    requires nodes != [] && HashChain(keccak, mem, nodes[1..], rest, value)
    requires HashesTo(keccak, mem, nodes[0], key) && RefersTo(mem, nodes[0], rest[0])
    ensures HashChain(keccak, mem, nodes, [key] + rest, value)
  {
    var keys := [key] + rest;
    forall i | 0 <= i < |keys|
      ensures HashesTo(keccak, mem, nodes[i], keys[i])
    {
      if i > 0 {
        assert nodes[1..][i - 1] == nodes[i] && rest[i - 1] == keys[i];
      }
    }
    forall i | 1 <= i < |keys|
      ensures RefersTo(mem, nodes[i - 1], keys[i])
    {
      if i > 1 {
        assert nodes[1..][i - 2] == nodes[i - 1] && rest[i - 1] == keys[i];
      }
    }
    assert nodes[1..][|rest| - 1] == nodes[|keys| - 1];
  }

  /** So is an accepted proof, from the root to the value, for a path that is not empty. */
  lemma AcceptedIsHashChain(keccak: Keccak, value: nat, encodedPath: seq<Byte>, mem: seq<Byte>, siblings: RLPItem,
                            root: nat)
    returns (keys: seq<nat>)
    requires Verified(keccak, value, encodedPath, mem, siblings, root) == Ok(true)
    ensures IsList(mem, siblings) && DecodePath(encodedPath) != []
    ensures HashChain(keccak, mem, ItemsOf(mem, siblings), keys, value) && keys[0] == root
  {
    keys := AcceptedWalk(keccak, mem, ItemsOf(mem, siblings), root, DecodePath(encodedPath), 0, value);
  }
}
