/** MerklePatriciaProof.sol: checking a list of trie nodes against a root hash. */
module MerklePatriciaProof {
  import opened Bytes
  import opened RlpReader
  import opened Trie
  import opened Wrappers

  // ---------- nibbles ----------

  method GetNibbleArray(b: seq<Byte>) returns (nibbles: seq<Byte>)
    ensures nibbles == DecodePath(b)
  {
    if b == [] {
      return [];
    }
    var offset := if NthNibble(0, b) == 1 || NthNibble(0, b) == 3 then 1 else 0;
    var buffer := new Byte[2 * |b| - 2 + offset];
    if offset == 1 {
      buffer[0] := NthNibble(1, b);
    }
    for i := offset to buffer.Length
      invariant forall j :: 0 <= j < i ==> buffer[j] == NthNibble(j - offset + 2, b)
    {
      buffer[i] := NthNibble(i - offset + 2, b);
    }
    nibbles := buffer[..];
    DecodedNibbles(b, nibbles, offset);
  }

  lemma DecodedNibbles(b: seq<Byte>, s: seq<Byte>, offset: nat)
    requires b != [] && offset == 2 - PathStart(b) && |s| == 2 * |b| - 2 + offset
    requires forall i :: 0 <= i < |s| ==> s[i] == NthNibble(i - offset + 2, b)
    ensures s == DecodePath(b)
  {
    forall i | 0 <= i < |s|
      ensures s[i] == DecodePath(b)[i]
    {
      UnpackedAt(b, i - offset + 2);
    }
  }

  /** `_nibblesToTraverse`: the length of the partial path when the key goes on with it, else 0. It
      reverts when the partial path reaches past the end of the key. */
  function NibblesToTraverse(keccak: Keccak, encodedPartialPath: seq<Byte>, path: seq<Byte>, pathPtr: nat): Result<nat>
    requires pathPtr <= |path|
  {
    var partialPath := DecodePath(encodedPartialPath);
    if pathPtr + |partialPath| > |path| then Revert("")
    else Ok(if keccak(partialPath) == keccak(path[pathPtr..pathPtr + |partialPath|]) then |partialPath| else 0)
  }

  method ComputeNibblesToTraverse(keccak: Keccak, encodedPartialPath: seq<Byte>, path: seq<Byte>,
                                  pathPtr: nat) returns (r: Result<nat>)
    requires pathPtr <= |path|
    ensures r == NibblesToTraverse(keccak, encodedPartialPath, path, pathPtr)
  {
    var partialPath := GetNibbleArray(encodedPartialPath);
    var slicedPath := new Byte[|partialPath|](_ => 0);
    var i := pathPtr;
    while i < pathPtr + |partialPath|
      invariant pathPtr <= i <= pathPtr + |partialPath| && i <= |path|
      invariant forall j :: 0 <= j < i - pathPtr ==> slicedPath[j] == path[pathPtr + j]
    {
      if i >= |path| {
        return Revert("");
      }
      slicedPath[i - pathPtr] := path[i];
      i := i + 1;
    }
    var sliced := slicedPath[..];
    assert sliced == path[pathPtr..pathPtr + |partialPath|];
    return Ok(if keccak(partialPath) == keccak(sliced) then |partialPath| else 0);
  }

  // ---------- one node of the proof ----------

  datatype Outcome = Verdict(accepted: bool) | Descend(nodeKey: nat, pathPtr: nat)

  /** A node of seventeen items is a branch. */
  function CheckBranch(keccak: Keccak, mem: seq<Byte>, list: seq<RLPItem>, path: seq<Byte>, pathPtr: nat,
                       value: nat): Result<Outcome>
    requires |list| == 17 && pathPtr <= |path|
  {
    if pathPtr == |path| then
      var bytes :- ToBytes(mem, list[16]);
      Ok(Verdict(keccak(bytes) == value))
    else if path[pathPtr] > 16 then Ok(Verdict(false))
    else
      var key :- ToUintStrict(mem, list[path[pathPtr] as int]);
      Ok(Descend(key, pathPtr + 1))
  }

  /** What becomes of a short node once its path is traversed: its second item is the value at the end
      of the key, a child's key before it. */
  function AfterPath(keccak: Keccak, mem: seq<Byte>, item: RLPItem, keyLength: nat, pathPtr: nat,
                     traversal: Result<nat>, value: nat): Result<Outcome> {
    var traversed :- traversal;
    if pathPtr + traversed == keyLength then
      var bytes :- ToBytes(mem, item);
      Ok(Verdict(keccak(bytes) == value))
    else if traversed == 0 then Ok(Verdict(false))
    else
      var key :- ToUintStrict(mem, item);
      Ok(Descend(key, pathPtr + traversed))
  }

  /** A node of two items is a leaf or an extension; the two are not told apart. */
  function CheckShort(keccak: Keccak, mem: seq<Byte>, list: seq<RLPItem>, path: seq<Byte>, pathPtr: nat,
                      value: nat): Result<Outcome>
    requires |list| == 2 && pathPtr <= |path|
  {
    var partialPath :- ToBytes(mem, list[0]);
    AfterPath(keccak, mem, list[1], |path|, pathPtr, NibblesToTraverse(keccak, partialPath, path, pathPtr), value)
  }

  /** One round of the loop: the node must hash to the expected key and be a list of a known size. */
  function CheckNode(keccak: Keccak, mem: seq<Byte>, node: RLPItem, nodeKey: nat, path: seq<Byte>, pathPtr: nat,
                     value: nat): Result<Outcome> {
    if pathPtr > |path| || nodeKey != keccak(ToRlpBytes(mem, node)) then Ok(Verdict(false))
    else if !IsList(mem, node) then Revert("")
    else
      var list := ItemsOf(mem, node);
      if |list| == 17 then CheckBranch(keccak, mem, list, path, pathPtr, value)
      else if |list| == 2 then CheckShort(keccak, mem, list, path, pathPtr, value)
      else Ok(Verdict(false))
  }

  /** The loop over the nodes from the i-th on. */
  function Walk(keccak: Keccak, mem: seq<Byte>, nodes: seq<RLPItem>, nodeKey: nat, path: seq<Byte>, pathPtr: nat,
                value: nat): Result<bool>
    decreases |nodes|
  {
    if nodes == [] then Ok(false)
    else
      var outcome :- CheckNode(keccak, mem, nodes[0], nodeKey, path, pathPtr, value);
      match outcome
      case Verdict(accepted) => Ok(accepted)
      case Descend(key, ptr) => Walk(keccak, mem, nodes[1..], key, path, ptr, value)
  }

  /** `verify`: the siblings are one RLP list in memory, the path is hex-prefixed. */
  function Verified(keccak: Keccak, value: nat, encodedPath: seq<Byte>, mem: seq<Byte>, siblings: RLPItem,
                    root: nat): Result<bool> {
    if !IsList(mem, siblings) then Revert("")
    else if DecodePath(encodedPath) == [] then Ok(false)
    else Walk(keccak, mem, ItemsOf(mem, siblings), root, DecodePath(encodedPath), 0, value)
  }

  method VerifyShort(keccak: Keccak, mem: seq<Byte>, list: seq<RLPItem>, path: seq<Byte>, pathPtr: nat, value: nat)
    returns (r: Result<Outcome>)
    requires |list| == 2 && pathPtr <= |path|
    ensures r == CheckShort(keccak, mem, list, path, pathPtr, value)
  {
    var partialPath :- ToBytes(mem, list[0]);
    var traversal := ComputeNibblesToTraverse(keccak, partialPath, path, pathPtr);
    r := VerifyAfterPath(keccak, mem, list[1], |path|, pathPtr, traversal, value);
  }

  method VerifyAfterPath(keccak: Keccak, mem: seq<Byte>, item: RLPItem, keyLength: nat, pathPtr: nat,
                         traversal: Result<nat>, value: nat)
    returns (r: Result<Outcome>)
    ensures r == AfterPath(keccak, mem, item, keyLength, pathPtr, traversal, value)
  {
    var traversed :- traversal;
    if pathPtr + traversed == keyLength {
      var bytes :- ToBytes(mem, item);
      return Ok(Verdict(keccak(bytes) == value));
    }
    if traversed == 0 {
      return Ok(Verdict(false));
    }
    var key :- ToUintStrict(mem, item);
    return Ok(Descend(key, pathPtr + traversed));
  }

  method VerifyNode(keccak: Keccak, mem: seq<Byte>, node: RLPItem, nodeKey: nat, path: seq<Byte>, pathPtr: nat,
                    value: nat)
    returns (r: Result<Outcome>)
    ensures r == CheckNode(keccak, mem, node, nodeKey, path, pathPtr, value)
  {
    if pathPtr > |path| {
      return Ok(Verdict(false));
    }
    if nodeKey != keccak(ToRlpBytes(mem, node)) {
      return Ok(Verdict(false));
    }
    var currentNodeList :- ToList(mem, node);
    if |currentNodeList| == 17 {
      return CheckBranch(keccak, mem, currentNodeList, path, pathPtr, value);
    } else if |currentNodeList| == 2 {
      r := VerifyShort(keccak, mem, currentNodeList, path, pathPtr, value);
    } else {
      return Ok(Verdict(false));
    }
  }

  method Verify(keccak: Keccak, value: nat, encodedPath: seq<Byte>, mem: seq<Byte>, siblings: RLPItem,
                root: nat) returns (r: Result<bool>)
    ensures r == Verified(keccak, value, encodedPath, mem, siblings, root)
  {
    var nodes :- ToList(mem, siblings);
    var nodeKey: nat, pathPtr: nat := root, 0;
    var nibblePath := GetNibbleArray(encodedPath);
    if |nibblePath| == 0 {
      return Ok(false);
    }
    for i := 0 to |nodes|
      invariant Walk(keccak, mem, nodes[i..], nodeKey, nibblePath, pathPtr, value)
             == Walk(keccak, mem, nodes, root, nibblePath, 0, value)
    {
      assert nodes[i..][0] == nodes[i] && nodes[i..][1..] == nodes[i + 1..];
      var outcome :- VerifyNode(keccak, mem, nodes[i], nodeKey, nibblePath, pathPtr, value);
      match outcome {
        case Verdict(accepted) => return Ok(accepted);
        case Descend(key, ptr) => nodeKey, pathPtr := key, ptr;
      }
    }
    return Ok(false);
  }
}
