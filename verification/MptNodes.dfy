/**
 * The trie as the source has it: nodes that own their children, are updated in place, and keep
 * their reference once it is computed. Every method is proved equal to the function on values
 * of the same name, and keeps the reference caches right.
 */
module MptNodes {
  import opened Primitives
  import opened Nibbles
  import opened Rlp
  import opened Trie
  import opened NodeCodec
  import opened Touched
  import opened Pruning

  datatype NodeData =
    | NullData
    | BranchData(children: seq<MptNode?>)
    | LeafData(prefix: Bytes, value: Bytes)
    | ExtensionData(prefix: Bytes, child: MptNode)
    | DigestData(digest: B256)

  /** What an in-place update returns, and what it leaves behind. */
  ghost predicate Performed(result: Result<bool, Error>, before: Node, update: Update, after: Node) {
    result == Reported(update) && after == if update.Changes() then update.node else before
  }

  function Reported(update: Update): Result<bool, Error> {
    match update
    case Failed(error) => Failure(error)
    case Done(_, changed) => Success(changed)
  }

  class MptNode {
    var data: NodeData
    var cachedReference: Option<Reference>
    /** The trie as a value. */
    ghost var view: Node
    /** This node and all nodes it owns. */
    ghost var repr: set<MptNode>

    /** A cached reference is the reference; only pruning leaves a short one on a digest. */
    ghost predicate CacheCoherent()
      reads this
    {
      && (cachedReference.Some? ==> cachedReference.value == Ref(view))
      && (view.Digest? && view.residue.Some? ==> cachedReference.Some?)
    }

    ghost predicate Valid()
      reads this, repr
      decreases repr
      ensures Valid() ==> this in repr
    {
      && this in repr && CacheCoherent()
      && match data
         case NullData => view == Null
         case LeafData(prefix, value) =>
           view.Leaf? && prefix == EncodedPath(view.path, true) && value == view.value
         case ExtensionData(prefix, child) =>
           && view.Extension? && prefix == EncodedPath(view.path, false)
           && child in repr && child.repr <= repr && this !in child.repr
           && child.Valid() && child.view == view.child && !child.view.Null?
         case DigestData(digest) => view.Digest? && digest == view.digest
         case BranchData(children) =>
           && view.Branch? && |children| == 16 && |view.children| == 16
           && (forall i :: 0 <= i < 16 && children[i] == null ==> view.children[i].Null?)
           && (forall i :: 0 <= i < 16 && children[i] != null ==>
                 && children[i] in repr && children[i].repr <= repr && this !in children[i].repr
                 && children[i].Valid() && children[i].view == view.children[i] && !view.children[i].Null?)
           && (forall i, j :: 0 <= i < j < 16 && children[i] != null && children[j] != null ==>
                 children[i].repr !! children[j].repr)
    }

    constructor ()
      ensures Valid() && fresh(repr) && view == Null
    {
      data, cachedReference, view, repr := NullData, None, Null, {this};
    }

    constructor OfLeaf(path: Path, value: Bytes)
      ensures Valid() && fresh(repr) && view == Leaf(path, value)
    {
      data, cachedReference, view := LeafData(EncodedPath(path, true), value), None, Leaf(path, value);
      repr := {this};
    }

    constructor OfExtension(path: Path, child: MptNode)
      requires child.Valid() && !child.view.Null?
      ensures Valid() && fresh(this) && repr == {this} + child.repr && view == Extension(path, child.view)
    {
      data, cachedReference := ExtensionData(EncodedPath(path, false), child), None;
      view, repr := Extension(path, child.view), {this} + child.repr;
    }

    /** A branch with two children. */
    constructor OfPair(i: Nibble, left: MptNode, j: Nibble, right: MptNode)
      requires i != j && left.Valid() && right.Valid() && left.repr !! right.repr
      requires !left.view.Null? && !right.view.Null?
      ensures Valid() && fresh(this) && repr == {this} + left.repr + right.repr
      ensures view == Branch(EmptySlots()[i := left.view][j := right.view])
    {
      data := BranchData(seq(16, _ => null)[i := left][j := right]);
      cachedReference := None;
      view := Branch(EmptySlots()[i := left.view][j := right.view]);
      repr := {this} + left.repr + right.repr;
    }

    /** Removes all key-value pairs. */
    method Clear()
      requires Valid()
      modifies this
      ensures Valid() && view == Null && repr == {this}
    {
      data, cachedReference := NullData, None;
      view, repr := Null, {this};
    }

    // References and encodings.

    /** The reference of this node, computed once and then kept. */
    method Reference() returns (r: Reference)
      requires Valid()
      modifies repr`cachedReference
      ensures Valid() && r == Ref(view)
      ensures cachedReference == Some(r)
      decreases repr, 3
    {
      if cachedReference.Some? {
        return cachedReference.value;
      }
      r := CalcReference();
      cachedReference := Some(r);
    }

    method CalcReference() returns (r: Reference)
      requires Valid() && cachedReference.None?
      modifies repr`cachedReference
      ensures Valid() && r == Ref(view) && cachedReference.None?
      ensures !view.Null? && !view.Digest? && |Encode(view)| < 32 ==> r == RefBytes(Encode(view))
      ensures !view.Null? && !view.Digest? && |Encode(view)| >= 32 ==> r == RefDigest(KECCAK(Encode(view)))
      decreases repr, 2
    {
      match data
      case NullData => r := RefBytes([EMPTY_STRING_CODE]);
      case DigestData(digest) => r := RefDigest(digest);
      case _ =>
        var code := EncodeNode();
        r := if |code| < 32 then RefBytes(code) else RefDigest(KECCAK(code));
    }

    /** The hash of the trie below this node. */
    method HashNode() returns (hash: B256)
      requires Valid()
      modifies repr`cachedReference
      ensures Valid() && hash == Hash(view)
      ensures !view.Digest? ==> hash == KECCAK(Encode(view))
      ensures !view.Null? ==> cachedReference == Some(Ref(view))
    {
      if data.NullData? {
        return EmptyRoot();
      }
      var r := Reference();
      hash := RefHash(r);
    }

    method EncodeNode() returns (code: Bytes)
      requires Valid()
      modifies repr`cachedReference
      ensures Valid() && code == Encode(view) && cachedReference == old(cachedReference)
      decreases repr, 1
    {
      match data
      case NullData => code := [EMPTY_STRING_CODE];
      case BranchData(children) =>
        code := EncodeSlots(children);
        code := EncodeList(code + [EMPTY_STRING_CODE]);
      case LeafData(prefix, value) =>
        code := EncodeList(EncodeString(prefix) + EncodeString(value));
      case ExtensionData(prefix, child) =>
        var r := child.Reference();
        code := EncodeList(EncodeString(prefix) + RefCode(r));
      case DigestData(digest) => code := EncodeString(digest);
    }

    method EncodeSlots(children: seq<MptNode?>) returns (code: Bytes)
      requires Valid() && data == BranchData(children)
      modifies repr`cachedReference
      ensures Valid() && code == Concat(ChildCodes(view.children)) && cachedReference == old(cachedReference)
      decreases repr, 0
    {
      code := [];
      for i := 0 to 16
        invariant Valid() && cachedReference == old(cachedReference)
        invariant code == Concat(ChildCodes(view.children)[..i])
      {
        ConcatNext(ChildCodes(view.children), i);
        var child := children[i];
        if child == null {
          code := code + [EMPTY_STRING_CODE];
        } else {
          var r := child.Reference();
          code := code + RefCode(r);
        }
      }
      assert ChildCodes(view.children)[..16] == ChildCodes(view.children);
    }

    /** All children but one are valid and have the values the view says. */
    ghost predicate SiblingsValid(i: nat)
      requires data.BranchData? && |data.children| == 16 && view.Branch? && |view.children| == 16
      reads this, data.children, set c, o | c in data.children && c != null && o in c.repr :: o
    {
      forall j :: 0 <= j < 16 && j != i && data.children[j] != null ==>
        data.children[j].Valid() && data.children[j].view == view.children[j]
    }

    // Insertion.

    /** Inserts a key; a failed insertion, or one that changes nothing, leaves the trie as it is. */
    method InsertInternal(key: Path, value: Bytes) returns (result: Result<bool, Error>)
      requires Valid()
      modifies repr
      ensures Valid() && fresh(repr - old(repr))
      ensures Performed(result, old(view), Trie.Insert(old(view), key, value), view)
      decreases repr, 3
    {
      match data
      case NullData =>
        data, cachedReference := LeafData(EncodedPath(key, true), value), None;
        view := Leaf(key, value);
        result := Success(true);
      case BranchData(children) =>
        if key == [] {
          return Failure(ValueInBranch);
        }
        result := InsertIntoBranch(key[0], key[1..], value);
      case LeafData(prefix, oldValue) => result := InsertAtLeaf(key, value);
      case ExtensionData(prefix, child) => result := InsertAtExtension(key, value);
      case DigestData(digest) => result := Failure(NodeNotResolved(digest));
    }

    method InsertIntoBranch(i: Nibble, rest: Path, value: Bytes) returns (result: Result<bool, Error>)
      requires Valid() && data.BranchData?
      modifies repr
      ensures Valid() && fresh(repr - old(repr))
      ensures Performed(result, old(view), Trie.Insert(old(view), [i] + rest, value), view)
      decreases repr, 2
    {
      assert ([i] + rest)[1..] == rest;
      var child := data.children[i];
      if child == null {
        PlaceLeaf(i, rest, value);
        return Success(true);
      }
      result := InsertIntoChild(i, child, rest, value);
    }

    method InsertIntoChild(i: Nibble, child: MptNode, rest: Path, value: Bytes)
      returns (result: Result<bool, Error>)
      requires Valid() && data.BranchData? && data.children[i] == child
      modifies repr
      ensures Valid() && fresh(repr - old(repr))
      ensures var below := Trie.Insert(old(view).children[i], rest, value);
        && result == Reported(below)
        && view == if below.Changes() then Branch(old(view).children[i := below.node]) else old(view)
      decreases repr, 1
    {
      result := InsertInChild(i, child, rest, value);
      SettleChild(i, child, result == Success(true));
    }

    method InsertInChild(i: Nibble, child: MptNode, rest: Path, value: Bytes)
      returns (result: Result<bool, Error>)
      requires Valid() && data.BranchData? && data.children[i] == child
      modifies child.repr
      ensures child.Valid() && fresh(child.repr - old(child.repr)) && !child.view.Null?
      ensures Performed(result, old(child.view), Trie.Insert(old(child.view), rest, value), child.view)
      ensures SiblingsValid(i)
      decreases repr, 0
    {
      InsertNotNull(child.view, rest, value);
      result := child.InsertInternal(rest, value);
    }

    method PlaceLeaf(i: Nibble, rest: Path, value: Bytes)
      requires Valid() && data.BranchData? && data.children[i] == null
      modifies this
      ensures Valid() && fresh(repr - old(repr))
      ensures view == Branch(old(view).children[i := Leaf(rest, value)])
    {
      var leaf := new MptNode.OfLeaf(rest, value);
      data, cachedReference := BranchData(data.children[i := leaf]), None;
      view, repr := Branch(view.children[i := leaf.view]), repr + leaf.repr;
    }

    method InsertAtLeaf(key: Path, value: Bytes) returns (result: Result<bool, Error>)
      requires Valid() && data.LeafData?
      modifies repr
      ensures Valid() && fresh(repr - old(repr))
      ensures Performed(result, old(view), Trie.Insert(old(view), key, value), view)
    {
      var prefix, oldValue := data.prefix, data.value;
      CompactRoundTrip(view.path, true);
      var selfNibs := PrefixNibsLoop(prefix);
      var common := LcpLoop(selfNibs, key);
      if common == |selfNibs| && common == |key| {
        if oldValue == value {
          return Success(false);
        }
        data, cachedReference := LeafData(prefix, value), None;
        view := Leaf(view.path, value);
      } else if common == |selfNibs| || common == |key| {
        return Failure(ValueInBranch);
      } else {
        SplitLeaf(selfNibs, common, oldValue, key, value);
      }
      result := Success(true);
    }

    method SplitLeaf(selfNibs: Path, common: nat, oldValue: Bytes, key: Path, value: Bytes)
      requires common < |selfNibs| && common < |key| && selfNibs[common] != key[common]
      modifies this
      ensures Valid() && fresh(repr - {this})
      ensures view == Fork(selfNibs[..common], selfNibs[common], Leaf(selfNibs[common + 1..], oldValue),
                           key[common], Leaf(key[common + 1..], value))
    {
      var left := new MptNode.OfLeaf(selfNibs[common + 1..], oldValue);
      var right := new MptNode.OfLeaf(key[common + 1..], value);
      ghost var nodes := left.repr + right.repr;
      ForkInPlace(selfNibs[..common], selfNibs[common], left, key[common], right);
      assert fresh(repr - nodes - {this}) && fresh(nodes);
    }

    /** Turns this node into a branch with two children, below an extension if there is a common path. */
    method ForkInPlace(common: Path, i: Nibble, left: MptNode, j: Nibble, right: MptNode)
      requires i != j && left.Valid() && right.Valid() && left.repr !! right.repr
      requires !left.view.Null? && !right.view.Null? && this !in left.repr && this !in right.repr
      modifies this
      ensures Valid() && fresh(repr - old(left.repr + right.repr) - {this})
      ensures view == Fork(common, i, left.view, j, right.view)
    {
      var branch := new MptNode.OfPair(i, left, j, right);
      cachedReference := None;
      if |common| > 0 {
        Wrap(common, branch);
      } else {
        data := branch.data;
        view, repr := branch.view, {this} + left.repr + right.repr;
      }
    }

    method InsertAtExtension(key: Path, value: Bytes) returns (result: Result<bool, Error>)
      requires Valid() && data.ExtensionData?
      modifies repr
      ensures Valid() && fresh(repr - old(repr))
      ensures Performed(result, old(view), Trie.Insert(old(view), key, value), view)
      decreases repr, 1
    {
      var prefix, child := data.prefix, data.child;
      CompactRoundTrip(view.path, false);
      var selfNibs := PrefixNibsLoop(prefix);
      var common := LcpLoop(selfNibs, key);
      if common == |selfNibs| {
        result := InsertBelow(key[common..], value);
        return;
      }
      if common == |key| {
        return Failure(ValueInBranch);
      }
      SplitExtension(selfNibs, common, key, value);
      return Success(true);
    }

    method InsertBelow(rest: Path, value: Bytes) returns (result: Result<bool, Error>)
      requires Valid() && data.ExtensionData?
      modifies repr
      ensures Valid() && fresh(repr - old(repr))
      ensures var below := Trie.Insert(old(view).child, rest, value);
        && result == Reported(below)
        && view == if below.Changes() then Extension(old(view).path, below.node) else old(view)
      decreases repr, 0
    {
      var child := data.child;
      ghost var owned := child.repr;
      InsertNotNull(child.view, rest, value);
      result := child.InsertInternal(rest, value);
      assert fresh(child.repr - owned);
      repr := repr + child.repr;
      if result == Success(true) {
        view, cachedReference := Extension(view.path, child.view), None;
      }
    }

    method SplitExtension(selfNibs: Path, common: nat, key: Path, value: Bytes)
      requires Valid() && data.ExtensionData? && selfNibs == view.path
      requires common < |selfNibs| && common < |key| && selfNibs[common] != key[common]
      modifies this
      ensures Valid() && fresh(repr - old(repr))
      ensures var rest := selfNibs[common + 1..];
        view == Fork(selfNibs[..common],
                     selfNibs[common], if rest != [] then Extension(rest, old(view).child) else old(view).child,
                     key[common], Leaf(key[common + 1..], value))
    {
      var left := data.child;
      if common + 1 < |selfNibs| {
        left := new MptNode.OfExtension(selfNibs[common + 1..], left);
      }
      var right := new MptNode.OfLeaf(key[common + 1..], value);
      ghost var nodes := left.repr + right.repr;
      assert fresh(nodes - old(repr));
      ForkInPlace(selfNibs[..common], selfNibs[common], left, key[common], right);
      assert fresh(repr - nodes - {this});
    }

    /** The source panics on an empty value. */
    method Insert(key: Bytes, value: Bytes) returns (result: Result<bool, Error>)
      requires Valid() && value != []
      modifies repr
      ensures Valid() && fresh(repr - old(repr))
      ensures Performed(result, old(view), Trie.Insert(old(view), ToNibs(key), value), view)
    {
      var nibs := ToNibsLoop(key);
      result := InsertInternal(nibs, value);
    }

    // Deletion creates no nodes. The source panics on a branch that loses its last child; a canonical
    // trie has none.

    method DeleteInternal(key: Path) returns (result: Result<bool, Error>)
      requires Valid() && Trie.Delete(view, key) != Failed(NoChildLeft)
      modifies repr
      ensures Valid() && repr <= old(repr)
      ensures Performed(result, old(view), Trie.Delete(old(view), key), view)
      decreases repr, 3
    {
      match data
      case NullData => result := Success(false);
      case BranchData(children) =>
        if key == [] {
          return Failure(ValueInBranch);
        }
        result := DeleteFromBranch(key[0], key[1..]);
      case LeafData(prefix, value) => result := DeleteLeaf(key);
      case ExtensionData(prefix, child) => result := DeleteBelow(key);
      case DigestData(digest) => result := Failure(NodeNotResolved(digest));
    }

    method DeleteLeaf(key: Path) returns (result: Result<bool, Error>)
      requires Valid() && data.LeafData?
      modifies this
      ensures Valid() && repr <= old(repr)
      ensures Performed(result, old(view), Trie.Delete(old(view), key), view)
    {
      CompactRoundTrip(view.path, true);
      var nibs := PrefixNibsLoop(data.prefix);
      if nibs != key {
        return Success(false);
      }
      data, cachedReference, view := NullData, None, Null;
      result := Success(true);
    }

    method DeleteFromBranch(i: Nibble, rest: Path) returns (result: Result<bool, Error>)
      requires Valid() && data.BranchData? && Trie.Delete(view, [i] + rest) != Failed(NoChildLeft)
      modifies repr
      ensures Valid() && repr <= old(repr)
      ensures Performed(result, old(view), Trie.Delete(old(view), [i] + rest), view)
      decreases repr, 2
    {
      assert ([i] + rest)[1..] == rest;
      var child := data.children[i];
      if child == null {
        return Success(false);
      }
      result := DeleteFromChild(i, child, rest);
      if result == Success(true) {
        CollapseInPlace();
      }
    }

    /** Deletes below a child, and empties its slot if nothing is left of it. */
    method DeleteFromChild(i: Nibble, child: MptNode, rest: Path) returns (result: Result<bool, Error>)
      requires Valid() && data.BranchData? && data.children[i] == child
      requires Trie.Delete(view.children[i], rest) != Failed(NoChildLeft)
      modifies repr
      ensures Valid() && repr <= old(repr)
      ensures var below := Trie.Delete(old(view).children[i], rest);
        && result == Reported(below)
        && view == if below.Changes() then Branch(old(view).children[i := below.node]) else old(view)
      decreases repr, 1
    {
      result := DeleteInChild(i, child, rest);
      SettleChild(i, child, result == Success(true));
    }

    /** A branch of which one child may have changed, while the others are as they were. */
    ghost predicate ChildTouched(i: nat, child: MptNode)
      reads this, repr, child
    {
      && this in repr && data.BranchData? && i < |data.children| == 16 && data.children[i] == child
      && view.Branch? && |view.children| == 16
      && (forall j :: 0 <= j < 16 && data.children[j] == null ==> view.children[j].Null?)
      && (forall j :: 0 <= j < 16 && j != i && data.children[j] != null ==>
            && data.children[j] in repr && data.children[j].repr <= repr && this !in data.children[j].repr
            && data.children[j].Valid() && data.children[j].view == view.children[j] && !view.children[j].Null?)
      && (forall j, k :: 0 <= j < k < 16 && j != i && k != i && data.children[j] != null && data.children[k] != null ==>
            data.children[j].repr !! data.children[k].repr)
      && (forall j :: 0 <= j < 16 && j != i && data.children[j] != null ==> data.children[j].repr !! child.repr)
    }

    /** After a child has changed, a child that is empty now leaves its slot. */
    method SettleChild(i: Nibble, child: MptNode, changed: bool)
      requires ChildTouched(i, child) && child.Valid() && this !in child.repr
      requires !changed ==> CacheCoherent() && view.children[i] == child.view && !child.view.Null?
      modifies this
      ensures Valid() && repr <= old(repr) + child.repr
      ensures view == if changed then Branch(old(view).children[i := child.view]) else old(view)
    {
      if changed && child.data.NullData? {
        data, cachedReference := BranchData(data.children[i := null]), None;
        view := Branch(view.children[i := Null]);
        return;
      }
      repr := repr + child.repr;
      if changed {
        view, cachedReference := Branch(view.children[i := child.view]), None;
      }
    }

    method DeleteInChild(i: Nibble, child: MptNode, rest: Path) returns (result: Result<bool, Error>)
      requires Valid() && data.BranchData? && data.children[i] == child
      requires Trie.Delete(view.children[i], rest) != Failed(NoChildLeft)
      modifies child.repr
      ensures child.Valid() && child.repr <= old(child.repr)
      ensures Performed(result, old(child.view), Trie.Delete(old(child.view), rest), child.view)
      ensures SiblingsValid(i)
      decreases repr, 0
    {
      result := child.DeleteInternal(rest);
    }

    method DeleteBelow(key: Path) returns (result: Result<bool, Error>)
      requires Valid() && data.ExtensionData? && Trie.Delete(view, key) != Failed(NoChildLeft)
      modifies repr
      ensures Valid() && repr <= old(repr)
      ensures Performed(result, old(view), Trie.Delete(old(view), key), view)
      decreases repr, 2
    {
      var child := data.child;
      CompactRoundTrip(view.path, false);
      var selfNibs := PrefixNibsLoop(data.prefix);
      if !(selfNibs <= key) {
        return Success(false);
      }
      result := child.DeleteInternal(key[|selfNibs|..]);
      repr := repr + child.repr;
      if result == Success(true) {
        Absorb(selfNibs, child);
      }
    }

    /** The first slot from `i` on that holds a child; past the end if there is none. */
    method FirstSlot(i: nat) returns (j: nat)
      requires Valid() && data.BranchData? && i <= 16
      ensures j == FirstChild(view.children, i)
    {
      j := i;
      while j < 16 && data.children[j] == null
        invariant i <= j <= 16 && FirstChild(view.children, i) == FirstChild(view.children, j)
      {
        j := j + 1;
      }
    }

    /** With exactly one child left, the branch is merged with it. */
    method CollapseInPlace()
      requires Valid() && data.BranchData? && Collapse(view.children).Done?
      modifies this
      ensures Valid() && repr <= old(repr)
      ensures view == Collapse(old(view).children).node
    {
      var index := FirstSlot(0);
      var next := FirstSlot(index + 1);
      cachedReference := None;
      if next == 16 {
        Absorb([index], data.children[index]);
      }
    }

    /** Takes a path and a node behind it as this node's own data. */
    method Absorb(path: Path, child: MptNode)
      requires child.Valid() && this !in child.repr
      modifies this
      ensures Valid() && repr <= {this} + child.repr
      ensures view == Graft(path, child.view)
    {
      cachedReference := None;
      match child.data
      case NullData =>
        data, view, repr := NullData, Null, {this};
      case LeafData(prefix, value) =>
        CompactRoundTrip(child.view.path, true);
        var rest := PrefixNibsLoop(prefix);
        data, view, repr := LeafData(EncodedPath(path + rest, true), value), Graft(path, child.view), {this};
      case ExtensionData(prefix, grandchild) =>
        CompactRoundTrip(child.view.path, false);
        var rest := PrefixNibsLoop(prefix);
        Wrap(path + rest, grandchild);
      case _ => Wrap(path, child);
    }

    /** Becomes an extension over the given node. */
    method Wrap(path: Path, child: MptNode)
      requires child.Valid() && this !in child.repr && !child.view.Null? && cachedReference.None?
      modifies this
      ensures Valid() && repr == {this} + child.repr
      ensures view == Extension(path, child.view)
    {
      data := ExtensionData(EncodedPath(path, false), child);
      view, repr := Extension(path, child.view), {this} + child.repr;
    }

    /** Inserts a value that is already RLP-encoded. */
    method InsertRlp(key: Bytes, code: Bytes) returns (result: Result<bool, Error>)
      requires Valid()
      modifies repr
      ensures Valid() && fresh(repr - old(repr))
      ensures Performed(result, old(view), Trie.Insert(old(view), ToNibs(key), code), view)
    {
      var nibs := ToNibsLoop(key);
      result := InsertInternal(nibs, code);
    }

    method Delete(key: Bytes) returns (result: Result<bool, Error>)
      requires Valid() && Trie.Delete(view, ToNibs(key)) != Failed(NoChildLeft)
      modifies repr
      ensures Valid() && repr <= old(repr)
      ensures Performed(result, old(view), Trie.Delete(old(view), ToNibs(key)), view)
    {
      var nibs := ToNibsLoop(key);
      result := DeleteInternal(nibs);
    }
    // Lookup.

    method GetInternal(key: Path) returns (value: Option<Bytes>)
      requires Valid()
      ensures value == Trie.Get(view, key)
      decreases repr
    {
      match data
      case NullData => value := None;
      case BranchData(children) =>
        if key == [] || children[key[0]] == null {
          return None;
        }
        value := children[key[0]].GetInternal(key[1..]);
      case LeafData(prefix, leafValue) =>
        CompactRoundTrip(view.path, true);
        var nibs := PrefixNibsLoop(prefix);
        value := if nibs == key then Some(leafValue) else None;
      case ExtensionData(prefix, child) =>
        CompactRoundTrip(view.path, false);
        var nibs := PrefixNibsLoop(prefix);
        if !(nibs <= key) {
          return None;
        }
        value := child.GetInternal(key[|nibs|..]);
      case DigestData(_) => value := None;
    }

    method Get(key: Bytes) returns (value: Option<Bytes>)
      requires Valid()
      ensures value == Trie.Get(view, ToNibs(key))
    {
      var nibs := ToNibsLoop(key);
      value := GetInternal(nibs);
    }

    // Lookup and deletion that report the references of the nodes they touch.

    method GetInternalWithTouched(key: Path) returns (value: Option<Bytes>, touched: seq<Reference>)
      requires Valid()
      modifies repr`cachedReference
      ensures Valid()
      ensures value == Trie.Get(view, key) && Listed(touched) == PathRefs(view, key)
      decreases repr, 2
    {
      var myReference := Reference();
      match data
      case NullData => value, touched := None, [myReference];
      case BranchData(children) =>
        if key == [] || children[key[0]] == null {
          return None, [myReference];
        }
        value, touched := GetInChildWithTouched(key[0], children[key[0]], key[1..]);
        ListedAppend(touched, [myReference]);
        touched := touched + [myReference];
      case LeafData(prefix, leafValue) =>
        CompactRoundTrip(view.path, true);
        var nibs := PrefixNibsLoop(prefix);
        value, touched := if nibs == key then Some(leafValue) else None, [myReference];
      case ExtensionData(_, _) => value, touched := GetBelowWithTouched(myReference, key);
      case DigestData(_) => value, touched := None, [];
    }

    method GetBelowWithTouched(myReference: Reference, key: Path)
      returns (value: Option<Bytes>, touched: seq<Reference>)
      requires Valid() && data.ExtensionData? && myReference == Ref(view)
      modifies repr`cachedReference
      ensures Valid()
      ensures value == Trie.Get(view, key) && Listed(touched) == PathRefs(view, key)
      decreases repr, 1
    {
      CompactRoundTrip(view.path, false);
      var nibs := PrefixNibsLoop(data.prefix);
      if !(nibs <= key) {
        return None, [myReference];
      }
      value, touched := data.child.GetInternalWithTouched(key[|nibs|..]);
      ListedAppend(touched, [myReference]);
      touched := touched + [myReference];
    }

    method GetInChildWithTouched(i: Nibble, child: MptNode, rest: Path)
      returns (value: Option<Bytes>, touched: seq<Reference>)
      requires Valid() && data.BranchData? && data.children[i] == child
      modifies child.repr`cachedReference
      ensures Valid()
      ensures value == Trie.Get(view.children[i], rest) && Listed(touched) == PathRefs(view.children[i], rest)
      decreases repr, 1
    {
      value, touched := child.GetInternalWithTouched(rest);
    }

    method DeleteInternalWithTouched(key: Path)
      returns (result: Result<bool, Error>, touched: seq<Reference>)
      requires Valid() && Trie.Delete(view, key) != Failed(NoChildLeft)
      modifies repr
      ensures Valid() && repr <= old(repr)
      ensures Performed(result, old(view), Trie.Delete(old(view), key), view)
      ensures result.Success? ==> Listed(touched) == DeleteRefs(old(view), key)
      decreases repr, 3
    {
      var myReference := Reference();
      match data
      case NullData => result, touched := Success(false), [];
      case BranchData(children) =>
        if key == [] {
          return Failure(ValueInBranch), [];
        }
        result, touched := DeleteFromBranchWithTouched(myReference, key[0], key[1..]);
      case LeafData(prefix, value) =>
        result := DeleteLeaf(key);
        touched := [myReference];
      case ExtensionData(prefix, child) => result, touched := DeleteBelowWithTouched(myReference, key);
      case DigestData(digest) => result, touched := Failure(NodeNotResolved(digest)), [];
    }

    method DeleteFromBranchWithTouched(myReference: Reference, i: Nibble, rest: Path)
      returns (result: Result<bool, Error>, touched: seq<Reference>)
      requires Valid() && data.BranchData? && Trie.Delete(view, [i] + rest) != Failed(NoChildLeft)
      requires myReference == Ref(view)
      modifies repr
      ensures Valid() && repr <= old(repr)
      ensures Performed(result, old(view), Trie.Delete(old(view), [i] + rest), view)
      ensures result.Success? ==> Listed(touched) == DeleteRefs(old(view), [i] + rest)
      decreases repr, 2
    {
      assert ([i] + rest)[1..] == rest;
      var child := data.children[i];
      if child == null {
        return Success(false), [myReference];
      }
      result, touched := DeleteFromChildWithTouched(i, child, rest);
      ListedAppend([myReference], touched);
      touched := [myReference] + touched;
      if result == Success(true) {
        var orphan := CollapseReporting();
        ListedAppend(touched, orphan);
        touched := touched + orphan;
      }
    }

    method DeleteFromChildWithTouched(i: Nibble, child: MptNode, rest: Path)
      returns (result: Result<bool, Error>, touched: seq<Reference>)
      requires Valid() && data.BranchData? && data.children[i] == child
      requires Trie.Delete(view.children[i], rest) != Failed(NoChildLeft)
      modifies repr
      ensures Valid() && repr <= old(repr)
      ensures var below := Trie.Delete(old(view).children[i], rest);
        && result == Reported(below)
        && view == if below.Changes() then Branch(old(view).children[i := below.node]) else old(view)
      ensures result.Success? ==> Listed(touched) == DeleteRefs(old(view).children[i], rest)
      decreases repr, 1
    {
      result, touched := DeleteInChildWithTouched(i, child, rest);
      SettleChild(i, child, result == Success(true));
    }

    method DeleteInChildWithTouched(i: Nibble, child: MptNode, rest: Path)
      returns (result: Result<bool, Error>, touched: seq<Reference>)
      requires Valid() && data.BranchData? && data.children[i] == child
      requires Trie.Delete(view.children[i], rest) != Failed(NoChildLeft)
      modifies child.repr
      ensures child.Valid() && child.repr <= old(child.repr)
      ensures Performed(result, old(child.view), Trie.Delete(old(child.view), rest), child.view)
      ensures result.Success? ==> Listed(touched) == DeleteRefs(old(child.view), rest)
      ensures SiblingsValid(i)
      decreases repr, 0
    {
      result, touched := child.DeleteInternalWithTouched(rest);
    }

    method DeleteBelowWithTouched(myReference: Reference, key: Path)
      returns (result: Result<bool, Error>, touched: seq<Reference>)
      requires Valid() && data.ExtensionData? && Trie.Delete(view, key) != Failed(NoChildLeft)
      requires myReference == Ref(view)
      modifies repr
      ensures Valid() && repr <= old(repr)
      ensures Performed(result, old(view), Trie.Delete(old(view), key), view)
      ensures result.Success? ==> Listed(touched) == DeleteRefs(old(view), key)
      decreases repr, 2
    {
      var child := data.child;
      CompactRoundTrip(view.path, false);
      var selfNibs := PrefixNibsLoop(data.prefix);
      if !(selfNibs <= key) {
        return Success(false), [myReference];
      }
      var below;
      result, below := child.DeleteInternalWithTouched(key[|selfNibs|..]);
      repr := repr + child.repr;
      ListedAppend([myReference], below);
      touched := [myReference] + below;
      if result == Success(true) {
        Absorb(selfNibs, child);
      }
    }

    /** As `CollapseInPlace`; reports the child that took the branch's place. */
    method CollapseReporting() returns (touched: seq<Reference>)
      requires Valid() && data.BranchData? && Collapse(view.children).Done?
      modifies repr
      ensures Valid() && repr <= old(repr)
      ensures view == Collapse(old(view).children).node
      ensures Listed(touched) == OrphanRef(old(view).children)
    {
      var index := FirstSlot(0);
      var next := FirstSlot(index + 1);
      touched := [];
      cachedReference := None;
      if next == 16 {
        var reference := SlotReference(index);
        touched := [reference];
        Absorb([index], data.children[index]);
      }
    }

    method SlotReference(i: nat) returns (reference: Reference)
      requires Valid() && data.BranchData? && i < 16 && data.children[i] != null
      modifies data.children[i].repr`cachedReference
      ensures Valid() && data == old(data) && view == old(view) && repr == old(repr)
      ensures reference == Ref(view.children[i])
    {
      reference := data.children[i].Reference();
    }

    // Pruning.

    /** Puts the hash in place of the contents; the cached reference stays. */
    method BecomeDigest()
      requires Valid() && !data.NullData?
      modifies repr
      ensures Valid() && repr == old(repr) && view == Stub(old(view))
    {
      var hash := HashNode();
      data := DigestData(hash);
      view := Stub(view);
    }

    /** Replaces every node below this one that is not marked, and is not a leaf, by its hash. */
    method PruneUnmarkedNodes(marks: set<Reference>)
      requires Valid()
      modifies repr
      ensures Valid() && repr <= old(repr)
      ensures view == Prune(old(view), marks) && IsPruned(view, old(view), marks)
      decreases repr, 3
    {
      PruneIsPruned(view, marks);
      if data.NullData? {
        return;
      }
      var reference := Reference();
      if reference !in marks && !data.LeafData? {
        BecomeDigest();
        return;
      }
      cachedReference := None;
      match data
      case BranchData(children) => PruneSlots(marks);
      case ExtensionData(prefix, child) =>
        child.PruneUnmarkedNodes(marks);
        view := Extension(view.path, child.view);
      case DigestData(digest) => view := Digest(digest, None);
      case _ =>
    }

    method PruneSlots(marks: set<Reference>)
      requires Valid() && data.BranchData? && cachedReference.None?
      modifies repr
      ensures Valid() && repr <= old(repr)
      ensures view == Branch(CutAll(old(view).children, KeepMarked(marks)))
      decreases repr, 2
    {
      ghost var before := view.children;
      for i := 0 to 16
        invariant Valid() && repr == old(repr) && data.BranchData? && cachedReference.None?
        invariant view.Branch? && |view.children| == 16
        invariant forall j :: 0 <= j < i ==> view.children[j] == Prune(before[j], marks)
        invariant forall j :: i <= j < 16 ==> view.children[j] == before[j]
      {
        if data.children[i] != null {
          PruneSlot(i, data.children[i], marks);
        }
      }
      assert view.children == CutAll(before, KeepMarked(marks));
    }

    method PruneSlot(i: nat, child: MptNode, marks: set<Reference>)
      requires Valid() && data.BranchData? && cachedReference.None? && i < 16 && data.children[i] == child
      modifies repr
      ensures Valid() && repr == old(repr) && data == old(data) && cachedReference.None?
      ensures view == Branch(old(view).children[i := Prune(old(view).children[i], marks)])
      decreases repr, 1
    {
      PruneInChild(i, child, marks);
      view := Branch(view.children[i := child.view]);
    }

    method PruneInChild(i: nat, child: MptNode, marks: set<Reference>)
      requires Valid() && data.BranchData? && i < 16 && data.children[i] == child
      modifies child.repr
      ensures child.Valid() && child.repr <= old(child.repr)
      ensures child.view == Prune(old(child.view), marks)
      ensures SiblingsValid(i)
      decreases repr, 0
    {
      child.PruneUnmarkedNodes(marks);
    }

    // Cloning.

    /** A copy that shares no node with this trie. */
    method CloneNode() returns (copy: MptNode)
      requires Valid()
      ensures copy.Valid() && fresh(copy.repr) && copy.view == view
      decreases repr, 1
    {
      copy := new MptNode();
      match data {
        case BranchData(_) => copy := CloneBranch();
        case ExtensionData(prefix, child) =>
          var childCopy := child.CloneNode();
          copy.data, copy.repr := ExtensionData(prefix, childCopy), {copy} + childCopy.repr;
          copy.cachedReference, copy.view := cachedReference, view;
        case _ => copy.data, copy.cachedReference, copy.view := data, cachedReference, view;
      }
    }

    method CloneBranch() returns (copy: MptNode)
      requires Valid() && data.BranchData?
      ensures copy.Valid() && fresh(copy.repr) && copy.view == view
      decreases repr, 0, 1
    {
      copy := new MptNode();
      ghost var owned;
      var copies;
      copies, owned := CloneSlots();
      copy.data, copy.repr := BranchData(copies), {copy} + owned;
      copy.cachedReference, copy.view := cachedReference, view;
    }

    method CloneSlots() returns (copies: seq<MptNode?>, ghost owned: set<MptNode>)
      requires Valid() && data.BranchData?
      ensures |copies| == 16 && fresh(owned)
      ensures forall i :: 0 <= i < 16 && copies[i] == null ==> view.children[i].Null?
      ensures forall i :: 0 <= i < 16 && copies[i] != null ==>
        && copies[i].Valid() && copies[i].view == view.children[i] && !copies[i].view.Null?
        && copies[i].repr <= owned
      ensures forall i, j :: 0 <= i < j < 16 && copies[i] != null && copies[j] != null ==>
        copies[i].repr !! copies[j].repr
      decreases repr, 0, 0
    {
      copies, owned := [], {};
      for i := 0 to 16
        invariant |copies| == i && fresh(owned)
        invariant forall j :: 0 <= j < i && copies[j] == null ==> view.children[j].Null?
        invariant forall j :: 0 <= j < i && copies[j] != null ==>
          && copies[j].Valid() && copies[j].view == view.children[j] && !copies[j].view.Null?
          && copies[j].repr <= owned
        invariant forall j, k :: 0 <= j < k < i && copies[j] != null && copies[k] != null ==>
          copies[j].repr !! copies[k].repr
      {
        var child := data.children[i];
        var copy: MptNode? := null;
        if child != null {
          copy := child.CloneNode();
          owned := owned + copy.repr;
        }
        copies := copies + [copy];
      }
    }
  }

  /** The references in a list, as they go into a set of marks. */
  function Listed(references: seq<Reference>): set<Reference> {
    set r | r in references
  }

  lemma ListedAppend(first: seq<Reference>, second: seq<Reference>)
    ensures Listed(first + second) == Listed(first) + Listed(second)
  {}

  lemma InsertNotNull(n: Node, key: Path, value: Bytes)
    requires !n.Null?
    ensures Trie.Insert(n, key, value).Done? ==> !Trie.Insert(n, key, value).node.Null?
  {}

  lemma {:induction false} ConcatNext(parts: seq<Bytes>, i: nat)
    requires i < |parts|
    ensures Concat(parts[..i + 1]) == Concat(parts[..i]) + parts[i]
  {
    if i == 0 {
      assert parts[..1] == [parts[0]];
      assert Concat([parts[0]]) == parts[0] + Concat([]);
    } else {
      ConcatNext(parts[1..], i - 1);
      assert parts[1..][..i] == parts[..i + 1][1..];
      assert parts[1..][..i - 1] == parts[..i][1..];
    }
  }
}
