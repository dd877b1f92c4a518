/**
 * The sparse Merkle Patricia trie as a value, and its lookups and updates as functions.
 * The class MptNode performs the same updates in place and is proved equal to these functions.
 */
module Trie {
  import opened Primitives
  import opened Nibbles

  /**
   * `Null` stands for an empty trie and for an empty slot of a branch. A `Digest` stands for a
   * sub-trie by its hash; its residue is the short encoding that pruning may leave in the
   * reference cache of the node it replaces (`None` for every node read from the outside).
   */
  datatype Node =
    | Null
    | Branch(children: seq<Node>)
    | Leaf(path: Path, value: Bytes)
    | Extension(path: Path, child: Node)
    | Digest(digest: B256, residue: Option<Bytes>)

  datatype Error =
    | NodeNotResolved(digest: B256)
    | ValueInBranch
    | NoChildLeft  // the panic of `unwrap` on a branch that has lost all its children

  /** What an update of a trie returns: the new trie and whether it changed, or an error. */
  datatype Update =
    | Done(node: Node, changed: bool)
    | Failed(error: Error)
  {
    predicate Changes() { Done? && changed }

    /** An update below `n` that failed or changed nothing leaves `n` as it is. */
    function Unchanged(n: Node): Update
      requires !Changes()
    {
      if Failed? then this else Done(n, false)
    }
  }

  /** What a trie says about a key. `Blocked` means that an unresolved node is on the path. */
  datatype Lookup =
    | Missing
    | Found(value: Bytes)
    | Blocked(stub: Node, rest: Path)

  /**
   * Branches have sixteen slots, as their type in the source says; lookups and updates below treat a
   * branch of any other size as one without slots.
   */
  predicate WellFormed(n: Node) {
    match n
    case Branch(children) => |children| == 16 && forall i :: 0 <= i < 16 ==> WellFormed(children[i])
    case Extension(_, child) => WellFormed(child)
    case Digest(digest, residue) => residue.Some? ==> KECCAK(residue.value) == digest && |residue.value| < 32
    case _ => true
  }

  /** The shape every trie must have: branches really branch, and extensions are as long as they can be. */
  predicate Canonical(n: Node)
    ensures Canonical(n) ==> WellFormed(n)
  {
    match n
    case Branch(children) =>
      && |children| == 16
      && (forall i :: 0 <= i < 16 ==> Canonical(children[i]))
      && (exists i, j :: 0 <= i < j < 16 && !children[i].Null? && !children[j].Null?)
    case Extension(path, child) => path != [] && (child.Branch? || child.Digest?) && Canonical(child)
    case _ => WellFormed(n)
  }

  function Find(n: Node, key: Path): (lookup: Lookup)
    ensures lookup.Blocked? ==> lookup.stub.Digest? && |lookup.rest| <= |key|
  {
    match n
    case Null => Missing
    case Branch(children) => if key == [] || |children| != 16 then Missing else Find(children[key[0]], key[1..])
    case Leaf(path, value) => if path == key then Found(value) else Missing
    case Extension(path, child) => if path <= key then Find(child, key[|path|..]) else Missing
    case Digest(_, _) => Blocked(n, key)
  }

  /** The lookup of the source: an unresolved node counts as "no value". */
  function Get(n: Node, key: Path): Option<Bytes>
  {
    match n
    case Null => None
    case Branch(children) => if key == [] || |children| != 16 then None else Get(children[key[0]], key[1..])
    case Leaf(path, value) => if path == key then Some(value) else None
    case Extension(path, child) => if path <= key then Get(child, key[|path|..]) else None
    case Digest(_, _) => None
  }

  // Insertion.

  /** The branch that keeps two nodes apart, below an extension for what they have in common. */
  function Fork(common: Path, i: Nibble, left: Node, j: Nibble, right: Node): Node
    requires i != j
  {
    var branch := Branch(EmptySlots()[i := left][j := right]);
    if common == [] then branch else Extension(common, branch)
  }

  function EmptySlots(): (slots: seq<Node>)
    ensures |slots| == 16
  {
    seq(16, _ => Null)
  }

  function Insert(n: Node, key: Path, value: Bytes): (update: Update)
  {
    match n
    case Null => Done(Leaf(key, value), true)
    case Branch(children) =>
      if key == [] || |children| != 16 then Failed(ValueInBranch)
      else
        var below := Insert(children[key[0]], key[1..], value);
        if below.Changes() then Done(Branch(children[key[0] := below.node]), true) else below.Unchanged(n)
    case Leaf(path, oldValue) =>
      var common := Lcp(path, key);
      if common == |path| && common == |key| then
        if oldValue == value then Done(n, false) else Done(Leaf(path, value), true)
      else if common == |path| || common == |key| then Failed(ValueInBranch)
      else
        Done(Fork(path[..common],
                  path[common], Leaf(path[common + 1..], oldValue),
                  key[common], Leaf(key[common + 1..], value)), true)
    case Extension(path, child) =>
      var common := Lcp(path, key);
      if common == |path| then
        var below := Insert(child, key[common..], value);
        if below.Changes() then Done(Extension(path, below.node), true) else below.Unchanged(n)
      else if common == |key| then Failed(ValueInBranch)
      else
        var rest := path[common + 1..];
        Done(Fork(path[..common],
                  path[common], if rest != [] then Extension(rest, child) else child,
                  key[common], Leaf(key[common + 1..], value)), true)
    case Digest(digest, _) => Failed(NodeNotResolved(digest))
  }

  // Deletion.

  /** A node with a path put in front of it. */
  function Graft(path: Path, n: Node): Node {
    match n
    case Null => Null
    case Leaf(rest, value) => Leaf(path + rest, value)
    case Extension(rest, child) => Extension(path + rest, child)
    case _ => Extension(path, n)
  }

  /** The first slot from `i` on that holds a child; past the end if there is none. */
  function FirstChild(children: seq<Node>, i: nat): (j: nat)
    requires i <= |children|
    ensures i <= j <= |children|
    ensures forall m :: i <= m < j ==> children[m].Null?
    ensures j < |children| ==> !children[j].Null?
    decreases |children| - i
  {
    if i == |children| || !children[i].Null? then i else FirstChild(children, i + 1)
  }

  /** A branch after one of its children changed: with one child left, that child takes its place. */
  function Collapse(children: seq<Node>): (update: Update)
    requires |children| == 16
  {
    var first := FirstChild(children, 0);
    if first == 16 then Failed(NoChildLeft)
    else if FirstChild(children, first + 1) == 16 then Done(Graft([first], children[first]), true)
    else Done(Branch(children), true)
  }

  function Delete(n: Node, key: Path): (update: Update)
  {
    match n
    case Null => Done(n, false)
    case Branch(children) =>
      if key == [] || |children| != 16 then Failed(ValueInBranch)
      else
        var below := Delete(children[key[0]], key[1..]);
        if below.Changes() then Collapse(children[key[0] := below.node]) else below.Unchanged(n)
    case Leaf(path, _) => if path == key then Done(Null, true) else Done(n, false)
    case Extension(path, child) =>
      if path <= key then
        var below := Delete(child, key[|path|..]);
        if below.Changes() then Done(Graft(path, below.node), true) else below.Unchanged(n)
      else Done(n, false)
    case Digest(digest, _) => Failed(NodeNotResolved(digest))
  }
}
