/** A canonical trie is determined by what it answers, so it does not depend on how it was built. */
module TrieHistory {
  import opened Primitives
  import opened Trie
  import opened TrieMap
  import opened TrieForm

  ghost predicate SameLookups(a: Node, b: Node)
  {
    forall key :: Find(a, key) == Find(b, key)
  }

  // The canonical form is unique.

  lemma SameBehind(path: Path, a: Node, b: Node)
    requires SameLookups(Extension(path, a), Extension(path, b))
    ensures SameLookups(a, b)
  {
    forall key ensures Find(a, key) == Find(b, key) {
      assert (path + key)[|path|..] == key;
      assert Find(Extension(path, a), path + key) == Find(Extension(path, b), path + key);
    }
  }

  lemma SameChildren(a: Node, b: Node, i: Nibble)
    requires a.Branch? && b.Branch? && |a.children| == 16 && |b.children| == 16
    requires SameLookups(a, b)
    ensures SameLookups(a.children[i], b.children[i])
  {
    forall key ensures Find(a.children[i], key) == Find(b.children[i], key) {
      assert ([i] + key)[1..] == key;
      assert Find(a, [i] + key) == Find(b, [i] + key);
    }
  }

  /** Everything below a canonical extension has the extension's path and nothing longer in common. */
  lemma CommonPath(a: Node, path: Path)
    requires Canonical(a) && a.Extension?
    requires forall key :: Find(a, key) != Missing ==> path <= key
    ensures path <= a.path
  {
    if a.child.Branch? {
      var x, y := TwoKeys(a.child);
      assert (a.path + x)[|a.path|..] == x && (a.path + y)[|a.path|..] == y;
      assert Find(a, a.path + x) != Missing && Find(a, a.path + y) != Missing;
      assert (a.path + x)[|a.path|] == x[0] && (a.path + y)[|a.path|] == y[0];
    } else {
      assert Find(a, a.path) != Missing;
    }
  }

  lemma SameExtensionPath(a: Node, b: Node)
    requires Canonical(a) && Canonical(b) && a.Extension? && b.Extension? && SameLookups(a, b)
    ensures a.path == b.path
  {
    forall key | Find(a, key) != Missing ensures b.path <= key {
      EntriesBehind(b, key);
    }
    forall key | Find(b, key) != Missing ensures a.path <= key {
      EntriesBehind(a, key);
    }
    CommonPath(a, b.path);
    CommonPath(b, a.path);
  }

  lemma TwoEntries(n: Node) returns (a: Path, b: Path)
    requires Canonical(n) && (n.Branch? || (n.Extension? && n.child.Branch?))
    ensures a != b && Find(n, a) != Missing && Find(n, b) != Missing
  {
    if n.Branch? {
      a, b := TwoKeys(n);
    } else {
      var x, y := TwoKeys(n.child);
      a, b := n.path + x, n.path + y;
      assert a[|n.path|..] == x && b[|n.path|..] == y;
    }
  }

  /** What a trie's answers say about the kind of its root. */
  lemma SameKind(a: Node, b: Node)
    requires Canonical(a) && Canonical(b) && SameLookups(a, b)
    ensures a.Null? ==> b.Null?
    ensures a.Digest? ==> b == a
    ensures a.Leaf? ==> b == a
    ensures a.Branch? ==> b.Branch?
  {
    if !b.Null? {
      var key := SomeKey(b);
      assert Find(a, key) == Find(b, key) != Missing;
    }
    if a.Digest? {
      assert Find(a, []) == Find(b, []);
    }
    if a.Leaf? {
      assert Find(a, a.path) == Find(b, a.path);
      if b.Branch? || (b.Extension? && b.child.Branch?) {
        var x, y := TwoEntries(b);
      }
    }
    if a.Branch? {
      var x, y := TwoKeys(a);
      assert Find(a, x) == Find(b, x) && Find(a, y) == Find(b, y);
      if b.Extension? || b.Leaf? {
        EntriesBehind(b, x);
        EntriesBehind(b, y);
      }
    }
  }

  /** Two canonical tries that answer every key alike are the same trie. */
  lemma {:induction false} CanonicalUnique(a: Node, b: Node)
    requires Canonical(a) && Canonical(b) && SameLookups(a, b)
    ensures a == b
    decreases a
  {
    SameKind(a, b);
    SameKind(b, a);
    if a.Branch? {
      forall i: Nibble ensures a.children[i] == b.children[i] {
        SameChildren(a, b, i);
        CanonicalUnique(a.children[i], b.children[i]);
      }
      assert a.children == b.children;
    } else if a.Extension? {
      SameExtensionPath(a, b);
      SameBehind(a.path, a.child, b.child);
      CanonicalUnique(a.child, b.child);
    }
  }

  // Runs of updates.

  datatype Op = Put(key: Path, value: Bytes) | Remove(key: Path)

  function Apply(n: Node, op: Op): Update
  {
    match op
    case Put(key, value) => Insert(n, key, value)
    case Remove(key) => Delete(n, key)
  }

  /** What a key is after an update. */
  function After(op: Op): Lookup {
    match op
    case Put(_, value) => Found(value)
    case Remove(_) => Missing
  }

  lemma ApplyRefines(n: Node, op: Op)
    requires Canonical(n) && Apply(n, op).Done?
    ensures Canonical(Apply(n, op).node)
    ensures forall key ::
      Find(Apply(n, op).node, key) == if key == op.key then After(op) else Find(n, key)
  {
    match op
    case Put(key, value) =>
      InsertRefines(n, key, value);
      InsertCanonical(n, key, value);
    case Remove(key) =>
      DeleteRefines(n, key);
      DeleteCanonical(n, key);
  }

  /** A run of updates; `None` when one of them fails, as the source unwraps each result. */
  ghost function Run(n: Node, ops: seq<Op>): (result: Option<Node>)
    requires Canonical(n)
    ensures result.Some? ==> Canonical(result.value)
    decreases |ops|
  {
    if ops == [] then Some(n)
    else
      var update := Apply(n, ops[0]);
      if update.Failed? then None
      else
        ApplyRefines(n, ops[0]);
        Run(update.node, ops[1..])
  }

  /** What a key is after a run: the last update of it counts. */
  function Outcome(before: Lookup, ops: seq<Op>, key: Path): Lookup
    decreases |ops|
  {
    if ops == [] then before
    else Outcome(if ops[0].key == key then After(ops[0]) else before, ops[1..], key)
  }

  lemma {:induction false} RunRefines(n: Node, ops: seq<Op>)
    requires Canonical(n) && Run(n, ops).Some?
    ensures forall key :: Find(Run(n, ops).value, key) == Outcome(Find(n, key), ops, key)
    decreases |ops|
  {
    if ops != [] {
      ApplyRefines(n, ops[0]);
      RunRefines(Apply(n, ops[0]).node, ops[1..]);
    }
  }

  /**
   * History independence: two runs, from whatever tries, that leave every key with the same
   * value leave the same trie.
   */
  lemma HistoryIndependent(m: Node, ops: seq<Op>, n: Node, others: seq<Op>)
    requires Canonical(m) && Canonical(n) && Run(m, ops).Some? && Run(n, others).Some?
    requires forall key :: Outcome(Find(m, key), ops, key) == Outcome(Find(n, key), others, key)
    ensures Run(m, ops) == Run(n, others)
  {
    RunRefines(m, ops);
    RunRefines(n, others);
    CanonicalUnique(Run(m, ops).value, Run(n, others).value);
  }

  ghost predicate DistinctKeys(ops: seq<Op>) {
    forall i, j :: 0 <= i < j < |ops| ==> ops[i].key != ops[j].key
  }

  lemma {:induction false} OutcomeAt(before: Lookup, ops: seq<Op>, i: nat)
    requires DistinctKeys(ops) && i < |ops|
    ensures Outcome(before, ops, ops[i].key) == After(ops[i])
  {
    if i == 0 {
      OutcomeElsewhere(After(ops[0]), ops[1..], ops[0].key);
    } else {
      assert DistinctKeys(ops[1..]);
      assert ops[0].key != ops[i].key && ops[i] == ops[1..][i - 1];
      OutcomeAt(before, ops[1..], i - 1);
    }
  }

  lemma {:induction false} OutcomeElsewhere(before: Lookup, ops: seq<Op>, key: Path)
    requires forall i :: 0 <= i < |ops| ==> ops[i].key != key
    ensures Outcome(before, ops, key) == before
  {
    if ops != [] {
      OutcomeElsewhere(before, ops[1..], key);
    }
  }

  /** Updates of different keys give the same trie in every order. */
  lemma OrderIndependent(n: Node, ops: seq<Op>, others: seq<Op>)
    requires Canonical(n) && Run(n, ops).Some? && Run(n, others).Some?
    requires DistinctKeys(ops) && DistinctKeys(others)
    requires forall op :: op in ops <==> op in others
    ensures Run(n, ops) == Run(n, others)
  {
    forall key ensures Outcome(Find(n, key), ops, key) == Outcome(Find(n, key), others, key) {
      if i :| 0 <= i < |ops| && ops[i].key == key {
        assert ops[i] in others;
        var j :| 0 <= j < |others| && others[j] == ops[i];
        OutcomeAt(Find(n, key), ops, i);
        OutcomeAt(Find(n, key), others, j);
      } else {
        forall j | 0 <= j < |others| ensures others[j].key != key {
          assert others[j] in ops;
        }
        OutcomeElsewhere(Find(n, key), ops, key);
        OutcomeElsewhere(Find(n, key), others, key);
      }
    }
    HistoryIndependent(n, ops, n, others);
  }

  /** Deleting a key that was just inserted restores the trie. */
  lemma DeleteUndoesInsert(n: Node, key: Path, value: Bytes)
    requires Canonical(n) && Find(n, key) == Missing && Insert(n, key, value).Done?
    ensures Canonical(Insert(n, key, value).node)
    ensures Delete(Insert(n, key, value).node, key) == Done(n, true)
  {
    var inserted := Insert(n, key, value).node;
    InsertRefines(n, key, value);
    InsertCanonical(n, key, value);
    DeleteOutcome(inserted, key);
    if Parts(inserted, key) {
      var a, b :| Find(inserted, a) != Missing && Find(inserted, b) != Missing && PartAt(key, a, b);
      assert a != key && Find(n, a) != Missing;
      assert Clash(n, key);
      InsertOutcome(n, key, value);
    }
    DeleteRefines(inserted, key);
    DeleteCanonical(inserted, key);
    CanonicalUnique(Delete(inserted, key).node, n);
  }

  /** No key of a trie is a proper prefix of another. */
  lemma {:induction false} PrefixFree(n: Node, key: Path)
    requires Canonical(n) && Find(n, key).Found?
    ensures !Clash(n, key) && !Parts(n, key)
  {
    match n
    case Branch(children) =>
      ClashInBranch(children, key);
      PartsInBranch(children, key);
      PrefixFree(children[key[0]], key[1..]);
    case Leaf(_, _) =>
    case Extension(path, child) =>
      ClashInExtension(path, child, key);
      PartsInExtension(path, child, key);
      PrefixFree(child, key[|path|..]);
  }

  /** Putting a deleted value back restores the trie. */
  lemma InsertUndoesDelete(n: Node, key: Path, value: Bytes)
    requires Canonical(n) && Find(n, key) == Found(value)
    ensures Delete(n, key).Changes() && Canonical(Delete(n, key).node)
    ensures Insert(Delete(n, key).node, key, value) == Done(n, true)
  {
    PrefixFree(n, key);
    DeleteOutcome(n, key);
    var deleted := Delete(n, key).node;
    DeleteRefines(n, key);
    DeleteCanonical(n, key);
    assert !Clash(deleted, key) by {
      assert forall other :: other != key ==> Find(deleted, other) == Find(n, other);
    }
    InsertOutcome(deleted, key, value);
    InsertRefines(deleted, key, value);
    InsertCanonical(deleted, key, value);
    CanonicalUnique(Insert(deleted, key, value).node, n);
  }

  // Tries whose keys all have the same length, as hashed addresses and slots do.

  ghost predicate Uniform(n: Node, length: nat)
  {
    forall key :: AtDepth(Find(n, key), key, length)
  }

  /** Values are `length` nibbles deep, and unresolved nodes are no deeper. */
  predicate AtDepth(found: Lookup, key: Path, length: nat) {
    match found
    case Missing => true
    case Found(_) => |key| == length
    case Blocked(_, rest) => |key| - |rest| <= length
  }

  /** With keys of one length, updates fail only at unresolved nodes. */
  lemma UniformUpdates(n: Node, length: nat, op: Op)
    requires Canonical(n) && Uniform(n, length) && |op.key| == length
    ensures Apply(n, op).Done? <==> !Find(n, op.key).Blocked?
    ensures Apply(n, op).Done? ==> Canonical(Apply(n, op).node) && Uniform(Apply(n, op).node, length)
  {
    if Find(n, op.key).Blocked? {
      UniformOutcome(n, op);
    } else {
      UniformClash(n, length, op.key);
      UniformOutcome(n, op);
      ApplyRefines(n, op);
    }
  }

  lemma UniformOutcome(n: Node, op: Op)
    requires Canonical(n)
    ensures Find(n, op.key).Blocked? ==> Apply(n, op).Failed?
    ensures !Find(n, op.key).Blocked? && !Clash(n, op.key) && !Parts(n, op.key) ==> Apply(n, op).Done?
  {
    match op
    case Put(key, value) => InsertOutcome(n, key, value);
    case Remove(key) => DeleteOutcome(n, key);
  }

  /** An unresolved node blocks every key through its position. */
  lemma {:induction false} BlockedThrough(n: Node, key: Path, other: Path)
    requires Find(n, key).Blocked?
    requires |key| - |Find(n, key).rest| <= |other|
    requires key[..|key| - |Find(n, key).rest|] <= other
    ensures Find(n, other).Blocked?
  {
    var at := |key| - |Find(n, key).rest|;
    match n
    case Branch(children) =>
      assert key[..at][0] == other[0];
      assert key[1..][..at - 1] == key[..at][1..] <= other[1..];
      BlockedThrough(children[key[0]], key[1..], other[1..]);
    case Extension(path, child) =>
      assert path <= key[..at] by {
        SplitKey(path, key);
      }
      assert path <= other;
      assert key[|path|..][..at - |path|] == key[..at][|path|..] <= other[|path|..];
      BlockedThrough(child, key[|path|..], other[|path|..]);
    case Digest(_, _) =>
  }

  lemma UniformClash(n: Node, length: nat, key: Path)
    requires Canonical(n) && Uniform(n, length) && |key| == length && !Find(n, key).Blocked?
    ensures !Clash(n, key) && !Parts(n, key)
  {
    forall other | other <= key || key <= other
      ensures Find(n, other) == Missing || other == key
    {
      UniformBetween(n, length, key, other);
    }
    assert !Clash(n, key);
    forall a, b | PartAt(key, a, b)
      ensures Find(n, a) == Missing
    {
      UniformBetween(n, length, key, a);
    }
  }

  lemma UniformBetween(n: Node, length: nat, key: Path, other: Path)
    requires Canonical(n) && Uniform(n, length) && |key| == length && !Find(n, key).Blocked?
    requires other <= key || key <= other
    ensures Find(n, other) == Missing || other == key
  {
    var found := Find(n, other);
    assert AtDepth(found, other, length);
    if found.Blocked? {
      var at := |other| - |found.rest|;
      assert other[..at] <= key;
      BlockedThrough(n, other, key);
    } else if found.Found? {
      assert |other| == |key|;
    }
  }

  /** A run of updates of keys of that length goes through if none of them meets an unresolved node. */
  lemma {:induction false} RunGoesThrough(n: Node, length: nat, ops: seq<Op>)
    requires Canonical(n) && Uniform(n, length)
    requires forall i :: 0 <= i < |ops| ==> |ops[i].key| == length && !Find(n, ops[i].key).Blocked?
    ensures Run(n, ops).Some? && Uniform(Run(n, ops).value, length)
    decreases |ops|
  {
    if ops != [] {
      UniformUpdates(n, length, ops[0]);
      ApplyRefines(n, ops[0]);
      var after := Apply(n, ops[0]).node;
      forall i | 0 <= i < |ops[1..]|
        ensures |ops[1..][i].key| == length && !Find(after, ops[1..][i].key).Blocked?
      {
        assert ops[1..][i] == ops[i + 1];
      }
      RunGoesThrough(after, length, ops[1..]);
    }
  }

  lemma {:induction false} RunAppend(n: Node, first: seq<Op>, second: seq<Op>)
    requires Canonical(n) && Run(n, first).Some?
    ensures Run(n, first + second) == Run(Run(n, first).value, second)
    decreases |first|
  {
    if first == [] {
      assert first + second == second;
    } else {
      assert (first + second)[1..] == first[1..] + second;
      ApplyRefines(n, first[0]);
      RunAppend(Apply(n, first[0]).node, first[1..], second);
    }
  }
}
