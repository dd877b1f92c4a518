/**
 * Runs of updates on a sparse trie in any order. A deletion before an insertion may merge a branch
 * that the insertion would have kept, so the relation of Sparse may be lost on the way. The answers
 * still cover those of the full trie, and the end result does not depend on the order.
 */
module SparseRuns {
  import opened Primitives
  import opened Trie
  import opened TrieMap
  import opened TrieForm
  import opened TrieHistory
  import opened Sparse

  // What a run on a sparse trie needs to go through.

  /** A blocked lookup on one trie stands for an entry behind the unresolved node on the other. */
  ghost predicate CoveredLookup(found: Lookup, key: Path, full: Node) {
    match found
    case Blocked(_, rest) =>
      |rest| <= |key| && exists other :: key[..|key| - |rest|] <= other && Find(full, other) != Missing
    case _ => Find(full, key) == found
  }

  /** The sparse trie answers as the full one does, or is unresolved where the full one has an entry. */
  ghost predicate Covers(sparse: Node, full: Node) {
    forall key :: CoveredLookup(Find(sparse, key), key, full)
  }

  lemma CoversParts(sparse: Node, full: Node, key: Path)
    requires Covers(sparse, full) && !Find(sparse, key).Blocked? && Parts(sparse, key)
    ensures Parts(full, key)
  {
    var a, b :| Find(sparse, a) != Missing && Find(sparse, b) != Missing && PartAt(key, a, b);
    var a' := EntryBehind(sparse, full, key, a);
    var b' := EntryBehind(sparse, full, key, b);
    assert PartAt(key, a', b');
  }

  /** An entry of the sparse trie past a resolved key shows an entry of the full one on the same side. */
  lemma EntryBehind(sparse: Node, full: Node, key: Path, a: Path) returns (other: Path)
    requires Covers(sparse, full) && !Find(sparse, key).Blocked?
    requires Find(sparse, a) != Missing && key <= a && |key| < |a|
    ensures Find(full, other) != Missing && key <= other && |key| < |other| && other[|key|] == a[|key|]
  {
    var found := Find(sparse, a);
    assert CoveredLookup(found, a, full);
    other := a;
    if found.Blocked? {
      var at := |a| - |found.rest|;
      other :| a[..at] <= other && Find(full, other) != Missing;
      if at <= |key| {
        assert a[..at] <= key;
        BlockedThrough(sparse, a, key);
      }
    }
  }

  lemma CoversClash(sparse: Node, full: Node, key: Path)
    requires Covers(sparse, full) && !Find(sparse, key).Blocked? && Clash(sparse, key)
    ensures Clash(full, key)
  {
    var a :| a != key && (a <= key || key <= a) && Find(sparse, a) != Missing;
    assert CoveredLookup(Find(sparse, a), a, full);
    if key <= a {
      var other := EntryBehind(sparse, full, key, a);
    } else if Find(sparse, a).Blocked? {
      BlockedThrough(sparse, a, key);
    }
  }

  /** What goes through on the full trie goes through on the sparse one if its key is resolved there. */
  lemma CoversApply(sparse: Node, full: Node, op: Op)
    requires Canonical(sparse) && Canonical(full) && Covers(sparse, full)
    requires !Find(sparse, op.key).Blocked? && Apply(full, op).Done?
    ensures Apply(sparse, op).Done? && Covers(Apply(sparse, op).node, Apply(full, op).node)
  {
    assert CoveredLookup(Find(sparse, op.key), op.key, full);
    match op {
      case Put(key, value) =>
        InsertOutcome(full, key, value);
        InsertOutcome(sparse, key, value);
        if Clash(sparse, key) { CoversClash(sparse, full, key); }
      case Remove(key) =>
        DeleteOutcome(full, key);
        DeleteOutcome(sparse, key);
        if Parts(sparse, key) { CoversParts(sparse, full, key); }
    }
    CoversAfter(sparse, full, op);
  }

  lemma CoversAfter(sparse: Node, full: Node, op: Op)
    requires Canonical(sparse) && Canonical(full) && Covers(sparse, full) && !Find(sparse, op.key).Blocked?
    requires Apply(sparse, op).Done? && Apply(full, op).Done?
    ensures Covers(Apply(sparse, op).node, Apply(full, op).node)
  {
    ApplyRefines(sparse, op);
    ApplyRefines(full, op);
    forall key ensures CoveredLookup(Find(Apply(sparse, op).node, key), key, Apply(full, op).node) {
      assert CoveredLookup(Find(sparse, key), key, full);
      if key != op.key {
        StillCovered(sparse, full, op.key, Apply(full, op).node, key);
      }
    }
  }

  /** An update of a resolved key leaves the entries behind unresolved nodes as they are. */
  lemma StillCovered(sparse: Node, full: Node, changed: Path, after: Node, key: Path)
    requires CoveredLookup(Find(sparse, key), key, full) && !Find(sparse, changed).Blocked? && key != changed
    requires forall other :: other != changed ==> Find(after, other) == Find(full, other)
    ensures CoveredLookup(Find(sparse, key), key, after)
  {
    var found := Find(sparse, key);
    if found.Blocked? {
      var at := |key| - |found.rest|;
      var other :| key[..at] <= other && Find(full, other) != Missing;
      if other == changed {
        BlockedThrough(sparse, key, other);
      }
      assert Find(after, other) != Missing;
    }
  }

  lemma {:induction false} CoversRun(sparse: Node, full: Node, ops: seq<Op>)
    requires Canonical(sparse) && Canonical(full) && Covers(sparse, full)
    requires forall i :: 0 <= i < |ops| ==> !Find(sparse, ops[i].key).Blocked?
    requires Run(full, ops).Some?
    ensures Run(sparse, ops).Some?
    decreases |ops|
  {
    if ops != [] {
      CoversApply(sparse, full, ops[0]);
      ApplyRefines(sparse, ops[0]);
      ApplyRefines(full, ops[0]);
      var rest := ops[1..];
      forall i | 0 <= i < |rest| ensures !Find(Apply(sparse, ops[0]).node, rest[i].key).Blocked? {
        assert rest[i] == ops[i + 1];
      }
      CoversRun(Apply(sparse, ops[0]).node, Apply(full, ops[0]).node, rest);
    }
  }

  /** A sparse trie that stands for another covers it. */
  lemma {:induction false} StandsCoversAt(s: Node, f: Node, deletable: iset<Path>, key: Path)
    requires Canonical(f) && Stands(s, f, deletable)
    ensures CoveredLookup(Find(s, key), key, f)
    decreases s
  {
    match s
    case Branch(children) =>
      if key != [] {
        var i := key[0];
        StandsCoversAt(children[i], f.children[i], Below(deletable, [i]), key[1..]);
        assert key == [i] + key[1..];
        CoveredBehind([i], Find(children[i], key[1..]), key[1..], f.children[i], f);
      }
    case Extension(path, child) =>
      if path <= key {
        StandsCoversAt(child, f.child, Below(deletable, path), key[|path|..]);
        SplitKey(path, key);
        CoveredBehind(path, Find(child, key[|path|..]), key[|path|..], f.child, f);
      }
    case Digest(_, _) =>
      var other := SomeKey(f);
      assert key[..0] <= other;
    case _ =>
  }

  lemma CoveredBehind(path: Path, found: Lookup, tail: Path, f: Node, top: Node)
    requires CoveredLookup(found, tail, f) && forall rest :: Find(top, path + rest) == Find(f, rest)
    ensures CoveredLookup(found, path + tail, top)
  {
    if found.Blocked? {
      var at := |tail| - |found.rest|;
      var other :| tail[..at] <= other && Find(f, other) != Missing;
      assert (path + tail)[..|path| + at] == path + tail[..at];
      assert (path + tail)[..|path| + at] <= path + other;
      assert Find(top, path + other) != Missing;
    }
  }

  lemma StandsCovers(sparse: Node, full: Node, deletable: iset<Path>)
    requires Canonical(full) && Stands(sparse, full, deletable)
    ensures Covers(sparse, full)
  {
    forall key ensures CoveredLookup(Find(sparse, key), key, full) {
      StandsCoversAt(sparse, full, deletable, key);
    }
  }

  lemma {:induction false} OutcomeBlocked(before: Lookup, ops: seq<Op>, key: Path)
    requires Outcome(before, ops, key).Blocked?
    ensures Outcome(before, ops, key) == before
    decreases |ops|
  {
    if ops != [] {
      OutcomeBlocked(if ops[0].key == key then After(ops[0]) else before, ops[1..], key);
    }
  }

  lemma RunKeepsResolved(n: Node, ops: seq<Op>, key: Path)
    requires Canonical(n) && Run(n, ops).Some? && !Find(n, key).Blocked?
    ensures !Find(Run(n, ops).value, key).Blocked?
  {
    RunRefines(n, ops);
    if Outcome(Find(n, key), ops, key).Blocked? {
      OutcomeBlocked(Find(n, key), ops, key);
    }
  }

  // Insertions before deletions.

  function Puts(ops: seq<Op>): (puts: seq<Op>)
    ensures |puts| <= |ops| && forall op :: op in puts <==> op in ops && op.Put?
  {
    if ops == [] then []
    else
      var rest := Puts(ops[1..]);
      assert ops == [ops[0]] + ops[1..];
      if ops[0].Put? then [ops[0]] + rest else rest
  }

  function Removes(ops: seq<Op>): (removes: seq<Op>)
    ensures |removes| <= |ops| && forall op :: op in removes <==> op in ops && op.Remove?
  {
    if ops == [] then []
    else
      var rest := Removes(ops[1..]);
      assert ops == [ops[0]] + ops[1..];
      if ops[0].Remove? then [ops[0]] + rest else rest
  }

  lemma DistinctRest(ops: seq<Op>)
    requires ops != [] && DistinctKeys(ops)
    ensures DistinctKeys(ops[1..])
    ensures forall op :: op in ops[1..] ==> op.key != ops[0].key
  {
    forall i, j | 0 <= i < j < |ops[1..]| ensures ops[1..][i].key != ops[1..][j].key {
      assert ops[i + 1].key != ops[j + 1].key;
    }
    forall op | op in ops[1..] ensures op.key != ops[0].key {
      var i :| 0 <= i < |ops[1..]| && ops[1..][i] == op;
      assert ops[i + 1] == op;
    }
  }

  lemma DistinctFirst(op: Op, rest: seq<Op>)
    requires DistinctKeys(rest) && forall other :: other in rest ==> other.key != op.key
    ensures DistinctKeys([op] + rest)
  {
    forall i, j | 0 <= i < j < |[op] + rest| ensures ([op] + rest)[i].key != ([op] + rest)[j].key {
      assert rest[j - 1] in rest;
    }
  }

  lemma {:induction false} DistinctParts(ops: seq<Op>)
    requires DistinctKeys(ops)
    ensures DistinctKeys(Puts(ops)) && DistinctKeys(Removes(ops))
  {
    if ops != [] {
      DistinctRest(ops);
      DistinctParts(ops[1..]);
      if ops[0].Put? {
        DistinctFirst(ops[0], Puts(ops[1..]));
      } else {
        DistinctFirst(ops[0], Removes(ops[1..]));
      }
    }
  }

  lemma PutsFirst(ops: seq<Op>)
    requires DistinctKeys(ops)
    ensures DistinctKeys(Puts(ops) + Removes(ops))
    ensures forall op :: op in ops <==> op in Puts(ops) + Removes(ops)
  {
    var puts, removes := Puts(ops), Removes(ops);
    DistinctParts(ops);
    forall i, j | 0 <= i < |puts| && 0 <= j < |removes| ensures puts[i].key != removes[j].key {
      assert puts[i] in ops && removes[j] in ops;
      var a, b :| 0 <= a < |ops| && ops[a] == puts[i] && 0 <= b < |ops| && ops[b] == removes[j];
      assert a != b;
    }
  }

  /** The keys that are gone after the deletions, and nothing else. */
  ghost predicate Deleted(before: Node, gone: iset<Path>, after: Node) {
    forall key :: Find(after, key) == if key in gone then Missing else Find(before, key)
  }

  ghost function RemovedKeys(ops: seq<Op>): iset<Path> {
    iset key | Remove(key) in ops
  }

  lemma {:induction false} RemovesDelete(n: Node, removes: seq<Op>)
    requires Canonical(n) && Run(n, removes).Some? && forall op :: op in removes ==> op.Remove?
    ensures Deleted(n, RemovedKeys(removes), Run(n, removes).value)
    decreases |removes|
  {
    if removes != [] {
      var rest := removes[1..];
      assert removes == [removes[0]] + rest;
      ApplyRefines(n, removes[0]);
      RemovesDelete(Apply(n, removes[0]).node, rest);
      assert removes[0] in removes && removes[0] == Remove(removes[0].key);
      assert forall key :: key in RemovedKeys(removes) <==> key in RemovedKeys(rest) || key == removes[0].key;
    }
  }
}
