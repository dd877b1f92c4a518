/** Decoding the encoding of a node gives the node's surface, and the surface has the same hash. */
module NodeRoundTrip {
  import opened Primitives
  import opened Nibbles
  import opened Rlp
  import opened Trie
  import opened NodeCodec

  // The surface encodes to the same bytes.

  lemma {:induction false} SurfaceEncode(n: Node)
    requires Clean(n)
    ensures Encode(Surface(n)) == Encode(n)
    ensures Ref(Surface(n)) == Ref(n)
    decreases n, 0
  {
    match n
    case Branch(children) => SurfaceCodes(children);
    case Extension(path, child) => SurfaceRef(child);
    case _ =>
  }

  lemma {:induction false} SurfaceRef(child: Node)
    requires Clean(child)
    ensures Ref(SurfaceChild(child)) == Ref(child)
    decreases child, 1
  {
    SurfaceEncode(child);
  }

  lemma {:induction false} SurfaceCodes(children: seq<Node>)
    requires forall i :: 0 <= i < |children| ==> Clean(children[i])
    ensures ChildCodes(SurfaceChildren(children)) == ChildCodes(children)
    decreases children, 0
  {
    if children != [] {
      SurfaceRef(children[0]);
      SurfaceCodes(children[1..]);
      assert SurfaceChildren(children)[1..] == SurfaceChildren(children[1..]);
    }
  }

  /** Showing a node only by its surface keeps its hash. */
  lemma SurfaceHash(n: Node)
    requires Clean(n)
    ensures Hash(Surface(n)) == Hash(n)
  {
    SurfaceEncode(n);
  }

  // Each child's code is one RLP item.

  lemma DigestCode(digest: B256)
    ensures RefCode(RefDigest(digest)) == EncodeString(digest)
  {}

  lemma EncodeIsItem(n: Node)
    requires |Encode(n)| < LENGTH_LIMIT
    ensures IsItem(Encode(n))
  {
    match n
    case Null => StringIsItem([]);
    case Branch(children) => ListIsItem(Concat(ChildCodes(children)) + [EMPTY_STRING_CODE]);
    case Leaf(path, value) => ListIsItem(EncodeString(EncodedPath(path, true)) + EncodeString(value));
    case Extension(path, child) => ListIsItem(EncodeString(EncodedPath(path, false)) + RefCode(Ref(child)));
    case Digest(digest, _) => StringIsItem(digest);
  }

  lemma RefCodeIsItem(n: Node)
    requires Clean(n)
    ensures IsItem(RefCode(Ref(n)))
  {
    match Ref(n)
    case RefBytes(bytes) => EncodeIsItem(n);
    case RefDigest(digest) => DigestCode(digest); StringIsItem(digest);
  }

  // Decoding.

  /** Whole strings read back. */
  lemma StringOfString(s: Bytes)
    requires |s| < LENGTH_LIMIT
    ensures StringOf(EncodeString(s)) == Some(s)
  {
    ReadString(s, []);
    assert EncodeString(s) + [] == EncodeString(s);
  }

  lemma ReadWholeList(payload: Bytes)
    requires |payload| < LENGTH_LIMIT
    ensures ReadItem(EncodeList(payload)) == Some(Item(true, payload, |EncodeList(payload)|))
  {
    ReadList(payload, []);
    assert EncodeList(payload) + [] == EncodeList(payload);
  }

  lemma DecodeList(parts: seq<Bytes>, payload: Bytes)
    requires payload == Concat(parts) && |payload| < LENGTH_LIMIT
    requires forall i :: 0 <= i < |parts| ==> IsItem(parts[i])
    ensures Split(payload) == Some(parts)
    ensures ReadItem(EncodeList(payload)) == Some(Item(true, payload, |EncodeList(payload)|))
  {
    ReadWholeList(payload);
    SplitConcat(parts);
  }

  lemma DecodeDigest(digest: B256)
    ensures Decode(EncodeString(digest)) == Success(Digest(digest, None))
  {
    ReadString(digest, []);
    assert EncodeString(digest) + [] == EncodeString(digest);
  }

  /** Decoding what a node encodes to gives the node's surface. */
  lemma {:induction false} DecodeEncode(n: Node)
    requires Clean(n) && WellFormed(n) && |Encode(n)| < LENGTH_LIMIT
    ensures Decode(Encode(n)) == Success(Surface(n))
    decreases n, 0
  {
    match n
    case Null =>
    case Digest(digest, _) => DecodeDigest(digest);
    case Leaf(path, value) =>
      var prefix := EncodedPath(path, true);
      var parts := [EncodeString(prefix), EncodeString(value)];
      ConcatTwo(parts[0], parts[1]);
      StringIsItem(prefix);
      StringIsItem(value);
      DecodeList(parts, parts[0] + parts[1]);
      StringOfString(prefix);
      StringOfString(value);
      CompactRoundTrip(path, true);
    case Extension(path, child) =>
      var prefix := EncodedPath(path, false);
      var parts := [EncodeString(prefix), RefCode(Ref(child))];
      ConcatTwo(parts[0], parts[1]);
      StringIsItem(prefix);
      RefCodeIsItem(child);
      DecodeList(parts, parts[0] + parts[1]);
      StringOfString(prefix);
      CompactRoundTrip(path, false);
      DecodeRef(child);
    case Branch(children) =>
      DecodeEncodeBranch(children);
  }

  lemma {:induction false} DecodeRef(child: Node)
    requires Clean(child) && WellFormed(child)
    ensures Decode(RefCode(Ref(child))) == Success(SurfaceChild(child))
    decreases child, 1
  {
    match Ref(child)
    case RefBytes(bytes) => DecodeEncode(child);
    case RefDigest(digest) => DigestCode(digest); DecodeDigest(digest);
  }

  lemma {:induction false} DecodeEncodeBranch(children: seq<Node>)
    requires Clean(Branch(children)) && WellFormed(Branch(children)) && |Encode(Branch(children))| < LENGTH_LIMIT
    ensures Decode(Encode(Branch(children))) == Success(Surface(Branch(children)))
    decreases children, 1
  {
    var codes := ChildCodes(children);
    var items := codes + [[EMPTY_STRING_CODE]];
    var payload := Concat(codes) + [EMPTY_STRING_CODE];
    ConcatAppend(codes, [[EMPTY_STRING_CODE]]);
    assert Concat([[EMPTY_STRING_CODE]]) == [EMPTY_STRING_CODE];
    forall i | 0 <= i < |items| ensures IsItem(items[i]) {
      if i < 16 {
        RefCodeIsItem(children[i]);
      } else {
        StringIsItem([]);
        assert EncodeString([]) == items[16];
      }
    }
    DecodeList(items, payload);
    StringOfString([]);
    assert EncodeString([]) == items[16];
    assert items[..16] == codes;
    DecodeSlots(children, |payload|);
  }

  lemma {:induction false} DecodeSlots(children: seq<Node>, bound: nat)
    requires forall i :: 0 <= i < |children| ==> Clean(children[i]) && WellFormed(children[i])
    requires forall i :: 0 <= i < |children| ==> |ChildCodes(children)[i]| <= bound
    ensures DecodeChildren(ChildCodes(children), bound) == Success(SurfaceChildren(children))
    decreases children, 0
  {
    if children != [] {
      DecodeRef(children[0]);
      assert ChildCodes(children)[1..] == ChildCodes(children[1..]);
      DecodeSlots(children[1..], bound);
    }
  }

  // What is written, and what is read, child by child.

  /** How a branch or an extension shows a child: as the empty string, by its own code, or by 0xa0 and its hash. */
  ghost predicate ChildItem(child: Node, item: Bytes) {
    if child.Null? then item == [0x80]
    else if child.Digest? then item == [0xa0] + child.digest
    else if |Encode(child)| < 32 then item == Encode(child)
    else item == [0xa0] + KECCAK(Encode(child))
  }

  /** A leaf has two items, an extension two, and a branch seventeen, of which the last is empty. */
  ghost predicate NodeItems(n: Node, items: seq<Bytes>) {
    match n
    case Leaf(path, value) => items == [EncodeString(EncodedPath(path, true)), EncodeString(value)]
    case Extension(path, child) =>
      |items| == 2 && items[0] == EncodeString(EncodedPath(path, false)) && ChildItem(child, items[1])
    case Branch(children) =>
      && |items| == 17 == |children| + 1 && items[16] == [0x80]
      && forall i :: 0 <= i < 16 ==> ChildItem(children[i], items[i])
    case _ => false
  }

  /** The encoding of a node is the list of these items. */
  lemma EncodedItems(n: Node) returns (items: seq<Bytes>)
    requires Clean(n) && WellFormed(n) && !n.Null? && !n.Digest?
    ensures Encode(n) == EncodeList(Concat(items)) && NodeItems(n, items)
  {
    match n
    case Leaf(path, value) =>
      items := [EncodeString(EncodedPath(path, true)), EncodeString(value)];
      ConcatTwo(items[0], items[1]);
    case Extension(path, child) =>
      items := [EncodeString(EncodedPath(path, false)), RefCode(Ref(child))];
      ConcatTwo(items[0], items[1]);
    case Branch(children) =>
      items := ChildCodes(children) + [[EMPTY_STRING_CODE]];
      ConcatAppend(ChildCodes(children), [[EMPTY_STRING_CODE]]);
      assert Concat([[EMPTY_STRING_CODE]]) == [EMPTY_STRING_CODE];
  }

  /** What a child is read back as: a short one from its own encoding, any other as its hash. */
  ghost predicate ChildShown(child: Node, shown: Node) {
    if child.Null? || child.Digest? then shown == child
    else if |Encode(child)| < 32 then Decode(Encode(child)) == Success(shown)
    else shown == Digest(KECCAK(Encode(child)), None)
  }

  ghost predicate NodeShown(n: Node, shown: Node) {
    match n
    case Branch(children) =>
      && shown.Branch? && |shown.children| == |children|
      && forall i :: 0 <= i < |children| ==> ChildShown(children[i], shown.children[i])
    case Extension(path, child) => shown.Extension? && shown.path == path && ChildShown(child, shown.child)
    case _ => shown == n
  }

  /** Decoding an encoding gives back the node, with each child read back so. */
  lemma DecodeShows(n: Node)
    requires Clean(n) && WellFormed(n) && |Encode(n)| < LENGTH_LIMIT
    ensures Decode(Encode(n)).Success? && NodeShown(n, Decode(Encode(n)).value)
  {
    DecodeEncode(n);
    match n
    case Branch(children) =>
      forall i | 0 <= i < |children| ensures ChildShown(children[i], SurfaceChild(children[i])) {
        ShownBySurface(children[i]);
      }
    case Extension(path, child) => ShownBySurface(child);
    case _ =>
  }

  lemma ShownBySurface(child: Node)
    requires Clean(child) && WellFormed(child)
    ensures ChildShown(child, SurfaceChild(child))
  {
    if |Encode(child)| < 32 {
      DecodeEncode(child);
    }
  }

  // Which bytes decode, and to what.

  /** The bytes of a path; of the first byte only the flags and an odd nibble count. */
  predicate ShowsPath(prefix: Bytes, path: Path, isLeaf: bool) {
    prefix != [] && PrefixNibs(prefix) == path && IsLeafPrefix(prefix) == isLeaf
  }

  ghost predicate IsListOf(code: Bytes, parts: seq<Bytes>) {
    |Concat(parts)| < LENGTH_LIMIT && code == EncodeList(Concat(parts))
  }

  ghost predicate WritesLeaf(code: Bytes, prefix: Bytes, path: Path, value: Bytes) {
    ShowsPath(prefix, path, true) && IsListOf(code, [EncodeString(prefix), EncodeString(value)])
  }

  /** The bytes are one way to write the node. */
  ghost predicate Writes(code: Bytes, n: Node)
    decreases n
  {
    match n
    case Null => code == [0x80]
    case Digest(digest, residue) => residue.None? && code == [0xa0] + digest
    case Leaf(path, value) => exists prefix :: WritesLeaf(code, prefix, path, value)
    case Extension(path, child) =>
      exists prefix, below ::
        ShowsPath(prefix, path, false) && Writes(below, child) && IsListOf(code, [EncodeString(prefix), below])
    case Branch(children) =>
      exists codes: seq<Bytes> ::
        && |codes| == |children| == 16 && IsListOf(code, codes + [[0x80]])
        && forall i :: 0 <= i < |children| ==> Writes(codes[i], children[i])
  }

  /** Bytes decode to a node exactly when they begin with a way to write it, or if there are none and it is empty. */
  lemma DecodeIff(code: Bytes, n: Node)
    ensures Decode(code) == Success(n) <==> (code == [] && n.Null?) || BeginsWith(code, n)
  {
    if Decode(code) == Success(n) && code != [] {
      DecodedIsWritten(code);
      assert code[..ReadItem(code).value.size] <= code;
    }
    if BeginsWith(code, n) {
      var item :| item <= code && Writes(item, n);
      WrittenDecodes(item, n);
      DecodeStart(item, code);
    }
  }

  ghost predicate BeginsWith(code: Bytes, n: Node) {
    exists item :: item <= code && Writes(item, n)
  }

  lemma DecodeStart(item: Bytes, code: Bytes)
    requires OneItem(item) && item <= code
    ensures code != [] && Decode(code) == Decode(item)
  {
    ReadItemIff(item, ReadItem(item).value);
    ReadItemIff(code, ReadItem(item).value);
  }

  lemma StringRead(code: Bytes)
    requires OneItem(code) && StringOf(code).Some?
    ensures code == EncodeString(StringOf(code).value)
  {
    ReadItemIff(code, ReadItem(code).value);
  }

  lemma {:induction false} DecodedIsWritten(code: Bytes)
    requires Decode(code).Success? && code != []
    ensures ReadItem(code).Some? && Writes(code[..ReadItem(code).value.size], Decode(code).value)
    decreases |code|, 0
  {
    var item := ReadItem(code).value;
    ReadItemIff(code, item);
    if item.isList {
      var items := Split(item.payload).value;
      SplitIff(item.payload, items);
      if |items| == 2 {
        PairIsWritten(items, |item.payload|, code[..item.size]);
      } else {
        BranchIsWritten(items, |item.payload|, code[..item.size]);
      }
    }
  }

  lemma {:induction false} PairIsWritten(items: seq<Bytes>, bound: nat, code: Bytes)
    requires |items| == 2 && forall i :: 0 <= i < |items| ==> |items[i]| <= bound && OneItem(items[i])
    requires DecodePair(items, bound).Success? && IsListOf(code, items)
    ensures Writes(code, DecodePair(items, bound).value)
    decreases bound, 2
  {
    StringRead(items[0]);
    var prefix := StringOf(items[0]).value;
    assert items == [items[0], items[1]];
    if IsLeafPrefix(prefix) {
      StringRead(items[1]);
      assert WritesLeaf(code, prefix, PrefixNibs(prefix), StringOf(items[1]).value);
    } else {
      DecodedIsWritten(items[1]);
      assert items[1][..|items[1]|] == items[1];
      assert ShowsPath(prefix, PrefixNibs(prefix), false);
    }
  }

  lemma {:induction false} BranchIsWritten(items: seq<Bytes>, bound: nat, code: Bytes)
    requires |items| == 17 && forall i :: 0 <= i < |items| ==> |items[i]| <= bound && OneItem(items[i])
    requires DecodeBranch(items, bound).Success? && IsListOf(code, items)
    ensures Writes(code, DecodeBranch(items, bound).value)
    decreases bound, 2
  {
    var codes := items[..16];
    StringRead(items[16]);
    assert EncodeString([]) == [0x80] && items == codes + [items[16]];
    ChildrenAreWritten(codes, bound);
  }

  lemma {:induction false} ChildrenAreWritten(items: seq<Bytes>, bound: nat)
    requires forall i :: 0 <= i < |items| ==> |items[i]| <= bound && OneItem(items[i])
    requires DecodeChildren(items, bound).Success?
    ensures forall i :: 0 <= i < |items| ==> Writes(items[i], DecodeChildren(items, bound).value[i])
    decreases bound, 1, |items|
  {
    if items != [] {
      DecodedIsWritten(items[0]);
      assert items[0][..|items[0]|] == items[0];
      ChildrenAreWritten(items[1..], bound);
    }
  }

  lemma {:induction false} WrittenDecodes(code: Bytes, n: Node)
    requires Writes(code, n)
    ensures OneItem(code) && Decode(code) == Success(n)
    decreases n
  {
    match n
    case Null => StringOne([]);
    case Digest(digest, _) => StringOne(digest); DecodeDigest(digest);
    case Leaf(path, value) =>
      var prefix :| WritesLeaf(code, prefix, path, value);
      PairDecodes(code, prefix, EncodeString(value));
      StringOfString(value);
    case Extension(path, child) =>
      var prefix, below :| ShowsPath(prefix, path, false) && Writes(below, child)
        && IsListOf(code, [EncodeString(prefix), below]);
      WrittenDecodes(below, child);
      PairDecodes(code, prefix, below);
    case Branch(children) =>
      var codes: seq<Bytes> :| |codes| == |children| == 16 && IsListOf(code, codes + [[0x80]])
        && forall i :: 0 <= i < |children| ==> Writes(codes[i], children[i]);
      forall i | 0 <= i < |children| ensures OneItem(codes[i]) && Decode(codes[i]) == Success(children[i]) {
        WrittenDecodes(codes[i], children[i]);
      }
      BranchDecodes(code, codes, children);
  }

  lemma StringOne(s: Bytes)
    requires |s| < LENGTH_LIMIT
    ensures OneItem(EncodeString(s)) && StringOf(EncodeString(s)) == Some(s)
  {
    ReadString(s, []);
    assert EncodeString(s) + [] == EncodeString(s);
  }

  lemma ListDecodes(code: Bytes, parts: seq<Bytes>)
    requires IsListOf(code, parts) && forall i :: 0 <= i < |parts| ==> OneItem(parts[i])
    ensures OneItem(code) && ReadItem(code) == Some(Item(true, Concat(parts), |code|))
    ensures Split(Concat(parts)) == Some(parts)
  {
    ReadWholeList(Concat(parts));
    SplitIff(Concat(parts), parts);
  }

  lemma {:induction false} PartLength(parts: seq<Bytes>, i: nat)
    requires i < |parts|
    ensures |parts[i]| <= |Concat(parts)|
  {
    if i > 0 {
      PartLength(parts[1..], i - 1);
    }
  }

  lemma PairDecodes(code: Bytes, prefix: Bytes, second: Bytes)
    requires IsListOf(code, [EncodeString(prefix), second]) && prefix != []
    requires OneItem(second) || exists s :: second == EncodeString(s)
    ensures OneItem(second) && OneItem(code)
    ensures |EncodeString(prefix)| <= |Concat([EncodeString(prefix), second])|
    ensures |second| <= |Concat([EncodeString(prefix), second])|
    ensures Decode(code) == DecodePair([EncodeString(prefix), second], |Concat([EncodeString(prefix), second])|)
    ensures StringOf(EncodeString(prefix)) == Some(prefix)
  {
    var parts := [EncodeString(prefix), second];
    PartLength(parts, 0);
    PartLength(parts, 1);
    StringOne(prefix);
    if s :| second == EncodeString(s) {
      StringOne(s);
    }
    ListDecodes(code, parts);
  }

  lemma BranchDecodes(code: Bytes, codes: seq<Bytes>, children: seq<Node>)
    requires |codes| == |children| == 16 && IsListOf(code, codes + [[0x80]])
    requires forall i :: 0 <= i < |children| ==> OneItem(codes[i]) && Decode(codes[i]) == Success(children[i])
    ensures OneItem(code) && Decode(code) == Success(Branch(children))
  {
    var items := codes + [[0x80]];
    StringOne([]);
    assert EncodeString([]) == [0x80];
    forall i | 0 <= i < |items| ensures OneItem(items[i]) && |items[i]| <= |Concat(items)| {
      PartLength(items, i);
    }
    ListDecodes(code, items);
    assert items[..16] == codes;
    ChildrenDecode(codes, children, |Concat(items)|);
  }

  lemma {:induction false} ChildrenDecode(codes: seq<Bytes>, children: seq<Node>, bound: nat)
    requires |codes| == |children|
    requires forall i :: 0 <= i < |codes| ==> |codes[i]| <= bound && Decode(codes[i]) == Success(children[i])
    ensures DecodeChildren(codes, bound) == Success(children)
    decreases |codes|
  {
    if codes != [] {
      ChildrenDecode(codes[1..], children[1..], bound);
      assert children == [children[0]] + children[1..];
    }
  }

  /** Reading a node back from its encoding keeps its hash. */
  lemma RoundTripHash(n: Node)
    requires Clean(n) && WellFormed(n) && |Encode(n)| < LENGTH_LIMIT
    ensures Decode(Encode(n)).Success? && Hash(Decode(Encode(n)).value) == Hash(n)
  {
    DecodeEncode(n);
    SurfaceHash(n);
  }

  /** Nodes with the same encoding look the same from outside. */
  lemma EncodeInjective(m: Node, n: Node)
    requires Clean(m) && WellFormed(m) && |Encode(m)| < LENGTH_LIMIT
    requires Clean(n) && WellFormed(n)
    requires Encode(m) == Encode(n)
    ensures Surface(m) == Surface(n)
  {
    DecodeEncode(m);
    DecodeEncode(n);
  }
}
