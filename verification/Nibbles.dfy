/** Nibble lists and their compact (hex-prefix) encoding: Appendix C of the Ethereum Yellow Paper. */
module Nibbles {
  import opened Primitives

  /** The nibbles of a byte string, high half first. */
  function ToNibs(bytes: Bytes): (nibs: Path)
    ensures |nibs| == 2 * |bytes|
  {
    if bytes == [] then [] else [bytes[0] / 16, bytes[0] % 16] + ToNibs(bytes[1..])
  }

  /** One byte from its two halves. */
  function Join(high: int, low: Nibble): (byte: Byte)
    requires 0 <= high < 16
    ensures byte / 16 == high && byte % 16 == low
  {
    high * 16 + low
  }

  /** Two nibbles to the byte, for an even number of nibbles. */
  function Pack(nibs: Path): (bytes: Bytes)
    requires |nibs| % 2 == 0
    ensures 2 * |bytes| == |nibs|
  {
    if nibs == [] then [] else [Join(nibs[0], nibs[1])] + Pack(nibs[2..])
  }

  /** The compact encoding of a path: a flag nibble for leaf and parity, then the nibbles. */
  function EncodedPath(nibs: Path, isLeaf: bool): (prefix: Bytes)
    ensures |prefix| == |nibs| / 2 + 1
  {
    var flag: int := if isLeaf then 2 else 0;
    if |nibs| % 2 != 0 then [Join(flag + 1, nibs[0])] + Pack(nibs[1..]) else [Join(flag, 0)] + Pack(nibs)
  }

  /** The nibbles of a compact encoding. The empty string has none, and the source panics on it. */
  function PrefixNibs(prefix: Bytes): Path
    requires prefix != []
  {
    (if IsOdd(prefix) then [prefix[0] % 16] else []) + ToNibs(prefix[1..])
  }

  predicate IsOdd(prefix: Bytes)
    requires prefix != []
  {
    prefix[0] / 16 % 2 == 1
  }

  predicate IsLeafPrefix(prefix: Bytes)
    requires prefix != []
  {
    prefix[0] / 32 % 2 == 1
  }

  /** The length of the longest common prefix. */
  function Lcp(a: Path, b: Path): (n: nat)
    ensures n <= |a| && n <= |b|
    ensures a[..n] == b[..n]
    ensures n < |a| && n < |b| ==> a[n] != b[n]
  {
    if a == [] || b == [] || a[0] != b[0] then 0 else 1 + Lcp(a[1..], b[1..])
  }

  // The loops of the source.

  method ToNibsLoop(bytes: Bytes) returns (result: Path)
    ensures result == ToNibs(bytes) && |result| == 2 * |bytes|
    ensures forall i :: 0 <= i < |bytes| ==> result[2 * i] == bytes[i] / 16 && result[2 * i + 1] == bytes[i] % 16
  {
    result := [];
    for i := 0 to |bytes|
      invariant result + ToNibs(bytes[i..]) == ToNibs(bytes)
    {
      assert bytes[i..][1..] == bytes[i + 1..];
      var before := result;
      result := result + [bytes[i] / 16];
      result := result + [bytes[i] % 16];
      assert result == before + [bytes[i] / 16, bytes[i] % 16];
      assert result + ToNibs(bytes[i + 1..]) == before + ToNibs(bytes[i..]);
    }
    assert ToNibs(bytes[|bytes|..]) == [];
    forall i | 0 <= i < |bytes| ensures result[2 * i] == bytes[i] / 16 && result[2 * i + 1] == bytes[i] % 16 {
      ToNibsAt(bytes, i);
    }
  }

  method PrefixNibsLoop(prefix: Bytes) returns (result: Path)
    requires prefix != []
    ensures result == PrefixNibs(prefix)
  {
    var tail := prefix[1..];
    result := [];
    if IsOdd(prefix) {
      result := result + [prefix[0] % 16];
    }
    for i := 0 to |tail|
      invariant result + ToNibs(tail[i..]) == PrefixNibs(prefix)
    {
      assert tail[i..][1..] == tail[i + 1..];
      var before := result;
      result := result + [tail[i] / 16];
      result := result + [tail[i] % 16];
      assert result == before + [tail[i] / 16, tail[i] % 16];
      assert result + ToNibs(tail[i + 1..]) == before + ToNibs(tail[i..]);
    }
    assert ToNibs(tail[|tail|..]) == [];
  }

  method LcpLoop(a: Path, b: Path) returns (n: nat)
    ensures n == Lcp(a, b)
  {
    var shorter := if |a| <= |b| then |a| else |b|;
    for i := 0 to shorter
      invariant a[..i] == b[..i]
    {
      if a[i] != b[i] {
        LcpUnique(a, b, i);
        return i;
      }
    }
    LcpUnique(a, b, shorter);
    return shorter;
  }

  // What the encodings are, byte by byte, and what they are for.

  lemma {:induction false} ToNibsAt(bytes: Bytes, i: nat)
    requires i < |bytes|
    ensures ToNibs(bytes)[2 * i] == bytes[i] / 16 && ToNibs(bytes)[2 * i + 1] == bytes[i] % 16
  {
    if i > 0 {
      ToNibsAt(bytes[1..], i - 1);
    }
  }

  predicate TwoNibs(byte: Byte, high: Nibble, low: Nibble) {
    byte as int == high as int * 16 + low
  }

  lemma {:induction false} PackAt(nibs: Path, i: nat)
    requires |nibs| % 2 == 0 && 2 * i < |nibs|
    ensures TwoNibs(Pack(nibs)[i], nibs[2 * i], nibs[2 * i + 1])
  {
    if i > 0 {
      PackAt(nibs[2..], i - 1);
    }
  }

  /**
   * The first byte has the flags, 0x10 for an odd number of nibbles and 0x20 for a leaf, and the
   * odd nibble; then each byte has the next two nibbles.
   */
  lemma CompactForm(nibs: Path, isLeaf: bool)
    ensures var code, odd := EncodedPath(nibs, isLeaf), |nibs| % 2;
      && |code| == |nibs| / 2 + 1
      && code[0] as int == (if isLeaf then 0x20 else 0x00) + (if odd == 1 then 0x10 + nibs[0] as int else 0)
      && forall i :: 0 <= i < |nibs| / 2 ==> TwoNibs(code[i + 1], nibs[odd + 2 * i], nibs[odd + 2 * i + 1])
  {
    var code, odd := EncodedPath(nibs, isLeaf), |nibs| % 2;
    forall i | 0 <= i < |nibs| / 2 ensures TwoNibs(code[i + 1], nibs[odd + 2 * i], nibs[odd + 2 * i + 1]) {
      PackAt(nibs[odd..], i);
      assert nibs[odd..][2 * i] == nibs[odd + 2 * i] && nibs[odd..][2 * i + 1] == nibs[odd + 2 * i + 1];
      assert odd == 0 ==> nibs[odd..] == nibs;
      assert code[1..] == Pack(nibs[odd..]);
      assert code[i + 1] == code[1..][i];
    }
  }

  /** Reading a path: bit 0x20 says that it ends in a leaf, and bit 0x10 that the first nibble is in the first byte. */
  lemma PrefixForm(prefix: Bytes)
    requires prefix != []
    ensures IsLeafPrefix(prefix) <==> prefix[0] % 0x40 >= 0x20
    ensures var nibs := PrefixNibs(prefix); var odd := if prefix[0] % 0x20 >= 0x10 then 1 else 0;
      && |nibs| == odd + 2 * (|prefix| - 1)
      && (odd == 1 ==> nibs[0] == prefix[0] % 16)
      && forall i :: 0 <= i < |prefix| - 1 ==> TwoNibs(prefix[i + 1], nibs[odd + 2 * i], nibs[odd + 2 * i + 1])
  {
    var tail := prefix[1..];
    FlagBits(prefix);
    forall i | 0 <= i < |tail| ensures TwoNibs(prefix[i + 1], ToNibs(tail)[2 * i], ToNibs(tail)[2 * i + 1]) {
      ToNibsAt(tail, i);
    }
  }

  lemma FlagBits(prefix: Bytes)
    requires prefix != []
    ensures IsLeafPrefix(prefix) <==> prefix[0] % 0x40 >= 0x20
    ensures IsOdd(prefix) <==> prefix[0] % 0x20 >= 0x10
  {}

  /** The longest common prefix is the only common prefix that cannot be extended. */
  lemma {:induction false} LcpUnique(a: Path, b: Path, n: nat)
    requires n <= |a| && n <= |b| && a[..n] == b[..n]
    requires n < |a| && n < |b| ==> a[n] != b[n]
    ensures n == Lcp(a, b)
  {
    if n > 0 {
      assert a[0] == a[..n][0] == b[..n][0] == b[0];
      assert a[1..][..n - 1] == a[..n][1..] == b[..n][1..] == b[1..][..n - 1];
      LcpUnique(a[1..], b[1..], n - 1);
    }
  }

  lemma {:induction false} PackToNibs(bytes: Bytes)
    ensures Pack(ToNibs(bytes)) == bytes
  {
    if bytes != [] {
      assert ToNibs(bytes)[2..] == ToNibs(bytes[1..]);
      PackToNibs(bytes[1..]);
    }
  }

  lemma {:induction false} ToNibsPack(nibs: Path)
    requires |nibs| % 2 == 0
    ensures ToNibs(Pack(nibs)) == nibs
  {
    if nibs != [] {
      assert Pack(nibs)[1..] == Pack(nibs[2..]);
      ToNibsPack(nibs[2..]);
    }
  }

  /** The key with these nibbles. */
  function KeyOf(nibs: Path): (key: B256)
    requires |nibs| == 64
    ensures ToNibs(key) == nibs
  {
    ToNibsPack(nibs);
    Pack(nibs)
  }

  /** Different keys have different nibble paths. */
  lemma ToNibsInjective(a: Bytes, b: Bytes)
    requires ToNibs(a) == ToNibs(b)
    ensures a == b
  {
    PackToNibs(a);
    PackToNibs(b);
  }

  /** Decoding a compact path gives back the nibbles and the leaf flag, for every nibble list. */
  lemma CompactRoundTrip(nibs: Path, isLeaf: bool)
    ensures PrefixNibs(EncodedPath(nibs, isLeaf)) == nibs
    ensures IsLeafPrefix(EncodedPath(nibs, isLeaf)) == isLeaf
  {
    var prefix := EncodedPath(nibs, isLeaf);
    if |nibs| % 2 != 0 {
      assert prefix[1..] == Pack(nibs[1..]);
      ToNibsPack(nibs[1..]);
      assert nibs == [nibs[0]] + nibs[1..];
    } else {
      assert prefix[1..] == Pack(nibs);
      ToNibsPack(nibs);
    }
  }

  /** Re-encoding gives back the bytes exactly when the unused bits of the first byte are clear. */
  lemma CompactReencode(prefix: Bytes)
    requires prefix != []
    ensures EncodedPath(PrefixNibs(prefix), IsLeafPrefix(prefix)) == prefix
       <==> prefix[0] < 0x40 && (IsOdd(prefix) || prefix[0] % 16 == 0)
  {
    var nibs := PrefixNibs(prefix);
    PackToNibs(prefix[1..]);
    if IsOdd(prefix) {
      assert nibs[1..] == ToNibs(prefix[1..]);
    } else {
      assert nibs == ToNibs(prefix[1..]);
    }
    var again := EncodedPath(nibs, IsLeafPrefix(prefix));
    assert again[1..] == prefix[1..];
    assert again == prefix <==> again[0] == prefix[0] by {
      assert again == [again[0]] + again[1..] && prefix == [prefix[0]] + prefix[1..];
    }
  }
}
