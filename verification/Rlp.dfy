/** Recursive Length Prefix encoding: Appendix B of the Ethereum Yellow Paper. */
module Rlp {
  import opened Primitives

  /** The encoding of the empty string, which also stands for an empty trie. */
  const EMPTY_STRING_CODE: Byte := 0x80

  /** Lengths are 64-bit: a length of length fits in eight bytes. */
  const LENGTH_LIMIT := 0x1_0000_0000_0000_0000

  /** The big-endian digits of a number without leading zeros. */
  function BigEndian(n: nat): (digits: Bytes)
    ensures n == 0 <==> digits == []
    ensures digits != [] ==> digits[0] != 0
  {
    if n == 0 then [] else BigEndian(n / 256) + [n % 256]
  }

  function FromBigEndian(digits: Bytes): nat {
    if digits == [] then 0 else FromBigEndian(digits[..|digits| - 1]) * 256 + digits[|digits| - 1]
  }

  /** The head of a string (`isList` false) or list: one byte, or a length of length and the length. */
  function Header(isList: bool, length: nat): (head: Bytes)
    ensures 1 <= |head|
    ensures length < 56 ==> |head| == 1
  {
    var code: int := if isList then 0xc0 else 0x80;
    if length < 56 then [code + length]
    else var digits := BigEndian(length); [(code + 55 + |digits|) % 256] + digits
  }

  function EncodeString(s: Bytes): (code: Bytes)
    ensures code != []
  {
    if |s| == 1 && s[0] < 0x80 then s else Header(false, |s|) + s
  }

  function EncodeList(payload: Bytes): Bytes {
    Header(true, |payload|) + payload
  }

  function EncodeUint(n: nat): Bytes {
    EncodeString(BigEndian(n))
  }

  /** The number of bytes in the head of a string or list of the given payload length. */
  function LengthOfLength(length: nat): nat {
    if length < 56 then 1 else 1 + |BigEndian(length)|
  }

  /** The length of `EncodeString(s)`, computed without encoding. */
  function StringLength(s: Bytes): nat {
    if |s| == 1 && s[0] < 0x80 then 1 else LengthOfLength(|s|) + |s|
  }

  // Reading.

  /** The first item of a byte string: its kind, its payload, and the bytes it takes up. */
  datatype Item = Item(isList: bool, payload: Bytes, size: nat)

  function ReadItem(b: Bytes): (item: Option<Item>)
    ensures item.Some? ==> 1 <= item.value.size <= |b|
    ensures item.Some? && item.value.isList ==> |item.value.payload| < item.value.size
  {
    if b == [] then None
    else
      var first: int := b[0];
      if first < 0x80 then Some(Item(false, [b[0]], 1))
      else if first == 0x81 then
        var item := ReadBody(b, false, 1, 1);
        if item.Some? && item.value.payload[0] < 0x80 then None else item
      else if first < 0xb8 then ReadBody(b, false, 1, first - 0x80)
      else if first < 0xc0 then ReadLong(b, false, first - 0xb7)
      else if first < 0xf8 then ReadBody(b, true, 1, first - 0xc0)
      else ReadLong(b, true, first - 0xf7)
  }

  function ReadBody(b: Bytes, isList: bool, start: nat, length: nat): (item: Option<Item>)
    ensures item.Some? ==>
      item.value.size == start + length <= |b| && |item.value.payload| == length && item.value.isList == isList
  {
    if start + length <= |b| then Some(Item(isList, b[start..start + length], start + length)) else None
  }

  /** A long form: the length comes in `digits` bytes, without leading zeros and not below 56. */
  function ReadLong(b: Bytes, isList: bool, digits: nat): (item: Option<Item>)
    requires 1 <= digits
    ensures item.Some? ==>
      |item.value.payload| + 1 < item.value.size <= |b| && item.value.isList == isList
  {
    if |b| < 1 + digits || b[1] == 0 then None
    else
      var length := FromBigEndian(b[1..1 + digits]);
      if length < 56 then None else ReadBody(b, isList, 1 + digits, length)
  }

  /** The items of a list payload, each as its own bytes. */
  function Split(payload: Bytes): (items: Option<seq<Bytes>>)
    ensures items.Some? ==> forall i :: 0 <= i < |items.value| ==> |items.value[i]| <= |payload|
    decreases |payload|
  {
    if payload == [] then Some([])
    else
      match ReadItem(payload)
      case None => None
      case Some(item) =>
        match Split(payload[item.size..])
        case None => None
        case Some(rest) => Some([payload[..item.size]] + rest)
  }

  // The forms of the encodings, with their constants.

  /** Big-endian: a digit counts as often as the digits behind it can differ. */
  lemma {:induction false} DigitsValue(front: Bytes, back: Bytes)
    ensures FromBigEndian(front + back) == FromBigEndian(front) * Power256(|back|) + FromBigEndian(back)
    ensures |back| == 1 ==> FromBigEndian(back) == back[0]
    decreases |back|
  {
    if back == [] {
      assert front + back == front;
    } else {
      var rest, last := back[..|back| - 1], back[|back| - 1];
      assert (front + back)[..|front + back| - 1] == front + rest;
      DigitsValue(front, rest);
      var a, p := FromBigEndian(front), Power256(|rest|);
      assert Power256(|back|) == 256 * p;
      assert FromBigEndian(back) == FromBigEndian(rest) * 256 + last;
      assert a * (256 * p) == (a * p) * 256;
    }
  }

  lemma HeaderForm(isList: bool, length: nat)
    requires length < LENGTH_LIMIT
    ensures |BigEndian(length)| <= 8 && FromBigEndian(BigEndian(length)) == length
    ensures length >= 56 && isList ==> Header(isList, length) == [0xf7 + |BigEndian(length)|] + BigEndian(length)
    ensures length >= 56 && !isList ==> Header(isList, length) == [0xb7 + |BigEndian(length)|] + BigEndian(length)
  {
    LengthDigits(length);
    BigEndianRoundTrip(length);
    LongHead(isList, length, BigEndian(length));
  }

  lemma LongHead(isList: bool, length: nat, digits: Bytes)
    requires |digits| <= 8 && digits == BigEndian(length)
    ensures length >= 56 && isList ==> Header(isList, length) == [0xf7 + |digits|] + digits
    ensures length >= 56 && !isList ==> Header(isList, length) == [0xb7 + |digits|] + digits
  {
    assert (0xf7 + |digits|) % 256 == 0xf7 + |digits|;
    assert (0xb7 + |digits|) % 256 == 0xb7 + |digits|;
  }

  /**
   * A single byte below 0x80 is its own code; up to 55 bytes come after one byte, and more after
   * their length, in as few big-endian digits as possible.
   */
  lemma StringForm(s: Bytes)
    requires |s| < LENGTH_LIMIT
    ensures |s| == 1 && s[0] < 0x80 ==> EncodeString(s) == s
    ensures |s| < 56 && (|s| == 1 ==> s[0] >= 0x80) ==> EncodeString(s) == [0x80 + |s|] + s
    ensures var digits := BigEndian(|s|); |digits| <= 8 && FromBigEndian(digits) == |s|
    ensures |s| >= 56 ==> EncodeString(s) == [0xb7 + |BigEndian(|s|)|] + BigEndian(|s|) + s
  {
    HeaderForm(false, |s|);
  }

  lemma ListForm(payload: Bytes)
    requires |payload| < LENGTH_LIMIT
    ensures |payload| < 56 ==> EncodeList(payload) == [0xc0 + |payload|] + payload
    ensures var digits := BigEndian(|payload|); |digits| <= 8 && FromBigEndian(digits) == |payload|
    ensures |payload| >= 56 ==> EncodeList(payload) == [0xf7 + |BigEndian(|payload|)|] + BigEndian(|payload|) + payload
  {
    HeaderForm(true, |payload|);
  }

  // Round trips.

  lemma {:induction false} BigEndianRoundTrip(n: nat)
    ensures FromBigEndian(BigEndian(n)) == n
  {
    if n > 0 {
      BigEndianRoundTrip(n / 256);
      var digits := BigEndian(n);
      assert digits[..|digits| - 1] == BigEndian(n / 256);
    }
  }

  lemma {:induction false} BigEndianBounded(n: nat, limit: nat, digits: nat)
    requires n < limit && limit == Power256(digits)
    ensures |BigEndian(n)| <= digits
  {
    if n > 0 {
      BigEndianBounded(n / 256, Power256(digits - 1), digits - 1);
    }
  }

  function Power256(digits: nat): (power: nat)
    ensures power >= 1
  {
    if digits == 0 then 1 else 256 * Power256(digits - 1)
  }

  lemma LengthDigits(length: nat)
    requires length < LENGTH_LIMIT
    ensures |BigEndian(length)| <= 8
  {
    LengthLimitIsPower();
    BigEndianBounded(length, LENGTH_LIMIT, 8);
  }

  lemma ReadLongRoundTrip(payload: Bytes, isList: bool, rest: Bytes)
    requires 56 <= |payload| < LENGTH_LIMIT
    ensures |BigEndian(|payload|)| <= 8
    ensures ReadLong(Header(isList, |payload|) + payload + rest, isList, |BigEndian(|payload|)|)
         == Some(Item(isList, payload, |Header(isList, |payload|)| + |payload|))
  {
    LengthDigits(|payload|);
    BigEndianRoundTrip(|payload|);
    var head := Header(isList, |payload|);
    var digits := BigEndian(|payload|);
    var b := head + payload + rest;
    assert head[1..] == digits;
    assert b[1..1 + |digits|] == digits;
    assert b[1] == digits[0];
    assert b[|head|..|head| + |payload|] == payload;
  }

  lemma ReadLongString(s: Bytes, rest: Bytes)
    requires 56 <= |s| < LENGTH_LIMIT
    ensures ReadItem(EncodeString(s) + rest) == Some(Item(false, s, |EncodeString(s)|))
  {
    var b := EncodeString(s) + rest;
    ReadLongRoundTrip(s, false, rest);
    assert b == Header(false, |s|) + s + rest;
    assert b[0] == 0xb7 + |BigEndian(|s|)|;
  }

  /** An encoded string reads back as itself, whatever follows it. */
  lemma ReadString(s: Bytes, rest: Bytes)
    requires |s| < LENGTH_LIMIT
    ensures ReadItem(EncodeString(s) + rest) == Some(Item(false, s, |EncodeString(s)|))
  {
    var b := EncodeString(s) + rest;
    if |s| == 1 && s[0] < 0x80 {
      assert [b[0]] == s;
    } else if |s| < 56 {
      assert b[0] == 0x80 + |s|;
      assert b[1..1 + |s|] == s;
      assert ReadBody(b, false, 1, |s|) == Some(Item(false, s, 1 + |s|));
    } else {
      ReadLongString(s, rest);
    }
  }

  /** An encoded list reads back as its payload, whatever follows it. */
  lemma ReadList(payload: Bytes, rest: Bytes)
    requires |payload| < LENGTH_LIMIT
    ensures ReadItem(EncodeList(payload) + rest) == Some(Item(true, payload, |EncodeList(payload)|))
  {
    var b := EncodeList(payload) + rest;
    if |payload| < 56 {
      assert b[0] == 0xc0 + |payload|;
      assert b[1..1 + |payload|] == payload;
      assert ReadBody(b, true, 1, |payload|) == Some(Item(true, payload, 1 + |payload|));
    } else {
      ReadLongList(payload, rest);
    }
  }

  lemma ReadLongList(payload: Bytes, rest: Bytes)
    requires 56 <= |payload| < LENGTH_LIMIT
    ensures ReadItem(EncodeList(payload) + rest) == Some(Item(true, payload, |EncodeList(payload)|))
  {
    var b := EncodeList(payload) + rest;
    ReadLongRoundTrip(payload, true, rest);
    assert b == Header(true, |payload|) + payload + rest;
    assert b[0] == 0xf7 + |BigEndian(|payload|)|;
  }

  /** A byte string that reads as exactly one item, whatever follows it. */
  ghost predicate IsItem(code: Bytes) {
    forall rest :: var item := ReadItem(code + rest); item.Some? && item.value.size == |code|
  }

  lemma StringIsItem(s: Bytes)
    requires |s| < LENGTH_LIMIT
    ensures IsItem(EncodeString(s))
  {
    forall rest ensures ReadItem(EncodeString(s) + rest) == Some(Item(false, s, |EncodeString(s)|)) {
      ReadString(s, rest);
    }
  }

  lemma ListIsItem(payload: Bytes)
    requires |payload| < LENGTH_LIMIT
    ensures IsItem(EncodeList(payload))
  {
    forall rest ensures ReadItem(EncodeList(payload) + rest) == Some(Item(true, payload, |EncodeList(payload)|)) {
      ReadList(payload, rest);
    }
  }

  function Concat(parts: seq<Bytes>): Bytes {
    if parts == [] then [] else parts[0] + Concat(parts[1..])
  }

  lemma {:induction false} ConcatAppend(a: seq<Bytes>, b: seq<Bytes>)
    ensures Concat(a + b) == Concat(a) + Concat(b)
  {
    if a == [] {
      assert a + b == b;
    } else {
      assert (a + b)[1..] == a[1..] + b;
      ConcatAppend(a[1..], b);
    }
  }

  lemma ConcatTwo(a: Bytes, b: Bytes)
    ensures Concat([a, b]) == a + b
  {
    assert [a, b][1..] == [b];
    assert Concat([b]) == b + Concat([]);
  }

  /** A list payload splits into the items it was put together from. */
  lemma {:induction false} SplitConcat(parts: seq<Bytes>)
    requires forall i :: 0 <= i < |parts| ==> IsItem(parts[i])
    ensures Split(Concat(parts)) == Some(parts)
  {
    if parts != [] {
      var rest := Concat(parts[1..]);
      var payload := Concat(parts);
      assert payload == parts[0] + rest;
      assert IsItem(parts[0]);
      var item := ReadItem(parts[0] + rest);
      assert payload[item.value.size..] == rest;
      assert payload[..item.value.size] == parts[0];
      SplitConcat(parts[1..]);
      assert parts == [parts[0]] + parts[1..];
    }
  }

  // What is read is what was written, and nothing else.

  lemma {:induction false} DigitsBounded(digits: Bytes)
    ensures FromBigEndian(digits) < Power256(|digits|)
  {
    if digits != [] {
      DigitsBounded(digits[..|digits| - 1]);
    }
  }

  lemma {:induction false} MorePower(m: nat, n: nat)
    requires m <= n
    ensures Power256(m) <= Power256(n)
  {
    if m < n {
      MorePower(m, n - 1);
    }
  }

  /** Digits without leading zeros are those of their number. */
  lemma {:induction false} DigitsRoundTrip(digits: Bytes)
    requires digits != [] ==> digits[0] != 0
    ensures BigEndian(FromBigEndian(digits)) == digits
  {
    if digits != [] {
      var front, last := digits[..|digits| - 1], digits[|digits| - 1];
      DigitsRoundTrip(front);
      var n := FromBigEndian(front);
      assert (n * 256 + last) / 256 == n && (n * 256 + last) % 256 == last;
      assert front == [] ==> digits == [last] && last != 0;
      assert front != [] ==> n != 0;
      assert digits == front + [last];
    }
  }

  /** The code of a string or a list. */
  function Code(isList: bool, payload: Bytes): Bytes {
    if isList then EncodeList(payload) else EncodeString(payload)
  }

  lemma LongReadExact(b: Bytes, isList: bool, digits: nat)
    requires 1 <= digits <= 8 && ReadLong(b, isList, digits).Some?
    requires b[0] == (if isList then 0xf7 else 0xb7) + digits
    ensures var item := ReadLong(b, isList, digits).value;
      |item.payload| < LENGTH_LIMIT && b[..item.size] == Header(isList, |item.payload|) + item.payload
  {
    var item, d := ReadLong(b, isList, digits).value, b[1..1 + digits];
    DigitsRoundTrip(d);
    DigitsBounded(d);
    MorePower(digits, 8);
    LengthLimitIsPower();
    HeaderForm(isList, |item.payload|);
    assert b[..item.size] == [b[0]] + d + item.payload;
  }

  lemma LengthLimitIsPower()
    ensures Power256(8) == LENGTH_LIMIT
  {
    assert Power256(2) == 0x1_0000;
    assert Power256(4) == 0x1_0000_0000;
    assert Power256(6) == 0x1_0000_0000_0000;
  }

  lemma ReadExact(b: Bytes)
    requires ReadItem(b).Some?
    ensures var item := ReadItem(b).value;
      |item.payload| < LENGTH_LIMIT && b[..item.size] == Code(item.isList, item.payload)
  {
    var item, first := ReadItem(b).value, b[0];
    if first < 0x80 {
      assert b[..1] == [first];
    } else if 0xb8 <= first < 0xc0 {
      LongReadExact(b, false, first - 0xb7);
    } else if 0xf8 <= first {
      LongReadExact(b, true, first - 0xf7);
    } else {
      assert b[..item.size] == [first] + item.payload;
    }
  }

  /** An item is read exactly when the bytes begin with the code of its payload. */
  lemma ReadItemIff(b: Bytes, item: Item)
    ensures ReadItem(b) == Some(item)
      <==> |item.payload| < LENGTH_LIMIT && item.size == |Code(item.isList, item.payload)|
           && Code(item.isList, item.payload) <= b
  {
    if ReadItem(b) == Some(item) {
      ReadExact(b);
    }
    var code := Code(item.isList, item.payload);
    if |item.payload| < LENGTH_LIMIT && item.size == |code| && code <= b {
      assert b == code + b[|code|..];
      if item.isList {
        ReadList(item.payload, b[|code|..]);
      } else {
        ReadString(item.payload, b[|code|..]);
      }
    }
  }

  /** The bytes are one item and nothing more. */
  predicate OneItem(code: Bytes) {
    ReadItem(code).Some? && ReadItem(code).value.size == |code|
  }

  lemma OneItemIsItem(code: Bytes)
    requires OneItem(code)
    ensures IsItem(code)
  {
    var item := ReadItem(code).value;
    ReadItemIff(code, item);
    forall rest ensures ReadItem(code + rest) == Some(item) {
      ReadItemIff(code + rest, item);
    }
  }

  lemma ReadPrefix(b: Bytes)
    requires ReadItem(b).Some?
    ensures OneItem(b[..ReadItem(b).value.size])
  {
    var item := ReadItem(b).value;
    ReadItemIff(b, item);
    ReadItemIff(b[..item.size], item);
  }

  /** A payload is split into items exactly when it is these items one after the other. */
  lemma {:induction false} SplitIff(payload: Bytes, items: seq<Bytes>)
    ensures Split(payload) == Some(items)
      <==> Concat(items) == payload && forall i :: 0 <= i < |items| ==> OneItem(items[i])
    decreases |payload|
  {
    if Concat(items) == payload && forall i :: 0 <= i < |items| ==> OneItem(items[i]) {
      forall i | 0 <= i < |items| ensures IsItem(items[i]) {
        OneItemIsItem(items[i]);
      }
      SplitConcat(items);
    }
    if Split(payload) == Some(items) && payload != [] {
      var size := ReadItem(payload).value.size;
      ReadPrefix(payload);
      SplitIff(payload[size..], items[1..]);
      assert items == [payload[..size]] + items[1..];
      assert payload == payload[..size] + payload[size..];
    }
  }

  /** The computed length of an encoded string is the number of bytes written. */
  lemma StringLengthExact(s: Bytes)
    ensures |EncodeString(s)| == StringLength(s)
  {}

  lemma ListLength(payload: Bytes)
    ensures |EncodeList(payload)| == |payload| + LengthOfLength(|payload|)
  {}

  /** Two numbers with the same encoding are equal. */
  lemma UintInjective(m: nat, n: nat)
    requires EncodeUint(m) == EncodeUint(n)
    requires |BigEndian(m)| < LENGTH_LIMIT && |BigEndian(n)| < LENGTH_LIMIT
    ensures m == n
  {
    ReadString(BigEndian(m), []);
    ReadString(BigEndian(n), []);
    BigEndianRoundTrip(m);
    BigEndianRoundTrip(n);
  }

  // Longer contents have longer codes.

  lemma LongerStringLongerCode(short: Bytes, long: Bytes)
    requires |short| < |long| || (|short| == |long| && (|short| == 1 ==> short[0] < 0x80 && long[0] < 0x80))
    ensures |EncodeString(short)| <= |EncodeString(long)|
  {
    DigitsMonotone(|short|, |long|);
  }

  lemma LongerListLongerCode(short: Bytes, long: Bytes)
    requires |short| <= |long|
    ensures |EncodeList(short)| <= |EncodeList(long)|
  {
    DigitsMonotone(|short|, |long|);
  }

  lemma {:induction false} DigitsMonotone(m: nat, n: nat)
    requires m <= n
    ensures |BigEndian(m)| <= |BigEndian(n)|
    decreases n
  {
    if m > 0 {
      DigitsMonotone(m / 256, n / 256);
    }
  }

  lemma LongerLength(short: nat, long: nat)
    requires short <= long
    ensures LengthOfLength(short) <= LengthOfLength(long)
  {
    DigitsMonotone(short, long);
  }

  /** Lists with the same code have the same payload. */
  lemma ListInjective(a: Bytes, b: Bytes)
    requires EncodeList(a) == EncodeList(b)
    ensures a == b
  {
    ListLength(a);
    ListLength(b);
    if |a| <= |b| {
      LongerLength(|a|, |b|);
    } else {
      LongerLength(|b|, |a|);
    }
    assert EncodeList(a)[|Header(true, |a|)|..] == a && EncodeList(b)[|Header(true, |b|)|..] == b;
  }

  lemma {:induction false} ConcatMonotone(a: seq<Bytes>, b: seq<Bytes>)
    requires |a| == |b| && forall i :: 0 <= i < |a| ==> |a[i]| <= |b[i]|
    ensures |Concat(a)| <= |Concat(b)|
  {
    if a != [] {
      ConcatMonotone(a[1..], b[1..]);
    }
  }

  /** Lists of parts of which none is longer than its counterpart, and that come to the same, are the same. */
  lemma {:induction false} ConcatAligned(a: seq<Bytes>, b: seq<Bytes>)
    requires |a| == |b| && (forall i :: 0 <= i < |a| ==> |a[i]| <= |b[i]|) && Concat(a) == Concat(b)
    ensures a == b
  {
    if a != [] {
      ConcatMonotone(a[1..], b[1..]);
      assert Concat(a)[..|a[0]|] == a[0] && Concat(b)[..|b[0]|] == b[0];
      assert Concat(a)[|a[0]|..] == Concat(a[1..]) && Concat(b)[|b[0]|..] == Concat(b[1..]);
      ConcatAligned(a[1..], b[1..]);
      assert a == [a[0]] + a[1..] && b == [b[0]] + b[1..];
    }
  }
}
