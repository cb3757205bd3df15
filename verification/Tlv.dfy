/**
 The ASN.1-style type-length-value layer (libs/gatehouse/pghpinternalbase.cpp), after
 ITU-T X.690: section 8.1.3 for length octets, section 8.3.2 for integer contents.

 Buffers are at most 32767 bytes long, so that every position fits the `int16_t` offset.
 */
module Tlv {
  import opened Bytes

  const ASN_INTEGER: Byte := 0x02
  const ASN_STR: Byte := 0x06
  const ASN_LONG_LEN: Byte := 0x80

  const MAX_OFFSET: nat := 0x7FFF

  type Int32 = n: int | -0x8000_0000 <= n < 0x8000_0000

  // ---------------------------------------------------------------- meaning of octets

  function Unsigned(s: ByteString): nat {
    if s == [] then 0 else Unsigned(s[..|s| - 1]) * 256 + s[|s| - 1]
  }

  /** Section 8.3.3 of ITU-T X.690. */
  function TwosComplement(s: ByteString): int
    requires s != []
  {
    if |s| == 1 then if s[0] < 0x80 then s[0] else s[0] - 256
    else TwosComplement(s[..|s| - 1]) * 256 + s[|s| - 1]
  }

  /** Section 8.3.2 of ITU-T X.690: the first nine bits are neither all ones nor all zeros. */
  predicate Minimal(s: ByteString) {
    |s| > 1 ==> !(s[0] == 0 && s[1] < 0x80) && !(s[0] == 0xFF && s[1] >= 0x80)
  }

  // ---------------------------------------------------------------- building

  /** Section 8.1.3 of ITU-T X.690, definite form; only the low sixteen bits are ever sent. */
  function LengthOctets(length: nat): ByteString {
    if length < 0x80 then [length]
    else if length <= 0xFF then [0x01 + ASN_LONG_LEN, length]
    else [0x02 + ASN_LONG_LEN, length / 256 % 256, length % 256]
  }

  function StringElement(ty: Byte, s: ByteString): ByteString {
    [ty] + LengthOctets(|s|) + s
  }

  /** The integer that `BuildInt` really sends: trimming clears the ninth bit of a small negative. */
  function Sent(n: Int32): Int32 {
    if -0x80_0000 <= n < 0 then n + 0x80_0000 else n
  }

  /** The octets a two's complement contents of v needs; a negative v that `Sent` yields needs four. */
  function Size(v: Int32): nat {
    if 0 <= v < 0x80 then 1 else if 0 <= v < 0x8000 then 2 else if 0 <= v < 0x80_0000 then 3 else 4
  }

  /** The octets of `Sent(n)`, most significant first. */
  function IntContents(n: Int32): (r: ByteString)
    ensures |r| == Size(Sent(n))
  {
    var v := Sent(n);
    match Size(v)
    case 1 => [v]
    case 2 => [v / 256, v % 256]
    case 3 => [v / 256 / 256, v / 256 % 256, v % 256]
    case _ => [v / 256 / 256 / 256 % 256, v / 256 / 256 % 256, v / 256 % 256, v % 256]
  }

  function IntElement(ty: Byte, n: Int32): ByteString {
    [ty] + LengthOctets(Size(Sent(n))) + IntContents(n)
  }

  method BuildHeader(data: ByteString, ty: Byte, length: nat) returns (r: ByteString)
    ensures r == data + [ty] + LengthOctets(length)
  {
    r := data + [ty] + LengthOctets(length);
  }

  method BuildString(data: ByteString, ty: Byte, s: ByteString) returns (r: ByteString)
    ensures r == data + StringElement(ty, s)
  {
    r := BuildHeader(data, ty, |s|);
    ghost var header := r;
    for i := 0 to |s|
      invariant r == header + s[..i]
    {
      r := r + [s[i]];
    }
    assert s[..|s|] == s;
  }

  /** `iRes & 0xFF800000`, as a number from 0 to 511. */
  function TopNine(word: nat): nat {
    word / 0x80_0000
  }

  predicate Trimmable(word: nat, size: nat) {
    (TopNine(word) == 0 || TopNine(word) == 0x1FF) && size > 1
  }

  /** The low k octets of m at the top of a 32-bit word. */
  function Aligned(m: int, k: nat): int
    requires 1 <= k <= 4
  {
    if k == 1 then m * 0x100_0000 else if k == 2 then m * 0x1_0000 else if k == 3 then m * 0x100 else m % 0x1_0000_0000
  }

  /** The word while `BuildInt` trims: all of n, or what will be sent of it, shifted to the top. */
  ghost predicate Trimmed(n: Int32, word: nat, size: nat) {
    && 1 <= size <= 4
    && (size < 4 ==> Size(Sent(n)) <= size)
    && word == if size == 4 then n % 0x1_0000_0000 else Aligned(Sent(n), size)
  }

  lemma TrimStep(n: Int32, word: nat, size: nat)
    requires Trimmed(n, word, size) && Trimmable(word, size)
    ensures Trimmed(n, word % 0x80_0000 * 256, size - 1)
  {
  }

  lemma TrimEnd(n: Int32, word: nat, size: nat)
    requires Trimmed(n, word, size) && !Trimmable(word, size)
    ensures size == Size(Sent(n)) && word == Aligned(Sent(n), size)
  {
  }

  /** The first loop of `BuildInt`: shift out leading bytes, clearing the nine bits tested. */
  method Trim(n: Int32) returns (word: nat, size: nat)
    ensures size == Size(Sent(n)) && word == Aligned(Sent(n), size)
  {
    word, size := n % 0x1_0000_0000, 4;
    while Trimmable(word, size)
      invariant Trimmed(n, word, size)
      decreases size
    {
      TrimStep(n, word, size);
      size := size - 1;
      word := word % 0x80_0000 * 256;
    }
    TrimEnd(n, word, size);
  }

  /** Byte i of a 32-bit word, counted from the top. */
  function Digit(word: nat, i: nat): Byte {
    match i
    case 0 => word / 256 / 256 / 256 % 256
    case 1 => word / 256 / 256 % 256
    case 2 => word / 256 % 256
    case _ => word % 256
  }

  function TopBytes(word: nat, k: nat): (r: ByteString)
    ensures |r| == k
  {
    seq(k, i requires 0 <= i => Digit(word, i))
  }

  /** A 32-bit word shifted left by i bytes. */
  function Shifted(word: nat, i: nat): nat {
    match i
    case 0 => word
    case 1 => word % 0x100_0000 * 0x100
    case 2 => word % 0x1_0000 * 0x1_0000
    case 3 => word % 0x100 * 0x100_0000
    case _ => 0
  }

  lemma WordDigits(word: nat)
    requires word < 0x1_0000_0000
    ensures word == Digit(word, 0) * 0x100_0000 + Digit(word, 1) * 0x1_0000 + Digit(word, 2) * 0x100 + Digit(word, 3)
  {
  }

  lemma ShiftOut(word: nat, i: nat)
    requires word < 0x1_0000_0000 && i < 4
    ensures Shifted(word, i) / 0x100_0000 == Digit(word, i)
    ensures Shifted(word, i) % 0x100_0000 * 0x100 == Shifted(word, i + 1)
  {
    WordDigits(word);
    ShiftDigits(Digit(word, 0), Digit(word, 1), Digit(word, 2), Digit(word, 3), i);
  }

  lemma ShiftDigits(a: Byte, b: Byte, c: Byte, d: Byte, i: nat)
    requires i < 4
    ensures var word := a * 0x100_0000 + b * 0x1_0000 + c * 0x100 + d;
            && Shifted(word, i) / 0x100_0000 == [a, b, c, d][i]
            && Shifted(word, i) % 0x100_0000 * 0x100 == Shifted(word, i + 1)
  {
    var word := a * 0x100_0000 + b * 0x1_0000 + c * 0x100 + d;
    LowPart(a, b * 0x1_0000 + c * 0x100 + d);
    LowPart(b, c * 0x1_0000 + d * 0x100);
    LowPart(c, d * 0x1_0000);
    LowPart(d, 0);
    LowHalf(a * 0x100 + b, c * 0x100 + d);
    LowByte(a * 0x1_0000 + b * 0x100 + c, d);
    assert Shifted(word, 1) == b * 0x100_0000 + (c * 0x1_0000 + d * 0x100);
    assert Shifted(word, 2) == c * 0x100_0000 + d * 0x1_0000;
    assert Shifted(word, 3) == d * 0x100_0000;
  }

  lemma LowPart(high: nat, low: nat)
    requires low < 0x100_0000
    ensures (high * 0x100_0000 + low) / 0x100_0000 == high && (high * 0x100_0000 + low) % 0x100_0000 == low
  {
  }

  lemma LowHalf(high: nat, low: nat)
    requires low < 0x1_0000
    ensures (high * 0x1_0000 + low) % 0x1_0000 == low
  {
  }

  lemma LowByte(high: nat, low: nat)
    requires low < 0x100
    ensures (high * 0x100 + low) % 0x100 == low
  {
  }

  /** The second loop of `BuildInt`: shift out the top bytes. */
  method PushBytes(data: ByteString, word: nat, size: nat) returns (r: ByteString)
    requires word < 0x1_0000_0000 && size <= 4
    ensures r == data + TopBytes(word, size)
  {
    var w, i := word, 0;
    r := data;
    while i < size
      invariant i <= size && w == Shifted(word, i)
      invariant r == data + TopBytes(word, i)
    {
      ShiftOut(word, i);
      r := r + [w / 0x100_0000];
      w := w % 0x100_0000 * 0x100;
      i := i + 1;
    }
  }

  method BuildInt(data: ByteString, ty: Byte, n: Int32) returns (r: ByteString)
    ensures r == data + IntElement(ty, n)
  {
    var word, size := Trim(n);
    AlignedBytes(n);
    r := BuildHeader(data, ty, size);
    r := PushBytes(r, word, size);
  }

  lemma AlignedBytes(n: Int32)
    ensures var k := Size(Sent(n));
            0 <= Aligned(Sent(n), k) < 0x1_0000_0000 && TopBytes(Aligned(Sent(n), k), k) == IntContents(n)
  {
    hide Digit, TopBytes;
    var v := Sent(n);
    match Size(v)
    case 1 => OneByte(v);
    case 2 => TwoBytes(v);
    case 3 => ThreeBytes(v);
    case 4 => FourBytes(v);
  }

  lemma OneByte(v: nat)
    requires v < 0x100
    ensures TopBytes(v * 0x100_0000, 1) == [v]
  {
    Peel(v * 0x100_0000, v * 0x1_0000, 0); Peel(v * 0x1_0000, v * 0x100, 0); Peel(v * 0x100, v, 0);
  }

  lemma TwoBytes(v: nat)
    requires v < 0x1_0000
    ensures TopBytes(v * 0x1_0000, 2) == [v / 256, v % 256]
  {
    Peel(v * 0x1_0000, v * 0x100, 0); Peel(v * 0x100, v, 0);
  }

  lemma ThreeBytes(v: nat)
    requires v < 0x100_0000
    ensures TopBytes(v * 0x100, 3) == [v / 256 / 256, v / 256 % 256, v % 256]
  {
    Peel(v * 0x100, v, 0);
  }

  lemma FourBytes(v: int)
    ensures TopBytes(v % 0x1_0000_0000, 4) == [v / 256 / 256 / 256 % 256, v / 256 / 256 % 256, v / 256 % 256, v % 256]
  {
    FourDigits(v);
  }

  lemma Peel(x: int, c: int, y: nat)
    requires x == c * 256 + y
    ensures x % 256 == y % 256 && x / 256 == c + y / 256
  {
  }

  lemma FourDigits(v: int)
    ensures var w := v % 0x1_0000_0000;
            && w % 256 == v % 256 && w / 256 % 256 == v / 256 % 256
            && w / 256 / 256 % 256 == v / 256 / 256 % 256 && w / 256 / 256 / 256 % 256 == v / 256 / 256 / 256 % 256
  {
    var q, w := v / 0x1_0000_0000, v % 0x1_0000_0000;
    Peel(v, q * 0x100_0000, w);
    Peel(v / 256, q * 0x1_0000, w / 256);
    Peel(v / 256 / 256, q * 0x100, w / 256 / 256);
    Peel(v / 256 / 256 / 256, q, w / 256 / 256 / 256);
  }

  /** Every emitted contents obeys section 8.3.2, although not every one means its integer. */
  lemma IntContentsMinimal(n: Int32)
    ensures Minimal(IntContents(n)) && 1 <= |IntContents(n)| <= 4
  {
  }

  function SignedByte(b: Byte): int {
    if b < 0x80 then b else b - 256
  }

  lemma ValueOfTwo(a: Byte, b: Byte)
    ensures TwosComplement([a, b]) == SignedByte(a) * 256 + b
  {
  }

  lemma ValueOfThree(a: Byte, b: Byte, c: Byte)
    ensures TwosComplement([a, b, c]) == (SignedByte(a) * 256 + b) * 256 + c
  {
    ValueOfTwo(a, b);
    assert [a, b, c][..2] == [a, b];
  }

  lemma ValueOfFour(a: Byte, b: Byte, c: Byte, d: Byte)
    ensures TwosComplement([a, b, c, d]) == ((SignedByte(a) * 256 + b) * 256 + c) * 256 + d
  {
    ValueOfThree(a, b, c);
    assert [a, b, c, d][..3] == [a, b, c];
  }

  lemma IntContentsValue(n: Int32)
    ensures TwosComplement(IntContents(n)) == Sent(n)
  {
    var v := Sent(n);
    var q1 := v / 256;
    var q2 := q1 / 256;
    match Size(v)
    case 1 =>
    case 2 => ValueOfTwo(q1, v % 256);
    case 3 => ValueOfThree(q2, q1 % 256, v % 256);
    case 4 => ValueOfFour(q2 / 256 % 256, q2 % 256, q1 % 256, v % 256); TopByteSigned(v);
  }

  lemma TopByteSigned(v: Int32)
    ensures SignedByte(v / 256 / 256 / 256 % 256) == v / 256 / 256 / 256
  {
  }

  // ---------------------------------------------------------------- parsing

  type Data = s: ByteString | |s| <= MAX_OFFSET

  /** `uint32_t` arithmetic. */
  const WORD32: nat := 0x1_0000_0000

  /** What a parser leaves behind: a value, or nothing, and the offset reached.  A long form of five or
      more octets shifts by 32 bits or more, which C++ leaves undefined: Undefined.  Overrun is a string
      whose length passes the size check and whose octets are then read past the end of the buffer. */
  datatype Parsed<+T> = Parsed(value: T, offset: nat) | Failed(offset: nat) | Undefined | Overrun

  function ParsedLength(data: Data, offset: nat): (p: Parsed<nat>)
    ensures p.Parsed? ==> offset < p.offset <= |data| && p.value < WORD32
    ensures p.Failed? ==> p.offset == offset
    ensures !p.Overrun?
  {
    if offset >= |data| then Failed(offset)
    else if data[offset] < ASN_LONG_LEN then Parsed(data[offset], offset + 1)
    else
      var octets := data[offset] - ASN_LONG_LEN;
      if octets == 0 || octets > 8 || offset + octets >= |data| then Failed(offset)
      else if octets > 4 then Undefined
      else
        UnsignedBound(data[offset + 1..offset + 1 + octets]);
        Parsed(Unsigned(data[offset + 1..offset + 1 + octets]), offset + 1 + octets)
  }

  /** The contents octets of the element at `offset`: from where, and how many. */
  function ParsedHeader(data: Data, offset: nat): (p: Parsed<nat>)
    ensures p.Parsed? ==> offset < p.offset <= |data| && p.value < WORD32
    ensures p.Failed? ==> p.offset <= Max(offset, |data|)
    ensures !p.Overrun?
  {
    if offset >= |data| then Failed(offset) else ParsedLength(data, offset + 1)
  }

  /** `ParseString` appends to its target; its size check adds offset and length in 32 bits. */
  function ParsedString(data: Data, offset: nat, target: ByteString): (p: Parsed<ByteString>)
    ensures p.Parsed? ==> offset < p.offset <= |data|
    ensures p.Failed? ==> p.offset <= Max(offset, |data|)
  {
    match ParsedHeader(data, offset)
    case Undefined => Undefined
    case Failed(o) => Failed(o)
    case Parsed(length, o) =>
      if (o + length) % WORD32 > |data| then Failed(o)
      else if o + length > |data| then Overrun
      else Parsed(target + data[o..o + length], o + length)
  }

  function ParsedInt(data: Data, offset: nat): (p: Parsed<Int32>)
    ensures p.Parsed? ==> offset < p.offset <= |data|
    ensures p.Failed? ==> p.offset <= Max(offset, |data|)
    ensures !p.Overrun?
  {
    match ParsedHeader(data, offset)
    case Undefined => Undefined
    case Failed(o) => Failed(o)
    case Parsed(length, o) =>
      if length == 0 || length > 4 || o + length > |data| then Failed(o)
      else
        TwosComplementBound(data[o..o + length]);
        Parsed(TwosComplement(data[o..o + length]), o + length)
  }

  /** `byte << (8 * count)`. */
  function Weighted(byte: Byte, count: nat): nat
    requires count <= 3
  {
    if count == 0 then byte else if count == 1 then byte * 0x100 else if count == 2 then byte * 0x1_0000 else byte * 0x100_0000
  }

  lemma UnsignedBound(s: ByteString)
    requires |s| <= 4
    ensures Unsigned(s) < match |s| case 0 => 1 case 1 => 0x100 case 2 => 0x1_0000 case 3 => 0x100_0000 case _ => WORD32
  {
  }

  lemma TwosComplementBound(s: ByteString)
    requires 1 <= |s| <= 4
    ensures var m := match |s| case 1 => 0x80 case 2 => 0x8000 case 3 => 0x80_0000 case _ => 0x8000_0000;
            -m <= TwosComplement(s) < m
  {
  }

  lemma {:induction false} UnsignedFront(s: ByteString)
    requires 0 < |s| <= 4
    ensures Unsigned(s) == Weighted(s[0], |s| - 1) + Unsigned(s[1..])
  {
    var n := |s| - 1;
    if n > 0 {
      UnsignedFront(s[..n]);
      assert s[..n][1..] == s[1..][..n - 1];
    } else {
      assert s[..0] == [] && s[1..] == [];
    }
  }

  lemma UnsignedSuffix(s: ByteString, i: nat)
    requires i < |s| <= 4
    ensures Unsigned(s[i..]) == Weighted(s[i], |s| - 1 - i) + Unsigned(s[i + 1..])
  {
    UnsignedFront(s[i..]);
    assert s[i..][1..] == s[i + 1..];
  }

  /** The loop of `ParseLength`: the octets of a long form, least significant first. */
  method LongLength(field: ByteString) returns (length: nat)
    requires 1 <= |field| <= 4
    ensures length == Unsigned(field)
  {
    length := 0;
    var count, i := 0, |field| - 1;
    while i >= 0
      invariant -1 <= i < |field| && count == |field| - 1 - i
      invariant length == Unsigned(field[i + 1..])
    {
      UnsignedSuffix(field, i);
      length := length + Weighted(field[i], count);
      count, i := count + 1, i - 1;
    }
    assert field[0..] == field;
  }

  method ParseLength(data: Data, offset: nat) returns (p: Parsed<nat>)
    ensures p == ParsedLength(data, offset)
  {
    if offset >= |data| {
      return Failed(offset);
    }
    var octets := data[offset];
    if octets >= ASN_LONG_LEN {
      octets := octets - ASN_LONG_LEN;
      if octets == 0 || octets > 8 {
        return Failed(offset);
      }
      if offset + octets >= |data| {
        return Failed(offset);
      }
      if octets > 4 {
        return Undefined;
      }
      var length := LongLength(data[offset + 1..offset + 1 + octets]);
      return Parsed(length, offset + octets + 1);
    }
    return Parsed(octets, offset + 1);
  }

  method ParseString(data: Data, offset: nat, target: ByteString) returns (p: Parsed<ByteString>)
    ensures p == ParsedString(data, offset, target)
  {
    hide Unsigned, ParsedLength;
    if offset >= |data| {
      return Failed(offset);
    }
    var header := ParseLength(data, offset + 1);
    match header
    case Undefined => return Undefined;
    case Failed(o) => return Failed(o);
    case Parsed(length, start) =>
      if (start + length) % WORD32 > |data| {
        return Failed(start);
      }
      if start + length > |data| {
        return Overrun;
      }
      var o, left, s := start, length, target;
      while left > 0
        invariant o + left == start + length
        invariant s == target + data[start..o]
      {
        s := s + [data[o]];
        o, left := o + 1, left - 1;
      }
      return Parsed(s, o);
  }

  /** The sign, and then the value of the octets read so far. */
  function SoFar(data: Data, start: nat, o: nat): int
    requires start <= o <= |data| && start < |data|
  {
    if o == start then if data[start] >= 0x80 then -1 else 0 else TwosComplement(data[start..o])
  }

  lemma SoFarNext(data: Data, start: nat, o: nat)
    requires start <= o < |data|
    ensures SoFar(data, start, o + 1) == SoFar(data, start, o) * 256 + data[o]
  {
    assert data[start..o + 1][..o - start] == data[start..o];
  }

  method ParseInt(data: Data, offset: nat) returns (p: Parsed<Int32>)
    ensures p == ParsedInt(data, offset)
  {
    hide TwosComplement, Unsigned, ParsedLength;
    if offset >= |data| {
      return Failed(offset);
    }
    var header := ParseLength(data, offset + 1);
    match header
    case Undefined => return Undefined;
    case Failed(o) => return Failed(o);
    case Parsed(length, start) =>
      if length == 0 || length > 4 || start + length > |data| {
        return Failed(start);
      }
      var o, left := start, length;
      var n: int := if data[start] >= 0x80 then -1 else 0;
      while left > 0
        invariant start <= o && o + left == start + length
        invariant n == SoFar(data, start, o)
      {
        SoFarNext(data, start, o);
        n := n * 256 + data[o];
        o, left := o + 1, left - 1;
      }
      TwosComplementBound(data[start..o]);
      return Parsed(n, o);
  }

  // ---------------------------------------------------------------- reads in range

  /** `ParseString` reads past the end exactly when position and announced length reach 2^32 together:
      then, and only then, the check of their 32-bit sum lets a length through that does not fit. */
  lemma StringOverrunIff(data: Data, offset: nat, target: ByteString)
    ensures var header := ParsedHeader(data, offset);
            ParsedString(data, offset, target) == Overrun <==> header.Parsed? && header.offset + header.value >= WORD32
  {
  }

  /** The shortest such input announces 2^32 - 1 octets. */
  lemma StringOverruns(target: ByteString)
    ensures ParsedString([ASN_STR, 0x84, 0xFF, 0xFF, 0xFF, 0xFF], 0, target) == Overrun
  {
    hide Unsigned;
    var field: ByteString := [0xFF, 0xFF, 0xFF, 0xFF];
    var data: Data := [ASN_STR, 0x84, 0xFF, 0xFF, 0xFF, 0xFF];
    assert data == [ASN_STR] + [ASN_LONG_LEN + 4] + field + [];
    LongFormReadBack([ASN_STR], field, []);
    FullField(field);
    StringOverrunIff(data, 0, target);
  }

  lemma FullField(field: ByteString)
    requires field == [0xFF, 0xFF, 0xFF, 0xFF]
    ensures Unsigned(field) == WORD32 - 1
  {
    UnsignedFront(field);
    UnsignedFront(field[1..]);
    UnsignedFront(field[1..][1..]);
    UnsignedFront(field[1..][1..][1..]);
  }

  /** A long form of one to four octets gives the number they spell, minimal or not. */
  lemma LongFormReadBack(pre: ByteString, field: ByteString, suf: ByteString)
    requires 1 <= |field| <= 4 && |pre| + 1 + |field| + |suf| <= MAX_OFFSET
    ensures ParsedLength(pre + [ASN_LONG_LEN + |field|] + field + suf, |pre|) == Parsed(Unsigned(field), |pre| + 1 + |field|)
  {
    hide Unsigned;
    var head := pre + [ASN_LONG_LEN + |field|];
    SliceOut(head, field, suf);
    assert (head + field + suf)[|pre|] == head[|pre|];
  }

  lemma SliceOut(head: ByteString, field: ByteString, suf: ByteString)
    ensures (head + field + suf)[|head|..|head| + |field|] == field
  {
  }

  // ---------------------------------------------------------------- elements are self-delimiting

  /** A built length, wherever it stands in a buffer, is read back and the parser stops right after it. */
  lemma LengthReadBack(pre: ByteString, length: nat, suf: ByteString)
    requires |pre| + |LengthOctets(length)| + |suf| <= MAX_OFFSET && length <= 0xFFFF
    ensures ParsedLength(pre + LengthOctets(length) + suf, |pre|) == Parsed(length, |pre| + |LengthOctets(length)|)
  {
    var data, o := pre + LengthOctets(length) + suf, |pre|;
    assert data[o] == LengthOctets(length)[0];
    if length >= 0x80 {
      var field := LengthField(length);
      assert LengthOctets(length) == [ASN_LONG_LEN + |field|] + field;
      assert data == pre + [ASN_LONG_LEN + |field|] + field + suf;
      LongFormReadBack(pre, field, suf);
    }
  }

  /** No other octets spell the length more shortly. */
  lemma LengthShortest(length: nat, data: Data)
    requires length <= 0xFFFF && ParsedLength(data, 0).Parsed? && ParsedLength(data, 0).value == length
    ensures |LengthOctets(length)| <= ParsedLength(data, 0).offset
  {
    hide Unsigned;
    if data[0] >= ASN_LONG_LEN {
      var field := data[1..1 + (data[0] - ASN_LONG_LEN)];
      UnsignedBound(field);
    }
  }

  lemma LengthField(length: nat) returns (field: ByteString)
    requires 0x80 <= length <= 0xFFFF
    ensures field == if length <= 0xFF then [length] else [length / 256 % 256, length % 256]
    ensures Unsigned(field) == length
  {
    field := if length <= 0xFF then [length] else [length / 256 % 256, length % 256];
    UnsignedFront(field);
    UnsignedFront([length % 256]);
  }

  lemma HeaderReadBack(pre: ByteString, ty: Byte, length: nat, suf: ByteString)
    requires |pre| + 1 + |LengthOctets(length)| + |suf| <= MAX_OFFSET && length <= 0xFFFF
    ensures ParsedHeader(pre + ([ty] + LengthOctets(length)) + suf, |pre|) == Parsed(length, |pre| + 1 + |LengthOctets(length)|)
  {
    assert pre + ([ty] + LengthOctets(length)) + suf == (pre + [ty]) + LengthOctets(length) + suf;
    LengthReadBack(pre + [ty], length, suf);
  }

  lemma StringReadBack(pre: ByteString, ty: Byte, s: ByteString, suf: ByteString, target: ByteString)
    requires |pre| + |StringElement(ty, s)| + |suf| <= MAX_OFFSET
    ensures ParsedString(pre + StringElement(ty, s) + suf, |pre|, target)
         == Parsed(target + s, |pre| + |StringElement(ty, s)|)
    ensures StringElement(ty, s)[0] == ty
  {
    hide LengthOctets, ParsedHeader;
    var data := pre + StringElement(ty, s) + suf;
    assert data == pre + ([ty] + LengthOctets(|s|)) + (s + suf);
    HeaderReadBack(pre, ty, |s|, s + suf);
    var o := |pre| + 1 + |LengthOctets(|s|)|;
    assert data[o..o + |s|] == s;
  }

  /** The exact law of integers: small negatives come back 2^23 higher, all others unchanged. */
  lemma IntReadBack(pre: ByteString, ty: Byte, n: Int32, suf: ByteString)
    requires |pre| + |IntElement(ty, n)| + |suf| <= MAX_OFFSET
    ensures ParsedInt(pre + IntElement(ty, n) + suf, |pre|) == Parsed(Sent(n), |pre| + |IntElement(ty, n)|)
    ensures Sent(n) == (if -0x80_0000 <= n < 0 then n + 0x80_0000 else n) && IntElement(ty, n)[0] == ty
  {
    var data, k := pre + IntElement(ty, n) + suf, Size(Sent(n));
    assert data == pre + ([ty] + LengthOctets(k)) + (IntContents(n) + suf);
    HeaderReadBack(pre, ty, k, IntContents(n) + suf);
    var o := |pre| + 1 + |LengthOctets(k)|;
    assert data[o..o + k] == IntContents(n);
    IntContentsValue(n);
  }
}
