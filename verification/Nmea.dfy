/**
 Hexadecimal text and the NMEA-like `$PGHP,2` sentences that carry it
 (libs/gatehouse/pghpinternalbase.cpp, pghputils.cpp, pghpnmeamsg.cpp, pghpnmeamsg.h, pghp2.cpp).
 */
module Nmea {
  import opened Bytes

  const LF: Byte := 10
  const CR: Byte := 13
  const BANG: Byte := 33
  const DOLLAR: Byte := 36
  const STAR: Byte := 42
  const COMMA: Byte := 44
  const ZERO: Byte := 48

  // ---------------------------------------------------------------- hexadecimal

  function HexDigit(d: nat): Byte
    requires d < 16
  {
    if d < 10 then ZERO + d else 65 + (d - 10)
  }

  function HexValue(c: Byte): Option<nat> {
    if 48 <= c <= 57 then Some(c - 48)
    else if 65 <= c <= 70 then Some(c - 55)
    else if 97 <= c <= 102 then Some(c - 87)
    else None
  }

  /** Digits are written in upper case. */
  lemma HexDigits(d: nat)
    requires d < 16
    ensures HexDigit(d) == Ascii("0123456789ABCDEF")[d]
  {
    DigitCodes(d);
  }

  /** And read in either case. */
  lemma HexValues(c: Byte, d: nat)
    requires d < 16
    ensures HexValue(c) == Some(d) <==> c == Ascii("0123456789ABCDEF")[d] || c == Ascii("0123456789abcdef")[d]
  {
    hide Ascii;
    DigitCodes(d);
  }

  lemma DigitCodes(d: nat)
    requires d < 16
    ensures Ascii("0123456789ABCDEF")[d] == if d < 10 then 48 + d else 55 + d
    ensures Ascii("0123456789abcdef")[d] == if d < 10 then 48 + d else 87 + d
  {
  }

  /** `%02X` of one byte. */
  function HexByte(b: Byte): ByteString {
    [HexDigit(b / 16), HexDigit(b % 16)]
  }

  function Hex(data: ByteString): ByteString {
    if data == [] then [] else HexByte(data[0]) + Hex(data[1..])
  }

  /** `sscanf("%02X")` of two characters, which skips white space and takes a sign; 0 if nothing matches. */
  function HexPair(a: Byte, b: Byte): Byte {
    match (HexValue(a), HexValue(b))
    case (Some(x), Some(y)) => 16 * x + y
    case (Some(x), None) => x
    case (None, Some(y)) =>
      if a == 32 || 9 <= a <= 13 || a == 43 then y else if a == 45 then (256 - y) % 256 else 0
    case (None, None) => 0
  }

  /** An odd last character is read together with the terminating NUL. */
  function Unhex(text: ByteString): ByteString {
    if text == [] then []
    else if |text| == 1 then [HexPair(text[0], 0)]
    else [HexPair(text[0], text[1])] + Unhex(text[2..])
  }

  method Byte2Ascii(data: ByteString, text: ByteString) returns (r: ByteString)
    ensures r == text + Hex(data)
  {
    hide Hex, HexByte;
    r := text;
    HexNone();
    for i := 0 to |data|
      invariant r == text + Hex(data[..i])
    {
      HexNext(data, i);
      r := r + HexByte(data[i]);
    }
    assert data[..|data|] == data;
  }

  lemma HexNone()
    ensures Hex([]) == []
  {
  }

  lemma HexNext(data: ByteString, i: nat)
    requires i < |data|
    ensures Hex(data[..i + 1]) == Hex(data[..i]) + HexByte(data[i])
  {
    assert data[..i + 1] == data[..i] + [data[i]];
    HexAppend(data[..i], data[i]);
  }

  lemma {:induction false} HexAppend(data: ByteString, b: Byte)
    ensures Hex(data + [b]) == Hex(data) + HexByte(b)
  {
    hide HexByte;
    if data == [] {
      assert data + [b] == [b] && [b][1..] == [];
    } else {
      assert (data + [b])[1..] == data[1..] + [b];
      HexAppend(data[1..], b);
    }
  }

  method Ascii2Byte(data: ByteString, text: ByteString) returns (r: ByteString)
    ensures r == data + Unhex(text)
  {
    hide Unhex, HexPair;
    r := data;
    var i := 0;
    while i < |text|
      invariant i <= |text| + 1
      invariant r + Unhex(Unread(text, i)) == data + Unhex(text)
    {
      UnhexNext(text, i);
      r := r + [HexPair(text[i], if i + 1 < |text| then text[i + 1] else 0)];
      i := i + 2;
    }
    UnhexNone();
    assert Unread(text, i) == [] && r + [] == r;
  }

  /** What is left of a text from position i. */
  function Unread(text: ByteString, i: nat): ByteString {
    if i <= |text| then text[i..] else []
  }

  lemma UnhexNone()
    ensures Unhex([]) == []
  {
  }

  lemma UnhexNext(text: ByteString, i: nat)
    requires i < |text|
    ensures Unhex(Unread(text, i)) == [HexPair(text[i], if i + 1 < |text| then text[i + 1] else 0)] + Unhex(Unread(text, i + 2))
  {
    hide HexPair;
    if i + 1 < |text| {
      assert text[i..][2..] == text[i + 2..];
    }
  }

  lemma {:induction false} UnhexHex(data: ByteString)
    ensures Unhex(Hex(data)) == data && |Hex(data)| == 2 * |data|
  {
    if data != [] {
      UnhexHex(data[1..]);
      assert Hex(data)[2..] == Hex(data[1..]);
    }
  }

  /** No comma, star, CR or LF: what a payload must be free of to survive the sentence syntax. */
  predicate Clean(s: ByteString) {
    forall i :: 0 <= i < |s| ==> s[i] != COMMA && s[i] != STAR && s[i] != CR && s[i] != LF
  }

  lemma {:induction false} HexClean(data: ByteString)
    ensures Clean(Hex(data))
  {
    if data != [] {
      HexClean(data[1..]);
    }
  }

  // ---------------------------------------------------------------- searching

  /** `find`: the first position of c at or after `from`, or the length. */
  function IndexFrom(s: ByteString, c: Byte, from: nat): (r: nat)
    requires from <= |s|
    ensures from <= r <= |s| && (r < |s| ==> s[r] == c)
    ensures forall k :: from <= k < r ==> s[k] != c
    decreases |s| - from
  {
    if from == |s| || s[from] == c then from else IndexFrom(s, c, from + 1)
  }

  function Sub(s: ByteString, from: nat, count: nat): ByteString
    requires from <= |s|
  {
    if from + count <= |s| then s[from..from + count] else s[from..]
  }

  // ---------------------------------------------------------------- checksum

  function Power2(n: nat): nat {
    if n == 0 then 1 else 2 * Power2(n - 1)
  }

  /** Bitwise exclusive or of the low n bits. */
  function XorBits(a: nat, b: nat, n: nat): (r: nat)
    ensures r < Power2(n)
    decreases n, a, b
  {
    if n == 0 then 0 else (a % 2 + b % 2) % 2 + 2 * XorBits(a / 2, b / 2, n - 1)
  }

  function Xor(a: Byte, b: Byte): Byte {
    assert Power2(8) == 256;
    XorBits(a, b, 8)
  }

  lemma {:induction false} XorBitsCancel(a: nat, b: nat, c: nat, n: nat)
    requires a < Power2(n) && b < Power2(n) && XorBits(a, c, n) == XorBits(b, c, n)
    ensures a == b
    decreases n
  {
    if n > 0 {
      BitsCancel(a, b, c, XorBits(a / 2, c / 2, n - 1), XorBits(b / 2, c / 2, n - 1));
      XorBitsCancel(a / 2, b / 2, c / 2, n - 1);
    }
  }

  /** The lowest bit on its own. */
  lemma BitsCancel(a: nat, b: nat, c: nat, x: nat, y: nat)
    requires (a % 2 + c % 2) % 2 + 2 * x == (b % 2 + c % 2) % 2 + 2 * y
    ensures x == y && a % 2 == b % 2
  {
  }

  /** Bit k of a number, counted from the lowest. */
  predicate Bit(x: nat, k: nat) {
    if k == 0 then x % 2 == 1 else Bit(x / 2, k - 1)
  }

  lemma {:induction false} XorBitsBit(a: nat, b: nat, n: nat, k: nat)
    requires k < n
    ensures Bit(XorBits(a, b, n), k) <==> Bit(a, k) != Bit(b, k)
    decreases n
  {
    var rest := XorBits(a / 2, b / 2, n - 1);
    if k > 0 {
      XorBitsBit(a / 2, b / 2, n - 1, k - 1);
    }
  }

  /** Exclusive or: a bit is set exactly if it is set in one of the two. */
  lemma XorExact(a: Byte, b: Byte, k: nat)
    requires k < 8
    ensures Bit(Xor(a, b), k) <==> Bit(a, k) != Bit(b, k)
  {
    XorBitsBit(a, b, 8, k);
  }

  lemma {:induction false} XorBitsCommute(a: nat, b: nat, n: nat)
    ensures XorBits(a, b, n) == XorBits(b, a, n)
    decreases n
  {
    if n > 0 {
      XorBitsCommute(a / 2, b / 2, n - 1);
    }
  }

  /** Exclusive or tells different bytes apart, on either side. */
  lemma XorDiffers(a: Byte, b: Byte, c: Byte)
    requires a != b
    ensures Xor(a, c) != Xor(b, c) && Xor(c, a) != Xor(c, b)
  {
    assert Power2(8) == 256;
    XorBitsCommute(a, c, 8);
    XorBitsCommute(b, c, 8);
    if XorBits(a, c, 8) == XorBits(b, c, 8) {
      XorBitsCancel(a, b, c, 8);
    }
  }

  function Fold(s: ByteString): Byte {
    if s == [] then 0 else Xor(Fold(s[..|s| - 1]), s[|s| - 1])
  }

  /** How many bytes have bit k set. */
  function WithBit(s: ByteString, k: nat): nat {
    if s == [] then 0 else WithBit(s[..|s| - 1], k) + if Bit(s[|s| - 1], k) then 1 else 0
  }

  /** Each bit of the checksum is the parity of that bit over all bytes. */
  lemma {:induction false} FoldParity(s: ByteString, k: nat)
    requires k < 8
    ensures Bit(Fold(s), k) <==> WithBit(s, k) % 2 == 1
  {
    hide Xor, Bit;
    if s == [] {
      ZeroBit(k);
    } else {
      var n := |s| - 1;
      FoldParity(s[..n], k);
      XorExact(Fold(s[..n]), s[n], k);
    }
  }

  lemma {:induction false} ZeroBit(k: nat)
    ensures !Bit(0, k)
  {
    if k > 0 {
      ZeroBit(k - 1);
    }
  }

  function Skip(msg: ByteString): nat {
    if msg != [] && (msg[0] == BANG || msg[0] == DOLLAR) then 1 else 0
  }

  /** `CalcNmeaCheckSum` of the first `size` characters, up to a star. */
  function CheckSum(msg: ByteString, size: nat): Byte
    requires size <= |msg|
  {
    if size <= Skip(msg) then 0 else Fold(msg[Skip(msg)..IndexFrom(msg[..size], STAR, Skip(msg))])
  }

  lemma FoldNext(msg: ByteString, from: nat, i: nat)
    requires from <= i < |msg|
    ensures Fold(msg[from..i + 1]) == Xor(Fold(msg[from..i]), msg[i])
  {
    hide Xor;
    assert msg[from..i + 1][..i - from] == msg[from..i];
  }

  /** A scan from the start of the sum to the first star, or to `size`. */
  lemma CheckSumAt(msg: ByteString, size: nat, i: nat)
    requires size <= |msg| && Skip(msg) <= i <= |msg| && (i <= size || i == Skip(msg))
    requires forall k :: Skip(msg) <= k < i ==> msg[k] != STAR
    requires i >= size || msg[i] == STAR
    ensures CheckSum(msg, size) == Fold(msg[Skip(msg)..i])
  {
    if Skip(msg) < size {
      IndexUnique(msg[..size], STAR, Skip(msg), i);
    }
  }

  method CalcNmeaCheckSum(msg: ByteString, size: nat) returns (sum: Byte)
    requires size <= |msg|
    ensures sum == CheckSum(msg, size)
  {
    hide Fold, Xor, CheckSum;
    var offset := 0;
    if |msg| > 0 && (msg[0] == BANG || msg[0] == DOLLAR) {
      offset := 1;
    }
    sum := 0;
    FoldNone(msg, offset);
    var i := offset;
    while i < size && msg[i] != STAR
      invariant offset <= i <= |msg| && (i <= size || i == offset)
      invariant sum == Fold(msg[offset..i])
      invariant forall k :: offset <= k < i ==> msg[k] != STAR
    {
      FoldNext(msg, offset, i);
      sum := Xor(sum, msg[i]);
      i := i + 1;
    }
    CheckSumAt(msg, size, i);
  }

  /** The sum is taken up to the first star, without a leading mark; any other first character counts. */
  lemma CheckSumExact(mark: Byte, covered: ByteString, rest: ByteString)
    requires mark != STAR && forall i :: 0 <= i < |covered| ==> covered[i] != STAR
    ensures var msg := [mark] + covered + [STAR] + rest;
            CheckSum(msg, |msg|) == Fold(if mark == Ascii("$")[0] || mark == Ascii("!")[0] then covered else [mark] + covered)
  {
    hide Fold;
    var msg := [mark] + covered + [STAR] + rest;
    assert forall k :: 1 <= k <= |covered| ==> msg[k] == covered[k - 1];
    CheckSumAt(msg, |msg|, 1 + |covered|);
    assert msg[1..1 + |covered|] == covered && msg[0..1 + |covered|] == [mark] + covered;
  }

  lemma FoldNone(msg: ByteString, i: nat)
    requires i <= |msg|
    ensures Fold(msg[i..i]) == 0
  {
  }

  /** Changing one byte changes the checksum. */
  lemma {:induction false} FoldDetects(s: ByteString, k: nat, b: Byte)
    requires k < |s| && b != s[k]
    ensures Fold(s[k := b]) != Fold(s)
    decreases |s|
  {
    var n, t := |s| - 1, s[k := b];
    if k == n {
      assert t[..n] == s[..n];
      XorDiffers(b, s[n], Fold(s[..n]));
    } else {
      FoldDetects(s[..n], k, b);
      assert t[..n] == s[..n][k := b];
      XorDiffers(Fold(t[..n]), Fold(s[..n]), s[n]);
    }
  }

  lemma HexByteInjective(a: Byte, b: Byte)
    requires HexByte(a) == HexByte(b)
    ensures a == b
  {
  }

  /** `VerifyCheckSum`. */
  predicate Verified(msg: ByteString) {
    var star := IndexFrom(msg, STAR, 0);
    0 < star < |msg| && HexByte(CheckSum(msg, star)) == Sub(msg, star + 1, 2)
  }

  // ---------------------------------------------------------------- one sentence

  const HEADER: ByteString := [36, 80, 71, 72, 80, 44, 50]   // "$PGHP,2"
  const MAX_CONTENT: nat := 512

  /** `(char) n + '0'`, stored in a char. */
  function CounterChar(n: int): Byte {
    (n + ZERO) % 256
  }

  /** Everything before the checksum, the star included. */
  function Body(total: int, number: int, seqId: int, chunk: ByteString): ByteString {
    HEADER + [COMMA, CounterChar(total), COMMA, CounterChar(number), COMMA]
    + (if seqId >= 0 then [CounterChar(seqId)] else []) + [COMMA] + chunk + [STAR]
  }

  /** `EncodePart`. */
  function Sentence(total: int, number: int, seqId: int, chunk: ByteString): ByteString {
    var body := Body(total, number, seqId, chunk);
    body + HexByte(CheckSum(body, |body|)) + [CR, LF]
  }

  /** A received `char` is signed. */
  function CharValue(c: Byte): int {
    if c < 128 then c else c - 256
  }

  predicate Separator(c: Byte) {
    c == COMMA || c == STAR
  }

  /** The character at i, or the terminating NUL. */
  function CharAt(msg: ByteString, i: nat): Byte {
    if i < |msg| then msg[i] else 0
  }

  /** `GetSmallInt`: the value, which an empty field leaves alone, and the new position. */
  function SmallInt(value: int, msg: ByteString, start: nat): (int, nat) {
    if start >= |msg| then (value, start)
    else if Separator(msg[start]) then (value, start + 1)
    else (CharValue(msg[start]) - ZERO, start + if Separator(CharAt(msg, start + 1)) then 2 else 1)
  }

  /** Where `GetString` stops: a separator, a CR or the last character. */
  function StopFrom(msg: ByteString, i: nat): (r: nat)
    requires i < |msg|
    ensures i <= r < |msg|
    ensures r == |msg| - 1 || Separator(msg[r]) || msg[r] == CR
    ensures forall k :: i <= k < r ==> !Separator(msg[k]) && msg[k] != CR
    decreases |msg| - i
  {
    if Separator(msg[i]) || msg[i] == CR || i == |msg| - 1 then i else StopFrom(msg, i + 1)
  }

  /** `GetString` into an empty string. */
  function Text(msg: ByteString, start: nat): ByteString {
    if start >= |msg| then [] else msg[start..StopFrom(msg, start)]
  }

  method GetString(msg: ByteString, start: nat) returns (text: ByteString, next: nat)
    ensures text == Text(msg, start)
    ensures next == if start < |msg| then StopFrom(msg, start) + 1 else start
  {
    text, next := [], start;
    var i := start;
    while next < |msg| && i < |msg|
      invariant next == start && text == [] && start <= i
      invariant start < |msg| ==> i < |msg| && StopFrom(msg, i) == StopFrom(msg, start)
    {
      if Separator(msg[i]) || msg[i] == CR || i == |msg| - 1 {
        if i > start {
          text := msg[start..i];
        }
        next := i + 1;
        break;
      }
      i := i + 1;
    }
  }

  // ---------------------------------------------------------------- a built sentence reads back

  /** Counters whose character is none that the sentence syntax reserves. */
  predicate Countable(n: int) {
    n >= 0 && !Separator(CounterChar(n)) && CounterChar(n) != CR && CounterChar(n) != LF
  }

  /** A counter as its character is read: a `char` is signed. */
  function CounterRead(n: int): int {
    CharValue(CounterChar(n)) - ZERO
  }

  /** No counter up to 217 is reserved; 218 is a line feed.  Up to 79 they read back as they are. */
  lemma CountersRead(n: nat)
    ensures n <= 217 ==> Countable(n)
    ensures CounterChar(218) == LF
    ensures CounterRead(n) <= 79 && (n <= 79 ==> CounterRead(n) == n)
  {
  }

  lemma BodyLayout(total: int, number: int, seqId: int, chunk: ByteString)
    ensures var b := Body(total, number, seqId, chunk);
            var p := if seqId >= 0 then 14 else 13;
            && |b| == p + |chunk| + 1 && b[..7] == HEADER && b[7] == COMMA
            && b[8] == CounterChar(total) && b[9] == COMMA && b[10] == CounterChar(number) && b[11] == COMMA
            && (seqId >= 0 ==> b[12] == CounterChar(seqId)) && b[p - 1] == COMMA
            && b[p..p + |chunk|] == chunk && b[|b| - 1] == STAR
  {
  }

  /** The only star of a body of clean parts is its last character, and it has no line break. */
  lemma BodyClean(total: int, number: int, seqId: int, chunk: ByteString)
    requires Countable(total) && Countable(number) && (seqId >= 0 ==> Countable(seqId)) && Clean(chunk)
    ensures var b := Body(total, number, seqId, chunk);
            forall i :: 0 <= i < |b| - 1 ==> b[i] != STAR && b[i] != LF
  {
  }

  lemma IndexUnique(s: ByteString, c: Byte, from: nat, at: nat)
    requires from <= at <= |s| && (at < |s| ==> s[at] == c)
    requires forall k :: from <= k < at ==> s[k] != c
    ensures IndexFrom(s, c, from) == at
  {
  }

  /** `VerifyCheckSum` of a line whose first star is followed by two characters. */
  lemma VerifiedIff(body: ByteString, rest: ByteString)
    requires |body| > 1 && body[0] == DOLLAR && body[|body| - 1] == STAR && |rest| >= 2
    requires forall i :: 0 <= i < |body| - 1 ==> body[i] != STAR
    ensures Verified(body + rest) <==> rest[..2] == HexByte(Fold(body[1..|body| - 1]))
    ensures CheckSum(body, |body|) == Fold(body[1..|body| - 1])
  {
    var msg, star := body + rest, |body| - 1;
    IndexUnique(msg, STAR, 0, star);
    assert msg[..star][..star] == msg[..star];
    IndexUnique(msg[..star], STAR, 1, star);
    IndexUnique(body[..|body|], STAR, 1, star);
    assert msg[1..star] == body[1..star];
    assert Sub(msg, star + 1, 2) == rest[..2];
  }

  lemma SentenceVerified(total: int, number: int, seqId: int, chunk: ByteString)
    requires Countable(total) && Countable(number) && (seqId >= 0 ==> Countable(seqId)) && Clean(chunk)
    ensures Verified(Sentence(total, number, seqId, chunk))
  {
    var body := Body(total, number, seqId, chunk);
    var rest := HexByte(CheckSum(body, |body|)) + [CR, LF];
    BodyLayout(total, number, seqId, chunk);
    BodyClean(total, number, seqId, chunk);
    VerifiedIff(body, rest);
    assert Sentence(total, number, seqId, chunk) == body + rest;
  }

  /** The text of a sentence, the checksum taken over all between '$' and '*'. */
  lemma SentenceText(total: int, number: int, seqId: int, chunk: ByteString)
    requires Countable(total) && Countable(number) && (seqId >= 0 ==> Countable(seqId)) && Clean(chunk)
    ensures var identifier: ByteString := if seqId >= 0 then [CounterChar(seqId)] else [];
            var inner := Ascii("PGHP,2,") + [CounterChar(total)] + Ascii(",") + [CounterChar(number)] + Ascii(",") + identifier + Ascii(",") + chunk;
            Sentence(total, number, seqId, chunk) == Ascii("$") + inner + Ascii("*") + HexByte(Fold(inner)) + [13, 10]
  {
    hide CounterChar, Fold, HexByte, Verified;
    var identifier: ByteString := if seqId >= 0 then [CounterChar(seqId)] else [];
    var inner := Ascii("PGHP,2,") + [CounterChar(total)] + Ascii(",") + [CounterChar(number)] + Ascii(",") + identifier + Ascii(",") + chunk;
    var body := Body(total, number, seqId, chunk);
    BodyText(total, number, seqId, chunk, inner);
    BodyClean(total, number, seqId, chunk);
    VerifiedIff(body, [0, 0]);
    assert body[1..|body| - 1] == inner;
  }

  lemma BodyText(total: int, number: int, seqId: int, chunk: ByteString, inner: ByteString)
    requires var identifier: ByteString := if seqId >= 0 then [CounterChar(seqId)] else [];
             inner == Ascii("PGHP,2,") + [CounterChar(total)] + Ascii(",") + [CounterChar(number)] + Ascii(",") + identifier + Ascii(",") + chunk
    ensures Body(total, number, seqId, chunk) == Ascii("$") + inner + Ascii("*")
  {
    hide CounterChar;
    Literals();
  }

  lemma Literals()
    ensures Ascii("$") == [36] && Ascii("*") == [42] && Ascii(",") == [44] && Ascii("PGHP,2,") == [80, 71, 72, 80, 44, 50, 44]
  {
  }
}
