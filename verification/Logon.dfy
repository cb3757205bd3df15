/**
 Logon request and reply messages (libs/gatehouse/pghplogonrequest.cpp, pghplogonreply.cpp):
 a type header and named fields in TLV, as hexadecimal text.
 */
module Logon {
  import opened Bytes
  import opened Tlv
  import opened Nmea

  const LOGON_REQUEST: Int32 := 1
  const LOGON_REPLY: Int32 := 2

  datatype Field = Str(name: ByteString, s: ByteString) | Int(name: ByteString, n: Int32)

  // ---------------------------------------------------------------- fields in general

  /** `EncodeString` and `EncodeInteger`: the name, then the value. */
  function EncodedField(f: Field): ByteString {
    StringElement(ASN_STR, f.name) +
    match f
    case Str(_, s) => StringElement(ASN_STR, s)
    case Int(_, n) => IntElement(ASN_INTEGER, n)
  }

  function EncodedFields(fs: seq<Field>): ByteString {
    if fs == [] then [] else EncodedFields(fs[..|fs| - 1]) + EncodedField(fs[|fs| - 1])
  }

  function EncodedMessage(ty: Int32, fs: seq<Field>): ByteString {
    IntElement(ASN_INTEGER, ty) + EncodedFields(fs)
  }

  /** Where the next element is read, or None once a parser left its defined range. */
  type Cursor = Option<nat>

  function After<T>(p: Parsed<T>): Cursor {
    if p.Undefined? || p.Overrun? then None else Some(p.offset)
  }

  /** `DecodeString` and `DecodeInteger`: a failed parse leaves the member alone; the name is not checked. */
  function DecodedField(data: Data, at: Cursor, f: Field): (Field, Cursor) {
    if at.None? then (f, None)
    else
      var value := After(ParsedString(data, at.value, []));
      if value.None? then (f, None)
      else
        match f
        case Str(name, s) =>
          var p := ParsedString(data, value.value, s);
          (if p.Parsed? then Str(name, p.value) else f, After(p))
        case Int(name, n) =>
          var p := ParsedInt(data, value.value);
          (if p.Parsed? then Int(name, p.value) else f, After(p))
  }

  function DecodedFields(data: Data, at: Cursor, fs: seq<Field>): (seq<Field>, Cursor) {
    if fs == [] then ([], at)
    else
      var (done, next) := DecodedFields(data, at, fs[..|fs| - 1]);
      var (f, end) := DecodedField(data, next, fs[|fs| - 1]);
      (done + [f], end)
  }

  /** The message type is parsed, and ignored by a decoder that knows its own. */
  function DecodedMessage(data: Data, fs: seq<Field>): (seq<Field>, Cursor) {
    DecodedFields(data, After(ParsedInt(data, 0)), fs)
  }

  /** What a field reads back as, decoded into `target`. */
  function Arrived(target: Field, f: Field): Field
    requires target.Str? == f.Str?
  {
    if f.Str? then Str(target.name, target.s + f.s) else Int(target.name, Sent(f.n))
  }

  predicate SameShape(targets: seq<Field>, fs: seq<Field>) {
    |targets| == |fs| && forall i :: 0 <= i < |fs| ==> targets[i].Str? == fs[i].Str?
  }

  function ArrivedFields(targets: seq<Field>, fs: seq<Field>): (r: seq<Field>)
    requires SameShape(targets, fs)
    ensures |r| == |fs|
  {
    seq(|fs|, i requires 0 <= i < |fs| => Arrived(targets[i], fs[i]))
  }

  lemma FieldReadBack(pre: ByteString, f: Field, suf: ByteString, target: Field)
    requires |pre| + |EncodedField(f)| + |suf| <= MAX_OFFSET && target.Str? == f.Str?
    ensures DecodedField(pre + EncodedField(f) + suf, Some(|pre|), target)
         == (Arrived(target, f), Some(|pre| + |EncodedField(f)|))
  {
    hide StringElement, IntElement, ParsedString, ParsedInt;
    var name := StringElement(ASN_STR, f.name);
    var value := if f.Str? then StringElement(ASN_STR, f.s) else IntElement(ASN_INTEGER, f.n);
    var data := pre + EncodedField(f) + suf;
    assert data == pre + name + (value + suf);
    StringReadBack(pre, ASN_STR, f.name, value + suf, []);
    assert data == (pre + name) + value + suf;
    if f.Str? {
      StringReadBack(pre + name, ASN_STR, f.s, suf, target.s);
    } else {
      IntReadBack(pre + name, ASN_INTEGER, f.n, suf);
    }
  }

  /** Any list of fields, decoded into members of the same kinds, arrives in order and in full. */
  lemma {:induction false} FieldsReadBack(pre: ByteString, fs: seq<Field>, suf: ByteString, targets: seq<Field>)
    requires |pre| + |EncodedFields(fs)| + |suf| <= MAX_OFFSET && SameShape(targets, fs)
    ensures DecodedFields(pre + EncodedFields(fs) + suf, Some(|pre|), targets)
         == (ArrivedFields(targets, fs), Some(|pre| + |EncodedFields(fs)|))
    decreases |fs|
  {
    hide EncodedField, DecodedField, Arrived;
    var data := pre + EncodedFields(fs) + suf;
    if fs != [] {
      var n := |fs| - 1;
      var front, last := EncodedFields(fs[..n]), EncodedField(fs[n]);
      assert data == pre + front + (last + suf);
      FieldsReadBack(pre, fs[..n], last + suf, targets[..n]);
      assert data == (pre + front) + last + suf;
      FieldReadBack(pre + front, fs[n], suf, targets[n]);
      assert ArrivedFields(targets, fs) == ArrivedFields(targets[..n], fs[..n]) + [Arrived(targets[n], fs[n])];
    }
  }

  lemma FieldKept(data: Data, at: nat, f: Field)
    requires at >= |data|
    ensures DecodedField(data, Some(at), f) == (f, Some(at))
  {
    hide TwosComplement, Unsigned;
  }

  /** Where nothing can be parsed, every member keeps what it holds. */
  lemma {:induction false} NothingDecoded(data: Data, at: nat, targets: seq<Field>)
    requires at >= |data|
    ensures DecodedFields(data, Some(at), targets) == (targets, Some(at))
    decreases |targets|
  {
    hide DecodedField;
    if targets != [] {
      var n := |targets| - 1;
      NothingDecoded(data, at, targets[..n]);
      FieldKept(data, at, targets[n]);
      assert targets == targets[..n] + [targets[n]];
    }
  }

  lemma MessageReadBack(ty: Int32, fs: seq<Field>, targets: seq<Field>)
    requires |EncodedMessage(ty, fs)| <= MAX_OFFSET && SameShape(targets, fs)
    ensures DecodedMessage(EncodedMessage(ty, fs), targets)
         == (ArrivedFields(targets, fs), Some(|EncodedMessage(ty, fs)|))
  {
    hide IntElement, EncodedFields, DecodedFields, ParsedInt;
    var header, data := IntElement(ASN_INTEGER, ty), EncodedMessage(ty, fs);
    assert data == [] + header + EncodedFields(fs);
    IntReadBack([], ASN_INTEGER, ty, EncodedFields(fs));
    assert data == header + EncodedFields(fs) + [];
    FieldsReadBack(header, fs, [], targets);
  }

  // ---------------------------------------------------------------- one field after another

  lemma FieldAppended(fs: seq<Field>, i: nat)
    requires i < |fs|
    ensures EncodedFields(fs[..i + 1]) == EncodedFields(fs[..i]) + EncodedField(fs[i])
  {
    hide EncodedField;
    assert fs[..i + 1][..i] == fs[..i];
  }

  /** Appends field i of `fs` to a buffer that holds `header` and the fields before it. */
  method EncodeString(data: ByteString, name: ByteString, s: ByteString, ghost header: ByteString, ghost fs: seq<Field>, ghost i: nat)
    returns (r: ByteString)
    requires i < |fs| && fs[i] == Str(name, s) && data == header + EncodedFields(fs[..i])
    ensures r == header + EncodedFields(fs[..i + 1])
  {
    hide StringElement, EncodedFields;
    FieldAppended(fs, i);
    r := BuildString(data, ASN_STR, name);
    r := BuildString(r, ASN_STR, s);
  }

  method EncodeInteger(data: ByteString, name: ByteString, n: Int32, ghost header: ByteString, ghost fs: seq<Field>, ghost i: nat)
    returns (r: ByteString)
    requires i < |fs| && fs[i] == Int(name, n) && data == header + EncodedFields(fs[..i])
    ensures r == header + EncodedFields(fs[..i + 1])
  {
    hide StringElement, IntElement, EncodedFields;
    FieldAppended(fs, i);
    r := BuildString(data, ASN_STR, name);
    r := BuildInt(r, ASN_INTEGER, n);
  }

  /** The fields before i were read into the members `ts` and gave `done`. */
  ghost predicate ReadSoFar(data: Data, at: Cursor, ts: seq<Field>, i: nat, done: seq<Field>) {
    i <= |ts| && DecodedMessage(data, ts[..i]) == (done, at)
  }

  lemma ReadOne(data: Data, at: Cursor, ts: seq<Field>, i: nat, done: seq<Field>)
    requires ReadSoFar(data, at, ts, i, done) && i < |ts|
    ensures var (f, next) := DecodedField(data, at, ts[i]); ReadSoFar(data, next, ts, i + 1, done + [f])
  {
    hide DecodedField, ParsedInt;
    assert ts[..i + 1][..i] == ts[..i];
  }

  /** Reads field i. */
  method DecodeString(data: Data, at: Cursor, target: ByteString, ghost ts: seq<Field>, ghost i: nat, ghost done: seq<Field>)
    returns (value: ByteString, next: Cursor)
    requires ReadSoFar(data, at, ts, i, done) && i < |ts| && ts[i].Str? && ts[i].s == target
    ensures ReadSoFar(data, next, ts, i + 1, done + [Str(ts[i].name, value)])
  {
    hide ParsedString, ReadSoFar;
    ReadOne(data, at, ts, i, done);
    value, next := target, None;
    if at.Some? {
      var tag := ParseString(data, at.value, []);
      next := After(tag);
      if next.Some? {
        var p := ParseString(data, next.value, target);
        value, next := if p.Parsed? then p.value else target, After(p);
      }
    }
  }

  method DecodeInteger(data: Data, at: Cursor, target: Int32, ghost ts: seq<Field>, ghost i: nat, ghost done: seq<Field>)
    returns (value: Int32, next: Cursor)
    requires ReadSoFar(data, at, ts, i, done) && i < |ts| && ts[i].Int? && ts[i].n == target
    ensures ReadSoFar(data, next, ts, i + 1, done + [Int(ts[i].name, value)])
  {
    hide ParsedString, ParsedInt, ReadSoFar;
    ReadOne(data, at, ts, i, done);
    value, next := target, None;
    if at.Some? {
      var tag := ParseString(data, at.value, []);
      next := After(tag);
      if next.Some? {
        var p := ParseInt(data, next.value);
        value, next := if p.Parsed? then p.value else target, After(p);
      }
    }
  }

  // ---------------------------------------------------------------- logon request

  /** `std::tolower` on every character. */
  function Lower(s: ByteString): (r: ByteString)
    ensures |r| == |s|
  {
    seq(|s|, i requires 0 <= i < |s| => if 65 <= s[i] <= 90 then s[i] + 32 else s[i])
  }

  datatype Request = Request(
    name: ByteString, password: ByteString, version: Int32, relogon: Int32,
    localUser: ByteString, versionString: ByteString, proxyType: Int32, retryCounter: Int32)

  const FRESH_REQUEST := Request([], [], 0, 0, [], [], 0, 0)

  function RequestFields(r: Request): seq<Field> {
    [Str(Ascii("NAME"), r.name), Str(Ascii("PWD"), r.password), Int(Ascii("VER"), r.version), Int(Ascii("RLOG"), r.relogon),
     Str(Ascii("LUSER"), r.localUser), Str(Ascii("VERSTR"), r.versionString), Int(Ascii("TYPE"), r.proxyType), Int(Ascii("RETRY"), r.retryCounter)]
  }

  /** The members after decoding; the name is lower-cased. */
  function FromFields(fs: seq<Field>): Request
    requires SameShape(fs, RequestFields(FRESH_REQUEST))
  {
    Request(Lower(fs[0].s), fs[1].s, fs[2].n, fs[3].n, fs[4].s, fs[5].s, fs[6].n, fs[7].n)
  }

  /** No upper-case letter is left, and nothing but upper-case letters is changed, each to its lower case. */
  lemma LowerExact(s: ByteString, i: nat)
    requires i < |s|
    ensures !(Ascii("A")[0] <= Lower(s)[i] <= Ascii("Z")[0])
    ensures Lower(s)[i] == s[i] || (Ascii("A")[0] <= s[i] <= Ascii("Z")[0] && Lower(s)[i] - Ascii("a")[0] == s[i] - Ascii("A")[0])
  {
  }

  /** The first four fields and the last four, once read. */
  ghost function FirstRead(s0: ByteString, s1: ByteString, n2: Int32, n3: Int32): (d: seq<Field>)
    ensures |d| == 4
  {
    [Str(Ascii("NAME"), s0), Str(Ascii("PWD"), s1), Int(Ascii("VER"), n2), Int(Ascii("RLOG"), n3)]
  }

  ghost function SecondRead(s4: ByteString, s5: ByteString, n6: Int32, n7: Int32): (d: seq<Field>)
    ensures |d| == 4
  {
    [Str(Ascii("LUSER"), s4), Str(Ascii("VERSTR"), s5), Int(Ascii("TYPE"), n6), Int(Ascii("RETRY"), n7)]
  }

  lemma RequestRead(data: Data, at: Cursor, r: Request, s0: ByteString, s1: ByteString, n2: Int32, n3: Int32,
                    s4: ByteString, s5: ByteString, n6: Int32, n7: Int32)
    requires ReadSoFar(data, at, RequestFields(r), 8, FirstRead(s0, s1, n2, n3) + SecondRead(s4, s5, n6, n7))
    ensures var (fields, end) := DecodedMessage(data, RequestFields(r));
            && end == at && SameShape(fields, RequestFields(FRESH_REQUEST))
            && FromFields(fields) == Request(Lower(s0), s1, n2, n3, s4, s5, n6, n7)
  {
    hide Ascii, Lower, DecodedMessage, ReadSoFar;
    AllRead(data, at, RequestFields(r), FirstRead(s0, s1, n2, n3) + SecondRead(s4, s5, n6, n7));
  }

  function RequestBytes(r: Request): ByteString {
    EncodedMessage(LOGON_REQUEST, RequestFields(r.(name := Lower(r.name))))
  }

  function RequestText(r: Request): ByteString {
    Hex(RequestBytes(r))
  }

  class LogonRequest {
    var name: ByteString
    var password: ByteString
    var version: Int32
    var relogon: Int32
    var localUser: ByteString
    var versionString: ByteString
    var proxyType: Int32
    var retryCounter: Int32

    ghost function View(): Request
      reads this
    {
      Request(name, password, version, relogon, localUser, versionString, proxyType, retryCounter)
    }

    constructor ()
      ensures View() == FRESH_REQUEST
    {
      name, password, version, relogon, localUser, versionString, proxyType, retryCounter := [], [], 0, 0, [], [], 0, 0;
    }

    /** Appends to `text`, and lower-cases the name it sends. */
    method Encode(text: ByteString) returns (r: ByteString)
      modifies this`name
      ensures name == Lower(old(name))
      ensures r == text + RequestText(old(View()))
    {
      hide EncodedFields, IntElement, RequestFields, Lower, Hex;
      var b := BuildInt([], ASN_INTEGER, LOGON_REQUEST);
      assert b == IntElement(ASN_INTEGER, LOGON_REQUEST);
      name := Lower(name);
      ghost var h, f := b, RequestFields(View());
      EncodedNothing(f);
      b := EncodeFirst(b, h);
      b := EncodeSecond(b, h);
      assert |f| == 8 && f[..8] == f by { EightFields(View()); }
      r := Byte2Ascii(b, text);
    }

    method EncodeFirst(data: ByteString, ghost h: ByteString) returns (b: ByteString)
      requires data == h + EncodedFields(RequestFields(View())[..0])
      ensures |RequestFields(View())| == 8 && b == h + EncodedFields(RequestFields(View())[..4])
    {
      hide EncodedFields, Ascii;
      ghost var f := RequestFields(View());
      b := EncodeString(data, Ascii("NAME"), name, h, f, 0);
      b := EncodeString(b, Ascii("PWD"), password, h, f, 1);
      b := EncodeInteger(b, Ascii("VER"), version, h, f, 2);
      b := EncodeInteger(b, Ascii("RLOG"), relogon, h, f, 3);
    }

    method EncodeSecond(data: ByteString, ghost h: ByteString) returns (b: ByteString)
      requires |RequestFields(View())| == 8 && data == h + EncodedFields(RequestFields(View())[..4])
      ensures b == h + EncodedFields(RequestFields(View())[..8])
    {
      hide EncodedFields, Ascii;
      ghost var f := RequestFields(View());
      b := EncodeString(data, Ascii("LUSER"), localUser, h, f, 4);
      b := EncodeString(b, Ascii("VERSTR"), versionString, h, f, 5);
      b := EncodeInteger(b, Ascii("TYPE"), proxyType, h, f, 6);
      b := EncodeInteger(b, Ascii("RETRY"), retryCounter, h, f, 7);
    }

    /** Decodes into the members as they are; `defined` says that no parser left its defined range. */
    method Decode(text: ByteString) returns (defined: bool)
      requires |Unhex(text)| <= MAX_OFFSET
      modifies this
      ensures var (fields, end) := DecodedMessage(Unhex(text), RequestFields(old(View())));
              && SameShape(fields, RequestFields(FRESH_REQUEST))
              && defined == end.Some? && View() == FromFields(fields)
    {
      hide ReadSoFar, DecodedMessage, ParsedInt, Ascii, Lower, Unhex, RequestFields, FromFields, FirstRead, SecondRead, SameShape;
      var data := Ascii2Byte([], text);
      assert data == Unhex(text);
      ghost var t := RequestFields(View());
      var header := ParseInt(data, 0);
      NothingRead(data, After(header), t);
      var s0, s1, n2, n3, half := DecodeFirst(data, After(header), t);
      var s4, s5, n6, n7, end := DecodeSecond(data, half, t, FirstRead(s0, s1, n2, n3));
      RequestRead(data, end, View(), s0, s1, n2, n3, s4, s5, n6, n7);
      name, password, version, relogon := Lower(s0), s1, n2, n3;
      localUser, versionString, proxyType, retryCounter := s4, s5, n6, n7;
      defined := end.Some?;
    }

    method DecodeFirst(data: Data, at: Cursor, ghost t: seq<Field>)
      returns (s0: ByteString, s1: ByteString, n2: Int32, n3: Int32, next: Cursor)
      requires t == RequestFields(View()) && ReadSoFar(data, at, t, 0, [])
      ensures ReadSoFar(data, next, t, 4, FirstRead(s0, s1, n2, n3))
    {
      hide ReadSoFar, Ascii;
      s0, next := DecodeString(data, at, name, t, 0, []);
      ghost var d0, d1, d2 := [Str(t[0].name, s0)], [], [];
      assert [] + d0 == d0;
      s1, next := DecodeString(data, next, password, t, 1, d0);
      d1 := d0 + [Str(t[1].name, s1)];
      n2, next := DecodeInteger(data, next, version, t, 2, d1);
      d2 := d1 + [Int(t[2].name, n2)];
      n3, next := DecodeInteger(data, next, relogon, t, 3, d2);
      assert d2 + [Int(t[3].name, n3)] == FirstRead(s0, s1, n2, n3);
    }

    method DecodeSecond(data: Data, at: Cursor, ghost t: seq<Field>, ghost d: seq<Field>)
      returns (s4: ByteString, s5: ByteString, n6: Int32, n7: Int32, next: Cursor)
      requires t == RequestFields(View()) && ReadSoFar(data, at, t, 4, d)
      ensures ReadSoFar(data, next, t, 8, d + SecondRead(s4, s5, n6, n7))
    {
      hide ReadSoFar, Ascii;
      s4, next := DecodeString(data, at, localUser, t, 4, d);
      ghost var d4, d5, d6 := d + [Str(t[4].name, s4)], [], [];
      s5, next := DecodeString(data, next, versionString, t, 5, d4);
      d5 := d4 + [Str(t[5].name, s5)];
      n6, next := DecodeInteger(data, next, proxyType, t, 6, d5);
      d6 := d5 + [Int(t[6].name, n6)];
      n7, next := DecodeInteger(data, next, retryCounter, t, 7, d6);
      assert d6 + [Int(t[7].name, n7)] == d + SecondRead(s4, s5, n6, n7);
    }
  }

  // ---------------------------------------------------------------- logon reply

  datatype Reply = Reply(result: Int32, newHost: ByteString, port: Int32)

  const FRESH_REPLY := Reply(0, [], 0)

  function ReplyFields(r: Reply): seq<Field> {
    [Int(Ascii("RESULT"), r.result), Str(Ascii("NEWHOST"), r.newHost), Int(Ascii("PORT"), r.port)]
  }

  function FromReplyFields(fs: seq<Field>): Reply
    requires SameShape(fs, ReplyFields(FRESH_REPLY))
  {
    Reply(fs[0].n, fs[1].s, fs[2].n)
  }

  function ReplyText(r: Reply): ByteString {
    Hex(EncodedMessage(LOGON_REPLY, ReplyFields(r)))
  }

  class LogonReply {
    var result: Int32
    var newHost: ByteString
    var port: Int32

    ghost function View(): Reply
      reads this
    {
      Reply(result, newHost, port)
    }

    constructor ()
      ensures View() == FRESH_REPLY
    {
      result, newHost, port := 0, [], 0;
    }

    /** Appends to `text`. */
    method Encode(text: ByteString) returns (r: ByteString)
      ensures r == text + ReplyText(View())
    {
      hide EncodedFields, IntElement, Ascii, Hex;
      var b := BuildInt([], ASN_INTEGER, LOGON_REPLY);
      assert b == IntElement(ASN_INTEGER, LOGON_REPLY);
      ghost var h, f := b, ReplyFields(View());
      EncodedNothing(f);
      b := EncodeInteger(b, Ascii("RESULT"), result, h, f, 0);
      b := EncodeString(b, Ascii("NEWHOST"), newHost, h, f, 1);
      b := EncodeInteger(b, Ascii("PORT"), port, h, f, 2);
      assert f[..3] == f;
      r := Byte2Ascii(b, text);
    }

    /** The result is read through a variable that starts at 0, so a failed parse makes it 0. */
    method Decode(text: ByteString) returns (defined: bool)
      requires |Unhex(text)| <= MAX_OFFSET
      modifies this
      ensures var (fields, end) := DecodedMessage(Unhex(text), ReplyFields(old(View()).(result := 0)));
              && SameShape(fields, ReplyFields(FRESH_REPLY))
              && defined == end.Some? && View() == FromReplyFields(fields)
    {
      hide ReadSoFar, DecodedMessage, ParsedInt, Ascii, Unhex;
      var data := Ascii2Byte([], text);
      assert data == Unhex(text);
      ghost var t := ReplyFields(View().(result := 0));
      var header := ParseInt(data, 0);
      var next := After(header);
      NothingRead(data, next, t);
      result, next := DecodeInteger(data, next, 0, t, 0, []);
      ghost var d0, d1 := [Int(t[0].name, result)], [];
      assert [] + d0 == d0;
      newHost, next := DecodeString(data, next, newHost, t, 1, d0);
      d1 := d0 + [Str(t[1].name, newHost)];
      port, next := DecodeInteger(data, next, port, t, 2, d1);
      AllRead(data, next, t, d1 + [Int(t[2].name, port)]);
      defined := next.Some?;
    }
  }

  lemma {:induction false} FieldsAppend(fs: seq<Field>, f: Field)
    ensures EncodedFields(fs + [f]) == EncodedFields(fs) + EncodedField(f)
  {
    hide EncodedField;
    assert (fs + [f])[..|fs|] == fs;
  }

  /** Three fields in a row. */
  lemma ThreeFields(fs: seq<Field>, a: Field, b: Field, c: Field)
    ensures EncodedFields(fs + [a, b, c]) == EncodedFields(fs) + EncodedField(a) + EncodedField(b) + EncodedField(c)
  {
    hide EncodedField, EncodedFields;
    FieldsAppend(fs, a);
    FieldsAppend(fs + [a], b);
    FieldsAppend(fs + [a] + [b], c);
    assert fs + [a, b, c] == fs + [a] + [b] + [c];
  }

  function StrSent(name: string, s: ByteString): ByteString {
    StringElement(6, Ascii(name)) + StringElement(6, s)
  }

  function IntSent(name: string, n: Int32): ByteString {
    StringElement(6, Ascii(name)) + IntElement(2, n)
  }

  /** What a logon request looks like on the wire: type 1, then each member under its name, in this order. */
  lemma RequestWire(r: Request)
    ensures RequestBytes(r) == IntElement(2, 1)
              + StrSent("NAME", Lower(r.name)) + StrSent("PWD", r.password) + IntSent("VER", r.version)
              + IntSent("RLOG", r.relogon) + StrSent("LUSER", r.localUser) + StrSent("VERSTR", r.versionString)
              + IntSent("TYPE", r.proxyType) + IntSent("RETRY", r.retryCounter)
  {
    hide StringElement, IntElement, Ascii, Lower, EncodedFields, EncodedField;
    var fs := RequestFields(r.(name := Lower(r.name)));
    EncodedNothing(fs);
    assert fs[..0] == [];
    var three, six := [] + [fs[0], fs[1], fs[2]], [] + [fs[0], fs[1], fs[2]] + [fs[3], fs[4], fs[5]];
    ThreeFields([], fs[0], fs[1], fs[2]);
    ThreeFields(three, fs[3], fs[4], fs[5]);
    FieldsAppend(six, fs[6]);
    FieldsAppend(six + [fs[6]], fs[7]);
    assert fs == six + [fs[6]] + [fs[7]];
    RequestSent(r);
  }

  lemma RequestSent(r: Request)
    ensures var fs := RequestFields(r.(name := Lower(r.name)));
            && |fs| == 8
            && EncodedField(fs[0]) == StrSent("NAME", Lower(r.name)) && EncodedField(fs[1]) == StrSent("PWD", r.password)
            && EncodedField(fs[2]) == IntSent("VER", r.version) && EncodedField(fs[3]) == IntSent("RLOG", r.relogon)
            && EncodedField(fs[4]) == StrSent("LUSER", r.localUser) && EncodedField(fs[5]) == StrSent("VERSTR", r.versionString)
            && EncodedField(fs[6]) == IntSent("TYPE", r.proxyType) && EncodedField(fs[7]) == IntSent("RETRY", r.retryCounter)
  {
    hide StringElement, IntElement, Ascii, Lower;
  }

  /** And a reply: type 2, and three members. */
  lemma ReplyWire(r: Reply)
    ensures EncodedMessage(LOGON_REPLY, ReplyFields(r)) == IntElement(2, 2)
              + IntSent("RESULT", r.result) + StrSent("NEWHOST", r.newHost) + IntSent("PORT", r.port)
  {
    hide StringElement, IntElement, Ascii, EncodedFields;
    var fs := ReplyFields(r);
    EncodedNothing(fs);
    ThreeFields([], fs[0], fs[1], fs[2]);
    assert fs == [] + [fs[0], fs[1], fs[2]];
  }

  lemma EightFields(r: Request)
    ensures |RequestFields(r)| == 8
  {
  }

  lemma EncodedNothing(fs: seq<Field>)
    ensures EncodedFields(fs[..0]) == []
  {
  }

  lemma AllRead(data: Data, at: Cursor, ts: seq<Field>, done: seq<Field>)
    requires ReadSoFar(data, at, ts, |ts|, done)
    ensures DecodedMessage(data, ts) == (done, at)
  {
    assert ts[..|ts|] == ts;
  }

  lemma NothingRead(data: Data, at: Cursor, ts: seq<Field>)
    requires at == After(ParsedInt(data, 0))
    ensures ReadSoFar(data, at, ts, 0, [])
  {
  }
}
