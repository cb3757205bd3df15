/**
 The whole codec: typed fields to TLV, to hexadecimal text, to NMEA sentences, and back into a
 fresh object.
 */
module LogonRoundTrip {
  import opened Bytes
  import opened Tlv
  import opened Nmea
  import opened Pghp2
  import opened Pghp2Proofs
  import opened Logon

  /** What `Decode` of the sentences and then of their text gives, in members that hold `targets`. */
  function Opened(wire: ByteString, targets: seq<Field>): Option<seq<Field>> {
    match DecodeFrom(wire, NOTHING)
    case None => None
    case Some(m) =>
      var data := Unhex(m.payload);
      if |data| > MAX_OFFSET then None
      else
        var (fields, end) := DecodedMessage(data, targets);
        if end == Some(|data|) then Some(fields) else None
  }

  /** Any typed message of at most 32767 bytes: it fits 128 sentences. */
  lemma FieldsSurvive(ty: Int32, fs: seq<Field>, targets: seq<Field>, seqId: int)
    requires SameShape(targets, fs) && Identifier(seqId) && |EncodedMessage(ty, fs)| <= MAX_OFFSET
    ensures Opened(Encoded(Hex(EncodedMessage(ty, fs)), seqId), targets) == Some(ArrivedFields(targets, fs))
  {
    hide Hex, Unhex, EncodedMessage, DecodedMessage, ArrivedFields, DecodeFrom, Encoded, Clean;
    var data := EncodedMessage(ty, fs);
    HexClean(data);
    UnhexHex(data);
    RoundTrip(Hex(data), seqId);
    MessageReadBack(ty, fs, targets);
  }

  // ---------------------------------------------------------------- logon request

  predicate Faithful(n: Int32) {
    !(-0x80_0000 <= n < 0)
  }

  function RequestReceived(wire: ByteString): Option<Request> {
    match Opened(wire, RequestFields(FRESH_REQUEST))
    case Some(fs) => if SameShape(fs, RequestFields(FRESH_REQUEST)) then Some(FromFields(fs)) else None
    case None => None
  }

  /** Every string arrives, the name in lower case; every integer arrives as `Sent` says. */
  lemma RequestSurvives(r: Request, seqId: int)
    requires Identifier(seqId) && |RequestBytes(r)| <= MAX_OFFSET
    ensures RequestReceived(Encoded(RequestText(r), seqId)) ==
            Some(Request(Lower(r.name), r.password, Sent(r.version), Sent(r.relogon),
                         r.localUser, r.versionString, Sent(r.proxyType), Sent(r.retryCounter)))
  {
    hide Hex, EncodedMessage, Opened, Encoded, Ascii, Lower, Sent;
    var fs, targets := RequestFields(r.(name := Lower(r.name))), RequestFields(FRESH_REQUEST);
    FieldsSurvive(LOGON_REQUEST, fs, targets, seqId);
    LowerTwice(r.name);
    var got := ArrivedFields(targets, fs);
    assert SameShape(got, targets);
    assert got[0].s == Lower(r.name) && got[1].s == r.password && got[4].s == r.localUser && got[5].s == r.versionString;
  }

  lemma LowerTwice(s: ByteString)
    ensures Lower(Lower(s)) == Lower(s)
  {
  }

  /** Nothing but the case of the name changes, exactly when no integer lies in [-2^23, -1]. */
  lemma RequestUnchangedIff(r: Request, seqId: int)
    requires Identifier(seqId) && |RequestBytes(r)| <= MAX_OFFSET
    ensures RequestReceived(Encoded(RequestText(r), seqId)) == Some(r.(name := Lower(r.name)))
       <==> Faithful(r.version) && Faithful(r.relogon) && Faithful(r.proxyType) && Faithful(r.retryCounter)
  {
    hide Encoded, RequestText, Lower, RequestReceived;
    RequestSurvives(r, seqId);
  }

  // ---------------------------------------------------------------- logon reply

  function ReplyReceived(wire: ByteString): Option<Reply> {
    match Opened(wire, ReplyFields(FRESH_REPLY))
    case Some(fs) => if SameShape(fs, ReplyFields(FRESH_REPLY)) then Some(FromReplyFields(fs)) else None
    case None => None
  }

  lemma ReplySurvives(r: Reply, seqId: int)
    requires Identifier(seqId) && |EncodedMessage(LOGON_REPLY, ReplyFields(r))| <= MAX_OFFSET
    ensures ReplyReceived(Encoded(ReplyText(r), seqId)) == Some(Reply(Sent(r.result), r.newHost, Sent(r.port)))
    ensures ReplyReceived(Encoded(ReplyText(r), seqId)) == Some(r) <==> Faithful(r.result) && Faithful(r.port)
  {
    hide Hex, EncodedMessage, Opened, Encoded, Ascii;
    var fs, targets := ReplyFields(r), ReplyFields(FRESH_REPLY);
    FieldsSurvive(LOGON_REPLY, fs, targets, seqId);
    var got := ArrivedFields(targets, fs);
    assert SameShape(got, targets);
    assert got[1].s == r.newHost;
  }

  // ---------------------------------------------------------------- the objects themselves

  /** One object encodes, the sentences travel, a fresh object decodes. */
  method Exchange(request: LogonRequest, seqId: int) returns (received: LogonRequest, ok: bool)
    requires Identifier(seqId) && |RequestBytes(request.View())| <= MAX_OFFSET
    modifies request
    ensures fresh(received) && ok
    ensures var r := old(request.View());
            received.View() == Request(Lower(r.name), r.password, Sent(r.version), Sent(r.relogon),
                                       r.localUser, r.versionString, Sent(r.proxyType), Sent(r.retryCounter))
  {
    hide RequestText, Lower, Sent, Encoded, DecodeFrom, DecodedMessage, SameShape, FromFields, Unhex, Hex, RequestFields;
    ghost var r := request.View();
    var text := request.Encode([]);
    assert text == RequestText(r);
    var message := new Message();
    message.payload, message.seqId := text, seqId;
    var wire := message.Encode([]);
    assert wire == Encoded(text, seqId);
    RequestSurvives(r, seqId);
    var arrived := new Message();
    ok := arrived.Decode(wire);
    received := new LogonRequest();
    assert |Unhex(arrived.payload)| <= MAX_OFFSET;
    ok := received.Decode(arrived.payload);
  }
}
