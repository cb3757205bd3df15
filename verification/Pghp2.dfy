/**
 Multi-sentence `$PGHP,2` messages: segmentation, reassembly, and what a damaged byte does
 (libs/gatehouse/pghpnmeamsg.cpp:148-181, libs/gatehouse/pghp2.cpp:31-114).
 */
module Pghp2 {
  import opened Bytes
  import opened Nmea

  // ---------------------------------------------------------------- segmentation

  function Count(length: nat): nat {
    (length + MAX_CONTENT - 1) / MAX_CONTENT
  }

  /** Full chunks, and one more for the rest. */
  lemma CountParts(length: nat)
    ensures Count(length) == length / MAX_CONTENT + if length % MAX_CONTENT != 0 then 1 else 0
  {
  }

  /** The payload of sentence i, counted from 0. */
  function Chunk(payload: ByteString, i: nat): ByteString
    requires i < Count(|payload|)
  {
    Sub(payload, MAX_CONTENT * i, MAX_CONTENT)
  }

  /** The message identifier sent: a segmented message always has one. */
  function SentId(length: nat, seqId: int): int {
    if Count(length) > 1 && seqId < 0 then 0 else seqId
  }

  /** Sentence i, counted from 0 and numbered from 1. */
  function Line(payload: ByteString, seqId: int, i: nat): ByteString
    requires i < Count(|payload|)
  {
    Sentence(Count(|payload|), i + 1, SentId(|payload|, seqId), Chunk(payload, i))
  }

  /** The first n sentences. */
  function FirstLines(payload: ByteString, seqId: int, n: nat): ByteString
    requires n <= Count(|payload|)
  {
    if n == 0 then [] else FirstLines(payload, seqId, n - 1) + Line(payload, seqId, n - 1)
  }

  function Encoded(payload: ByteString, seqId: int): ByteString {
    FirstLines(payload, seqId, Count(|payload|))
  }

  lemma NextLine(payload: ByteString, seqId: int, i: nat, msg: ByteString)
    requires i < Count(|payload|)
    ensures msg + FirstLines(payload, seqId, i + 1) == msg + FirstLines(payload, seqId, i)
              + Sentence(Count(|payload|), i + 1, SentId(|payload|, seqId), Sub(payload, MAX_CONTENT * i, MAX_CONTENT))
  {
  }

  /** The payload of the first n sentences. */
  function FirstChunks(payload: ByteString, n: nat): ByteString
    requires n <= Count(|payload|)
  {
    if n == 0 then [] else FirstChunks(payload, n - 1) + Chunk(payload, n - 1)
  }

  /** As many sentences as 512 divides into, rounded up; chunks of 1 to 512 bytes; together the payload. */
  lemma {:induction false} Segmentation(payload: ByteString, n: nat)
    requires n <= Count(|payload|)
    ensures Count(|payload|) * MAX_CONTENT - MAX_CONTENT < |payload| <= Count(|payload|) * MAX_CONTENT
    ensures forall i :: 0 <= i < n ==> 0 < |Chunk(payload, i)| <= MAX_CONTENT
    ensures FirstChunks(payload, n) == Sub(payload, 0, MAX_CONTENT * n)
    ensures n == Count(|payload|) ==> FirstChunks(payload, n) == payload
  {
    if n > 0 {
      Segmentation(payload, n - 1);
    }
  }

  // ---------------------------------------------------------------- reassembly

  datatype Received = Received(total: int, number: int, seqId: int, payload: ByteString, raw: ByteString)

  const NOTHING := Received(0, 0, 0, [], [])

  /** The fields of one verified line, added to what the lines before it gave. */
  function Scan(line: ByteString, acc: Received): Received {
    var (total, p) := SmallInt(acc.total, line, 8);
    var (number, q) := SmallInt(acc.number, line, p);
    var (seqId, r) := SmallInt(acc.seqId, line, q);
    Received(total, number, seqId, acc.payload + Text(line, r), acc.raw + line)
  }

  /** Consumes line after line; what follows the last LF is ignored. */
  function DecodeFrom(buf: ByteString, acc: Received): Option<Received>
    decreases |buf|
  {
    var pos := IndexFrom(buf, LF, 0);
    if pos == |buf| then Some(acc)
    else if Verified(buf[..pos + 1]) && Sub(buf[..pos + 1], 0, 7) == HEADER
    then DecodeFrom(buf[pos + 1..], Scan(buf[..pos + 1], acc))
    else None
  }

  class Message {
    var total: int
    var number: int
    var seqId: int
    var payload: ByteString
    var raw: ByteString

    constructor ()
      ensures total == 1 && number == 1 && seqId == -1 && payload == [] && raw == []
    {
      total, number, seqId, payload, raw := 1, 1, -1, [], [];
    }

    method EncodePart(msg: ByteString, data: ByteString) returns (r: ByteString)
      ensures r == msg + Sentence(total, number, seqId, data)
    {
      var body := HEADER + [COMMA] + [CounterChar(total)] + [COMMA] + [CounterChar(number)] + [COMMA];
      if seqId >= 0 {
        body := body + [CounterChar(seqId)];
      }
      body := body + [COMMA] + data + [STAR];
      assert body == Body(total, number, seqId, data);
      var sum := CalcNmeaCheckSum(body, |body|);
      r := msg + (body + HexByte(sum) + [CR, LF]);
    }

    /** The loop of `Encode` over the chunks of full size. */
    method EncodeFull(msg: ByteString, full: nat, ghost id: int) returns (r: ByteString)
      requires full <= Count(|payload|) == total && number == 1 && seqId == SentId(|payload|, id)
      modifies this`number
      ensures number == full + 1
      ensures r == msg + FirstLines(payload, id, full)
    {
      hide Sentence;
      r := msg;
      var i := 0;
      while i < full
        invariant i <= full && number == i + 1
        invariant r == msg + FirstLines(payload, id, i)
      {
        NextLine(payload, id, i, msg);
        r := EncodePart(r, Sub(payload, MAX_CONTENT * i, MAX_CONTENT));
        number := number + 1;
        i := i + 1;
      }
    }

    method Encode(msg: ByteString) returns (r: ByteString)
      modifies this`total, this`number, this`seqId
      ensures r == msg + Encoded(payload, old(seqId))
      ensures total == Count(|payload|) && seqId == SentId(|payload|, old(seqId)) && number == |payload| / MAX_CONTENT + 1
    {
      hide FirstLines, Sentence, Sub, Count;
      CountParts(|payload|);
      var full := |payload| / MAX_CONTENT;
      total, number := full, 1;
      if |payload| % MAX_CONTENT != 0 {
        total := total + 1;
      }
      if total > 1 && seqId < 0 {
        seqId := 0;
      }
      r := EncodeFull(msg, full, old(seqId));
      if |payload| % MAX_CONTENT != 0 {
        NextLine(payload, old(seqId), full, msg);
        r := EncodePart(r, Sub(payload, MAX_CONTENT * full, MAX_CONTENT));
      }
    }

    method Decode(msg: ByteString) returns (ok: bool)
      modifies this
      ensures ok == DecodeFrom(msg, NOTHING).Some?
      ensures ok ==> Received(total, number, seqId, payload, raw) == DecodeFrom(msg, NOTHING).value
      ensures !ok ==> total == old(total) && number == old(number) && seqId == old(seqId) && payload == old(payload) && raw == old(raw)
    {
      var buf, acc := msg, NOTHING;
      var pos := IndexFrom(buf, LF, 0);
      while pos < |buf|
        invariant pos == IndexFrom(buf, LF, 0) && unchanged(this)
        invariant DecodeFrom(buf, acc) == DecodeFrom(msg, NOTHING)
        decreases |buf|
      {
        var line := buf[..pos + 1];
        if !Verified(line) {
          return false;
        }
        if Sub(line, 0, 7) != HEADER {
          return false;
        }
        var (t, p) := SmallInt(acc.total, line, 8);
        var (n, q) := SmallInt(acc.number, line, p);
        var (s, r) := SmallInt(acc.seqId, line, q);
        var text, next := GetString(line, r);
        acc := Received(t, n, s, acc.payload + text, acc.raw + line);
        buf := buf[pos + 1..];
        pos := IndexFrom(buf, LF, 0);
      }
      total, number, seqId, payload, raw := acc.total, acc.number, acc.seqId, acc.payload, acc.raw;
      return true;
    }
  }
}
