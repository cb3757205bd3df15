/** What `Decode` makes of what `Encode` sent, whole or damaged. */
module Pghp2Proofs {
  import opened Bytes
  import opened Nmea
  import opened Pghp2

  /** A line that `Decode` accepts: one LF, at its end, the header and the right checksum. */
  ghost predicate GoodLine(line: ByteString) {
    && line != [] && line[|line| - 1] == LF
    && (forall k :: 0 <= k < |line| - 1 ==> line[k] != LF)
    && Verified(line) && Sub(line, 0, 7) == HEADER
  }

  lemma SentenceGood(total: int, number: int, seqId: int, chunk: ByteString)
    requires Countable(total) && Countable(number) && (seqId >= 0 ==> Countable(seqId)) && Clean(chunk)
    ensures GoodLine(Sentence(total, number, seqId, chunk))
  {
    hide Body, CheckSum, Verified;
    var body, s := Body(total, number, seqId, chunk), Sentence(total, number, seqId, chunk);
    SentenceVerified(total, number, seqId, chunk);
    BodyLayout(total, number, seqId, chunk);
    BodyClean(total, number, seqId, chunk);
    assert s[..|body|] == body;
    assert Sub(s, 0, 7) == body[..7];
    forall k | 0 <= k < |s| - 1 ensures s[k] != LF {
      if k < |body| { assert s[k] == body[k]; }
    }
  }

  /** The scanners find what the sentence was built from; an absent identifier leaves the old one. */
  lemma SentenceScanned(total: int, number: int, seqId: int, chunk: ByteString, acc: Received)
    requires Countable(total) && Countable(number) && (seqId >= 0 ==> Countable(seqId)) && Clean(chunk)
    ensures var s := Sentence(total, number, seqId, chunk);
            Scan(s, acc) == Received(CounterRead(total), CounterRead(number), if seqId >= 0 then CounterRead(seqId) else acc.seqId,
                                     acc.payload + chunk, acc.raw + s)
  {
    hide Body, CheckSum, Text;
    var body, s := Body(total, number, seqId, chunk), Sentence(total, number, seqId, chunk);
    BodyLayout(total, number, seqId, chunk);
    assert s[..|body|] == body;
    var p := if seqId >= 0 then 14 else 13;
    assert SmallInt(acc.total, s, 8) == (CounterRead(total), 10);
    assert SmallInt(acc.number, s, 10) == (CounterRead(number), 12);
    assert SmallInt(acc.seqId, s, 12) == (if seqId >= 0 then CounterRead(seqId) else acc.seqId, p);
    TextFound(s, p, chunk);
  }

  lemma TextFound(line: ByteString, p: nat, chunk: ByteString)
    requires p + |chunk| + 1 < |line| && line[p..p + |chunk|] == chunk && line[p + |chunk|] == STAR && Clean(chunk)
    ensures Text(line, p) == chunk
  {
  }

  lemma FirstLine(line: ByteString, rest: ByteString)
    requires line != [] && line[|line| - 1] == LF && forall k :: 0 <= k < |line| - 1 ==> line[k] != LF
    ensures IndexFrom(line + rest, LF, 0) == |line| - 1
    ensures (line + rest)[..|line|] == line && (line + rest)[|line|..] == rest
  {
  }

  lemma GoodLineConsumed(line: ByteString, rest: ByteString, acc: Received)
    requires GoodLine(line)
    ensures DecodeFrom(line + rest, acc) == DecodeFrom(rest, Scan(line, acc))
  {
    FirstLine(line, rest);
  }

  // ---------------------------------------------------------------- the round trip

  /** An identifier is absent, or its character is not reserved. */
  predicate Identifier(seqId: int) {
    seqId >= 0 ==> Countable(seqId)
  }

  /** A payload whose sentences the syntax can carry: the character that numbers the 218th is a LF. */
  ghost predicate Sendable(payload: ByteString, seqId: int) {
    Clean(payload) && Identifier(seqId) && Count(|payload|) <= 217
  }

  /** After n sentences: the counters of the last one as they are read, and the payload so far. */
  ghost function Progress(payload: ByteString, seqId: int, n: nat): Received
    requires n <= Count(|payload|)
  {
    var id := SentId(|payload|, seqId);
    Received(if n == 0 then 0 else CounterRead(Count(|payload|)), CounterRead(n),
             if n == 0 || id < 0 then 0 else CounterRead(id),
             FirstChunks(payload, n), FirstLines(payload, seqId, n))
  }

  lemma LineConsumed(payload: ByteString, seqId: int, i: nat, rest: ByteString)
    requires Sendable(payload, seqId) && i < Count(|payload|)
    ensures DecodeFrom(Line(payload, seqId, i) + rest, Progress(payload, seqId, i))
         == DecodeFrom(rest, Progress(payload, seqId, i + 1))
  {
    hide Sentence, DecodeFrom, Scan, GoodLine, CounterRead;
    CountersRead(Count(|payload|));
    CountersRead(i + 1);
    CountersRead(0);
    var total, id, chunk, acc := Count(|payload|), SentId(|payload|, seqId), Chunk(payload, i), Progress(payload, seqId, i);
    SentenceGood(total, i + 1, id, chunk);
    SentenceScanned(total, i + 1, id, chunk, acc);
    GoodLineConsumed(Line(payload, seqId, i), rest, acc);
  }

  /** The first n sentences, whatever follows them, lead to n sentences' worth of progress. */
  lemma {:induction false} LinesConsumed(payload: ByteString, seqId: int, n: nat, rest: ByteString)
    requires Sendable(payload, seqId) && n <= Count(|payload|)
    ensures DecodeFrom(FirstLines(payload, seqId, n) + rest, NOTHING) == DecodeFrom(rest, Progress(payload, seqId, n))
    decreases n
  {
    hide Line, DecodeFrom;
    if n > 0 {
      var line := Line(payload, seqId, n - 1);
      assert FirstLines(payload, seqId, n) + rest == FirstLines(payload, seqId, n - 1) + (line + rest);
      LinesConsumed(payload, seqId, n - 1, line + rest);
      LineConsumed(payload, seqId, n - 1, rest);
    } else {
      assert FirstLines(payload, seqId, 0) + rest == rest;
    }
  }

  /** Encode then Decode, for every clean payload of at most 217 sentences. */
  lemma RoundTrip(payload: ByteString, seqId: int)
    requires Sendable(payload, seqId)
    ensures var n := Count(|payload|);
            var identifier := if n == 0 || seqId < 0 then 0 else CounterRead(seqId);
            DecodeFrom(Encoded(payload, seqId), NOTHING) == Some(Received(CounterRead(n), CounterRead(n), identifier, payload, Encoded(payload, seqId)))
  {
    hide Line, Scan, DecodeFrom;
    var n := Count(|payload|);
    Segmentation(payload, n);
    LinesConsumed(payload, seqId, n, []);
    NothingLeft(Progress(payload, seqId, n));
    assert FirstLines(payload, seqId, n) + [] == Encoded(payload, seqId);
  }

  /** Sentence i of N, counted from 0, carries total N, number i + 1, bytes 512 i to 512 (i + 1) of the
      payload, and the identifier; one of several sentences without an identifier has identifier 0. */
  lemma SentenceExact(payload: ByteString, seqId: int, i: nat, acc: Received)
    requires Sendable(payload, seqId) && i < Count(|payload|)
    ensures var line, n, end := Line(payload, seqId, i), (|payload| + 511) / 512, if 512 * (i + 1) < |payload| then 512 * (i + 1) else |payload|;
            && Count(|payload|) == n
            && Scan(line, acc).total == CounterRead(n) && Scan(line, acc).number == CounterRead(i + 1)
            && Scan(line, acc).payload == acc.payload + payload[512 * i..end]
            && Scan(line, acc).seqId == (if seqId >= 0 then CounterRead(seqId) else if n > 1 then 0 else acc.seqId)
  {
    hide Sentence, Scan, CounterRead;
    CountersRead(Count(|payload|));
    CountersRead(i + 1);
    CountersRead(0);
    SentenceScanned(Count(|payload|), i + 1, SentId(|payload|, seqId), Chunk(payload, i), acc);
  }

  /** A line without the header is refused, whatever its checksum. */
  lemma WrongHeaderRefused(line: ByteString, rest: ByteString, acc: Received)
    requires line != [] && line[|line| - 1] == LF && forall k :: 0 <= k < |line| - 1 ==> line[k] != LF
    requires |line| < 7 || line[..7] != Ascii("$PGHP,2")
    ensures DecodeFrom(line + rest, acc) == None
  {
    hide Scan, Verified;
    FirstLine(line, rest);
  }

  /** What follows the last line feed is ignored. */
  lemma RestIgnored(rest: ByteString, acc: Received)
    requires LF !in rest
    ensures DecodeFrom(rest, acc) == Some(acc)
  {
  }

  lemma NothingLeft(acc: Received)
    ensures DecodeFrom([], acc) == Some(acc)
  {
  }

  /** No line can announce more than 79 sentences: a char is signed. */
  lemma {:induction false} AnnouncedTotal(buf: ByteString, acc: Received)
    requires acc.total <= 79
    ensures DecodeFrom(buf, acc).Some? ==> DecodeFrom(buf, acc).value.total <= 79
    decreases |buf|
  {
    hide Scan, Verified, Sub;
    var pos := IndexFrom(buf, LF, 0);
    if pos < |buf| {
      ScanTotal(buf[..pos + 1], acc);
      AnnouncedTotal(buf[pos + 1..], Scan(buf[..pos + 1], acc));
    }
  }

  lemma ScanTotal(line: ByteString, acc: Received)
    requires acc.total <= 79
    ensures Scan(line, acc).total <= 79
  {
    hide Text;
  }

  /** What a scanner takes from a line is clean. */
  lemma TextClean(line: ByteString, start: nat)
    requires line != [] && forall k :: 0 <= k < |line| - 1 ==> line[k] != LF
    ensures Clean(Text(line, start))
  {
  }

  lemma ScanClean(line: ByteString, acc: Received)
    requires line != [] && (forall k :: 0 <= k < |line| - 1 ==> line[k] != LF) && Clean(acc.payload)
    ensures Clean(Scan(line, acc).payload)
  {
    hide Text;
    var (total, p) := SmallInt(acc.total, line, 8);
    var (number, q) := SmallInt(acc.number, line, p);
    var (seqId, r) := SmallInt(acc.seqId, line, q);
    TextClean(line, r);
  }

  /** So `Decode` never yields a payload that is not clean. */
  lemma {:induction false} DecodedClean(buf: ByteString, acc: Received)
    requires Clean(acc.payload)
    ensures DecodeFrom(buf, acc).Some? ==> Clean(DecodeFrom(buf, acc).value.payload)
    decreases |buf|
  {
    hide Scan, Verified, Sub, Clean;
    var pos := IndexFrom(buf, LF, 0);
    if pos < |buf| {
      ScanClean(buf[..pos + 1], acc);
      DecodedClean(buf[pos + 1..], Scan(buf[..pos + 1], acc));
    }
  }

  /** So payload and number of sentences survive together exactly up to 79, for a clean payload. */
  lemma RoundTripIff(payload: ByteString, seqId: int)
    requires Identifier(seqId)
    ensures var r := DecodeFrom(Encoded(payload, seqId), NOTHING);
            r.Some? && r.value.payload == payload && r.value.total == Count(|payload|) <==> Clean(payload) && Count(|payload|) <= 79
  {
    hide DecodeFrom, Encoded;
    CountersRead(Count(|payload|));
    DecodedClean(Encoded(payload, seqId), NOTHING);
    if Clean(payload) && Count(|payload|) <= 79 {
      RoundTrip(payload, seqId);
    } else {
      AnnouncedTotal(Encoded(payload, seqId), NOTHING);
    }
  }

  // ---------------------------------------------------------------- too many sentences

  /** With 218 sentences or more, a line feed stands where sentence 218 has its number. */
  lemma BrokenSentence(total: int, number: int, seqId: int, chunk: ByteString, rest: ByteString, acc: Received)
    requires CounterChar(total) == LF || CounterChar(number) == LF
    ensures DecodeFrom(Sentence(total, number, seqId, chunk) + rest, acc) == None
  {
    hide Body, CheckSum, Scan;
    var s, at := Sentence(total, number, seqId, chunk), if CounterChar(total) == LF then 8 else 10;
    var body := Body(total, number, seqId, chunk);
    BodyLayout(total, number, seqId, chunk);
    assert s[..|body|] == body && body[..7] == HEADER;
    assert forall k :: 0 <= k < 7 ==> s[k] == HEADER[k];
    var line := s[..at + 1];
    FirstLine(line, s[at + 1..] + rest);
    assert line + (s[at + 1..] + rest) == s + rest;
    BrokenLine(line);
  }

  /** Before such a line feed there is no star, or none that a checksum follows. */
  lemma BrokenLine(line: ByteString)
    requires |line| == 9 || |line| == 11
    requires forall k :: 0 <= k < 8 ==> line[k] != STAR
    requires |line| == 9 ==> line[8] == LF
    requires |line| == 11 ==> line[9] == COMMA && line[10] == LF
    ensures !Verified(line)
  {
    hide CheckSum;
    if |line| == 11 && line[8] == STAR {
      IndexUnique(line, STAR, 0, 8);
      assert Sub(line, 9, 2)[0] == COMMA;
    } else {
      IndexUnique(line, STAR, 0, |line|);
    }
  }

  lemma SentenceEnds(total: int, number: int, seqId: int, chunk: ByteString)
    requires CounterChar(total) != LF && CounterChar(number) != LF && Identifier(seqId) && Clean(chunk)
    ensures var s := Sentence(total, number, seqId, chunk);
            s != [] && s[|s| - 1] == LF && forall k :: 0 <= k < |s| - 1 ==> s[k] != LF
  {
    hide CheckSum;
  }

  lemma ChunkClean(payload: ByteString, i: nat)
    requires Clean(payload) && i < Count(|payload|)
    ensures Clean(Chunk(payload, i))
  {
  }

  lemma RefusedLater(line: ByteString, rest: ByteString, acc: Received)
    requires line != [] && line[|line| - 1] == LF && forall k :: 0 <= k < |line| - 1 ==> line[k] != LF
    requires DecodeFrom(rest, Scan(line, acc)) == None
    ensures DecodeFrom(line + rest, acc) == None
  {
    hide Scan, Verified;
    FirstLine(line, rest);
  }

  /** From sentence k on, nothing that follows can be decoded. */
  lemma {:induction false} RemainingRefused(payload: ByteString, seqId: int, k: nat, acc: Received)
    requires Clean(payload) && Identifier(seqId) && Count(|payload|) > 217 && k <= 217
    requires CounterChar(Count(|payload|)) == LF ==> k == 0
    ensures DecodeFrom(Remaining(payload, seqId, k), acc) == None
    decreases 217 - k
  {
    hide Sentence, Scan, DecodeFrom, FirstLines, Chunk, CounterRead, Clean;
    var total, id, chunk := Count(|payload|), SentId(|payload|, seqId), Chunk(payload, k);
    var line, rest := Line(payload, seqId, k), Remaining(payload, seqId, k + 1);
    CountersRead(k + 1);
    if CounterChar(total) == LF || k == 217 {
      BrokenSentence(total, k + 1, id, chunk, rest, acc);
    } else {
      ChunkClean(payload, k);
      SentenceEnds(total, k + 1, id, chunk);
      RemainingRefused(payload, seqId, k + 1, Scan(line, acc));
      RefusedLater(line, rest, acc);
    }
  }

  /** So a payload survives exactly if it is clean and has at most 217 sentences; longer ones are refused. */
  lemma PayloadIff(payload: ByteString, seqId: int)
    requires Identifier(seqId)
    ensures var r := DecodeFrom(Encoded(payload, seqId), NOTHING);
            && (r.Some? && r.value.payload == payload <==> Clean(payload) && Count(|payload|) <= 217)
            && (Clean(payload) && Count(|payload|) > 217 ==> r == None)
  {
    hide DecodeFrom, Encoded, Remaining;
    DecodedClean(Encoded(payload, seqId), NOTHING);
    if Clean(payload) {
      if Count(|payload|) <= 217 {
        RoundTrip(payload, seqId);
      } else {
        RemainingRefused(payload, seqId, 0, NOTHING);
        EncodedSplit(payload, seqId, 0);
        assert FirstLines(payload, seqId, 0) + Remaining(payload, seqId, 0) == Remaining(payload, seqId, 0);
      }
    }
  }

  // ---------------------------------------------------------------- one damaged byte

  /** A line with one byte between '$' and its star replaced, by anything but a star, is rejected. */
  lemma DamagedLine(body: ByteString, tail: ByteString, k: nat, b: Byte, rest: ByteString, acc: Received)
    requires |body| > 1 && body[0] == DOLLAR && body[|body| - 1] == STAR
    requires forall i :: 0 <= i < |body| - 1 ==> body[i] != STAR && body[i] != LF
    requires tail == HexByte(CheckSum(body, |body|)) + [CR, LF]
    requires 0 < k < |body| - 1 && b != STAR && b != body[k]
    ensures DecodeFrom((body + tail)[k := b] + rest, acc) == None
  {
    hide CheckSum, Scan;
    var damaged: ByteString := (body + tail)[k := b];
    assert damaged == body[k := b] + tail;
    if b == LF {
      var line := damaged[..k + 1];
      FirstLine(line, damaged[k + 1..] + rest);
      assert line + (damaged[k + 1..] + rest) == damaged + rest;
      IndexUnique(line, STAR, 0, |line|);
    } else {
      FirstLine(damaged, rest);
      DamagedChecksum(body, k, b, tail);
    }
  }

  lemma DamagedChecksum(body: ByteString, k: nat, b: Byte, tail: ByteString)
    requires |body| > 1 && body[0] == DOLLAR && body[|body| - 1] == STAR && |tail| >= 2
    requires forall i :: 0 <= i < |body| - 1 ==> body[i] != STAR
    requires 0 < k < |body| - 1 && b != STAR && b != body[k]
    requires tail[..2] == HexByte(CheckSum(body, |body|))
    ensures !Verified(body[k := b] + tail)
  {
    hide Verified, CheckSum, Fold, HexByte;
    var n, damaged: ByteString := |body| - 1, body[k := b];
    VerifiedIff(body, tail);
    VerifiedIff(damaged, tail);
    assert damaged[1..n] == body[1..n][k - 1 := b];
    FoldDetects(body[1..n], k - 1, b);
    if HexByte(Fold(body[1..n])) == HexByte(Fold(damaged[1..n])) {
      HexByteInjective(Fold(body[1..n]), Fold(damaged[1..n]));
    }
  }

  lemma DamagedSentence(total: int, number: int, seqId: int, chunk: ByteString, k: nat, b: Byte, rest: ByteString, acc: Received)
    requires Countable(total) && Countable(number) && Identifier(seqId) && Clean(chunk)
    requires var s := Sentence(total, number, seqId, chunk); 0 < k < IndexFrom(s, STAR, 0) && b != STAR && b != s[k]
    ensures DecodeFrom(Sentence(total, number, seqId, chunk)[k := b] + rest, acc) == None
  {
    hide Body, CheckSum, DecodeFrom, Countable, Clean, HexByte;
    var body := Body(total, number, seqId, chunk);
    var tail := HexByte(CheckSum(body, |body|)) + [CR, LF];
    BodyLayout(total, number, seqId, chunk);
    BodyClean(total, number, seqId, chunk);
    assert Sentence(total, number, seqId, chunk) == body + tail;
    IndexUnique(body + tail, STAR, 0, |body| - 1);
    assert body[0] == body[..7][0];
    DamagedLine(body, tail, k, b, rest, acc);
  }

  lemma DamagedSent(payload: ByteString, seqId: int, i: nat, k: nat, b: Byte, rest: ByteString, acc: Received)
    requires Sendable(payload, seqId) && i < Count(|payload|)
    requires 0 < k < IndexFrom(Line(payload, seqId, i), STAR, 0) && b != STAR && b != Line(payload, seqId, i)[k]
    ensures DecodeFrom(Line(payload, seqId, i)[k := b] + rest, acc) == None
  {
    hide Sentence, DecodeFrom, Countable;
    CountersRead(Count(|payload|));
    CountersRead(i + 1);
    CountersRead(0);
    DamagedSentence(Count(|payload|), i + 1, SentId(|payload|, seqId), Chunk(payload, i), k, b, rest, acc);
  }

  /** What follows the first n sentences of an encoded message. */
  ghost function Remaining(payload: ByteString, seqId: int, n: nat): ByteString
    requires n <= Count(|payload|)
    decreases Count(|payload|) - n
  {
    if n == Count(|payload|) then [] else Line(payload, seqId, n) + Remaining(payload, seqId, n + 1)
  }

  lemma {:induction false} EncodedSplit(payload: ByteString, seqId: int, n: nat)
    requires n <= Count(|payload|)
    ensures Encoded(payload, seqId) == FirstLines(payload, seqId, n) + Remaining(payload, seqId, n)
    decreases Count(|payload|) - n
  {
    hide Line;
    if n < Count(|payload|) {
      EncodedSplit(payload, seqId, n + 1);
    }
  }

  /** Damage between '$' and '*' of any sentence of any message makes Decode fail. */
  lemma DamageDetected(payload: ByteString, seqId: int, i: nat, k: nat, b: Byte)
    requires Sendable(payload, seqId) && i < Count(|payload|)
    requires 0 < k < IndexFrom(Line(payload, seqId, i), STAR, 0) && b != STAR && b != Line(payload, seqId, i)[k]
    ensures var p := |FirstLines(payload, seqId, i)| + k;
            && p < |Encoded(payload, seqId)|
            && DecodeFrom(Encoded(payload, seqId)[p := b], NOTHING) == None
  {
    hide Line, DecodeFrom;
    var before, line, after := FirstLines(payload, seqId, i), Line(payload, seqId, i), Remaining(payload, seqId, i + 1);
    EncodedSplit(payload, seqId, i);
    var damaged: ByteString := line[k := b];
    var whole: ByteString := before + (line + after);
    assert whole[|before| + k := b] == before + (damaged + after);
    LinesConsumed(payload, seqId, i, damaged + after);
    DamagedSent(payload, seqId, i, k, b, after, Progress(payload, seqId, i));
  }
}
