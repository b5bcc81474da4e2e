/**
 * Lib/Protocol.c: sending and receiving framed messages, and the encoder and
 * decoder of each payload.  An encoder fills a buffer while it advances an
 * offset, a decoder checks every length against the buffer's size before it
 * reads; module Payload says what the bytes mean.
 */
module Protocol {
  import opened Config
  import opened Framing
  import opened NetworkLib
  import opened Payload

  const MSG_PUT: Byte := 1
  const MSG_PUT_RESPONSE: Byte := 2
  const MSG_GET: Byte := 3
  const MSG_GET_RESPONSE: Byte := 4
  const MSG_STORE_REQUEST: Byte := 10
  const MSG_STORE_RESPONSE: Byte := 11
  const MSG_RETRIEVE_REQUEST: Byte := 12
  const MSG_RETRIEVE_RESPONSE: Byte := 13
  const MSG_WORKER_ENTRY: Byte := 14
  const MSG_DATA_EXPORT_START: Byte := 15
  const MSG_DATA_ENTRY: Byte := 16
  const MSG_DATA_EXPORT_END: Byte := 17
  const MSG_WORKER_READY: Byte := 18
  const MSG_PEER_NOTIFY: Byte := 30
  const MSG_SHUTDOWN: Byte := 90
  const MSG_ERROR: Byte := 91

  const ERR_NONE: Byte := 0
  const ERR_KEY_NOT_FOUND: Byte := 3
  const ERR_NETWORK_ERROR: Byte := 5

  type CString = s: Bytes | IsCString(s)

  predicate ValidateKey(key: Bytes) {
    0 < |key| <= MAX_KEY_SIZE
  }

  predicate ValidateValue(value: Bytes) {
    |value| <= MAX_VALUE_SIZE
  }

  // ===== Framed messages

  /**
   * Either the whole frame went out and its size is returned, or a call of send
   * failed after a part of it, and a lost connection is told from other failures.
   */
  ghost predicate Sent(c: Connection, before: Bytes, results: seq<int>, m: Message, r: int)
    reads c
  {
    && |m.payload| < 0x1_0000
    && (if r > 0 then r == |Frame(m)| && c.outgoing == before + Frame(m)
        else (r == -1 || r == -2 || r == -3) && SentPart(before, c.outgoing, Frame(m)))
    && (r > 0 <==> c.isOpen && |m.payload| <= MAX_MESSAGE_SIZE && !Failed(results, c.results))
    && Blamed(results, c.results, r)
  }

  /** The results -2 and -3 are those of the last call, and are never replaced by another. */
  predicate Blamed(before: seq<int>, after: seq<int>, r: int) {
    && (r == -2 || r == -3 ==> EndsWith(before, after, r))
    && (r == -1 ==> !EndsWith(before, after, -2) && !EndsWith(before, after, -3))
  }

  ghost predicate SentPart(before: Bytes, after: Bytes, frame: Bytes) {
    |before| <= |after| < |before| + |frame| && after == before + frame[..|after| - |before|]
  }

  method SendHeader(c: Connection, messageType: Byte, size: nat) returns (r: int)
    requires size < 0x1_0000
    modifies c`outgoing, c`results
    ensures r == 0 || r == -1 || r == -2 || r == -3
    ensures r == 0 ==> c.outgoing == old(c.outgoing) + ([messageType] + Bytes16(size))
    ensures r != 0 ==> SentPart(old(c.outgoing), c.outgoing, [messageType] + Bytes16(size))
    ensures r == 0 <==> c.isOpen && !Failed(old(c.results), c.results)
    ensures old(c.results) <= c.results && Blamed(old(c.results), c.results, r)
    ensures r == 0 ==> |old(c.results)| < |c.results| && c.results[|c.results| - 1] > 0
  {
    var header := new Byte[3];
    header[0], header[1], header[2] := messageType, size / 0x100, size % 0x100;
    assert header[..3] == [messageType] + Bytes16(size);
    r := SendBuffer(c, header, 3);
    if r != 0 {
      ghost var n :| 0 <= n < 3 && c.outgoing == old(c.outgoing) + header[..n];
      assert header[..n] == header[..3][..n];
    }
  }

  lemma PartOfPayload(before: Bytes, after: Bytes, header: Bytes, payload: Bytes, n: nat)
    requires n < |payload| && after == (before + header) + payload[..n]
    ensures SentPart(before, after, header + payload)
  {
    assert (header + payload)[..|header| + n] == header + payload[..n];
    assert (before + header) + payload[..n] == before + (header + payload[..n]);
  }

  method ProtocolSend(c: Connection, messageType: Byte, data: array<Byte>, size: nat) returns (r: int)
    requires size <= data.Length && size < 0x1_0000
    modifies c`outgoing, c`results
    ensures Sent(c, old(c.outgoing), old(c.results), Message(messageType, data[..size]), r)
    ensures r > 0 ==> size <= MAX_MESSAGE_SIZE
  {
    if !c.isOpen || size > MAX_MESSAGE_SIZE {
      return -1;
    }
    hide Failed, Bytes16;
    ghost var results := c.results;
    ghost var before, header, payload := c.outgoing, [messageType] + Bytes16(size), data[..size];
    var sendResult := SendHeader(c, messageType, size);
    if sendResult != 0 {
      ghost var n := |c.outgoing| - |before|;
      assert (header + payload)[..n] == header[..n];
      return sendResult;
    }
    if size > 0 {
      ghost var between := c.results;
      sendResult := SendBuffer(c, data, size);
      LaterDecides(results, between, c.results);
      if sendResult != 0 {
        ghost var n :| 0 <= n < size && c.outgoing == (before + header) + data[..n];
        assert data[..n] == payload[..n];
        PartOfPayload(before, c.outgoing, header, payload, n);
        return sendResult;
      }
      assert (before + header) + payload == before + (header + payload);
    } else {
      assert header + payload == header;
    }
    r := 3 + size;
  }

  method ReceiveHeader(c: Connection) returns (r: int, messageType: Byte, size: nat)
    modifies c`incoming, c`results
    ensures r == 0 || r == -1 || r == -2 || r == -3
    ensures exists n :: 0 <= n <= |old(c.incoming)| && c.incoming == old(c.incoming)[n..]
    ensures size < 0x1_0000
    ensures r == 0 ==> old(c.incoming) == ([messageType] + Bytes16(size)) + c.incoming
    ensures r == 0 <==> c.isOpen && !Failed(old(c.results), c.results)
    ensures old(c.results) <= c.results && Blamed(old(c.results), c.results, r)
    ensures r == 0 ==> |old(c.results)| < |c.results| && c.results[|c.results| - 1] > 0
  {
    messageType, size := 0, 0;
    var header := new Byte[3];
    r := ReceiveBuffer(c, header, 3);
    if r == 0 {
      messageType, size := header[0], Value16(header[1..]);
      assert header[..3] == [messageType] + header[1..] == [messageType] + header[1..][..2];
    }
  }

  method ProtocolReceive(c: Connection, buffer: array<Byte>, bufferSize: nat)
    returns (r: int, messageType: Byte, actualSize: nat)
    requires bufferSize <= buffer.Length
    modifies c`incoming, c`results, buffer
    ensures -4 <= r <= 0
    ensures exists n :: 0 <= n <= |old(c.incoming)| && c.incoming == old(c.incoming)[n..]
    ensures r == 0 ==> messageType != 0 && actualSize <= bufferSize && actualSize <= 4 * MAX_MESSAGE_SIZE
    ensures r == 0 ==> old(c.incoming) == Frame(Message(messageType, buffer[..actualSize])) + c.incoming
    ensures r == -4 ==> messageType == 0 || actualSize > 4 * MAX_MESSAGE_SIZE
    ensures r == -4 ==> actualSize < 0x1_0000 &&
                        old(c.incoming) == ([messageType] + Bytes16(actualSize)) + c.incoming
    ensures old(c.results) <= c.results && Blamed(old(c.results), c.results, r)
    ensures r == 0 ==> c.isOpen && !Failed(old(c.results), c.results)
    ensures r != 0 && r != -4 && c.isOpen && !Failed(old(c.results), c.results) ==>
              && bufferSize < actualSize < 0x1_0000
              && old(c.incoming) == ([messageType] + Bytes16(actualSize)) + c.incoming
  {
    hide Failed, Bytes16;
    ghost var stream, results := c.incoming, c.results;
    r, messageType, actualSize := ReceiveHeader(c);
    if r != 0 {
      return;
    }
    ghost var header, rest := [messageType] + Bytes16(actualSize), c.incoming;
    if messageType == 0 {
      return -4, messageType, actualSize;
    }
    if actualSize > MAX_MESSAGE_SIZE * 4 {
      return -4, messageType, actualSize;
    }
    if actualSize > 0 {
      if actualSize > bufferSize {
        return -1, messageType, actualSize;
      }
      ghost var between := c.results;
      r := ReceiveBuffer(c, buffer, actualSize);
      LaterDecides(results, between, c.results);
      ghost var n :| 0 <= n <= |rest| && c.incoming == rest[n..];
      assert c.incoming == stream[3 + n..];
      if r != 0 {
        return;
      }
      Regroup(header, buffer[..actualSize], c.incoming);
    } else {
      assert header + buffer[..0] == header;
    }
  }

  /** The stream began with a header that ProtocolSend never sends. */
  ghost predicate IsBadHeader(stream: Bytes, rest: Bytes, messageType: Byte, size: nat) {
    && size < 0x1_0000 && stream == ([messageType] + Bytes16(size)) + rest
    && (messageType == 0 || size > MAX_MESSAGE_SIZE)
  }

  method ReceiveMessage(c: Connection, buffer: array<Byte>) returns (r: int, m: Message)
    requires buffer.Length == MAX_MESSAGE_SIZE
    modifies c`incoming, c`results, buffer
    ensures r == 0 ==> m.Sendable() && old(c.incoming) == Frame(m) + c.incoming
    ensures old(c.results) <= c.results
    ensures r != 0 && c.isOpen && !Failed(old(c.results), c.results) ==>
              exists messageType, size :: IsBadHeader(old(c.incoming), c.incoming, messageType, size)
  {
    var messageType, size;
    r, messageType, size := ProtocolReceive(c, buffer, MAX_MESSAGE_SIZE);
    assert c.isOpen && r != 0 && !Failed(old(c.results), c.results) ==>
        IsBadHeader(old(c.incoming), c.incoming, messageType, size);
    m := Message(messageType, if r == 0 then buffer[..size] else []);
  }

  lemma OneMoreReceived(whole: Bytes, got: seq<Message>, m: Message, rest: Bytes)
    requires AllSendable(got) && m.Sendable() && whole == Stream(got) + (Frame(m) + rest)
    ensures whole == Stream(got + [m]) + rest
  {
    hide Frame, Stream;
    StreamAppend(got, m);
    assert Stream(got) + (Frame(m) + rest) == (Stream(got) + Frame(m)) + rest;
  }

  /** Whatever is left of the stream begins with a header that ProtocolSend does send. */
  lemma SentHeaderIsGood(
    ms: seq<Message>, last: Message, part: nat, messageType: Byte, size: nat, rest: Bytes)
    requires AllSendable(ms) && last.Sendable() && part < |Frame(last)| && size < 0x1_0000
    requires Stream(ms) + Frame(last)[..part] == ([messageType] + Bytes16(size)) + rest
    ensures messageType != 0 && size <= MAX_MESSAGE_SIZE
  {
    var stream, first := Stream(ms) + Frame(last)[..part], if ms == [] then last else ms[0];
    assert stream[..3] == [messageType] + Bytes16(size);
    assert ms != [] ==> stream[..3] == Frame(first)[..3];
    assert stream[..3][0] == first.messageType && stream[..3][1..] == Bytes16(size) == Bytes16(|first.payload|);
    assert Value16(Bytes16(size)) == Value16(Bytes16(|first.payload|));
  }

  /**
   * The receive loop of the threads, until a call fails or `limit` messages have
   * come in.  The stream holds what a peer sent, perhaps cut off in the middle of
   * a last frame, and arrives in pieces of any size.
   */
  method ReceiveMessages(c: Connection, limit: nat, ghost sent: seq<Message>, ghost last: Message, ghost part: nat)
    returns (got: seq<Message>)
    requires AllSendable(sent) && last.Sendable() && part < |Frame(last)|
    requires c.incoming == Stream(sent) + Frame(last)[..part]
    modifies c`incoming, c`results
    ensures AllSendable(got) && got <= sent && |got| <= limit
    ensures |got| < limit ==> !c.isOpen || Failed(old(c.results), c.results)
  {
    got := [];
    ghost var whole, rest := c.incoming, c.incoming;
    assert whole == Stream(got) + rest;
    hide Frame, Stream;
    var buffer := new Byte[MAX_MESSAGE_SIZE];
    var r := 0;
    while r == 0 && |got| < limit
      invariant AllSendable(got) && whole == Stream(got) + rest
      invariant r == 0 ==> c.incoming == rest
      invariant |got| <= limit && old(c.results) <= c.results
      invariant r != 0 ==> !c.isOpen || Failed(old(c.results), c.results)
      decreases r == 0, limit - |got|
    {
      ReceivedIsPrefix(sent, last, part, got, rest);
      forall messageType: Byte, size: nat, left: Bytes
        | size < 0x1_0000 && rest == ([messageType] + Bytes16(size)) + left
        ensures !IsBadHeader(rest, left, messageType, size)
      {
        SentHeaderIsGood(sent[|got|..], last, part, messageType, size, left);
      }
      var m;
      r, m := ReceiveMessage(c, buffer);
      if r == 0 {
        OneMoreReceived(whole, got, m, c.incoming);
        got, rest := got + [m], c.incoming;
      }
    }
    ReceivedIsPrefix(sent, last, part, got, rest);
  }

  // ===== Filling a buffer

  ghost predicate Holds(buffer: array<Byte>, offset: nat, fields: seq<Field>)
    reads buffer
  {
    && offset <= buffer.Length
    && (forall i :: 0 <= i < |fields| ==> Encodable(fields[i]))
    && buffer[..offset] == Encode(fields)
  }

  /** memcpy to the buffer at an offset. */
  method Copy(buffer: array<Byte>, offset: nat, bytes: Bytes)
    requires offset + |bytes| <= buffer.Length
    modifies buffer
    ensures buffer[..offset + |bytes|] == old(buffer[..offset]) + bytes
  {
    forall i | 0 <= i < |bytes| {
      buffer[offset + i] := bytes[i];
    }
  }

  method WriteUInt8(buffer: array<Byte>, offset: nat, v: Byte, ghost fields: seq<Field>) returns (next: nat)
    requires Holds(buffer, offset, fields) && offset + 1 <= buffer.Length
    modifies buffer
    ensures next == offset + 1 && Holds(buffer, next, fields + [F8(v)])
  {
    EncodeAppend(fields, F8(v));
    Copy(buffer, offset, [v]);
    next := offset + 1;
  }

  method WriteUInt16(buffer: array<Byte>, offset: nat, v: nat, ghost fields: seq<Field>) returns (next: nat)
    requires Holds(buffer, offset, fields) && offset + 2 <= buffer.Length && v < 0x1_0000
    modifies buffer
    ensures next == offset + 2 && Holds(buffer, next, fields + [F16(v)])
  {
    EncodeAppend(fields, F16(v));
    Copy(buffer, offset, Bytes16(v));
    next := offset + 2;
  }

  method WriteUInt32(buffer: array<Byte>, offset: nat, v: nat, ghost fields: seq<Field>) returns (next: nat)
    requires Holds(buffer, offset, fields) && offset + 4 <= buffer.Length && v < 0x1_0000_0000
    modifies buffer
    ensures next == offset + 4 && Holds(buffer, next, fields + [F32(v)])
  {
    EncodeAppend(fields, F32(v));
    Copy(buffer, offset, Bytes32(v));
    next := offset + 4;
  }

  /** The length of a string as two bytes, then WriteString. */
  method WriteText(buffer: array<Byte>, offset: nat, s: Bytes, ghost fields: seq<Field>) returns (next: nat)
    requires Holds(buffer, offset, fields) && offset + 2 + |s| <= buffer.Length && |s| < 0x1_0000
    modifies buffer
    ensures next == offset + 2 + |s| && Holds(buffer, next, fields + [Str(s)])
  {
    ghost var before, length := Encode(fields), Bytes16(|s|);
    Copy(buffer, offset, Bytes16(|s|));
    assert buffer[..offset + 2] == before + length;
    Copy(buffer, offset + 2, s);
    next := offset + 2 + |s|;
    assert buffer[..next] == (before + length) + s == before + (length + s);
    EncodeAppend(fields, Str(s));
  }

  // ===== Reading a buffer

  /** The first fields of a payload have been read as `done`, and `rest` is what remains of it. */
  ghost predicate Reading(kinds: seq<Kind>, payload: Bytes, done: seq<Field>, rest: Bytes) {
    |done| <= |kinds| && Parse(kinds, payload) == Prepend(done, Parse(kinds[|done|..], rest))
  }

  lemma ReadingOn(kinds: seq<Kind>, payload: Bytes, done: seq<Field>, rest: Bytes)
    requires Reading(kinds, payload, done, rest) && |done| < |kinds|
    ensures match Read(kinds[|done|], rest)
      case None => Parse(kinds, payload) == None
      case Some((f, n)) =>
        && Reading(kinds, payload, done + [f], rest[n..])
        && (|done| + 1 == |kinds| ==> Parse(kinds, payload) == Some(done + [f]))
  {
    var ks := kinds[|done|..];
    assert ks[0] == kinds[|done|] && ks[1..] == kinds[|done| + 1..];
    if Read(ks[0], rest).Some? {
      var (f, n) := Read(ks[0], rest).value;
      PrependTwice(done, f, Parse(ks[1..], rest[n..]));
      if |ks| == 1 {
        PrependTwice(done, f, Some([]));
      }
    }
  }

  lemma PrependTwice(done: seq<Field>, f: Field, rest: Option<seq<Field>>)
    ensures Prepend(done, Prepend([f], rest)) == Prepend(done + [f], rest)
    ensures rest == Some([]) ==> Prepend(done + [f], rest) == Some(done + [f])
  {
    if rest.Some? {
      assert done + ([f] + rest.value) == (done + [f]) + rest.value;
      assert rest.value == [] ==> (done + [f]) + rest.value == done + [f];
    }
  }

  lemma ReadingStarts(kinds: seq<Kind>, payload: Bytes)
    ensures Reading(kinds, payload, [], payload)
  {
    assert kinds[0..] == kinds;
    if Parse(kinds, payload).Some? {
      assert [] + Parse(kinds, payload).value == Parse(kinds, payload).value;
    }
  }

  method ReadUInt8(buffer: array<Byte>, size: nat, offset: nat, ghost kinds: seq<Kind>, ghost done: seq<Field>)
    returns (ok: bool, v: Byte, next: nat)
    requires offset <= size <= buffer.Length && Reading(kinds, buffer[..size], done, buffer[offset..size])
    requires |done| < |kinds| && kinds[|done|] == U8
    ensures ok ==> next <= size && Reading(kinds, buffer[..size], done + [F8(v)], buffer[next..size])
    ensures ok && |done| + 1 == |kinds| ==> Parse(kinds, buffer[..size]) == Some(done + [F8(v)])
    ensures !ok ==> Parse(kinds, buffer[..size]) == None
  {
    hide Parse, Reading;
    ok, v, next := false, 0, offset;
    ReadingOn(kinds, buffer[..size], done, buffer[offset..size]);
    if offset + 1 > size {
      return;
    }
    ok, v, next := true, buffer[offset], offset + 1;
    assert buffer[offset..size][1..] == buffer[next..size];
  }

  method ReadUInt16(buffer: array<Byte>, size: nat, offset: nat, ghost kinds: seq<Kind>, ghost done: seq<Field>)
    returns (ok: bool, v: nat, next: nat)
    requires offset <= size <= buffer.Length && Reading(kinds, buffer[..size], done, buffer[offset..size])
    requires |done| < |kinds| && kinds[|done|] == U16
    ensures ok ==> next <= size && Reading(kinds, buffer[..size], done + [F16(v)], buffer[next..size])
    ensures ok && |done| + 1 == |kinds| ==> Parse(kinds, buffer[..size]) == Some(done + [F16(v)])
    ensures !ok ==> Parse(kinds, buffer[..size]) == None
  {
    hide Parse, Reading;
    ok, v, next := false, 0, offset;
    ReadingOn(kinds, buffer[..size], done, buffer[offset..size]);
    if offset + 2 > size {
      return;
    }
    ok, v, next := true, Value16(buffer[offset..size]), offset + 2;
    assert buffer[offset..size][2..] == buffer[next..size];
  }

  method ReadUInt32(buffer: array<Byte>, size: nat, offset: nat, ghost kinds: seq<Kind>, ghost done: seq<Field>)
    returns (ok: bool, v: nat, next: nat)
    requires offset <= size <= buffer.Length && Reading(kinds, buffer[..size], done, buffer[offset..size])
    requires |done| < |kinds| && kinds[|done|] == U32
    ensures ok ==> next <= size && Reading(kinds, buffer[..size], done + [F32(v)], buffer[next..size])
    ensures ok && |done| + 1 == |kinds| ==> Parse(kinds, buffer[..size]) == Some(done + [F32(v)])
    ensures !ok ==> Parse(kinds, buffer[..size]) == None
  {
    hide Parse, Reading;
    ok, v, next := false, 0, offset;
    ReadingOn(kinds, buffer[..size], done, buffer[offset..size]);
    if offset + 4 > size {
      return;
    }
    ok, v, next := true, Value32(buffer[offset..size]), offset + 4;
    assert buffer[offset..size][4..] == buffer[next..size];
  }

  /** A length, checked against `max` and the buffer's size, then ReadString. */
  method ReadText(buffer: array<Byte>, size: nat, offset: nat, max: nat, ghost kinds: seq<Kind>, ghost done: seq<Field>)
    returns (ok: bool, s: Bytes, next: nat)
    requires offset <= size <= buffer.Length && Reading(kinds, buffer[..size], done, buffer[offset..size])
    requires |done| < |kinds| && kinds[|done|] == Text(max)
    ensures ok ==> next <= size && Reading(kinds, buffer[..size], done + [Str(s)], buffer[next..size])
    ensures ok && |done| + 1 == |kinds| ==> Parse(kinds, buffer[..size]) == Some(done + [Str(s)])
    ensures !ok ==> Parse(kinds, buffer[..size]) == None
  {
    hide Parse, Reading;
    ok, s, next := false, [], offset;
    ReadingOn(kinds, buffer[..size], done, buffer[offset..size]);
    if offset + 2 > size {
      return;
    }
    var length := Value16(buffer[offset..size]);
    if length > max || offset + 2 + length > size {
      return;
    }
    ok, s, next := true, Terminated(buffer[offset..size][2..2 + length]), offset + 2 + length;
    assert buffer[offset..size][2 + length..] == buffer[next..size];
  }

  /** As ReadText, for an error's message: of any length present, cut to 255 characters. */
  method ReadNote(buffer: array<Byte>, size: nat, offset: nat, ghost kinds: seq<Kind>, ghost done: seq<Field>)
    returns (ok: bool, s: Bytes, next: nat)
    requires offset <= size <= buffer.Length && Reading(kinds, buffer[..size], done, buffer[offset..size])
    requires |done| + 1 == |kinds| && kinds[|done|] == Note
    ensures ok ==> Parse(kinds, buffer[..size]) == Some(done + [Str(s)])
    ensures !ok ==> Parse(kinds, buffer[..size]) == None
  {
    hide Parse, Reading;
    ok, s, next := false, [], offset;
    ReadingOn(kinds, buffer[..size], done, buffer[offset..size]);
    if offset + 2 > size {
      return;
    }
    var length := Value16(buffer[offset..size]);
    if offset + 2 + length > size {
      return;
    }
    var kept := if length > MAX_NOTE_SIZE then MAX_NOTE_SIZE else length;
    ok, s, next := true, Terminated(buffer[offset..size][2..2 + kept]), offset + 2 + length;
  }

  // ===== The payload encoders

  method SendPut(c: Connection, key: CString, value: CString) returns (r: int)
    modifies c`outgoing, c`results
    ensures if ValidateKey(key) && ValidateValue(value)
            then Sent(c, old(c.outgoing), old(c.results), Message(MSG_PUT, Encode([Str(key), Str(value)])), r)
            else r == -1 && c.outgoing == old(c.outgoing)
  {
    if !ValidateKey(key) || !ValidateValue(value) {
      return -1;
    }
    var buffer := new Byte[MAX_MESSAGE_SIZE];
    var offset := 0;
    offset := WriteText(buffer, offset, key, []);
    offset := WriteText(buffer, offset, value, [Str(key)]);
    assert [Str(key)] + [Str(value)] == [Str(key), Str(value)];
    r := ProtocolSend(c, MSG_PUT, buffer, offset);
  }

  method SendPutResponse(c: Connection, result: Byte, key: CString) returns (r: int)
    modifies c`outgoing, c`results
    ensures if ValidateKey(key)
            then Sent(c, old(c.outgoing), old(c.results), Message(MSG_PUT_RESPONSE, Encode([F8(result), Str(key)])), r)
            else r == -1 && c.outgoing == old(c.outgoing)
  {
    if !ValidateKey(key) {
      return -1;
    }
    var buffer := new Byte[MAX_MESSAGE_SIZE];
    var offset := 0;
    offset := WriteUInt8(buffer, offset, result, []);
    offset := WriteText(buffer, offset, key, [F8(result)]);
    assert [F8(result)] + [Str(key)] == [F8(result), Str(key)];
    r := ProtocolSend(c, MSG_PUT_RESPONSE, buffer, offset);
  }

  method SendGet(c: Connection, key: CString) returns (r: int)
    modifies c`outgoing, c`results
    ensures if ValidateKey(key)
            then Sent(c, old(c.outgoing), old(c.results), Message(MSG_GET, Encode([Str(key)])), r)
            else r == -1 && c.outgoing == old(c.outgoing)
  {
    if !ValidateKey(key) {
      return -1;
    }
    var buffer := new Byte[MAX_MESSAGE_SIZE];
    var offset := 0;
    offset := WriteText(buffer, offset, key, []);
    assert [] + [Str(key)] == [Str(key)];
    r := ProtocolSend(c, MSG_GET, buffer, offset);
  }

  method SendGetResponse(c: Connection, result: Byte, key: CString, value: CString) returns (r: int)
    modifies c`outgoing, c`results
    ensures if ValidateKey(key) && ValidateValue(value)
            then Sent(c, old(c.outgoing), old(c.results),
                      Message(MSG_GET_RESPONSE,
                              Encode([F8(result), Str(key), Str(if result == ERR_NONE then value else [])])), r)
            else r == -1 && c.outgoing == old(c.outgoing)
  {
    if !ValidateKey(key) || !ValidateValue(value) {
      return -1;
    }
    var buffer := new Byte[MAX_MESSAGE_SIZE];
    var offset := 0;
    offset := WriteUInt8(buffer, offset, result, []);
    offset := WriteText(buffer, offset, key, [F8(result)]);
    if result == ERR_NONE {
      offset := WriteText(buffer, offset, value, [F8(result), Str(key)]);
    } else {
      offset := WriteText(buffer, offset, [], [F8(result), Str(key)]);
    }
    ghost var sent := if result == ERR_NONE then value else [];
    assert [F8(result), Str(key)] + [Str(sent)] == [F8(result), Str(key), Str(sent)];
    r := ProtocolSend(c, MSG_GET_RESPONSE, buffer, offset);
  }

  method SendStoreRequest(c: Connection, clientId: nat, key: CString, value: CString) returns (r: int)
    requires clientId < 0x1_0000_0000
    modifies c`outgoing, c`results
    ensures if ValidateKey(key) && ValidateValue(value)
            then Sent(c, old(c.outgoing), old(c.results),
                      Message(MSG_STORE_REQUEST, Encode([F32(clientId), Str(key), Str(value)])), r)
            else r == -1 && c.outgoing == old(c.outgoing)
  {
    if !ValidateKey(key) || !ValidateValue(value) {
      return -1;
    }
    var buffer := new Byte[MAX_MESSAGE_SIZE];
    var offset := 0;
    offset := WriteUInt32(buffer, offset, clientId, []);
    offset := WriteText(buffer, offset, key, [F32(clientId)]);
    offset := WriteText(buffer, offset, value, [F32(clientId), Str(key)]);
    assert [F32(clientId), Str(key)] + [Str(value)] == [F32(clientId), Str(key), Str(value)];
    r := ProtocolSend(c, MSG_STORE_REQUEST, buffer, offset);
  }

  method SendStoreResponse(c: Connection, result: Byte, clientId: nat, key: CString) returns (r: int)
    requires clientId < 0x1_0000_0000
    modifies c`outgoing, c`results
    ensures if ValidateKey(key)
            then Sent(c, old(c.outgoing), old(c.results),
                      Message(MSG_STORE_RESPONSE, Encode([F8(result), F32(clientId), Str(key)])), r)
            else r == -1 && c.outgoing == old(c.outgoing)
  {
    if !ValidateKey(key) {
      return -1;
    }
    var buffer := new Byte[MAX_MESSAGE_SIZE];
    var offset := 0;
    offset := WriteUInt8(buffer, offset, result, []);
    offset := WriteUInt32(buffer, offset, clientId, [F8(result)]);
    offset := WriteText(buffer, offset, key, [F8(result), F32(clientId)]);
    assert [F8(result), F32(clientId)] + [Str(key)] == [F8(result), F32(clientId), Str(key)];
    r := ProtocolSend(c, MSG_STORE_RESPONSE, buffer, offset);
  }

  method SendRetrieveRequest(c: Connection, clientId: nat, key: CString) returns (r: int)
    requires clientId < 0x1_0000_0000
    modifies c`outgoing, c`results
    ensures if ValidateKey(key)
            then Sent(c, old(c.outgoing), old(c.results),
                      Message(MSG_RETRIEVE_REQUEST, Encode([F32(clientId), Str(key)])), r)
            else r == -1 && c.outgoing == old(c.outgoing)
  {
    if !ValidateKey(key) {
      return -1;
    }
    var buffer := new Byte[MAX_MESSAGE_SIZE];
    var offset := 0;
    offset := WriteUInt32(buffer, offset, clientId, []);
    offset := WriteText(buffer, offset, key, [F32(clientId)]);
    assert [F32(clientId)] + [Str(key)] == [F32(clientId), Str(key)];
    r := ProtocolSend(c, MSG_RETRIEVE_REQUEST, buffer, offset);
  }

  method SendRetrieveResponse(c: Connection, result: Byte, clientId: nat, key: CString, value: CString) returns (r: int)
    requires clientId < 0x1_0000_0000
    modifies c`outgoing, c`results
    ensures if ValidateKey(key) && ValidateValue(value)
            then Sent(c, old(c.outgoing), old(c.results),
                      Message(MSG_RETRIEVE_RESPONSE,
                              Encode([F8(result), F32(clientId), Str(key),
                                      Str(if result == ERR_NONE then value else [])])), r)
            else r == -1 && c.outgoing == old(c.outgoing)
  {
    if !ValidateKey(key) || !ValidateValue(value) {
      return -1;
    }
    var buffer := new Byte[MAX_MESSAGE_SIZE];
    var offset := 0;
    offset := WriteUInt8(buffer, offset, result, []);
    offset := WriteUInt32(buffer, offset, clientId, [F8(result)]);
    offset := WriteText(buffer, offset, key, [F8(result), F32(clientId)]);
    assert [F8(result), F32(clientId)] + [Str(key)] == [F8(result), F32(clientId), Str(key)];
    if result == ERR_NONE {
      offset := WriteText(buffer, offset, value, [F8(result), F32(clientId), Str(key)]);
    } else {
      offset := WriteText(buffer, offset, [], [F8(result), F32(clientId), Str(key)]);
    }
    ghost var sent := if result == ERR_NONE then value else [];
    assert [F8(result), F32(clientId), Str(key)] + [Str(sent)]
           == [F8(result), F32(clientId), Str(key), Str(sent)];
    r := ProtocolSend(c, MSG_RETRIEVE_RESPONSE, buffer, offset);
  }

  method SendWorkerReady(c: Connection, workerId: nat, peerPort: nat) returns (r: int)
    requires workerId < 0x1_0000_0000 && peerPort < 0x1_0000
    modifies c`outgoing, c`results
    ensures Sent(c, old(c.outgoing), old(c.results),
                 Message(MSG_WORKER_READY, Encode([F32(workerId), F16(peerPort)])), r)
  {
    var buffer := new Byte[MAX_MESSAGE_SIZE];
    var offset := 0;
    offset := WriteUInt32(buffer, offset, workerId, []);
    offset := WriteUInt16(buffer, offset, peerPort, [F32(workerId)]);
    assert [F32(workerId)] + [F16(peerPort)] == [F32(workerId), F16(peerPort)];
    r := ProtocolSend(c, MSG_WORKER_READY, buffer, offset);
  }

  /** The part of an address that is sent: its length is taken in 16 bits, and cut at 255. */
  function Clipped(address: CString): (sent: CString)
    ensures |sent| <= MAX_ADDRESS_SIZE && sent <= address
    ensures |address| <= MAX_ADDRESS_SIZE ==> sent == address
    ensures MAX_ADDRESS_SIZE < |address| < 0x1_0000 ==> |sent| == MAX_ADDRESS_SIZE
  {
    var length := |address| % 0x1_0000;
    address[..if length > MAX_ADDRESS_SIZE then MAX_ADDRESS_SIZE else length]
  }

  method SendWorkerEntry(c: Connection, workerId: nat, address: CString, port: nat, shouldExportData: Byte)
    returns (r: int)
    requires workerId < 0x1_0000_0000 && port < 0x1_0000
    modifies c`outgoing, c`results
    ensures var fields := [F32(workerId), Str(Clipped(address)), F16(port), F8(shouldExportData)];
      Sent(c, old(c.outgoing), old(c.results), Message(MSG_WORKER_ENTRY, Encode(fields)), r)
  {
    var buffer := new Byte[MAX_MESSAGE_SIZE];
    var offset := 0;
    var sent := Clipped(address);
    offset := WriteUInt32(buffer, offset, workerId, []);
    offset := WriteText(buffer, offset, sent, [F32(workerId)]);
    offset := WriteUInt16(buffer, offset, port, [F32(workerId), Str(sent)]);
    assert [F32(workerId), Str(sent)] + [F16(port)] == [F32(workerId), Str(sent), F16(port)];
    offset := WriteUInt8(buffer, offset, shouldExportData, [F32(workerId), Str(sent), F16(port)]);
    assert [F32(workerId), Str(sent), F16(port)] + [F8(shouldExportData)]
           == [F32(workerId), Str(sent), F16(port), F8(shouldExportData)];
    r := ProtocolSend(c, MSG_WORKER_ENTRY, buffer, offset);
  }

  method SendDataExportStart(c: Connection, totalEntries: nat) returns (r: int)
    requires totalEntries < 0x1_0000_0000
    modifies c`outgoing, c`results
    ensures Sent(c, old(c.outgoing), old(c.results), Message(MSG_DATA_EXPORT_START, Encode([F32(totalEntries)])), r)
  {
    var buffer := new Byte[MAX_MESSAGE_SIZE];
    var offset := 0;
    offset := WriteUInt32(buffer, offset, totalEntries, []);
    assert [] + [F32(totalEntries)] == [F32(totalEntries)];
    r := ProtocolSend(c, MSG_DATA_EXPORT_START, buffer, offset);
  }

  method SendDataEntry(c: Connection, key: CString, value: CString) returns (r: int)
    modifies c`outgoing, c`results
    ensures if ValidateKey(key) && ValidateValue(value)
            then Sent(c, old(c.outgoing), old(c.results), Message(MSG_DATA_ENTRY, Encode([Str(key), Str(value)])), r)
            else r == -1 && c.outgoing == old(c.outgoing)
  {
    if !ValidateKey(key) || !ValidateValue(value) {
      return -1;
    }
    var buffer := new Byte[MAX_MESSAGE_SIZE];
    var offset := 0;
    offset := WriteText(buffer, offset, key, []);
    offset := WriteText(buffer, offset, value, [Str(key)]);
    assert [Str(key)] + [Str(value)] == [Str(key), Str(value)];
    r := ProtocolSend(c, MSG_DATA_ENTRY, buffer, offset);
  }

  method SendPeerNotify(c: Connection, key: CString, value: CString) returns (r: int)
    modifies c`outgoing, c`results
    ensures if ValidateKey(key) && ValidateValue(value)
            then Sent(c, old(c.outgoing), old(c.results), Message(MSG_PEER_NOTIFY, Encode([Str(key), Str(value)])), r)
            else r == -1 && c.outgoing == old(c.outgoing)
  {
    if !ValidateKey(key) || !ValidateValue(value) {
      return -1;
    }
    var buffer := new Byte[MAX_MESSAGE_SIZE];
    var offset := 0;
    offset := WriteText(buffer, offset, key, []);
    offset := WriteText(buffer, offset, value, [Str(key)]);
    assert [Str(key)] + [Str(value)] == [Str(key), Str(value)];
    r := ProtocolSend(c, MSG_PEER_NOTIFY, buffer, offset);
  }

  method SendError(c: Connection, errorCode: Byte, message: CString) returns (r: int)
    requires 3 + |message| <= MAX_MESSAGE_SIZE
    modifies c`outgoing, c`results
    ensures Sent(c, old(c.outgoing), old(c.results), Message(MSG_ERROR, Encode([F8(errorCode), Str(message)])), r)
  {
    var buffer := new Byte[MAX_MESSAGE_SIZE];
    var offset := 0;
    offset := WriteUInt8(buffer, offset, errorCode, []);
    offset := WriteText(buffer, offset, message, [F8(errorCode)]);
    assert [F8(errorCode)] + [Str(message)] == [F8(errorCode), Str(message)];
    r := ProtocolSend(c, MSG_ERROR, buffer, offset);
  }

  method SendDataExportEnd(c: Connection) returns (r: int)
    modifies c`outgoing, c`results
    ensures Sent(c, old(c.outgoing), old(c.results), Message(MSG_DATA_EXPORT_END, []), r)
  {
    var nothing := new Byte[0];
    assert nothing[..0] == [];
    r := ProtocolSend(c, MSG_DATA_EXPORT_END, nothing, 0);
  }

  method SendShutdown(c: Connection) returns (r: int)
    modifies c`outgoing, c`results
    ensures Sent(c, old(c.outgoing), old(c.results), Message(MSG_SHUTDOWN, []), r)
  {
    var nothing := new Byte[0];
    assert nothing[..0] == [];
    r := ProtocolSend(c, MSG_SHUTDOWN, nothing, 0);
  }

  // ===== The payload decoders

  method ReceivePut(buffer: array<Byte>, size: nat) returns (r: int, key: Bytes, value: Bytes)
    requires size <= buffer.Length
    ensures r == 0 || r == -1
    ensures Parse(PUT, buffer[..size]) == if r == 0 then Some([Str(key), Str(value)]) else None
  {
    hide Parse, Reading;
    r, key, value := -1, [], [];
    var ok, offset := true, 0;
    ReadingStarts(PUT, buffer[..size]);
    ok, key, offset := ReadText(buffer, size, offset, MAX_KEY_SIZE, PUT, []);
    if !ok {
      return;
    }
    assert [] + [Str(key)] == [Str(key)];
    ok, value, offset := ReadText(buffer, size, offset, MAX_VALUE_SIZE, PUT, [Str(key)]);
    if !ok {
      return;
    }
    assert [Str(key)] + [Str(value)] == [Str(key), Str(value)];
    r := 0;
  }

  method ReceivePutResponse(buffer: array<Byte>, size: nat) returns (r: int, result: Byte, key: Bytes)
    requires size <= buffer.Length
    ensures r == 0 || r == -1
    ensures Parse(PUT_RESPONSE, buffer[..size]) == if r == 0 then Some([F8(result), Str(key)]) else None
  {
    hide Parse, Reading;
    r, result, key := -1, 0, [];
    var ok, offset := true, 0;
    ReadingStarts(PUT_RESPONSE, buffer[..size]);
    ok, result, offset := ReadUInt8(buffer, size, offset, PUT_RESPONSE, []);
    if !ok {
      return;
    }
    assert [] + [F8(result)] == [F8(result)];
    ok, key, offset := ReadText(buffer, size, offset, MAX_KEY_SIZE, PUT_RESPONSE, [F8(result)]);
    if !ok {
      return;
    }
    assert [F8(result)] + [Str(key)] == [F8(result), Str(key)];
    r := 0;
  }

  method ReceiveGet(buffer: array<Byte>, size: nat) returns (r: int, key: Bytes)
    requires size <= buffer.Length
    ensures r == 0 || r == -1
    ensures Parse(GET, buffer[..size]) == if r == 0 then Some([Str(key)]) else None
  {
    hide Parse, Reading;
    r, key := -1, [];
    var ok, offset := true, 0;
    ReadingStarts(GET, buffer[..size]);
    ok, key, offset := ReadText(buffer, size, offset, MAX_KEY_SIZE, GET, []);
    if !ok {
      return;
    }
    assert [] + [Str(key)] == [Str(key)];
    r := 0;
  }

  method ReceiveGetResponse(buffer: array<Byte>, size: nat) returns (r: int, result: Byte, key: Bytes, value: Bytes)
    requires size <= buffer.Length
    ensures r == 0 || r == -1
    ensures Parse(GET_RESPONSE, buffer[..size]) == if r == 0 then Some([F8(result), Str(key), Str(value)]) else None
  {
    hide Parse, Reading;
    r, result, key, value := -1, 0, [], [];
    var ok, offset := true, 0;
    ReadingStarts(GET_RESPONSE, buffer[..size]);
    ok, result, offset := ReadUInt8(buffer, size, offset, GET_RESPONSE, []);
    if !ok {
      return;
    }
    assert [] + [F8(result)] == [F8(result)];
    ok, key, offset := ReadText(buffer, size, offset, MAX_KEY_SIZE, GET_RESPONSE, [F8(result)]);
    if !ok {
      return;
    }
    assert [F8(result)] + [Str(key)] == [F8(result), Str(key)];
    ok, value, offset := ReadText(buffer, size, offset, MAX_VALUE_SIZE, GET_RESPONSE, [F8(result), Str(key)]);
    if !ok {
      return;
    }
    assert [F8(result), Str(key)] + [Str(value)] == [F8(result), Str(key), Str(value)];
    r := 0;
  }

  method ReceiveStoreRequest(buffer: array<Byte>, size: nat) returns (r: int, clientId: nat, key: Bytes, value: Bytes)
    requires size <= buffer.Length
    ensures r == 0 || r == -1
    ensures Parse(STORE_REQUEST, buffer[..size]) == if r == 0 then Some([F32(clientId), Str(key), Str(value)]) else None
  {
    hide Parse, Reading;
    r, clientId, key, value := -1, 0, [], [];
    var ok, offset := true, 0;
    ReadingStarts(STORE_REQUEST, buffer[..size]);
    ok, clientId, offset := ReadUInt32(buffer, size, offset, STORE_REQUEST, []);
    if !ok {
      return;
    }
    assert [] + [F32(clientId)] == [F32(clientId)];
    ok, key, offset := ReadText(buffer, size, offset, MAX_KEY_SIZE, STORE_REQUEST, [F32(clientId)]);
    if !ok {
      return;
    }
    assert [F32(clientId)] + [Str(key)] == [F32(clientId), Str(key)];
    ok, value, offset := ReadText(buffer, size, offset, MAX_VALUE_SIZE, STORE_REQUEST, [F32(clientId), Str(key)]);
    if !ok {
      return;
    }
    assert [F32(clientId), Str(key)] + [Str(value)] == [F32(clientId), Str(key), Str(value)];
    r := 0;
  }

  method ReceiveStoreResponse(buffer: array<Byte>, size: nat) returns (r: int, result: Byte, clientId: nat, key: Bytes)
    requires size <= buffer.Length
    ensures r == 0 || r == -1
    ensures Parse(STORE_RESPONSE, buffer[..size]) ==
              if r == 0 then Some([F8(result), F32(clientId), Str(key)]) else None
  {
    hide Parse, Reading;
    r, result, clientId, key := -1, 0, 0, [];
    var ok, offset := true, 0;
    ReadingStarts(STORE_RESPONSE, buffer[..size]);
    ok, result, offset := ReadUInt8(buffer, size, offset, STORE_RESPONSE, []);
    if !ok {
      return;
    }
    assert [] + [F8(result)] == [F8(result)];
    ok, clientId, offset := ReadUInt32(buffer, size, offset, STORE_RESPONSE, [F8(result)]);
    if !ok {
      return;
    }
    assert [F8(result)] + [F32(clientId)] == [F8(result), F32(clientId)];
    ok, key, offset := ReadText(buffer, size, offset, MAX_KEY_SIZE, STORE_RESPONSE, [F8(result), F32(clientId)]);
    if !ok {
      return;
    }
    assert [F8(result), F32(clientId)] + [Str(key)] == [F8(result), F32(clientId), Str(key)];
    r := 0;
  }

  method ReceiveRetrieveRequest(buffer: array<Byte>, size: nat) returns (r: int, clientId: nat, key: Bytes)
    requires size <= buffer.Length
    ensures r == 0 || r == -1
    ensures Parse(RETRIEVE_REQUEST, buffer[..size]) == if r == 0 then Some([F32(clientId), Str(key)]) else None
  {
    hide Parse, Reading;
    r, clientId, key := -1, 0, [];
    var ok, offset := true, 0;
    ReadingStarts(RETRIEVE_REQUEST, buffer[..size]);
    ok, clientId, offset := ReadUInt32(buffer, size, offset, RETRIEVE_REQUEST, []);
    if !ok {
      return;
    }
    assert [] + [F32(clientId)] == [F32(clientId)];
    ok, key, offset := ReadText(buffer, size, offset, MAX_KEY_SIZE, RETRIEVE_REQUEST, [F32(clientId)]);
    if !ok {
      return;
    }
    assert [F32(clientId)] + [Str(key)] == [F32(clientId), Str(key)];
    r := 0;
  }

  method ReceiveRetrieveResponse(buffer: array<Byte>, size: nat)
    returns (r: int, result: Byte, clientId: nat, key: Bytes, value: Bytes)
    requires size <= buffer.Length
    ensures r == 0 || r == -1
    ensures Parse(RETRIEVE_RESPONSE, buffer[..size]) ==
              if r == 0 then Some([F8(result), F32(clientId), Str(key), Str(value)]) else None
  {
    hide Parse, Reading;
    r, result, clientId, key, value := -1, 0, 0, [], [];
    var ok, offset := true, 0;
    ReadingStarts(RETRIEVE_RESPONSE, buffer[..size]);
    ok, result, offset := ReadUInt8(buffer, size, offset, RETRIEVE_RESPONSE, []);
    if !ok {
      return;
    }
    assert [] + [F8(result)] == [F8(result)];
    ok, clientId, offset := ReadUInt32(buffer, size, offset, RETRIEVE_RESPONSE, [F8(result)]);
    if !ok {
      return;
    }
    assert [F8(result)] + [F32(clientId)] == [F8(result), F32(clientId)];
    ok, key, offset := ReadText(buffer, size, offset, MAX_KEY_SIZE, RETRIEVE_RESPONSE, [F8(result), F32(clientId)]);
    if !ok {
      return;
    }
    assert [F8(result), F32(clientId)] + [Str(key)] == [F8(result), F32(clientId), Str(key)];
    ok, value, offset := ReadText(buffer, size, offset, MAX_VALUE_SIZE, RETRIEVE_RESPONSE,
                                  [F8(result), F32(clientId), Str(key)]);
    if !ok {
      return;
    }
    assert [F8(result), F32(clientId), Str(key)] + [Str(value)] == [F8(result), F32(clientId), Str(key), Str(value)];
    r := 0;
  }

  method ReceiveWorkerReady(buffer: array<Byte>, size: nat) returns (r: int, workerId: nat, peerPort: nat)
    requires size <= buffer.Length
    ensures r == 0 || r == -1
    ensures Parse(WORKER_READY, buffer[..size]) == if r == 0 then Some([F32(workerId), F16(peerPort)]) else None
  {
    hide Parse, Reading;
    r, workerId, peerPort := -1, 0, 0;
    var ok, offset := true, 0;
    ReadingStarts(WORKER_READY, buffer[..size]);
    ok, workerId, offset := ReadUInt32(buffer, size, offset, WORKER_READY, []);
    if !ok {
      return;
    }
    assert [] + [F32(workerId)] == [F32(workerId)];
    ok, peerPort, offset := ReadUInt16(buffer, size, offset, WORKER_READY, [F32(workerId)]);
    if !ok {
      return;
    }
    assert [F32(workerId)] + [F16(peerPort)] == [F32(workerId), F16(peerPort)];
    r := 0;
  }

  method ReceiveWorkerEntry(buffer: array<Byte>, size: nat)
    returns (r: int, workerId: nat, address: Bytes, port: nat, shouldExportData: Byte)
    requires size <= buffer.Length
    ensures r == 0 || r == -1
    ensures Parse(WORKER_ENTRY, buffer[..size]) ==
              if r == 0 then Some([F32(workerId), Str(address), F16(port), F8(shouldExportData)]) else None
  {
    hide Parse, Reading;
    r, workerId, address, port, shouldExportData := -1, 0, [], 0, 0;
    var ok, offset := true, 0;
    ReadingStarts(WORKER_ENTRY, buffer[..size]);
    ok, workerId, offset := ReadUInt32(buffer, size, offset, WORKER_ENTRY, []);
    if !ok {
      return;
    }
    assert [] + [F32(workerId)] == [F32(workerId)];
    ok, address, offset := ReadText(buffer, size, offset, MAX_ADDRESS_SIZE, WORKER_ENTRY, [F32(workerId)]);
    if !ok {
      return;
    }
    assert [F32(workerId)] + [Str(address)] == [F32(workerId), Str(address)];
    ok, port, offset := ReadUInt16(buffer, size, offset, WORKER_ENTRY, [F32(workerId), Str(address)]);
    if !ok {
      return;
    }
    assert [F32(workerId), Str(address)] + [F16(port)] == [F32(workerId), Str(address), F16(port)];
    ok, shouldExportData, offset := ReadUInt8(buffer, size, offset, WORKER_ENTRY,
                                              [F32(workerId), Str(address), F16(port)]);
    if !ok {
      return;
    }
    assert [F32(workerId), Str(address), F16(port)] + [F8(shouldExportData)]
           == [F32(workerId), Str(address), F16(port), F8(shouldExportData)];
    r := 0;
  }

  method ReceiveDataExportStart(buffer: array<Byte>, size: nat) returns (r: int, totalEntries: nat)
    requires size <= buffer.Length
    ensures r == 0 || r == -1
    ensures Parse(DATA_EXPORT_START, buffer[..size]) == if r == 0 then Some([F32(totalEntries)]) else None
  {
    hide Parse, Reading;
    r, totalEntries := -1, 0;
    var ok, offset := true, 0;
    ReadingStarts(DATA_EXPORT_START, buffer[..size]);
    ok, totalEntries, offset := ReadUInt32(buffer, size, offset, DATA_EXPORT_START, []);
    if !ok {
      return;
    }
    assert [] + [F32(totalEntries)] == [F32(totalEntries)];
    r := 0;
  }

  method ReceiveDataEntry(buffer: array<Byte>, size: nat) returns (r: int, key: Bytes, value: Bytes)
    requires size <= buffer.Length
    ensures r == 0 || r == -1
    ensures Parse(DATA_ENTRY, buffer[..size]) == if r == 0 then Some([Str(key), Str(value)]) else None
  {
    hide Parse, Reading;
    r, key, value := -1, [], [];
    var ok, offset := true, 0;
    ReadingStarts(DATA_ENTRY, buffer[..size]);
    ok, key, offset := ReadText(buffer, size, offset, MAX_KEY_SIZE, DATA_ENTRY, []);
    if !ok {
      return;
    }
    assert [] + [Str(key)] == [Str(key)];
    ok, value, offset := ReadText(buffer, size, offset, MAX_VALUE_SIZE, DATA_ENTRY, [Str(key)]);
    if !ok {
      return;
    }
    assert [Str(key)] + [Str(value)] == [Str(key), Str(value)];
    r := 0;
  }

  method ReceivePeerNotify(buffer: array<Byte>, size: nat) returns (r: int, key: Bytes, value: Bytes)
    requires size <= buffer.Length
    ensures r == 0 || r == -1
    ensures Parse(PEER_NOTIFY, buffer[..size]) == if r == 0 then Some([Str(key), Str(value)]) else None
  {
    hide Parse, Reading;
    r, key, value := -1, [], [];
    var ok, offset := true, 0;
    ReadingStarts(PEER_NOTIFY, buffer[..size]);
    ok, key, offset := ReadText(buffer, size, offset, MAX_KEY_SIZE, PEER_NOTIFY, []);
    if !ok {
      return;
    }
    assert [] + [Str(key)] == [Str(key)];
    ok, value, offset := ReadText(buffer, size, offset, MAX_VALUE_SIZE, PEER_NOTIFY, [Str(key)]);
    if !ok {
      return;
    }
    assert [Str(key)] + [Str(value)] == [Str(key), Str(value)];
    r := 0;
  }

  method ReceiveError(buffer: array<Byte>, size: nat) returns (r: int, errorCode: Byte, message: Bytes)
    requires size <= buffer.Length
    ensures r == 0 || r == -1
    ensures Parse(ERROR, buffer[..size]) == if r == 0 then Some([F8(errorCode), Str(message)]) else None
  {
    hide Parse, Reading;
    r, errorCode, message := -1, 0, [];
    var ok, offset := true, 0;
    ReadingStarts(ERROR, buffer[..size]);
    ok, errorCode, offset := ReadUInt8(buffer, size, offset, ERROR, []);
    if !ok {
      return;
    }
    assert [] + [F8(errorCode)] == [F8(errorCode)];
    ok, message, offset := ReadNote(buffer, size, offset, ERROR, [F8(errorCode)]);
    if !ok {
      return;
    }
    assert [F8(errorCode)] + [Str(message)] == [F8(errorCode), Str(message)];
    r := 0;
  }

  // ===== Every decoder undoes its encoder

  /** The decoder of a format, given exactly what its encoder built, returns the fields it was built from. */
  ghost predicate RoundTrips(kinds: seq<Kind>, fields: seq<Field>) {
    (forall f <- fields :: Encodable(f)) && Parse(kinds, Encode(fields)) == Some(fields)
  }

  lemma FittingFieldsRoundTrip(kinds: seq<Kind>, fields: seq<Field>)
    requires AllFit(kinds, fields)
    ensures RoundTrips(kinds, fields)
  {
    ParseEncoded(kinds, fields, []);
    assert Encode(fields) + [] == Encode(fields);
  }

  lemma KeysAndValuesRoundTrip(key: CString, value: CString)
    requires ValidateKey(key) && ValidateValue(value)
    ensures RoundTrips(GET, [Str(key)])
    ensures RoundTrips(PUT, [Str(key), Str(value)])
    ensures RoundTrips(DATA_ENTRY, [Str(key), Str(value)])
    ensures RoundTrips(PEER_NOTIFY, [Str(key), Str(value)])
  {
    FittingFieldsRoundTrip(GET, [Str(key)]);
    FittingFieldsRoundTrip(PUT, [Str(key), Str(value)]);
  }

  lemma RequestsRoundTrip(clientId: nat, key: CString, value: CString)
    requires ValidateKey(key) && ValidateValue(value) && clientId < 0x1_0000_0000
    ensures RoundTrips(STORE_REQUEST, [F32(clientId), Str(key), Str(value)])
    ensures RoundTrips(RETRIEVE_REQUEST, [F32(clientId), Str(key)])
  {
    FittingFieldsRoundTrip(STORE_REQUEST, [F32(clientId), Str(key), Str(value)]);
    FittingFieldsRoundTrip(RETRIEVE_REQUEST, [F32(clientId), Str(key)]);
  }

  /** What a decoded request obeys. */
  lemma RequestsFit(b: Bytes, clientId: nat, key: Bytes, value: Bytes)
    ensures Parse(STORE_REQUEST, b) == Some([F32(clientId), Str(key), Str(value)]) ==>
              clientId < 0x1_0000_0000 && IsCString(key) && IsCString(value)
              && |key| <= MAX_KEY_SIZE && |value| <= MAX_VALUE_SIZE
    ensures Parse(RETRIEVE_REQUEST, b) == Some([F32(clientId), Str(key)]) ==>
              clientId < 0x1_0000_0000 && IsCString(key) && |key| <= MAX_KEY_SIZE
  {
    hide Parse;
    if Parse(STORE_REQUEST, b).Some? {
      ParseFits(STORE_REQUEST, b);
      var fields := [F32(clientId), Str(key), Str(value)];
      assert AllFit(STORE_REQUEST, fields) ==>
          Fits(STORE_REQUEST[0], fields[0]) && Fits(STORE_REQUEST[1], fields[1]) && Fits(STORE_REQUEST[2], fields[2]);
    }
    if Parse(RETRIEVE_REQUEST, b).Some? {
      ParseFits(RETRIEVE_REQUEST, b);
      var fields := [F32(clientId), Str(key)];
      assert AllFit(RETRIEVE_REQUEST, fields) ==>
          Fits(RETRIEVE_REQUEST[0], fields[0]) && Fits(RETRIEVE_REQUEST[1], fields[1]);
    }
  }

  /** Both the value of a successful response and the empty one of any other come back as they were sent. */
  lemma ResponsesRoundTrip(result: Byte, clientId: nat, key: CString, value: CString)
    requires ValidateKey(key) && ValidateValue(value) && clientId < 0x1_0000_0000
    ensures RoundTrips(PUT_RESPONSE, [F8(result), Str(key)])
    ensures RoundTrips(STORE_RESPONSE, [F8(result), F32(clientId), Str(key)])
    ensures RoundTrips(GET_RESPONSE, [F8(result), Str(key), Str(value)])
    ensures RoundTrips(GET_RESPONSE, [F8(result), Str(key), Str([])])
    ensures RoundTrips(RETRIEVE_RESPONSE, [F8(result), F32(clientId), Str(key), Str(value)])
    ensures RoundTrips(RETRIEVE_RESPONSE, [F8(result), F32(clientId), Str(key), Str([])])
  {
    FittingFieldsRoundTrip(PUT_RESPONSE, [F8(result), Str(key)]);
    FittingFieldsRoundTrip(STORE_RESPONSE, [F8(result), F32(clientId), Str(key)]);
    FittingFieldsRoundTrip(GET_RESPONSE, [F8(result), Str(key), Str(value)]);
    FittingFieldsRoundTrip(GET_RESPONSE, [F8(result), Str(key), Str([])]);
    FittingFieldsRoundTrip(RETRIEVE_RESPONSE, [F8(result), F32(clientId), Str(key), Str(value)]);
    FittingFieldsRoundTrip(RETRIEVE_RESPONSE, [F8(result), F32(clientId), Str(key), Str([])]);
  }

  lemma ControlMessagesRoundTrip(id: nat, address: CString, port: nat, flag: Byte, note: CString)
    requires id < 0x1_0000_0000 && port < 0x1_0000
    requires |address| <= MAX_ADDRESS_SIZE && |note| <= MAX_NOTE_SIZE
    ensures RoundTrips(WORKER_READY, [F32(id), F16(port)])
    ensures RoundTrips(WORKER_ENTRY, [F32(id), Str(address), F16(port), F8(flag)])
    ensures RoundTrips(DATA_EXPORT_START, [F32(id)])
    ensures RoundTrips(ERROR, [F8(flag), Str(note)])
  {
    FittingFieldsRoundTrip(WORKER_READY, [F32(id), F16(port)]);
    FittingFieldsRoundTrip(WORKER_ENTRY, [F32(id), Str(address), F16(port), F8(flag)]);
    FittingFieldsRoundTrip(DATA_EXPORT_START, [F32(id)]);
    FittingFieldsRoundTrip(ERROR, [F8(flag), Str(note)]);
  }

  /** Of a longer error message the receiver keeps the first 255 characters. */
  lemma ErrorTextIsCut(errorCode: Byte, message: CString)
    requires 3 + |message| <= MAX_MESSAGE_SIZE
    ensures var kept := if |message| > MAX_NOTE_SIZE then MAX_NOTE_SIZE else |message|;
      Parse(ERROR, Encode([F8(errorCode), Str(message)])) == Some([F8(errorCode), Str(message[..kept])])
  {
    var kept := if |message| > MAX_NOTE_SIZE then MAX_NOTE_SIZE else |message|;
    var text, whole := Bytes16(|message|) + message, Encode([F8(errorCode), Str(message)]);
    NoteIsEncoded(errorCode, message);
    ReadLongNote(message);
    hide Parse, Encode;
    ParseFirst(ERROR, whole);
    assert whole[1..] == text && ERROR[1..] == [Note];
    ParseFirst([Note], text);
    NothingLeft();
    assert text[|text|..] == [] && [Note][1..] == [];
    NothingBefore([Str(message[..kept])]);
    assert [F8(errorCode)] + [Str(message[..kept])] == [F8(errorCode), Str(message[..kept])];
  }

  lemma NothingLeft()
    ensures Parse([], []) == Some([])
  {
  }

  lemma NoteIsEncoded(errorCode: Byte, message: CString)
    requires |message| < 0x1_0000
    ensures Encode([F8(errorCode), Str(message)]) == [errorCode] + (Bytes16(|message|) + message)
  {
    assert [F8(errorCode), Str(message)][1..] == [Str(message)] && [Str(message)][1..] == [];
    NothingBefore(Bytes16(|message|) + message);
    assert Encode([Str(message)]) == (Bytes16(|message|) + message) + Encode([Str(message)][1..]);
    assert Encode([Str(message)]) == Bytes16(|message|) + message;
  }
}
