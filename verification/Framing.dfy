/** Messages on a byte stream: a three-byte header, then the payload (Lib/Protocol.c, Lib/Protocol.h). */
module Framing {
  import opened Config
  import opened Payload

  datatype Message = Message(messageType: Byte, payload: Bytes) {
    /** What ProtocolSend accepts: a type of its own and a payload that fits. */
    predicate Sendable() {
      messageType != 0 && |payload| <= MAX_MESSAGE_SIZE
    }
  }

  function Frame(m: Message): (b: Bytes)
    requires |m.payload| < 0x1_0000
    ensures |b| == 3 + |m.payload| && b[3..] == m.payload
    ensures b[0] == m.messageType && b[1] as int * 0x100 + b[2] as int == |m.payload|
  {
    [m.messageType] + Bytes16(|m.payload|) + m.payload
  }

  ghost predicate AllSendable(ms: seq<Message>) {
    forall i :: 0 <= i < |ms| ==> ms[i].Sendable()
  }

  ghost function Stream(ms: seq<Message>): Bytes
    requires AllSendable(ms)
  {
    if ms == [] then [] else Frame(ms[0]) + Stream(ms[1..])
  }

  lemma {:induction false} StreamAppend(ms: seq<Message>, m: Message)
    requires AllSendable(ms) && m.Sendable()
    ensures Stream(ms + [m]) == Stream(ms) + Frame(m)
  {
    if ms == [] {
      assert [m][1..] == [];
    } else {
      assert (ms + [m])[1..] == ms[1..] + [m];
      StreamAppend(ms[1..], m);
    }
  }

  /** A stream starts with at most one frame. */
  lemma FrameIsUnique(a: Message, s: Bytes, b: Message, t: Bytes)
    requires a.Sendable() && b.Sendable() && Frame(a) + s == Frame(b) + t
    ensures a == b && s == t
  {
    var fa, fb := Frame(a), Frame(b);
    var whole := fa + s;
    assert whole == fb + t;
    assert whole[0] == a.messageType == b.messageType;
    assert whole[1..3] == Bytes16(|a.payload|) == Bytes16(|b.payload|);
    assert |a.payload| == Value16(whole[1..3]) == |b.payload|;
    assert whole[3..|fa|] == a.payload == b.payload;
    assert whole[|fa|..] == s == t;
  }

  /**
   * Whatever a receiver cuts off the front of the stream frame by frame is a
   * prefix of what was sent, even when the sender gave up in the middle of a
   * further frame.
   */
  lemma {:induction false} ReceivedIsPrefix(
    sent: seq<Message>, last: Message, part: nat, got: seq<Message>, rest: Bytes)
    requires AllSendable(sent) && AllSendable(got)
    requires last.Sendable() && part < |Frame(last)|
    requires Stream(sent) + Frame(last)[..part] == Stream(got) + rest
    ensures got <= sent
    ensures rest == Stream(sent[|got|..]) + Frame(last)[..part]
    decreases |got|
  {
    hide Frame;
    var tail := Frame(last)[..part];
    if got == [] {
      assert sent[0..] == sent;
    } else {
      var g := got[0];
      assert Stream(got) + rest == Frame(g) + (Stream(got[1..]) + rest);
      if sent == [] {
        CutFrameHoldsNoFrame(last, part, g, Stream(got[1..]) + rest);
      } else {
        var s := sent[0];
        assert Stream(sent) + tail == Frame(s) + (Stream(sent[1..]) + tail);
        FrameIsUnique(s, Stream(sent[1..]) + tail, g, Stream(got[1..]) + rest);
        ReceivedIsPrefix(sent[1..], last, part, got[1..], rest);
        assert sent[1..][|got[1..]|..] == sent[|got|..];
      }
    }
  }

  lemma CutFrameHoldsNoFrame(last: Message, part: nat, g: Message, rest: Bytes)
    requires last.Sendable() && g.Sendable() && part < |Frame(last)|
    ensures Frame(last)[..part] != Frame(g) + rest
  {
    var cut, whole := Frame(last)[..part], Frame(g) + rest;
    assert whole[1] == Frame(g)[1] && whole[2] == Frame(g)[2];
    assert part >= 3 ==> cut[1] == Frame(last)[1] && cut[2] == Frame(last)[2];
  }
}
