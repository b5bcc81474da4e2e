/**
 * The exact-length transfer loops of Lib/NetworkLib.c over a network that
 * moves as many bytes at a time as it likes.
 */
module NetworkLib {
  import opened Config

  const MAX_RETRIES := 5000

  function Overwritten(b: Bytes, at: nat, bytes: Bytes): Bytes
    requires at + |bytes| <= |b|
  {
    b[..at] + bytes + b[at + |bytes|..]
  }

  /** Writing two consecutive pieces of a stream is writing both at once. */
  lemma OverwrittenOn(b: Bytes, stream: Bytes, t: nat, n: nat)
    requires t + n <= |b| && t + n <= |stream|
    ensures stream[..t] + stream[t..][..n] == stream[..t + n]
    ensures Overwritten(Overwritten(b, 0, stream[..t]), t, stream[t..][..n]) == Overwritten(b, 0, stream[..t + n])
  {
    var once := Overwritten(b, 0, stream[..t]);
    assert stream[..t] + stream[t..][..n] == stream[..t + n];
    assert once[..t] == stream[..t] && once[t + n..] == b[t + n..];
  }

  lemma OverwrittenAll(b: Bytes, bytes: Bytes)
    requires |bytes| <= |b|
    ensures |Overwritten(b, 0, bytes)| == |b| && Overwritten(b, 0, bytes)[..|bytes|] == bytes
    ensures bytes == [] ==> Overwritten(b, 0, bytes) == b
  {
  }

  /** The last of the calls made since then had this result. */
  predicate EndsWith(before: seq<int>, after: seq<int>, result: int) {
    |before| < |after| && after[|after| - 1] == result
  }

  /** The last of these calls failed, or the last 5000 would all have blocked. */
  predicate Failed(before: seq<int>, after: seq<int>) {
    && |before| < |after|
    && (after[|after| - 1] < 0
        || (|after| - |before| >= MAX_RETRIES && forall i :: |after| - MAX_RETRIES <= i < |after| ==> after[i] == 0))
  }

  /** One of the 5000 calls from this one on moves something. */
  ghost predicate MovesSomething(results: seq<int>, from: nat)
    requires from + MAX_RETRIES <= |results|
  {
    exists i :: from <= i < from + MAX_RETRIES && results[i] > 0
  }

  /** A transfer does not fail while no call does and some call out of any 5000 in a row moves something. */
  lemma ProgressSucceeds(before: seq<int>, after: seq<int>)
    requires before <= after && forall i :: |before| <= i < |after| ==> after[i] >= 0
    requires forall i :: |before| <= i <= |after| - MAX_RETRIES ==> MovesSomething(after, i)
    ensures !Failed(before, after)
  {
    if |after| - |before| >= MAX_RETRIES {
      assert MovesSomething(after, |after| - MAX_RETRIES);
    }
  }

  /**
   * One end of a connection: what was handed to the network, what is still to
   * come out of it, and the results of the calls of send and recv so far.
   */
  class Connection {
    var isOpen: bool
    var outgoing: Bytes
    var incoming: Bytes
    ghost var results: seq<int>

    constructor (incoming: Bytes)
      ensures isOpen && outgoing == [] && this.incoming == incoming && results == []
    {
      isOpen, outgoing, this.incoming, results := true, [], incoming, [];
    }

    /** One call of send: some bytes, none for now (0), closed (-2), unreachable (-3) or another failure (-1). */
    method SafeSend(buffer: array<Byte>, from: nat, length: int) returns (n: int)
      requires from + length <= buffer.Length
      modifies `outgoing, `results
      ensures -3 <= n <= length || (length <= 0 && n == -1)
      ensures results == old(results) + [n]
      ensures n > 0 ==> outgoing == old(outgoing) + buffer[from..from + n]
      ensures n <= 0 ==> outgoing == old(outgoing)
    {
      n := -1;
      if isOpen && length > 0 {
        n := *;
      }
      if !(-3 <= n <= length) {
        n := if n < 0 then -1 else 0;
      }
      results := results + [n];
      if n > 0 {
        outgoing := outgoing + buffer[from..from + n];
      }
    }

    /** One call of recv, with the same outcomes. */
    method SafeReceive(buffer: array<Byte>, from: nat, length: int) returns (n: int)
      requires from + length <= buffer.Length
      modifies `incoming, `results, buffer
      ensures -3 <= n <= length || (length <= 0 && n == -1)
      ensures results == old(results) + [n]
      ensures n > 0 ==> n <= |old(incoming)| && incoming == old(incoming)[n..]
      ensures n > 0 ==> buffer[..] == Overwritten(old(buffer[..]), from, old(incoming)[..n])
      ensures n <= 0 ==> incoming == old(incoming) && buffer[..] == old(buffer[..])
    {
      n := -1;
      if isOpen && length > 0 {
        n := *;
      }
      if !(-3 <= n <= length && n <= |incoming|) {
        n := if n < 0 then -1 else 0;
      }
      results := results + [n];
      if n > 0 {
        forall i | 0 <= i < n {
          buffer[from + i] := incoming[i];
        }
        incoming := incoming[n..];
      }
    }
  }

  /** After a transfer that succeeded, the next one decides how both together end. */
  lemma LaterDecides(before: seq<int>, between: seq<int>, after: seq<int>)
    requires before <= between <= after && |before| < |between| && between[|between| - 1] > 0
    ensures Failed(before, after) <==> Failed(between, after)
    ensures forall result :: result < 0 ==> (EndsWith(before, after, result) <==> EndsWith(between, after, result))
  {
    assert after[|between| - 1] == between[|between| - 1];
  }

  /** The last `retries` calls would have blocked, and the one before, if any, moved something. */
  predicate Idle(before: seq<int>, after: seq<int>, retries: nat) {
    && |before| + retries <= |after|
    && (forall i :: |after| - retries <= i < |after| ==> after[i] == 0)
    && (|before| + retries < |after| ==> after[|after| - retries - 1] > 0)
  }

  /** At most 5000 calls for every byte; it gives up only when a call fails or 5000 in a row would block. */
  method SendBuffer(c: Connection, buffer: array<Byte>, length: nat) returns (r: int)
    requires length <= buffer.Length
    modifies c`outgoing, c`results
    ensures r == 0 || r == -1 || r == -2 || r == -3
    ensures r == 0 ==> c.outgoing == old(c.outgoing) + buffer[..length]
    ensures r != 0 ==> exists n :: 0 <= n <= length && (n < length || length == 0) &&
                                   c.outgoing == old(c.outgoing) + buffer[..n]
    ensures old(c.results) <= c.results && |c.results| - |old(c.results)| <= MAX_RETRIES * length
    ensures r == 0 <==> c.isOpen && length > 0 && !Failed(old(c.results), c.results)
    ensures r == 0 ==> |old(c.results)| < |c.results| && c.results[|c.results| - 1] > 0
    ensures r == -2 || r == -3 ==> EndsWith(old(c.results), c.results, r)
    ensures r == -1 ==> !EndsWith(old(c.results), c.results, -2) && !EndsWith(old(c.results), c.results, -3)
  {
    if !c.isOpen || length <= 0 {
      assert c.outgoing == old(c.outgoing) + buffer[..0];
      return -1;
    }
    var totalSent, retries := 0, 0;
    while totalSent < length && retries < MAX_RETRIES
      invariant 0 <= totalSent <= length && 0 <= retries <= MAX_RETRIES
      invariant c.outgoing == old(c.outgoing) + buffer[..totalSent]
      invariant old(c.results) <= c.results && Idle(old(c.results), c.results, retries)
      invariant |c.results| - |old(c.results)| <= MAX_RETRIES * totalSent + retries
      invariant totalSent == length ==> retries == 0
      invariant totalSent > 0 ==> |old(c.results)| + retries < |c.results|
      decreases length - totalSent, MAX_RETRIES - retries
    {
      var bytesSent := c.SafeSend(buffer, totalSent, length - totalSent);
      if bytesSent > 0 {
        assert buffer[..totalSent + bytesSent] == buffer[..totalSent] + buffer[totalSent..totalSent + bytesSent];
        totalSent := totalSent + bytesSent;
        retries := 0;
      } else if bytesSent == 0 {
        retries := retries + 1;
      } else if bytesSent == -2 || bytesSent == -3 {
        return bytesSent;
      } else {
        return -1;
      }
    }
    r := if totalSent < length then -1 else 0;
  }

  /** Either exactly the next `length` bytes of the stream, or a failure after some of them, for the same causes. */
  method ReceiveBuffer(c: Connection, buffer: array<Byte>, length: nat) returns (r: int)
    requires length <= buffer.Length
    modifies c`incoming, c`results, buffer
    ensures r == 0 || r == -1 || r == -2 || r == -3
    ensures r == 0 ==> old(c.incoming) == buffer[..length] + c.incoming
    ensures exists n :: 0 <= n <= length && n <= |old(c.incoming)| && c.incoming == old(c.incoming)[n..] &&
                        buffer[..] == Overwritten(old(buffer[..]), 0, old(c.incoming)[..n])
    ensures old(c.results) <= c.results && |c.results| - |old(c.results)| <= MAX_RETRIES * length
    ensures r == 0 <==> c.isOpen && length > 0 && !Failed(old(c.results), c.results)
    ensures r == 0 ==> |old(c.results)| < |c.results| && c.results[|c.results| - 1] > 0
    ensures r == -2 || r == -3 ==> EndsWith(old(c.results), c.results, r)
    ensures r == -1 ==> !EndsWith(old(c.results), c.results, -2) && !EndsWith(old(c.results), c.results, -3)
  {
    hide Overwritten;
    OverwrittenAll(buffer[..], []);
    assert c.incoming[..0] == [] && c.incoming == c.incoming[0..];
    if !c.isOpen || length <= 0 {
      return -1;
    }
    var totalReceived, retries := 0, 0;
    while totalReceived < length && retries < MAX_RETRIES
      invariant 0 <= totalReceived <= length && 0 <= retries <= MAX_RETRIES
      invariant totalReceived <= |old(c.incoming)| && c.incoming == old(c.incoming)[totalReceived..]
      invariant buffer[..] == Overwritten(old(buffer[..]), 0, old(c.incoming)[..totalReceived])
      invariant old(c.results) <= c.results && Idle(old(c.results), c.results, retries)
      invariant |c.results| - |old(c.results)| <= MAX_RETRIES * totalReceived + retries
      invariant totalReceived == length ==> retries == 0
      invariant totalReceived > 0 ==> |old(c.results)| + retries < |c.results|
      decreases length - totalReceived, MAX_RETRIES - retries
    {
      var bytesReceived := c.SafeReceive(buffer, totalReceived, length - totalReceived);
      if bytesReceived > 0 {
        OverwrittenOn(old(buffer[..]), old(c.incoming), totalReceived, bytesReceived);
        totalReceived := totalReceived + bytesReceived;
        retries := 0;
      } else if bytesReceived == 0 {
        retries := retries + 1;
      } else if bytesReceived == -2 || bytesReceived == -3 {
        return bytesReceived;
      } else {
        return -1;
      }
    }
    if totalReceived == length {
      OverwrittenAll(old(buffer[..]), old(c.incoming)[..length]);
      assert buffer[..length] == buffer[..][..length] == old(c.incoming)[..length];
    }
    r := if totalReceived < length then -1 else 0;
  }
}
