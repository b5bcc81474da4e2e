/**
 * The ring buffer behind LoadBalancer/ClientRequestQueue.c and
 * LoadBalancer/WorkerResponseQueue.c.  The two C types differ only in the
 * fields that name a message's owner, which are the type parameter here.  Each
 * method is the region run while the lock is held; the semaphores around it are
 * the subject of module PermitQueue.
 */
module MessageQueue {
  import opened Circle
  import opened Config

  datatype ClientOwner = ClientOwner(clientSocket: SocketHandle, clientId: int)
  datatype WorkerOwner = WorkerOwner(workerSocket: SocketHandle, workerId: int, clientId: int)

  /** One array element: the first `dataSize` bytes of `data` count, the others are left over. */
  datatype Slot<H> = Slot(owner: H, data: Bytes, dataSize: nat, messageType: Byte) {
    ghost predicate Valid() {
      |data| == MAX_MESSAGE_SIZE && dataSize <= MAX_MESSAGE_SIZE
    }
  }

  /** What a slot means. */
  datatype Message<H> = Message(owner: H, payload: Bytes, messageType: Byte)

  function Meaning<H>(slot: Slot<H>): Message<H>
    requires slot.Valid()
  {
    Message(slot.owner, slot.data[..slot.dataSize], slot.messageType)
  }

  /** memcpy of the first `length` bytes of `source` over the start of `target`. */
  function Copied(target: Bytes, source: Bytes, length: nat): (result: Bytes)
    requires length <= |source| && length <= |target|
    ensures |result| == |target| && result[..length] == source[..length]
  {
    source[..length] + target[length..]
  }

  /** The meaning of the `count` slots from `head` on. */
  ghost function Live<H>(slots: seq<Slot<H>>, head: nat, count: nat): (live: seq<Message<H>>)
    requires head < |slots| && count <= |slots|
    requires forall slot <- slots :: slot.Valid()
    ensures |live| == count
    decreases count
  {
    if count == 0 then []
    else [Meaning(slots[head])] + Live(slots, After(head, |slots|), count - 1)
  }

  lemma {:induction false} LiveAppend<H>(slots: seq<Slot<H>>, head: nat, count: nat, slot: Slot<H>)
    requires head < |slots| && count < |slots| && slot.Valid()
    requires forall slot <- slots :: slot.Valid()
    ensures var tail := Wrap(head + count, |slots|);
      Live(slots[tail := slot], head, count + 1) == Live(slots, head, count) + [Meaning(slot)]
    decreases count
  {
    var n, tail := |slots|, Wrap(head + count, |slots|);
    if count == 0 {
      assert Live(slots[tail := slot], After(head, n), 0) == [];
    } else {
      var rest := After(head, n);
      assert Wrap(rest + (count - 1), n) == tail != head;
      LiveAppend(slots, rest, count - 1, slot);
      var s' := slots[tail := slot];
      assert Live(s', head, count + 1) == [Meaning(s'[head])] + Live(s', rest, count);
    }
  }

  class MessageQueue<H(0)> {
    const slots: array<Slot<H>>
    var head: nat
    var tail: nat
    var count: nat

    ghost predicate Valid()
      reads this, slots
    {
      && slots.Length == QUEUE_CAPACITY
      && head < QUEUE_CAPACITY && count <= QUEUE_CAPACITY
      && tail == Wrap(head + count, QUEUE_CAPACITY)
      && forall i :: 0 <= i < slots.Length ==> slots[i].Valid()
    }

    ghost function Contents(): seq<Message<H>>
      reads this, slots
      requires Valid()
    {
      Live(slots[..], head, count)
    }

    constructor (owner: H)
      ensures Valid() && fresh(slots) && Contents() == []
    {
      var blank := Slot(owner, seq(MAX_MESSAGE_SIZE, _ => 0), 0, 0);
      slots := new Slot<H>[QUEUE_CAPACITY](_ => blank);
      head, tail, count := 0, 0, 0;
    }

    method Put(owner: H, data: Bytes, length: nat, messageType: Byte) returns (r: int)
      requires Valid() && length <= |data| && length <= MAX_MESSAGE_SIZE
      modifies this`tail, this`count, slots
      ensures Valid() && (r == 0 || r == 1)
      ensures r == 1 <==> |old(Contents())| < QUEUE_CAPACITY
      ensures r == 0 ==> Contents() == old(Contents())
      ensures r == 1 ==> Contents() == old(Contents()) + [Message(owner, data[..length], messageType)]
    {
      if count >= QUEUE_CAPACITY {
        return 0;
      }
      var slot := Slot(owner, Copied(slots[tail].data, data, length), length, messageType);
      LiveAppend(slots[..], head, count, slot);
      ghost var before := slots[..];
      slots[tail] := slot;
      assert slots[..] == before[tail := slot];
      tail := (tail + 1) % QUEUE_CAPACITY;
      count := count + 1;
      r := 1;
    }

    /** `request` is the caller's record; what its buffer held beyond the message stays there. */
    method Take(request: Slot<H>) returns (r: int, taken: Slot<H>)
      requires Valid() && request.Valid()
      modifies this`head, this`count
      ensures Valid() && taken.Valid() && (r == 0 || r == 1)
      ensures r == 1 <==> old(Contents()) != []
      ensures r == 0 ==> Contents() == old(Contents()) && taken == request
      ensures r == 1 ==> old(Contents()) == [Meaning(taken)] + Contents()
    {
      if count <= 0 {
        return 0, request;
      }
      var slot := slots[head];
      taken := Slot(slot.owner, Copied(request.data, slot.data, slot.dataSize), slot.dataSize, slot.messageType);
      assert Meaning(taken) == Meaning(slot);
      head := (head + 1) % QUEUE_CAPACITY;
      count := count - 1;
      r := 1;
    }

    method Return(request: Slot<H>) returns (r: int)
      requires Valid() && request.Valid()
      modifies this`tail, this`count, slots
      ensures Valid() && (r == 0 || r == 1)
      ensures r == 1 <==> |old(Contents())| < QUEUE_CAPACITY
      ensures r == 0 ==> Contents() == old(Contents())
      ensures r == 1 ==> Contents() == old(Contents()) + [Meaning(request)]
    {
      r := Put(request.owner, request.data, request.dataSize, request.messageType);
    }
  }
}
