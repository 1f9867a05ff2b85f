/** Pty output to clients: one lock around scrollback and broadcast. */
module Fanouts {
  import opened Bytes
  import opened RingBuffers

  // --------------------------------------------------------- the channel

  /** A broadcast channel: the newest `capacity` items and the position the
      next item will get. Receivers keep a cursor each. */
  datatype Channel = Channel(capacity: nat, slots: seq<Chunk>, pos: nat)

  datatype Received = Empty | Lagged(missed: nat) | Item(chunk: Chunk)

  predicate ChannelOk(ch: Channel) {
    ch.capacity >= 1 && |ch.slots| == if ch.pos <= ch.capacity then ch.pos else ch.capacity
  }

  /** With no receiver there is nothing to store an item for. */
  function SendOn(ch: Channel, c: Chunk, receivers: nat): Channel {
    if receivers == 0 then ch
    else Channel(ch.capacity, LastN(ch.slots + [c], ch.capacity), ch.pos + 1)
  }

  /** What a receiver whose cursor is at `next` finds. */
  function Poll(ch: Channel, next: nat): Received
    requires ChannelOk(ch)
  {
    var oldest := ch.pos - |ch.slots|;
    if next >= ch.pos then Empty
    else if next < oldest then Lagged(oldest - next)
    else Item(ch.slots[next - oldest])
  }

  class Broadcast {
    var channel: Channel
    var receivers: nat

    constructor (capacity: nat)
      requires capacity >= 1
      ensures channel == Channel(capacity, [], 0) && receivers == 0
    {
      channel, receivers := Channel(capacity, [], 0), 0;
    }

    /** A new receiver sees what is sent from now on. */
    method Subscribe() returns (next: nat)
      modifies `receivers
      ensures next == channel.pos && receivers == old(receivers) + 1
    {
      next, receivers := channel.pos, receivers + 1;
    }

    method Unsubscribe()
      requires receivers > 0
      modifies `receivers
      ensures receivers == old(receivers) - 1
    {
      receivers := receivers - 1;
    }

    method Send(c: Chunk)
      modifies `channel
      ensures channel == SendOn(old(channel), c, receivers)
      ensures receivers == 0 ==> channel == old(channel)
      ensures receivers > 0 ==>
        && channel.capacity == old(channel.capacity) && channel.pos == old(channel.pos) + 1
        && channel.slots == LastN(old(channel.slots) + [c], channel.capacity)
    {
      if receivers > 0 {
        var slots := channel.slots + [c];
        if |slots| > channel.capacity {
          slots := slots[|slots| - channel.capacity..];
        }
        channel := Channel(channel.capacity, slots, channel.pos + 1);
      }
    }

    /** A lagging receiver is told so, and moved to the oldest item kept. */
    method Recv(next: nat) returns (r: Received, next': nat)
      requires ChannelOk(channel)
      ensures r == Poll(channel, next)
      ensures match r
        case Empty => next' == next
        case Lagged(missed) => next' == next + missed
        case Item(_) => next' == next + 1
    {
      var oldest := channel.pos - |channel.slots|;
      if next >= channel.pos {
        return Empty, next;
      }
      if next < oldest {
        return Lagged(oldest - next), oldest;
      }
      return Item(channel.slots[next - oldest]), next + 1;
    }
  }

  // ---------------------------------------------------------- the fanout

  class Fanout {
    const ring: RingBuffer
    const tx: Broadcast
    /** Every chunk ever pushed. */
    ghost var history: seq<Chunk>

    ghost predicate Valid()
      reads this, ring, ring.buf, tx
    {
      && ring.Valid()
      && ring.history == Flatten(history)
      && ChannelOk(tx.channel)
    }

    constructor (scrollbackCapacity: nat, broadcastCapacity: nat)
      requires IsPowerOfTwo(scrollbackCapacity) && broadcastCapacity >= 1
      ensures Valid() && fresh(ring) && fresh(ring.buf) && fresh(tx)
      ensures history == [] && ring.buf.Length == scrollbackCapacity
      ensures tx.channel == Channel(broadcastCapacity, [], 0) && tx.receivers == 0
    {
      ring := new RingBuffer(scrollbackCapacity);
      tx := new Broadcast(broadcastCapacity);
      history := [];
    }

    /** Record in scrollback and send to whoever is attached, as one step. */
    method Push(data: Chunk)
      requires Valid()
      modifies this, ring, ring.buf, tx
      ensures Valid()
      ensures history == old(history) + [data]
      ensures tx.channel == SendOn(old(tx.channel), data, old(tx.receivers))
      ensures tx.receivers == old(tx.receivers)
    {
      ring.Append(data);
      tx.Send(data);
      FlattenSnoc(history, data);
      history := history + [data];
    }

    /** Subscribe and take a snapshot, as one step: the snapshot is the newest
        output pushed so far, the cursor the position of the next push. */
    method Attach() returns (snapshot: seq<byte>, next: nat)
      requires Valid()
      modifies tx`receivers
      ensures Valid()
      ensures snapshot == LastN(Flatten(history), ring.buf.Length)
      ensures next == tx.channel.pos
      ensures tx.receivers == old(tx.receivers) + 1
    {
      next := tx.Subscribe();
      snapshot := ring.Snapshot();
    }
  }
}
