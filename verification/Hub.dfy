/** The fanout and what every task has taken from it, as code: what the event
    loop does to it is one step of `FanoutRuns` each. */
module Hubs {
  import opened Bytes
  import opened Fanouts
  import F = FanoutRuns

  class Hub {
    const fanout: Fanout
    /** What each connection's task holds and was written, and the steps that
        led here; both only record. */
    ghost var clients: seq<F.Client>
    ghost var trace: seq<F.Step>
    ghost const start: F.World

    ghost function Repr(): set<object> {
      {this, fanout, fanout.ring, fanout.ring.buf, fanout.tx}
    }

    ghost function World(): F.World
      reads Repr()
    {
      F.World(fanout.ring.buf.Length, LastN(Flatten(fanout.history), fanout.ring.buf.Length), fanout.tx.channel,
              clients, fanout.history)
    }

    /** The channel knows exactly the receivers the tasks hold, and the state
        is one the transition system reaches. */
    ghost predicate Valid()
      reads Repr()
    {
      && fanout.Valid()
      && fanout.tx.receivers == F.ReceiversOf(clients)
      && F.Reaches(start, trace, World())
    }

    constructor (scrollback: nat, capacity: nat)
      requires IsPowerOfTwo(scrollback) && capacity >= 1
      ensures Valid() && World() == start == F.Initial(scrollback, capacity) && trace == []
      ensures fresh(Repr())
    {
      fanout := new Fanout(scrollback, capacity);
      clients, trace, start := [], [], F.Initial(scrollback, capacity);
    }

    /** The loop read a chunk of output. */
    method Push(chunk: Chunk)
      requires Valid()
      modifies Repr()
      ensures Valid() && trace == old(trace) + [F.Pushed(chunk)]
      ensures World() == F.Next(old(World()), F.Pushed(chunk))
    {
      ghost var w := World();
      F.ExecSnoc(start, trace, F.Pushed(chunk));
      fanout.Push(chunk);
      FlattenSnoc(w.history, chunk);
      LastNAbsorbs(Flatten(w.history), chunk, w.cap);
      trace := trace + [F.Pushed(chunk)];
    }

    /** The loop accepted a connection. */
    ghost method Connect()
      requires Valid()
      modifies this
      ensures Valid() && trace == old(trace) + [F.Connected]
      ensures World() == F.Next(old(World()), F.Connected)
    {
      F.ExecSnoc(start, trace, F.Connected);
      F.ReceiversOfSnoc(clients, F.NewClient);
      clients, trace := clients + [F.NewClient], trace + [F.Connected];
    }
  }
}
