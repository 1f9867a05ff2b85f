/** Every interleaving of pushes, attaches, detaches, receives and lags: each
    client gets one unbroken stretch of the output history per attachment. */
module FanoutRuns {
  import opened Bytes
  import opened Fanouts

  /** A receiver's cursor; `from` and `got` record how much output there was
      when it subscribed and how many chunks it has taken since. */
  datatype Receiver = Receiver(next: nat, from: nat, got: nat)

  /** One attachment of one client: how much output there was at its attach,
      and what the client has been written since. */
  datatype Episode = Episode(from: nat, skipRing: bool, written: seq<byte>)

  /** A client task. `joining` is a receiver whose snapshot is still being
      written; `pending` is what a write in progress has left to write.
      `episodes` only records: what a step does to the rest never depends on
      it. */
  datatype Client = Client(
    open: bool,
    attached: Option<Receiver>,
    joining: Option<Receiver>,
    pending: seq<byte>,
    episodes: seq<Episode>)

  /** The fanout and its clients; `history` records every chunk pushed. */
  datatype World = World(
    cap: nat,
    ring: seq<byte>,
    ch: Channel,
    clients: seq<Client>,
    history: seq<Chunk>)

  datatype Step =
    | Pushed(chunk: Chunk)
    | Connected
    | Attaching(client: nat, skipRing: bool)
    | Writing(client: nat, count: nat)
    | Joined(client: nat)
    | Detaching(client: nat)
    | Receiving(client: nat)
    | Dropping(client: nat)

  function Initial(cap: nat, capacity: nat): World {
    World(cap, [], Channel(capacity, [], 0), [], [])
  }

  const NewClient: Client := Client(true, None, None, [], [])

  /** Receivers a client's task holds. */
  function Held(c: Client): nat {
    (if c.attached.Some? then 1 else 0) + (if c.joining.Some? then 1 else 0)
  }

  function ReceiversOf(clients: seq<Client>): nat {
    if clients == [] then 0 else Held(clients[0]) + ReceiversOf(clients[1..])
  }

  lemma {:induction false} ReceiversOfUpdate(clients: seq<Client>, i: nat, c: Client)
    requires i < |clients|
    ensures ReceiversOf(clients[i := c]) == ReceiversOf(clients) - Held(clients[i]) + Held(c)
    ensures ReceiversOf(clients) >= Held(clients[i])
  {
    if i == 0 {
      assert clients[0 := c][1..] == clients[1..];
    } else {
      assert clients[i := c][1..] == clients[1..][i - 1 := c];
      ReceiversOfUpdate(clients[1..], i - 1, c);
    }
  }

  lemma {:induction false} ReceiversOfSnoc(clients: seq<Client>, c: Client)
    ensures ReceiversOf(clients + [c]) == ReceiversOf(clients) + Held(c)
  {
    if clients == [] {
      assert clients + [c] == [c] && [c][1..] == [];
    } else {
      assert (clients + [c])[1..] == clients[1..] + [c];
      ReceiversOfSnoc(clients[1..], c);
    }
  }

  predicate Idle(c: Client) {
    c.open && c.joining == None && c.pending == []
  }

  /** A move of client `i`. */
  predicate OfClient(s: Step, i: nat) {
    !s.Pushed? && !s.Connected? && s.client == i
  }

  predicate Enabled(w: World, s: Step) {
    match s
    case Pushed(_) => true
    case Connected => true
    case Attaching(i, _) => i < |w.clients| && Idle(w.clients[i])
    case Writing(i, n) => i < |w.clients| && w.clients[i].open && 0 < n <= |w.clients[i].pending|
    case Joined(i) => i < |w.clients| && w.clients[i].joining.Some? && w.clients[i].pending == []
    case Detaching(i) => i < |w.clients| && Idle(w.clients[i])
    case Receiving(i) =>
      && i < |w.clients| && Idle(w.clients[i]) && w.clients[i].attached.Some?
      && ChannelOk(w.ch) && Poll(w.ch, w.clients[i].attached.value.next) != Empty
    case Dropping(i) => i < |w.clients| && w.clients[i].open
  }

  function Dropped(c: Client): Client {
    Client(false, None, None, [], c.episodes)
  }

  /** The latest attachment was written some more. */
  function Recorded(episodes: seq<Episode>, bytes: seq<byte>): seq<Episode> {
    if episodes == [] then episodes
    else
      var last := |episodes| - 1;
      var e := episodes[last];
      episodes[last := e.(written := e.written + bytes)]
  }

  /** Everything a client's socket was written. */
  function Shown(episodes: seq<Episode>): seq<byte> {
    if episodes == [] then [] else Shown(episodes[..|episodes| - 1]) + episodes[|episodes| - 1].written
  }

  lemma ShownRecorded(episodes: seq<Episode>, bytes: seq<byte>)
    requires episodes != []
    ensures Shown(Recorded(episodes, bytes)) == Shown(episodes) + bytes
  {
    var last := |episodes| - 1;
    assert Recorded(episodes, bytes)[..last] == episodes[..last];
    Reassociate(Shown(episodes[..last]), episodes[last].written, bytes);
  }

  lemma ShownStarted(episodes: seq<Episode>, from: nat, skip: bool)
    ensures Shown(episodes + [Episode(from, skip, [])]) == Shown(episodes)
  {
    assert (episodes + [Episode(from, skip, [])])[..|episodes|] == episodes;
    assert Shown(episodes) + [] == Shown(episodes);
  }

  function Wrote(c: Client, n: nat): Client
    requires n <= |c.pending|
  {
    c.(pending := c.pending[n..], episodes := Recorded(c.episodes, c.pending[..n]))
  }

  /** One client's move. */
  function Move(w: World, c: Client, s: Step): Client
    requires match s
      case Writing(_, n) => n <= |c.pending|
      case Joined(_) => c.joining.Some?
      case Receiving(_) => c.attached.Some? && ChannelOk(w.ch)
      case _ => true
  {
    match s
    case Attaching(_, skip) =>
      var rx := Receiver(w.ch.pos, |w.history|, 0);
      var episodes := c.episodes + [Episode(|w.history|, skip, [])];
      if skip then c.(attached := Some(rx), episodes := episodes)
      else c.(joining := Some(rx), pending := w.ring, episodes := episodes)
    case Writing(_, n) => Wrote(c, n)
    case Joined(_) => c.(attached := c.joining, joining := None)
    case Detaching(_) => c.(attached := None)
    case Receiving(_) =>
      var r := c.attached.value;
      (match Poll(w.ch, r.next)
       case Empty => c
       case Lagged(_) => Dropped(c)
       case Item(chunk) => c.(attached := Some(Receiver(r.next + 1, r.from, r.got + 1)), pending := chunk))
    case Dropping(_) => Dropped(c)
    case _ => c
  }

  function Next(w: World, s: Step): World
    requires Enabled(w, s)
  {
    match s
    case Pushed(chunk) =>
      w.(ring := LastN(w.ring + chunk, w.cap),
         ch := SendOn(w.ch, chunk, ReceiversOf(w.clients)),
         history := w.history + [chunk])
    case Connected => w.(clients := w.clients + [NewClient])
    case _ => w.(clients := w.clients[s.client := Move(w, w.clients[s.client], s)])
  }

  function Exec(w: World, steps: seq<Step>): Option<World>
    decreases |steps|
  {
    if steps == [] then Some(w)
    else if Enabled(w, steps[0]) then Exec(Next(w, steps[0]), steps[1..])
    else None
  }

  lemma {:induction false} ExecConcat(w: World, a: seq<Step>, b: seq<Step>)
    requires Exec(w, a).Some?
    ensures Exec(w, a + b) == Exec(Exec(w, a).value, b)
    decreases |a|
  {
    if a == [] {
      assert a + b == b;
    } else {
      assert (a + b)[1..] == a[1..] + b;
      ExecConcat(Next(w, a[0]), a[1..], b);
    }
  }

  lemma ExecOne(w: World, s: Step)
    ensures Exec(w, []) == Some(w)
    ensures Exec(w, [s]) == if Enabled(w, s) then Some(Next(w, s)) else None
  {
    assert [s][1..] == [];
  }

  lemma ExecSnoc(w: World, steps: seq<Step>, s: Step)
    requires Exec(w, steps).Some? && Enabled(Exec(w, steps).value, s)
    ensures Exec(w, steps + [s]) == Some(Next(Exec(w, steps).value, s))
  {
    ExecConcat(w, steps, [s]);
    ExecOne(Exec(w, steps).value, s);
  }

  /** `steps` lead from an empty fanout, `start`, to `w`. */
  ghost predicate Reaches(start: World, steps: seq<Step>, w: World) {
    && start == Initial(start.cap, start.ch.capacity) && start.ch.capacity >= 1
    && Exec(start, steps) == Some(w)
  }

  lemma {:induction false} ExecSplit(w: World, steps: seq<Step>, s: Step)
    requires Exec(w, steps + [s]).Some?
    ensures Exec(w, steps).Some? && Enabled(Exec(w, steps).value, s)
    decreases |steps|
  {
    if steps == [] {
      assert steps + [s] == [s];
    } else {
      assert (steps + [s])[1..] == steps[1..] + [s];
      ExecSplit(Next(w, steps[0]), steps[1..], s);
    }
  }

  // ------------------------------------------------------- the invariant

  /** Where in the output history an attachment starts. */
  function StartOf(cap: nat, history: seq<Chunk>, e: Episode): (n: nat)
    requires e.from <= |history|
    ensures n <= |Flatten(history[..e.from])|
  {
    var before := Flatten(history[..e.from]);
    if e.skipRing then |before| else |before| - |LastN(before, cap)|
  }

  /** A receiver is as far behind the channel as it is behind the history, and
      what it has yet to read is the end of the history. */
  ghost predicate ReceiverOk(ch: Channel, history: seq<Chunk>, r: Receiver) {
    && r.next <= ch.pos
    && r.from + r.got <= |history|
    && ch.pos - r.next == |history| - r.from - r.got
    && forall k :: 0 <= k < |ch.slots| && k < ch.pos - r.next ==> FromEnd(ch.slots, k) == FromEnd(history, k)
  }

  /** What a client was written is an unbroken stretch of the history. */
  ghost predicate EpisodeOk(cap: nat, history: seq<Chunk>, e: Episode) {
    && e.from <= |history|
    && Stretch(history, StartOf(cap, history, e), e.written)
  }

  ghost predicate Stretch(history: seq<Chunk>, at: nat, bytes: seq<byte>) {
    at + |bytes| <= |Flatten(history)| && bytes == Flatten(history)[at..at + |bytes|]
  }

  /** With what is still being written, it reaches up to chunk `upTo`. */
  ghost predicate Continues(cap: nat, history: seq<Chunk>, e: Episode, pending: seq<byte>, upTo: nat) {
    && e.from <= |history| && upTo <= |history|
    && Stretch(history, StartOf(cap, history, e), e.written + pending)
    && StartOf(cap, history, e) + |e.written| + |pending| == |Flatten(history[..upTo])|
  }

  ghost predicate EpisodesOk(cap: nat, history: seq<Chunk>, c: Client) {
    forall e | e in c.episodes :: EpisodeOk(cap, history, e)
  }

  ghost predicate ReceiversOk(ch: Channel, history: seq<Chunk>, c: Client) {
    && (c.attached.Some? ==> ReceiverOk(ch, history, c.attached.value))
    && (c.joining.Some? ==> ReceiverOk(ch, history, c.joining.value))
  }

  /** The receiver the client is being written from, if any. */
  function Serving(c: Client): Option<Receiver> {
    if c.joining.Some? then c.joining else c.attached
  }

  ghost predicate ServedOk(cap: nat, history: seq<Chunk>, c: Client) {
    match Serving(c)
    case None => c.pending == []
    case Some(r) => Following(cap, history, c, r)
  }

  ghost predicate ClientOk(cap: nat, ch: Channel, history: seq<Chunk>, c: Client) {
    && (!c.open ==> Serving(c) == None)
    && EpisodesOk(cap, history, c)
    && ReceiversOk(ch, history, c)
    && ServedOk(cap, history, c)
  }

  /** The client's latest attachment is the one receiver `r` serves. */
  ghost predicate Following(cap: nat, history: seq<Chunk>, c: Client, r: Receiver) {
    && c.episodes != []
    && var e := c.episodes[|c.episodes| - 1];
      e.from == r.from && Continues(cap, history, e, c.pending, r.from + r.got)
  }

  ghost predicate WorldOk(w: World) {
    && ChannelOk(w.ch)
    && w.ring == LastN(Flatten(w.history), w.cap)
    && forall i :: 0 <= i < |w.clients| ==> ClientOk(w.cap, w.ch, w.history, w.clients[i])
  }

  // ------------------------------------------------------ pushes preserve it

  lemma FlattenPrefix(history: seq<Chunk>, chunk: Chunk, k: nat)
    requires k <= |history|
    ensures (history + [chunk])[..k] == history[..k]
    ensures Flatten(history + [chunk]) == Flatten(history) + chunk
    ensures |Flatten(history[..k])| <= |Flatten(history)|
  {
    FlattenSnoc(history, chunk);
    FlattenCut(history, k);
  }

  lemma StretchGrows(history: seq<Chunk>, chunk: Chunk, at: nat, bytes: seq<byte>)
    requires Stretch(history, at, bytes)
    ensures Stretch(history + [chunk], at, bytes)
  {
    FlattenSnoc(history, chunk);
  }

  lemma EpisodeGrows(cap: nat, history: seq<Chunk>, chunk: Chunk, e: Episode)
    requires e.from <= |history|
    ensures StartOf(cap, history + [chunk], e) == StartOf(cap, history, e)
    ensures EpisodeOk(cap, history, e) ==> EpisodeOk(cap, history + [chunk], e)
  {
    FlattenPrefix(history, chunk, e.from);
    if EpisodeOk(cap, history, e) {
      StretchGrows(history, chunk, StartOf(cap, history, e), e.written);
    }
  }

  lemma ContinuesGrows(cap: nat, history: seq<Chunk>, chunk: Chunk, e: Episode, pending: seq<byte>, upTo: nat)
    requires Continues(cap, history, e, pending, upTo)
    ensures Continues(cap, history + [chunk], e, pending, upTo)
  {
    EpisodeGrows(cap, history, chunk, e);
    FlattenPrefix(history, chunk, upTo);
    StretchGrows(history, chunk, StartOf(cap, history, e), e.written + pending);
  }

  lemma ReceiverGrows(ch: Channel, history: seq<Chunk>, chunk: Chunk, r: Receiver, receivers: nat)
    requires ChannelOk(ch) && ReceiverOk(ch, history, r) && receivers > 0
    ensures ReceiverOk(SendOn(ch, chunk, receivers), history + [chunk], r)
  {
    var ch', h' := SendOn(ch, chunk, receivers), history + [chunk];
    forall k: nat | k < |ch'.slots| && k < ch'.pos - r.next ensures FromEnd(ch'.slots, k) == FromEnd(h', k) {
      FromEndSnoc(ch.slots, chunk, ch.capacity, k);
      FromEndSnoc(history, chunk, |h'|, k);
      if k > 0 {
        assert FromEnd(ch.slots, k - 1) == FromEnd(history, k - 1);
      }
    }
  }

  lemma ClientOkPush(cap: nat, ch: Channel, history: seq<Chunk>, clients: seq<Client>, chunk: Chunk, i: nat)
    requires ChannelOk(ch) && i < |clients| && ClientOk(cap, ch, history, clients[i])
    ensures ClientOk(cap, SendOn(ch, chunk, ReceiversOf(clients)), history + [chunk], clients[i])
  {
    var c, h' := clients[i], history + [chunk];
    var ch' := SendOn(ch, chunk, ReceiversOf(clients));
    assert EpisodesOk(cap, h', c) by {
      forall e | e in c.episodes ensures EpisodeOk(cap, h', e) {
        EpisodeGrows(cap, history, chunk, e);
      }
    }
    assert ReceiversOk(ch', h', c) by {
      if Serving(c).Some? {
        ReceiversOfUpdate(clients, i, c);
        if c.attached.Some? {
          ReceiverGrows(ch, history, chunk, c.attached.value, ReceiversOf(clients));
        }
        if c.joining.Some? {
          ReceiverGrows(ch, history, chunk, c.joining.value, ReceiversOf(clients));
        }
      }
    }
    assert ServedOk(cap, h', c) by {
      match Serving(c) {
        case None =>
        case Some(r) =>
          ContinuesGrows(cap, history, chunk, c.episodes[|c.episodes| - 1], c.pending, r.from + r.got);
      }
    }
  }

  // ------------------------------------------------- client moves preserve it

  /** An attachment starts with the snapshot, or with nothing to show. */
  lemma AttachStarts(w: World, skip: bool)
    requires WorldOk(w)
    ensures var e := Episode(|w.history|, skip, []);
      Continues(w.cap, w.history, e, if skip then [] else w.ring, |w.history|)
  {
    assert w.history[..|w.history|] == w.history;
  }

  lemma ContinuesWrite(cap: nat, history: seq<Chunk>, e: Episode, pending: seq<byte>, upTo: nat, n: nat)
    requires Continues(cap, history, e, pending, upTo) && n <= |pending|
    ensures var e' := e.(written := e.written + pending[..n]);
      Continues(cap, history, e', pending[n..], upTo) && EpisodeOk(cap, history, e')
  {
    var e' := e.(written := e.written + pending[..n]);
    assert e'.written + pending[n..] == e.written + pending;
    var at := StartOf(cap, history, e);
    assert Flatten(history)[at..at + |e'.written|] == (e.written + pending)[..|e'.written|];
  }

  /** A receiver's next item is the next chunk of the history: no gap, no
      duplicate, and a lag exactly when more than the capacity was pushed. */
  lemma PollExact(ch: Channel, history: seq<Chunk>, r: Receiver)
    requires ChannelOk(ch) && ReceiverOk(ch, history, r)
    ensures var behind := |history| - r.from - r.got;
      Poll(ch, r.next) ==
        if behind == 0 then Empty
        else if behind > ch.capacity then Lagged(behind - ch.capacity)
        else Item(history[r.from + r.got])
  {
    var behind := ch.pos - r.next;
    if 0 < behind <= ch.capacity {
      var k := behind - 1;
      assert FromEnd(ch.slots, k) == FromEnd(history, k);
    }
  }

  lemma ReceiveContinues(cap: nat, history: seq<Chunk>, e: Episode, upTo: nat)
    requires Continues(cap, history, e, [], upTo) && upTo < |history|
    ensures Continues(cap, history, e, history[upTo], upTo + 1)
  {
    var chunk := history[upTo];
    assert history[..upTo + 1] == history[..upTo] + [chunk];
    FlattenSnoc(history[..upTo], chunk);
    FlattenCut(history, upTo + 1);
    var at := StartOf(cap, history, e);
    assert e.written + [] == e.written;
    assert e.written + chunk == Flatten(history)[at..at + |e.written| + |chunk|];
  }

  lemma ReceiverAdvances(ch: Channel, history: seq<Chunk>, r: Receiver)
    requires ReceiverOk(ch, history, r) && r.next < ch.pos
    ensures ReceiverOk(ch, history, Receiver(r.next + 1, r.from, r.got + 1))
  {
  }

  lemma ClientOkWrite(cap: nat, ch: Channel, history: seq<Chunk>, c: Client, n: nat)
    requires ClientOk(cap, ch, history, c) && n <= |c.pending|
    ensures ClientOk(cap, ch, history, Wrote(c, n))
  {
    if c.episodes != [] {
      var last := |c.episodes| - 1;
      var e := c.episodes[last];
      match Serving(c) {
        case None =>
          assert e.written + [] == e.written && c.episodes[last := e] == c.episodes;
        case Some(r) =>
          ContinuesWrite(cap, history, e, c.pending, r.from + r.got, n);
          assert Serving(Wrote(c, n)) == Some(r);
      }
    }
  }

  lemma ClientOkReceive(cap: nat, ch: Channel, history: seq<Chunk>, c: Client)
    requires ChannelOk(ch) && ClientOk(cap, ch, history, c)
    requires Idle(c) && c.attached.Some? && Poll(ch, c.attached.value.next).Item?
    ensures var r := c.attached.value;
      ClientOk(cap, ch, history,
        c.(attached := Some(Receiver(r.next + 1, r.from, r.got + 1)), pending := Poll(ch, r.next).chunk))
  {
    var r := c.attached.value;
    PollExact(ch, history, r);
    ReceiverAdvances(ch, history, r);
    ReceiveContinues(cap, history, c.episodes[|c.episodes| - 1], r.from + r.got);
  }

  lemma ClientOkAttach(w: World, c: Client, s: Step)
    requires WorldOk(w) && ClientOk(w.cap, w.ch, w.history, c)
    requires s.Attaching? && Idle(c)
    ensures ClientOk(w.cap, w.ch, w.history, Move(w, c, s))
  {
    AttachStarts(w, s.skipRing);
    var e := Episode(|w.history|, s.skipRing, []);
    assert EpisodeOk(w.cap, w.history, e) by {
      ContinuesWrite(w.cap, w.history, e, if s.skipRing then [] else w.ring, |w.history|, 0);
      assert [] + (if s.skipRing then [] else w.ring)[..0] == [];
    }
    var c' := Move(w, c, s);
    assert c'.episodes[|c'.episodes| - 1] == e;
  }

  lemma MoveOk(w: World, s: Step)
    requires WorldOk(w) && Enabled(w, s) && !s.Pushed? && !s.Connected?
    ensures ClientOk(w.cap, w.ch, w.history, Move(w, w.clients[s.client], s))
  {
    var c := w.clients[s.client];
    assert ClientOk(w.cap, w.ch, w.history, c);
    match s {
      case Attaching(_, _) => ClientOkAttach(w, c, s);
      case Writing(_, n) => ClientOkWrite(w.cap, w.ch, w.history, c, n);
      case Receiving(_) =>
        if Poll(w.ch, c.attached.value.next).Item? {
          ClientOkReceive(w.cap, w.ch, w.history, c);
        }
      case _ =>
    }
  }

  /** Every step keeps it. */
  lemma NextOk(w: World, s: Step)
    requires WorldOk(w) && Enabled(w, s)
    ensures WorldOk(Next(w, s))
  {
    match s {
      case Pushed(chunk) =>
        var w' := Next(w, s);
        FlattenSnoc(w.history, chunk);
        LastNAbsorbs(Flatten(w.history), chunk, w.cap);
        forall i | 0 <= i < |w'.clients| ensures ClientOk(w'.cap, w'.ch, w'.history, w'.clients[i]) {
          ClientOkPush(w.cap, w.ch, w.history, w.clients, chunk, i);
        }
      case Connected =>
      case _ => MoveOk(w, s);
    }
  }

  /** The invariant holds in every world any run reaches. */
  lemma {:induction false} RunsOk(w: World, steps: seq<Step>)
    requires WorldOk(w) && Exec(w, steps).Some?
    ensures WorldOk(Exec(w, steps).value)
    decreases |steps|
  {
    if steps != [] {
      NextOk(w, steps[0]);
      RunsOk(Next(w, steps[0]), steps[1..]);
    }
  }

  // ------------------------------------------------------- what it means

  /** What a client's move does to the receivers there are and to what its
      socket was written. */
  lemma MoveEffects(w: World, s: Step, i: nat)
    requires WorldOk(w) && Enabled(w, s) && OfClient(s, i)
    ensures var c, c' := w.clients[i], Next(w, s).clients[i];
      && ReceiversOf(w.clients) >= Held(c)
      && ReceiversOf(Next(w, s).clients) == ReceiversOf(w.clients) - Held(c) + Held(c')
      && Shown(c'.episodes) == if s.Writing? then Shown(c.episodes) + c.pending[..s.count] else Shown(c.episodes)
  {
    var c := w.clients[i];
    assert ClientOk(w.cap, w.ch, w.history, c);
    ReceiversOfUpdate(w.clients, i, Move(w, c, s));
    match s {
      case Attaching(_, skip) => ShownStarted(c.episodes, |w.history|, skip);
      case Writing(_, n) => ShownRecorded(c.episodes, c.pending[..n]);
      case _ =>
    }
  }

  /** A detach: the client keeps running, without a receiver and with nothing
      to write, and the channel has one receiver less if it was attached. */
  lemma DetachEffect(w: World, i: nat)
    requires Enabled(w, Detaching(i))
    ensures var w', c, c' := Next(w, Detaching(i)), w.clients[i], Next(w, Detaching(i)).clients[i];
      && c'.open && c'.attached == None && c'.joining == None && c'.pending == []
      && Shown(c'.episodes) == Shown(c.episodes)
      && ReceiversOf(w'.clients) == ReceiversOf(w.clients) - (if c.attached.Some? then 1 else 0)
  {
    ReceiversOfUpdate(w.clients, i, Move(w, w.clients[i], Detaching(i)));
  }

  /** No receiver, and nothing to write. */
  predicate Unattached(c: Client) {
    c.attached == None && c.joining == None && c.pending == []
  }

  /** A client that is not attached is written nothing until it attaches. */
  lemma {:induction false} SilentUntilAttach(w: World, steps: seq<Step>, i: nat)
    requires Exec(w, steps).Some? && i < |w.clients| && Unattached(w.clients[i])
    requires forall s | s in steps :: !(s.Attaching? && s.client == i)
    ensures var w' := Exec(w, steps).value;
      i < |w'.clients| && Unattached(w'.clients[i]) && w'.clients[i].episodes == w.clients[i].episodes
    decreases |steps|
  {
    if steps != [] {
      assert steps[0] in steps;
      SilentUntilAttach(Next(w, steps[0]), steps[1..], i);
    }
  }

  /** So from a detach to the next attach no output reaches the client. */
  lemma DetachSilences(w: World, i: nat, steps: seq<Step>)
    requires Enabled(w, Detaching(i)) && Exec(Next(w, Detaching(i)), steps).Some?
    requires forall s | s in steps :: !(s.Attaching? && s.client == i)
    ensures var c' := Exec(Next(w, Detaching(i)), steps).value.clients;
      && i < |c'| && c'[i].attached == None && c'[i].joining == None
      && Shown(c'[i].episodes) == Shown(w.clients[i].episodes)
  {
    DetachEffect(w, i);
    SilentUntilAttach(Next(w, Detaching(i)), steps, i);
  }

  /** A client that is still open can end at any time, and then holds nothing. */
  lemma DropEffect(w: World, i: nat)
    ensures Enabled(w, Dropping(i)) <==> i < |w.clients| && w.clients[i].open
    ensures Enabled(w, Dropping(i)) ==>
      var w', c, c' := Next(w, Dropping(i)), w.clients[i], Next(w, Dropping(i)).clients[i];
      && !c'.open && Unattached(c') && c'.episodes == c.episodes
      && ReceiversOf(w'.clients) == ReceiversOf(w.clients)
           - (if c.attached.Some? then 1 else 0) - (if c.joining.Some? then 1 else 0)
  {
    if Enabled(w, Dropping(i)) {
      ReceiversOfUpdate(w.clients, i, Dropped(w.clients[i]));
    }
  }

  /** An attach: a receiver at the next push and the scrollback to write first,
      with the receiver held before kept until that is done; or, when the
      scrollback is declined, the new receiver at once in its place. */
  lemma AttachEffect(w: World, i: nat, skip: bool)
    requires Enabled(w, Attaching(i, skip))
    ensures var w', c, c' := Next(w, Attaching(i, skip)), w.clients[i], Next(w, Attaching(i, skip)).clients[i];
      && c'.open && w'.ch == w.ch && Shown(c'.episodes) == Shown(c.episodes)
      && (if skip then
            && c'.attached == Some(Receiver(w.ch.pos, |w.history|, 0)) && c'.joining == None && c'.pending == []
            && ReceiversOf(w'.clients) == ReceiversOf(w.clients) + (if c.attached.Some? then 0 else 1)
          else
            && c'.attached == c.attached && c'.joining == Some(Receiver(w.ch.pos, |w.history|, 0))
            && c'.pending == w.ring && ReceiversOf(w'.clients) == ReceiversOf(w.clients) + 1)
  {
    ReceiversOfUpdate(w.clients, i, Move(w, w.clients[i], Attaching(i, skip)));
    ShownStarted(w.clients[i].episodes, |w.history|, skip);
  }

  lemma JoinEffect(w: World, i: nat)
    requires Enabled(w, Joined(i))
    ensures var w', c, c' := Next(w, Joined(i)), w.clients[i], Next(w, Joined(i)).clients[i];
      && c'.attached == c.joining && c'.joining == None && c'.pending == [] && c'.open == c.open
      && c'.episodes == c.episodes
      && ReceiversOf(w'.clients) == ReceiversOf(w.clients) - (if c.attached.Some? then 1 else 0)
  {
    ReceiversOfUpdate(w.clients, i, Move(w, w.clients[i], Joined(i)));
  }

  /** A receive that has lagged ends the client; any other makes it write the
      item and moves its cursor on by one. */
  lemma ReceiveEffect(w: World, i: nat)
    requires Enabled(w, Receiving(i))
    ensures var w', c, c' := Next(w, Receiving(i)), w.clients[i], Next(w, Receiving(i)).clients[i];
      && c'.episodes == c.episodes
      && match Poll(w.ch, c.attached.value.next)
         case Item(chunk) =>
           && c'.open && c'.pending == chunk && c'.joining == None
           && c'.attached.Some? && c'.attached.value.next == c.attached.value.next + 1
           && ReceiversOf(w'.clients) == ReceiversOf(w.clients)
         case _ => !c'.open && Unattached(c') && ReceiversOf(w'.clients) == ReceiversOf(w.clients) - 1
  {
    ReceiversOfUpdate(w.clients, i, Move(w, w.clients[i], Receiving(i)));
  }

  lemma ExecUnfold(w: World, s: Step, rest: seq<Step>)
    requires Enabled(w, s)
    ensures Exec(w, [s] + rest) == Exec(Next(w, s), rest)
    ensures Exec(w, []) == Some(w)
  {
    assert ([s] + rest)[1..] == rest;
  }

  /** What a client has been written in its latest attachment. */
  function LatestWritten(c: Client): seq<byte> {
    if c.episodes == [] then [] else c.episodes[|c.episodes| - 1].written
  }

  /** A write that the socket takes at once. */
  lemma WriteInOneGo(w: World, i: nat) returns (steps: seq<Step>)
    requires i < |w.clients| && w.clients[i].open && w.clients[i].episodes != []
    ensures Exec(w, steps).Some?
    ensures var w', c := Exec(w, steps).value, w.clients[i];
      && |w'.clients| == |w.clients| && w'.ch == w.ch && w'.history == w.history
      && var c' := w'.clients[i];
        && c'.open && c'.pending == [] && c'.attached == c.attached && c'.joining == c.joining
        && c'.episodes != [] && LatestWritten(c') == LatestWritten(c) + c.pending
  {
    var pending := w.clients[i].pending;
    if pending == [] {
      steps := [];
      assert LatestWritten(w.clients[i]) + pending == LatestWritten(w.clients[i]);
    } else {
      steps := [Writing(i, |pending|)];
      ExecUnfold(w, steps[0], []);
      assert steps == steps + [];
      assert pending[..|pending|] == pending;
    }
  }

  /** An attach that meets no other step: the client has been written the
      scrollback, unless it declined it, and its cursor is at the next push. */
  lemma AttachInOneGo(w: World, i: nat, skip: bool) returns (steps: seq<Step>)
    requires WorldOk(w) && i < |w.clients| && Idle(w.clients[i])
    ensures Exec(w, steps).Some? && i < |Exec(w, steps).value.clients|
    ensures var c := Exec(w, steps).value.clients[i];
      && Idle(c) && c.attached == Some(Receiver(w.ch.pos, |w.history|, 0))
      && LatestWritten(c) == if skip then [] else LastN(Flatten(w.history), w.cap)
  {
    var w1 := Next(w, Attaching(i, skip));
    if skip {
      steps := [Attaching(i, skip)];
      ExecUnfold(w, steps[0], []);
      assert steps == steps + [];
    } else {
      var writes := WriteInOneGo(w1, i);
      var w2 := Exec(w1, writes).value;
      steps := [Attaching(i, skip)] + (writes + [Joined(i)]);
      ExecUnfold(w, Attaching(i, skip), writes + [Joined(i)]);
      ExecConcat(w1, writes, [Joined(i)]);
      ExecUnfold(w2, Joined(i), []);
      assert [Joined(i)] + [] == [Joined(i)];
      assert [] + w.ring == w.ring;
    }
  }

  lemma PollNext(w: World, i: nat)
    requires WorldOk(w) && i < |w.clients| && Idle(w.clients[i]) && w.clients[i].attached.Some?
    requires var r := w.clients[i].attached.value;
      |w.history| - w.ch.capacity <= r.from + r.got < |w.history|
    ensures w.clients[i].episodes != []
    ensures var r := w.clients[i].attached.value;
      Poll(w.ch, r.next) == Item(w.history[r.from + r.got])
  {
    assert ClientOk(w.cap, w.ch, w.history, w.clients[i]);
    PollExact(w.ch, w.history, w.clients[i].attached.value);
  }

  lemma ReceivedItem(w: World, i: nat)
    requires WorldOk(w) && i < |w.clients| && Idle(w.clients[i]) && w.clients[i].attached.Some?
    requires var r := w.clients[i].attached.value;
      r.from + r.got < |w.history| && Poll(w.ch, r.next) == Item(w.history[r.from + r.got])
    ensures Enabled(w, Receiving(i))
    ensures var c := w.clients[i];
      var r := c.attached.value;
      Next(w, Receiving(i)) == w.(clients := w.clients[i :=
        c.(attached := Some(Receiver(r.next + 1, r.from, r.got + 1)), pending := w.history[r.from + r.got])])
  {
  }

  /** A receive that meets no other step and does not lag: the client has been
      written the next chunk of the history. */
  lemma ReceiveInOneGo(w: World, i: nat) returns (steps: seq<Step>)
    requires WorldOk(w) && i < |w.clients| && Idle(w.clients[i]) && w.clients[i].attached.Some?
    requires var r := w.clients[i].attached.value;
      |w.history| - w.ch.capacity <= r.from + r.got < |w.history|
    ensures Exec(w, steps).Some? && i < |Exec(w, steps).value.clients|
    ensures var c, c' := w.clients[i], Exec(w, steps).value.clients[i];
      var r := c.attached.value;
      && Idle(c') && c'.attached == Some(Receiver(r.next + 1, r.from, r.got + 1))
      && LatestWritten(c') == LatestWritten(c) + w.history[r.from + r.got]
  {
    PollNext(w, i);
    ReceivedItem(w, i);
    var w1 := Next(w, Receiving(i));
    var writes := WriteInOneGo(w1, i);
    steps := [Receiving(i)] + writes;
    ExecUnfold(w, Receiving(i), writes);
  }

  /** What an attachment is entitled to: the snapshot unless it was declined,
      then all output pushed since. */
  function Entitled(cap: nat, history: seq<Chunk>, e: Episode): seq<byte>
    requires e.from <= |history|
  {
    (if e.skipRing then [] else LastN(Flatten(history[..e.from]), cap)) + Flatten(history[e.from..])
  }

  /** No gap and no duplicate: on every run, what any client was written in
      any of its attachments is a prefix of what it is entitled to. */
  lemma NoGapNoDuplicate(cap: nat, capacity: nat, steps: seq<Step>, i: nat, j: nat)
    requires capacity >= 1 && Exec(Initial(cap, capacity), steps).Some?
    requires var w := Exec(Initial(cap, capacity), steps).value;
      i < |w.clients| && j < |w.clients[i].episodes|
    ensures var w := Exec(Initial(cap, capacity), steps).value;
      var e := w.clients[i].episodes[j];
      e.from <= |w.history| && e.written <= Entitled(w.cap, w.history, e)
  {
    var w := Exec(Initial(cap, capacity), steps).value;
    RunsOk(Initial(cap, capacity), steps);
    EpisodeIn(w, i, j);
    EntitledIsTail(w.cap, w.history, w.clients[i].episodes[j]);
  }

  /** And nothing is missing: an attached client with nothing in flight that
      has taken every chunk has been written all it is entitled to. */
  lemma CaughtUp(w: World, i: nat)
    requires WorldOk(w) && i < |w.clients| && Idle(w.clients[i]) && w.clients[i].attached.Some?
    requires var r := w.clients[i].attached.value; r.from + r.got == |w.history|
    ensures w.clients[i].episodes != []
    ensures var e := w.clients[i].episodes[|w.clients[i].episodes| - 1];
      e.from <= |w.history| && e.written == Entitled(w.cap, w.history, e)
  {
    assert ClientOk(w.cap, w.ch, w.history, w.clients[i]);
    var e := w.clients[i].episodes[|w.clients[i].episodes| - 1];
    assert w.history[..|w.history|] == w.history;
    assert EpisodeOk(w.cap, w.history, e);
    EntitledIsTail(w.cap, w.history, e);
    FlattenCut(w.history, e.from);
  }

  lemma EntitledIsTail(cap: nat, history: seq<Chunk>, e: Episode)
    requires EpisodeOk(cap, history, e)
    ensures e.written <= Entitled(cap, history, e)
  {
    FlattenCut(history, e.from);
    assert Entitled(cap, history, e) == Flatten(history)[StartOf(cap, history, e)..];
  }

  /** Two clients agree on every byte of the history both were shown. */
  lemma Agreement(cap: nat, capacity: nat, steps: seq<Step>, i: nat, j: nat, i': nat, j': nat, at: nat)
    requires capacity >= 1 && Exec(Initial(cap, capacity), steps).Some?
    requires var w := Exec(Initial(cap, capacity), steps).value;
      i < |w.clients| && j < |w.clients[i].episodes| && i' < |w.clients| && j' < |w.clients[i'].episodes|
    ensures var w := Exec(Initial(cap, capacity), steps).value;
      var e, e' := w.clients[i].episodes[j], w.clients[i'].episodes[j'];
      && e.from <= |w.history| && e'.from <= |w.history|
      && var s, s' := StartOf(w.cap, w.history, e), StartOf(w.cap, w.history, e');
        s <= at < s + |e.written| && s' <= at < s' + |e'.written| ==> e.written[at - s] == e'.written[at - s']
  {
    var w := Exec(Initial(cap, capacity), steps).value;
    RunsOk(Initial(cap, capacity), steps);
    EpisodeIn(w, i, j);
    EpisodeIn(w, i', j');
    SameByte(w.cap, w.history, w.clients[i].episodes[j], w.clients[i'].episodes[j'], at);
  }

  lemma EpisodeIn(w: World, i: nat, j: nat)
    requires WorldOk(w) && i < |w.clients| && j < |w.clients[i].episodes|
    ensures EpisodeOk(w.cap, w.history, w.clients[i].episodes[j])
  {
    assert ClientOk(w.cap, w.ch, w.history, w.clients[i]);
  }

  lemma SameByte(cap: nat, history: seq<Chunk>, e: Episode, e': Episode, at: nat)
    requires EpisodeOk(cap, history, e) && EpisodeOk(cap, history, e')
    ensures var s, s' := StartOf(cap, history, e), StartOf(cap, history, e');
      s <= at < s + |e.written| && s' <= at < s' + |e'.written| ==> e.written[at - s] == e'.written[at - s']
  {
    ByteAt(cap, history, e, at);
    ByteAt(cap, history, e', at);
  }

  lemma ByteAt(cap: nat, history: seq<Chunk>, e: Episode, at: nat)
    requires EpisodeOk(cap, history, e)
    ensures var s := StartOf(cap, history, e);
      s <= at < s + |e.written| ==> at < |Flatten(history)| && e.written[at - s] == Flatten(history)[at]
  {
  }

  /** A client is dropped for lag exactly when more chunks than the channel's
      capacity were pushed beyond its cursor. */
  lemma LagBound(cap: nat, capacity: nat, steps: seq<Step>, i: nat)
    requires capacity >= 1 && Exec(Initial(cap, capacity), steps).Some?
    requires var w := Exec(Initial(cap, capacity), steps).value;
      i < |w.clients| && Idle(w.clients[i]) && w.clients[i].attached.Some?
    ensures var w := Exec(Initial(cap, capacity), steps).value;
      var r := w.clients[i].attached.value;
      && r.from + r.got <= |w.history|
      && (Enabled(w, Receiving(i)) <==> r.from + r.got < |w.history|)
      && (Enabled(w, Receiving(i)) ==>
            (!Next(w, Receiving(i)).clients[i].open <==> |w.history| - r.from - r.got > capacity))
  {
    var w := Exec(Initial(cap, capacity), steps).value;
    RunsOk(Initial(cap, capacity), steps);
    CapacityConstant(Initial(cap, capacity), steps);
    var c := w.clients[i];
    assert ClientOk(w.cap, w.ch, w.history, c);
    PollExact(w.ch, w.history, c.attached.value);
  }

  lemma {:induction false} CapacityConstant(w: World, steps: seq<Step>)
    requires Exec(w, steps).Some?
    ensures Exec(w, steps).value.ch.capacity == w.ch.capacity
    decreases |steps|
  {
    if steps != [] {
      CapacityConstant(Next(w, steps[0]), steps[1..]);
    }
  }

  lemma {:induction false} CapConstant(w: World, steps: seq<Step>)
    requires Exec(w, steps).Some?
    ensures Exec(w, steps).value.cap == w.cap
    decreases |steps|
  {
    if steps != [] {
      CapConstant(Next(w, steps[0]), steps[1..]);
    }
  }

  /** A client that was dropped, for lag or otherwise, is never written again. */
  lemma {:induction false} NothingAfterDrop(w: World, steps: seq<Step>, i: nat)
    requires WorldOk(w) && Exec(w, steps).Some?
    requires i < |w.clients| && !w.clients[i].open
    ensures var w' := Exec(w, steps).value;
      i < |w'.clients| && w'.clients[i] == w.clients[i]
    decreases |steps|
  {
    if steps != [] {
      assert ClientOk(w.cap, w.ch, w.history, w.clients[i]);
      NextOk(w, steps[0]);
      NothingAfterDrop(Next(w, steps[0]), steps[1..], i);
    }
  }
}
