/** One REKEY over UDP: the initiator's `drain`, the responder's transport and session, and a network that
may lose, repeat and delay the frame and its acknowledgements, and repeat frames of former epochs.

The responder's transport signs with the session's receiving key, which changes when the session reads
the REKEY; the initiator waits for an acknowledgement under its sending key, which changes only after one
has come.
*/
module UdpRekey {
  import opened Wire
  import opened Crypto
  import opened Session
  import opened ReplayWindow
  import opened UdpDelivery
  import opened UdpLimits

  datatype Phase = Waiting | Returned | Failed

  /** The initiator and its pending write of the frame `f` with its salt, the responder, whether the frame is
      on the network, the frames of former epochs, and the acknowledgements in flight. */
  datatype Exchange = Exchange(a: Info, phase: Phase, attempts: nat, acked: bool, r: Receiver,
                               f: Frame, salt: bytes, sent: bool, former: set<Frame>, acks: set<Utack>)

  datatype Event =
    | Emit
    | Arrive
    | Replay(g: Frame)
    | Fetch
    | Hear(u: Utack)
    | Lose(u: Utack)
    | Finish
    | GiveUp

  predicate Possible(e: Exchange, event: Event) {
    match event
    case Emit => e.phase == Waiting && e.attempts < ATTEMPTS
    case Arrive => e.sent
    case Replay(g) => g in e.former
    case Fetch => e.r.queue != []
    case Hear(u) => e.phase == Waiting && u in e.acks
    case Lose(u) => u in e.acks
    case Finish => e.phase == Waiting && e.acked
    case GiveUp => e.phase == Waiting && e.attempts == ATTEMPTS && !e.acked
  }

  /** The acknowledgement under a given key. */
  function Ack(e: Exchange, key: Key): Utack {
    Utack(key, e.f.ptype, e.f.seqNo)
  }

  /** There is room for a frame in the responder's buffer. */
  predicate Room(q: seq<Frame>, x: Frame) {
    QueueBytes(q) + FrameSize(x) <= MAX_READ_BUFFER
  }

  /** `feed_packet` on the REKEY frame or a former one. */
  function Fed(e: Exchange, x: Frame): Exchange {
    var u := Utack(e.r.rx.info.rxKey, x.ptype, x.seqNo);
    if Stale(e.r.lastRx, x.seqNo) then e.(acks := e.acks + {u})
    else if !Room(e.r.queue, x) then e
    else e.(acks := e.acks + {u}, r := e.r.(queue := e.r.queue + [x]))
  }

  function After(e: Exchange, event: Event): Exchange
    requires Possible(e, event)
  {
    match event
    case Emit => e.(attempts := e.attempts + 1, sent := true)
    case Arrive => Fed(e, e.f)
    case Replay(g) => Fed(e, g)
    case Fetch => e.(r := Take(e.r))
    case Hear(u) => e.(acked := e.acked || u == Ack(e, e.a.txKey))
    case Lose(u) => e.(acks := e.acks - {u})
    case Finish => e.(a := Rotate(e.a, true, e.salt), phase := Returned)
    case GiveUp => e.(phase := Failed)
  }

  predicate Legal(e: Exchange, events: seq<Event>)
    decreases |events|
  {
    events == [] || (Possible(e, events[0]) && Legal(After(e, events[0]), events[1..]))
  }

  function Exec(e: Exchange, events: seq<Event>): Exchange
    requires Legal(e, events)
    decreases |events|
  {
    if events == [] then e else Exec(After(e, events[0]), events[1..])
  }

  /** Two ends with crossed keys. */
  predicate Crossed(i: Info, peer: Info) {
    i.txKey == peer.rxKey && i.rxKey == peer.txKey && i.sessionId == peer.sessionId && i.suite == peer.suite
  }

  /** Frames of former epochs, whose keys come before the present one in the derivation. */
  predicate Former(former: set<Frame>, key: Key) {
    forall g :: g in former ==> (g.payload.Sealed? ==> Rank(g.payload.key) < Rank(key))
  }

  /** The responder's window is ready for the initiator's next number. */
  predicate Ready(i: Info, peer: Info, salt: bytes, former: set<Frame>) {
    && Crossed(i, peer) && |salt| == 32 && i.txSeq < MAX_SEQ && Admits(peer.window, i.txSeq)
    && Former(former, peer.rxKey)
  }

  /** The initiator has sealed its REKEY and begun to wait; the responder's filter holds `lastRx`. */
  function Begin(i: Info, peer: Info, salt: bytes, former: set<Frame>, lastRx: int): Exchange
    requires Ready(i, peer, salt, former)
  {
    var (i', f) := Seal(i, Chunk(REKEY, salt)).value;
    Exchange(i', Waiting, 0, false, Receiver(Idle(peer), lastRx, [], []), f, salt, false, former, {})
  }

  // ----- what every event keeps -----

  /** The responder has read the REKEY and changed its keys. */
  predicate Rotated(e: Exchange, peer: Info) {
    e.r.rx.info == Rotate(peer, false, e.salt)
  }

  predicate Copies(e: Exchange) {
    forall x :: x in e.r.queue ==> x == e.f || x in e.former
  }

  /** Each end is as it was or has changed its keys, and the responder's queue holds nothing but copies of the
      frame and former ones. */
  predicate Good(e: Exchange, i: Info, peer: Info) {
    && Ready(i, peer, e.salt, e.former) && Seal(i, Chunk(REKEY, e.salt)).value.1 == e.f && Copies(e)
    && e.r.rx == Idle(e.r.rx.info) && (Rotated(e, peer) || e.r.rx.info == peer)
    && e.a == if e.phase == Returned then Rotate(i, true, e.salt) else Seal(i, Chunk(REKEY, e.salt)).value.0
  }

  /** Rotating changes each key to a later one. */
  lemma RotateChanges(i: Info, initiator: bool, salt: bytes)
    ensures var i' := Rotate(i, initiator, salt);
      && Rank(i.txKey) < Rank(i'.txKey) && Rank(i.rxKey) < Rank(i'.rxKey)
      && Rank(i.rxKey) < Rank(i'.txKey) && Rank(i.txKey) < Rank(i'.rxKey)
  {
  }

  lemma SealedAlike(i: Info, salt: bytes)
    requires i.txSeq < MAX_SEQ && |salt| == 32
    ensures var (i', f) := Seal(i, Chunk(REKEY, salt)).value;
      && i' == i.(txSeq := i'.txSeq) && f.ptype == REKEY && f.seqNo == i.txSeq && !Foreign(i.txKey, f)
      && Rotate(i', true, salt) == Rotate(i, true, salt)
  {
  }

  /** A frame of a former epoch is dropped, before and after the keys change. */
  lemma TakeFormer(e: Exchange, i: Info, peer: Info)
    requires Good(e, i, peer) && e.r.queue != [] && e.r.queue[0] in e.former
    ensures Take(e.r) == e.r.(queue := e.r.queue[1..])
  {
    RotateChanges(peer, false, e.salt);
    hide Seal;
    hide Rotate;
    hide Admits;
    ForeignIgnored(e.r.rx.info, e.r.queue[0]);
    hide Open;
    assert e.r.got + [] == e.r.got;
  }

  /** Reading a copy: the first rotates the keys, the others are dropped. */
  lemma TakeCopy(e: Exchange, i: Info, peer: Info)
    requires Good(e, i, peer) && e.r.queue != [] && e.r.queue[0] == e.f
    ensures var r := Take(e.r);
      && r.rx == Idle(Rotate(peer, false, e.salt)) && r.queue == e.r.queue[1..]
      && (r.lastRx == e.r.lastRx || r.lastRx == Confirm(e.r.lastRx, e.f.seqNo))
  {
    RotateChanges(peer, false, e.salt);
    if Rotated(e, peer) {
      WrongKeyRefused(false, i, Chunk(REKEY, e.salt), e.r.rx.info);
      hide Open;
      hide Seal;
      hide Rotate;
    } else {
      SealedOpens(false, i, Chunk(REKEY, e.salt), peer);
      var info := peer.(window := Accept(peer.window, i.txSeq));
      assert Rotate(info, false, e.salt) == Rotate(peer, false, e.salt);
      SealedAlike(i, e.salt);
      hide Open;
      hide Seal;
      hide Rotate;
      hide Accept;
      hide Admits;
    }
  }

  lemma EventKeeps(e: Exchange, i: Info, peer: Info, event: Event)
    requires Good(e, i, peer) && Possible(e, event)
    ensures Good(After(e, event), i, peer)
  {
    SealedAlike(i, e.salt);
    hide Seal;
    hide Rotate;
    hide Admits;
    hide Take;
    hide Fed;
    hide Former;
    if event.Fetch? {
      assert e.r.queue[0] in e.r.queue;
      if e.r.queue[0] == e.f {
        TakeCopy(e, i, peer);
      } else {
        TakeFormer(e, i, peer);
      }
      assert forall x :: x in e.r.queue[1..] ==> x in e.r.queue;
    } else if event.Arrive? {
      FedKeeps(e, e.f);
    } else if event.Replay? {
      FedKeeps(e, event.g);
    }
  }

  lemma FedKeeps(e: Exchange, x: Frame)
    requires Copies(e) && (x == e.f || x in e.former)
    ensures Copies(Fed(e, x)) && Fed(e, x) == e.(r := e.r.(queue := Fed(e, x).r.queue), acks := Fed(e, x).acks)
  {
    hide QueueBytes;
    hide Stale;
    assert forall y :: y in e.r.queue + [x] ==> y in e.r.queue || y == x;
  }

  lemma {:induction false} RunKeeps(e: Exchange, i: Info, peer: Info, events: seq<Event>)
    requires Good(e, i, peer) && Legal(e, events)
    ensures Good(Exec(e, events), i, peer)
    decreases |events|
  {
    hide Good;
    hide After;
    hide Possible;
    if events != [] {
      EventKeeps(e, i, peer, events[0]);
      RunKeeps(After(e, events[0]), i, peer, events[1..]);
    }
  }

  lemma BeginGood(i: Info, peer: Info, salt: bytes, former: set<Frame>, lastRx: int)
    requires Ready(i, peer, salt, former)
    ensures Good(Begin(i, peer, salt, former, lastRx), i, peer)
  {
    hide Rotate;
    hide Admits;
  }

  // ----- whether the ends still understand each other -----

  /** In every run the keys are crossed if and only if both ends have changed them or neither has; otherwise
      neither end opens anything the other seals. */
  lemma KeysCross(i: Info, peer: Info, salt: bytes, former: set<Frame>, lastRx: int, events: seq<Event>, c: Chunk)
    requires Ready(i, peer, salt, former) && Legal(Begin(i, peer, salt, former, lastRx), events)
    ensures var e := Exec(Begin(i, peer, salt, former, lastRx), events);
      var together := e.phase == Returned <==> Rotated(e, peer);
      && (Crossed(e.a, e.r.rx.info) <==> together)
      && (!together && Seal(e.a, c).Ok? ==> Open(false, e.r.rx.info, Seal(e.a, c).value.1) == Ignored)
      && (!together && Seal(e.r.rx.info, c).Ok? ==> Open(false, e.a, Seal(e.r.rx.info, c).value.1) == Ignored)
  {
    hide Legal;
    hide Exec;
    BeginGood(i, peer, salt, former, lastRx);
    RunKeeps(Begin(i, peer, salt, former, lastRx), i, peer, events);
    CrossedOrApart(Exec(Begin(i, peer, salt, former, lastRx), events), i, peer, c);
  }

  lemma CrossedOrApart(e: Exchange, i: Info, peer: Info, c: Chunk)
    requires Good(e, i, peer)
    ensures var together := e.phase == Returned <==> Rotated(e, peer);
      && (Crossed(e.a, e.r.rx.info) <==> together)
      && (!together && Seal(e.a, c).Ok? ==> Open(false, e.r.rx.info, Seal(e.a, c).value.1) == Ignored)
      && (!together && Seal(e.r.rx.info, c).Ok? ==> Open(false, e.a, Seal(e.r.rx.info, c).value.1) == Ignored)
  {
    SealedAlike(i, e.salt);
    RotateChanges(i, true, e.salt);
    RotateChanges(peer, false, e.salt);
    RekeyStartsEpoch(i, peer, e.salt);
    assert Crossed(Rotate(i, true, e.salt), Rotate(peer, false, e.salt));
    hide Rotate;
    hide Former;
    if e.a.txKey != e.r.rx.info.rxKey && Seal(e.a, c).Ok? {
      WrongKeyRefused(false, e.a, c, e.r.rx.info);
    }
    if e.r.rx.info.txKey != e.a.rxKey && Seal(e.r.rx.info, c).Ok? {
      WrongKeyRefused(false, e.r.rx.info, c, e.a);
    }
    hide Seal;
    hide Open;
    hide Admits;
  }

  // ----- whether the initiator can still return -----

  /** The queue from the first copy of `f` on: what precedes it can be read without a change of keys. */
  function FromCopy(q: seq<Frame>, f: Frame): seq<Frame> {
    if q == [] || q[0] == f then q else FromCopy(q[1..], f)
  }

  /** A frame the responder would acknowledge as the REKEY: the REKEY while it is or can still be sent, or a frame of
      a former epoch with its type and number. */
  predicate Arrivable(e: Exchange, x: Frame) {
    || (x == e.f && (e.sent || e.attempts < ATTEMPTS))
    || (x in e.former && x.ptype == e.f.ptype && x.seqNo == e.f.seqNo)
  }

  /** There is room for it once everything before the first copy of the REKEY is read. */
  predicate Finds(e: Exchange, x: Frame) {
    Stale(e.r.lastRx, x.seqNo) || Room(FromCopy(e.r.queue, e.f), x)
  }

  /** No acknowledgement under the initiator's key has been heard or is in flight, and none can be made: the
      responder has changed its key, or nothing it would acknowledge can arrive and find room. */
  ghost predicate Hopeless(e: Exchange, peer: Info) {
    && !e.acked && Ack(e, e.a.txKey) !in e.acks
    && (Rotated(e, peer) || forall x :: Arrivable(e, x) ==> !Finds(e, x))
  }

  lemma {:induction false} FromCopyAppend(q: seq<Frame>, f: Frame, x: Frame)
    requires x != f
    ensures QueueBytes(FromCopy(q + [x], f)) >= QueueBytes(FromCopy(q, f))
  {
    if q == [] {
      assert [x][1..] == [];
    } else if q[0] != f {
      assert (q + [x])[1..] == q[1..] + [x];
      FromCopyAppend(q[1..], f, x);
    } else {
      QueueBytesAppend(q, x);
    }
  }

  lemma {:induction false} FromCopySmaller(q: seq<Frame>, f: Frame)
    ensures QueueBytes(FromCopy(q, f)) <= QueueBytes(q)
  {
    if q != [] && q[0] != f {
      FromCopySmaller(q[1..], f);
    }
  }

  lemma HopelessFed(e: Exchange, i: Info, peer: Info, x: Frame)
    requires Good(e, i, peer) && e.phase != Returned && Hopeless(e, peer) && (x in e.former || (x == e.f && e.sent))
    ensures Hopeless(Fed(e, x), peer)
  {
    RotateChanges(peer, false, e.salt);
    SealedAlike(i, e.salt);
    hide Seal;
    hide Rotate;
    hide Admits;
    hide Stale;
    FromCopySmaller(e.r.queue, e.f);
    if x in e.former {
      assert Foreign(i.txKey, x);
      FromCopyAppend(e.r.queue, e.f, x);
    }
    hide QueueBytes;
    hide FromCopy;
    var e' := Fed(e, x);
    if !Rotated(e, peer) {
      assert Arrivable(e, x) ==> !Finds(e, x);
      forall y | Arrivable(e', y) ensures !Finds(e', y) {
        assert Arrivable(e, y) && !Finds(e, y);
      }
    }
  }

  lemma HopelessKept(e: Exchange, i: Info, peer: Info, event: Event)
    requires Good(e, i, peer) && Possible(e, event) && e.phase != Returned && Hopeless(e, peer)
    ensures After(e, event).phase != Returned && Hopeless(After(e, event), peer)
  {
    hide Seal;
    hide Rotate;
    hide Admits;
    hide QueueBytes;
    hide Stale;
    hide Take;
    var e' := After(e, event);
    if event.Arrive? {
      HopelessFed(e, i, peer, e.f);
    } else if event.Replay? {
      HopelessFed(e, i, peer, event.g);
    } else if event.Fetch? {
      assert e.r.queue[0] in e.r.queue;
      if e.r.queue[0] == e.f {
        TakeCopy(e, i, peer);
      } else {
        TakeFormer(e, i, peer);
        assert FromCopy(e.r.queue, e.f) == FromCopy(e.r.queue[1..], e.f);
        hide FromCopy;
        assert forall y :: Finds(e', y) == Finds(e, y) && Arrivable(e', y) == Arrivable(e, y);
      }
    } else {
      hide FromCopy;
      assert forall y :: Finds(e', y) == Finds(e, y) && (Arrivable(e', y) ==> Arrivable(e, y));
    }
  }

  lemma {:induction false} HopelessForever(e: Exchange, i: Info, peer: Info, events: seq<Event>)
    requires Good(e, i, peer) && e.phase != Returned && Hopeless(e, peer) && Legal(e, events)
    ensures Exec(e, events).phase != Returned
    decreases |events|
  {
    hide Good;
    hide After;
    hide Possible;
    hide Hopeless;
    if events != [] {
      EventKeeps(e, i, peer, events[0]);
      HopelessKept(e, i, peer, events[0]);
      HopelessForever(After(e, events[0]), i, peer, events[1..]);
    }
  }

  /** One event and then others. */
  lemma First(e: Exchange, event: Event, rest: seq<Event>) returns (events: seq<Event>)
    requires Possible(e, event) && Legal(After(e, event), rest)
    ensures Legal(e, events) && Exec(e, events) == Exec(After(e, event), rest)
  {
    hide After;
    hide Possible;
    events := [event] + rest;
    assert events[1..] == rest;
  }

  lemma HearAndFinish(e: Exchange) returns (events: seq<Event>)
    requires e.phase == Waiting && (e.acked || Ack(e, e.a.txKey) in e.acks)
    ensures Legal(e, events)
    ensures var end := Exec(e, events); end.phase == Returned && end.r == e.r && end.f == e.f && end.salt == e.salt
  {
    hide Rotate;
    hide Legal;
    hide Exec;
    if e.acked {
      Nothing(After(e, Finish));
      events := First(e, Finish, []);
    } else {
      var heard := After(e, Hear(Ack(e, e.a.txKey)));
      Nothing(After(heard, Finish));
      var rest := First(heard, Finish, []);
      events := First(e, Hear(Ack(e, e.a.txKey)), rest);
    }
  }

  /** Something arrives that finds room or is stale. */
  lemma ArriveAndFinish(e: Exchange, i: Info, peer: Info, x: Frame) returns (events: seq<Event>)
    requires Good(e, i, peer) && e.phase == Waiting && !Rotated(e, peer) && Arrivable(e, x)
    requires Stale(e.r.lastRx, x.seqNo) || Room(e.r.queue, x)
    ensures Legal(e, events) && Exec(e, events).phase == Returned
  {
    SealedAlike(i, e.salt);
    hide Seal;
    hide Rotate;
    hide Admits;
    hide QueueBytes;
    hide Stale;
    hide Legal;
    hide Exec;
    if x in e.former && x.ptype == e.f.ptype && x.seqNo == e.f.seqNo {
      var rest := HearAndFinish(Fed(e, x));
      events := First(e, Replay(x), rest);
    } else if e.sent {
      var rest := HearAndFinish(Fed(e, x));
      events := First(e, Arrive, rest);
    } else {
      var emitted := After(e, Emit);
      var rest := HearAndFinish(Fed(emitted, x));
      var more := First(emitted, Arrive, rest);
      events := First(e, Emit, more);
    }
  }

  lemma {:induction false} WayToReturn(e: Exchange, i: Info, peer: Info, x: Frame) returns (events: seq<Event>)
    requires Good(e, i, peer) && e.phase == Waiting && !Rotated(e, peer) && Arrivable(e, x) && Finds(e, x)
    ensures Legal(e, events) && Exec(e, events).phase == Returned
    decreases |e.r.queue|
  {
    if Stale(e.r.lastRx, x.seqNo) || Room(e.r.queue, x) {
      events := ArriveAndFinish(e, i, peer, x);
    } else {
      assert e.r.queue[0] in e.r.queue && e.r.queue[0] != e.f;
      TakeFormer(e, i, peer);
      EventKeeps(e, i, peer, Fetch);
      var e' := After(e, Fetch);
      hide Legal;
      hide Exec;
      hide Good;
      hide Take;
      hide Rotate;
      hide Stale;
      hide QueueBytes;
      var rest := WayToReturn(e', i, peer, x);
      events := First(e, Fetch, rest);
    }
  }

  /** In every state of every run in which the initiator still waits, some continuation lets its `rekey`
      return if and only if the state is not hopeless.  In particular, once the responder has read the REKEY
      and the acknowledgements it made before are lost, no repetition can release the initiator. */
  lemma ReleasedExactly(i: Info, peer: Info, salt: bytes, former: set<Frame>, lastRx: int, events: seq<Event>)
    requires Ready(i, peer, salt, former) && Legal(Begin(i, peer, salt, former, lastRx), events)
    requires Exec(Begin(i, peer, salt, former, lastRx), events).phase == Waiting
    ensures var e := Exec(Begin(i, peer, salt, former, lastRx), events);
      (exists more :: Legal(e, more) && Exec(e, more).phase == Returned) <==> !Hopeless(e, peer)
  {
    hide Finds;
    hide Arrivable;
    hide Rotated;
    BeginGood(i, peer, salt, former, lastRx);
    RunKeeps(Begin(i, peer, salt, former, lastRx), i, peer, events);
    var e := Exec(Begin(i, peer, salt, former, lastRx), events);
    hide Good;
    if Hopeless(e, peer) {
      hide Hopeless;
      forall more | Legal(e, more) ensures Exec(e, more).phase != Returned {
        HopelessForever(e, i, peer, more);
      }
    } else if e.acked || Ack(e, e.a.txKey) in e.acks {
      var more := HearAndFinish(e);
    } else {
      var x :| Arrivable(e, x) && Finds(e, x);
      var more := WayToReturn(e, i, peer, x);
    }
  }

  /** And such a state is reached from every start: the frame arrives, its acknowledgement is lost, and the
      responder reads it. */
  lemma LostAckStrands(i: Info, peer: Info, salt: bytes, former: set<Frame>, lastRx: int) returns (events: seq<Event>)
    requires Ready(i, peer, salt, former) && !Stale(lastRx, i.txSeq)
    ensures Legal(Begin(i, peer, salt, former, lastRx), events)
    ensures var e := Exec(Begin(i, peer, salt, former, lastRx), events);
      e.phase == Waiting && Rotated(e, peer) && Hopeless(e, peer)
  {
    BeginGood(i, peer, salt, former, lastRx);
    SealedAlike(i, salt);
    RotateChanges(peer, false, salt);
    hide Seal;
    hide Rotate;
    hide Admits;
    hide Stale;
    hide Former;
    hide Legal;
    hide Exec;
    var e0 := Begin(i, peer, salt, former, lastRx);
    var u := Ack(e0, peer.rxKey);
    var e1 := After(e0, Emit);
    assert QueueBytes([]) == 0 && FrameSize(e0.f) <= MAX_READ_BUFFER;
    hide QueueBytes;
    var e2 := After(e1, Arrive);
    assert e2.acks == {u} && e2.r.queue == [e2.f];
    var e3 := After(e2, Lose(u));
    assert e3.acks == {} && Good(e3, i, peer);
    TakeCopy(e3, i, peer);
    hide Take;
    Nothing(After(e3, Fetch));
    var t3 := First(e3, Fetch, []);
    var t2 := First(e2, Lose(u), t3);
    var t1 := First(e1, Arrive, t2);
    events := First(e0, Emit, t1);
  }

  lemma Nothing(e: Exchange)
    ensures Legal(e, []) && Exec(e, []) == e
  {
  }

  // ----- a return without the responder -----

  /** The responder has changed its keys, or has the REKEY in its queue and will. */
  predicate Received(e: Exchange, peer: Info) {
    Rotated(e, peer) || e.f in e.r.queue
  }

  /** A former frame has the type and number of the REKEY. */
  predicate Collides(former: set<Frame>, f: Frame) {
    exists g :: g in former && g.ptype == f.ptype && g.seqNo == f.seqNo
  }

  /** An acknowledgement under the initiator's key, heard or in flight, means that the responder has it. */
  predicate Sound(e: Exchange, i: Info, peer: Info) {
    && !Stale(e.r.lastRx, e.f.seqNo) && !Collides(e.former, e.f)
    && (e.acked || e.phase == Returned || Ack(e, i.txKey) in e.acks ==> Received(e, peer))
  }

  lemma SoundKept(e: Exchange, i: Info, peer: Info, event: Event)
    requires Good(e, i, peer) && Possible(e, event) && Sound(e, i, peer)
    ensures Sound(After(e, event), i, peer)
  {
    SealedAlike(i, e.salt);
    hide Seal;
    hide Rotate;
    hide Admits;
    hide Former;
    hide QueueBytes;
    hide Collides;
    if event.Fetch? {
      assert e.r.queue[0] in e.r.queue;
      if e.r.queue[0] == e.f {
        TakeCopy(e, i, peer);
      } else {
        TakeFormer(e, i, peer);
      }
      hide Take;
    } else if event.Arrive? {
      hide Take;
      FedSound(e, i, peer, e.f);
    } else if event.Replay? {
      hide Take;
      NoCollision(e, event.g);
      FedSound(e, i, peer, event.g);
    } else {
      hide Take;
      hide Stale;
    }
  }

  lemma NoCollision(e: Exchange, g: Frame)
    requires !Collides(e.former, e.f) && g in e.former
    ensures g.ptype != e.f.ptype || g.seqNo != e.f.seqNo
  {
  }

  lemma FedSound(e: Exchange, i: Info, peer: Info, x: Frame)
    requires Sound(e, i, peer) && (x == e.f || x.ptype != e.f.ptype || x.seqNo != e.f.seqNo)
    ensures Sound(Fed(e, x), i, peer)
  {
    hide Rotate;
    hide QueueBytes;
    hide Stale;
    hide Collides;
  }

  lemma {:induction false} RunSound(e: Exchange, i: Info, peer: Info, events: seq<Event>)
    requires Good(e, i, peer) && Sound(e, i, peer) && Legal(e, events)
    ensures Sound(Exec(e, events), i, peer)
    decreases |events|
  {
    hide Good;
    hide Sound;
    hide After;
    hide Possible;
    if events != [] {
      EventKeeps(e, i, peer, events[0]);
      SoundKept(e, i, peer, events[0]);
      RunSound(After(e, events[0]), i, peer, events[1..]);
    }
  }

  /** In every run a `rekey` that returned means that the responder has the REKEY. */
  ghost predicate ReturnMeansReceived(start: Exchange, peer: Info) {
    forall events :: Legal(start, events) && Exec(start, events).phase == Returned ==> Received(Exec(start, events), peer)
  }

  /** That is so if and only if the filter does not hold its number for stale, and no frame of a former epoch has
      its type and number: an earlier REKEY under the same number is acknowledged in its place. */
  lemma ReceivedExactly(i: Info, peer: Info, salt: bytes, former: set<Frame>, lastRx: int)
    requires Ready(i, peer, salt, former)
    ensures var start := Begin(i, peer, salt, former, lastRx);
      ReturnMeansReceived(start, peer) <==> !Stale(lastRx, i.txSeq) && !Collides(former, start.f)
  {
    BeginGood(i, peer, salt, former, lastRx);
    SealedAlike(i, salt);
    RotateChanges(peer, false, salt);
    hide Seal;
    hide Rotate;
    hide Admits;
    hide Former;
    hide Legal;
    hide Exec;
    var start := Begin(i, peer, salt, former, lastRx);
    if !Stale(lastRx, i.txSeq) && !Collides(former, start.f) {
      assert Sound(start, i, peer);
      forall events | Legal(start, events) && Exec(start, events).phase == Returned ensures Received(Exec(start, events), peer) {
        RunSound(start, i, peer, events);
      }
    } else {
      var events := ReturnAlone(i, peer, salt, former, lastRx);
      assert !Received(Exec(start, events), peer);
    }
  }

  /** The run in which the initiator changes its keys alone. */
  lemma ReturnAlone(i: Info, peer: Info, salt: bytes, former: set<Frame>, lastRx: int) returns (events: seq<Event>)
    requires Ready(i, peer, salt, former)
    requires Stale(lastRx, i.txSeq) || Collides(former, Begin(i, peer, salt, former, lastRx).f)
    ensures Legal(Begin(i, peer, salt, former, lastRx), events)
    ensures var e := Exec(Begin(i, peer, salt, former, lastRx), events); e.phase == Returned && !Received(e, peer)
  {
    SealedAlike(i, salt);
    RotateChanges(peer, false, salt);
    hide Seal;
    hide Rotate;
    hide Admits;
    hide Legal;
    hide Exec;
    var e0 := Begin(i, peer, salt, former, lastRx);
    var e1 := After(e0, Emit);
    if Stale(lastRx, i.txSeq) {
      hide Stale;
      var e2 := After(e1, Arrive);
      var rest := HearAndFinish(e2);
      var more := First(e1, Arrive, rest);
      events := First(e0, Emit, more);
    } else {
      hide Stale;
      var g :| g in former && g.ptype == e0.f.ptype && g.seqNo == e0.f.seqNo;
      assert Foreign(i.txKey, g) && g != e0.f;
      assert QueueBytes([]) == 0 && FrameSize(g) <= MAX_READ_BUFFER;
      hide QueueBytes;
      hide Former;
      var e2 := After(e1, Replay(g));
      assert e2.r.queue == [g];
      var rest := HearAndFinish(e2);
      var more := First(e1, Replay(g), rest);
      events := First(e0, Emit, more);
    }
  }

  // ----- a REKEY below the filter -----

  /** A REKEY whose number the transport's filter holds for stale, as after an earlier rekey, never reaches the
      responder's queue. */
  predicate NeverQueued(e: Exchange, peer: Info) {
    Stale(e.r.lastRx, e.f.seqNo) && e.f !in e.r.queue && e.r.rx.info == peer
  }

  lemma NeverQueuedKept(e: Exchange, i: Info, peer: Info, event: Event)
    requires Good(e, i, peer) && Possible(e, event) && NeverQueued(e, peer)
    ensures NeverQueued(After(e, event), peer)
  {
    SealedAlike(i, e.salt);
    hide Seal;
    hide Rotate;
    hide Admits;
    hide Stale;
    hide QueueBytes;
    if event.Fetch? {
      assert e.r.queue[0] in e.r.queue;
      TakeFormer(e, i, peer);
      hide Take;
      assert forall x :: x in e.r.queue[1..] ==> x in e.r.queue;
    } else if event.Replay? {
      assert Foreign(i.txKey, event.g);
      hide Former;
      assert forall x :: x in e.r.queue + [event.g] ==> x in e.r.queue || x == event.g;
    }
    hide Take;
  }

  lemma {:induction false} StaleNeverRead(e: Exchange, i: Info, peer: Info, events: seq<Event>)
    requires Good(e, i, peer) && NeverQueued(e, peer) && Legal(e, events)
    ensures NeverQueued(Exec(e, events), peer)
    decreases |events|
  {
    hide Good;
    hide NeverQueued;
    hide After;
    hide Possible;
    if events != [] {
      EventKeeps(e, i, peer, events[0]);
      NeverQueuedKept(e, i, peer, events[0]);
      StaleNeverRead(After(e, events[0]), i, peer, events[1..]);
    }
  }

  /** So in every run the keys stay crossed if and only if the initiator has not returned. */
  lemma StaleRekeyStrands(i: Info, peer: Info, salt: bytes, former: set<Frame>, lastRx: int, events: seq<Event>)
    requires Ready(i, peer, salt, former) && Stale(lastRx, i.txSeq) && Legal(Begin(i, peer, salt, former, lastRx), events)
    ensures var e := Exec(Begin(i, peer, salt, former, lastRx), events);
      !Received(e, peer) && (Crossed(e.a, e.r.rx.info) <==> e.phase != Returned)
  {
    hide Legal;
    hide Exec;
    hide Former;
    SealedAlike(i, salt);
    BeginGood(i, peer, salt, former, lastRx);
    var e := Exec(Begin(i, peer, salt, former, lastRx), events);
    StaleNeverRead(Begin(i, peer, salt, former, lastRx), i, peer, events);
    KeysCross(i, peer, salt, former, lastRx, events, Chunk(PING, []));
    RotateChanges(peer, false, e.salt);
    hide Rotate;
    hide Seal;
    hide Open;
    hide Admits;
  }

  // ----- giving up -----

  /** A `rekey` that waits, returned or failed, and why. */
  predicate Accounted(e: Exchange) {
    && e.attempts <= 5 && (e.phase == Returned ==> e.acked) && (e.phase == Failed ==> e.attempts == 5 && !e.acked)
    && (e.sent <==> e.attempts > 0)
  }

  lemma {:induction false} AccountKept(e: Exchange, events: seq<Event>)
    requires Accounted(e) && Legal(e, events)
    ensures Accounted(Exec(e, events))
    decreases |events|
  {
    hide Take;
    hide Fed;
    hide Rotate;
    if events != [] {
      AccountOfOne(e, events[0]);
      hide Accounted;
      hide After;
      AccountKept(After(e, events[0]), events[1..]);
    }
  }

  lemma AccountOfOne(e: Exchange, event: Event)
    requires Accounted(e) && Possible(e, event)
    ensures Accounted(After(e, event))
  {
    hide Take;
    hide Rotate;
    hide QueueBytes;
    hide Stale;
  }

  /** In every run `rekey` fails only after the frame has been sent five times and no acknowledgement heard, and returns
      only after one was; then, and only then, the initiator has new keys. */
  lemma FailsAfterFive(i: Info, peer: Info, salt: bytes, former: set<Frame>, lastRx: int, events: seq<Event>)
    requires Ready(i, peer, salt, former) && Legal(Begin(i, peer, salt, former, lastRx), events)
    ensures var e := Exec(Begin(i, peer, salt, former, lastRx), events);
      && e.attempts <= 5 && (e.phase == Failed ==> e.attempts == 5 && !e.acked) && (e.phase == Returned ==> e.acked)
      && (e.phase == Waiting && e.attempts == 5 && !e.acked ==> Possible(e, GiveUp))
      && (e.phase == Returned <==> e.a.txKey != i.txKey)
  {
    AccountKept(Begin(i, peer, salt, former, lastRx), events);
    BeginGood(i, peer, salt, former, lastRx);
    RunKeeps(Begin(i, peer, salt, former, lastRx), i, peer, events);
    var e := Exec(Begin(i, peer, salt, former, lastRx), events);
    RotateChanges(i, true, salt);
    SaltStays(Begin(i, peer, salt, former, lastRx), events);
    SealedAlike(i, salt);
    hide Legal;
    hide Exec;
    hide Seal;
    hide Rotate;
    hide Copies;
  }

  lemma {:induction false} SaltStays(e: Exchange, events: seq<Event>)
    requires Legal(e, events)
    ensures Exec(e, events).salt == e.salt
    decreases |events|
  {
    hide Take;
    hide Rotate;
    hide QueueBytes;
    hide Stale;
    if events != [] {
      SaltStays(After(e, events[0]), events[1..]);
    }
  }
}
