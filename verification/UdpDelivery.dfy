/** End-to-end delivery over UDP, one direction of one key epoch.

The network keeps every datagram ever sent and may hand over any of them any number of times, in
any order, or never.  The sender works through its operations frame by frame with stop-and-wait;
the receiver's transport filters, bounds and acknowledges; one reader at a time takes frames from
its queue.  A run has no step past a `drain` that gives up, so every run is one in which no send
has failed so far.  The opposite direction, and whatever makes the application or a PONG use the
send lock, is covered by letting any operation start whenever the lock is free.

An epoch may have a past.  A rekey resets the session's counters and nothing else: the transport's filter
keeps the number `seen`, so that frames below `Floor(seen)` are acknowledged and discarded; the network
still holds frames of former epochs, which the transport acknowledges by their type and number under the
new key; and some of these may still be queued.
*/
module UdpDelivery {
  import opened Wire
  import opened Crypto
  import opened Session
  import opened Transfer
  import opened ReplayWindow
  import opened Interruptions
  import Reassembly
  import opened UdpLimits

  /** An acknowledgement, signed with the receiver's receiving key. */
  datatype Utack = Utack(key: Key, ptype: PacketType, seqNo: nat)

  /** The frame being written: chunk `k` of `op`. */
  datatype Job = Job(op: Op, k: nat, attempts: nat, acked: bool)

  /** `ops` are the operations begun so far. */
  datatype Sender = Sender(info: Info, job: Option<Job>, ops: seq<Op>)

  datatype Receiver = Receiver(rx: Rx, lastRx: int, queue: seq<Frame>, got: seq<bytes>)

  /** Both ends and both directions of the network, `former` being the frames of former epochs, with three
      histories: the chunks sealed so far, the numbers of them that have been queued at the receiver, and
      one more than the last number its session has accepted. */
  datatype State = State(s: Sender, r: Receiver, frames: set<Frame>, former: set<Frame>, acks: set<Utack>,
                         log: seq<Chunk>, queued: set<nat>, next: nat)

  datatype Step =
    | Start(op: Op)
    | Transmit
    | HearAck(u: Utack)
    | Proceed
    | Deliver(f: Frame)
    | Read

  function FrameSize(f: Frame): nat {
    HEADER_SIZE + PayloadLen(f.payload)
  }

  function QueueBytes(q: seq<Frame>): nat {
    if q == [] then 0 else FrameSize(q[0]) + QueueBytes(q[1..])
  }

  /** The frame on which the sender is waiting. */
  function Pending(st: State): Frame
    requires 0 < |st.log| <= MAX_SEQ
  {
    Reassembly.LogFrame(st.s.info, st.log, |st.log| - 1)
  }

  predicate Sealing(st: State) {
    st.s.info.txSeq < MAX_SEQ
  }

  predicate Enabled(st: State, step: Step) {
    match step
    case Start(op) => st.s.job == None && !op.Rekey? && Sealing(st)
    case Transmit => st.s.job.Some? && st.s.job.value.attempts < ATTEMPTS && 0 < |st.log| <= MAX_SEQ
    case HearAck(u) => st.s.job.Some? && u in st.acks && 0 < |st.log| <= MAX_SEQ
    case Proceed =>
      && st.s.job.Some? && st.s.job.value.acked
      && (st.s.job.value.k + 1 < |Chunks(st.s.job.value.op)| ==> Sealing(st))
    case Deliver(f) => f in st.frames || f in st.former
    case Read => st.r.queue != []
  }

  /** Seal chunk `k` of `op` and start waiting for its acknowledgement. */
  function SealChunk(st: State, op: Op, k: nat): State
    requires k < |Chunks(op)| && Sealing(st)
  {
    st.(s := st.s.(info := Seal(st.s.info, Chunks(op)[k]).value.0, job := Some(Job(op, k, 0, false))),
        log := st.log + [Chunks(op)[k]])
  }

  function WithOps(st: State, ops: seq<Op>): State {
    st.(s := st.s.(ops := ops))
  }

  /** A frame that was not sealed under the key. */
  predicate Foreign(key: Key, f: Frame) {
    f.payload.Sealed? ==> f.payload.key != key
  }

  /** `feed_packet` on a session frame, which cannot tell whose key it is under. */
  function Feed(st: State, f: Frame): State {
    var u := Utack(st.r.rx.info.rxKey, f.ptype, f.seqNo);
    if Stale(st.r.lastRx, f.seqNo) then st.(acks := st.acks + {u})
    else if QueueBytes(st.r.queue) + FrameSize(f) > MAX_READ_BUFFER then st
    else st.(acks := st.acks + {u}, r := st.r.(queue := st.r.queue + [f]),
             queued := if Foreign(st.r.rx.info.rxKey, f) then st.queued else st.queued + {f.seqNo})
  }

  /** The oldest queued frame is one the session accepts. */
  predicate TakesHead(r: Receiver)
    requires r.queue != []
  {
    Open(false, r.rx.info, r.queue[0]).Accepted?
  }

  /** One turn of `recv` on the oldest queued frame. */
  function Take(r: Receiver): Receiver
    requires r.queue != []
  {
    var (rx, v) := Receive(false, r.rx, r.queue[0]);
    Receiver(rx, if TakesHead(r) then Confirm(r.lastRx, r.queue[0].seqNo) else r.lastRx, r.queue[1..], r.got + Yield(v))
  }

  function ReadOne(st: State): State
    requires st.r.queue != []
  {
    st.(r := Take(st.r), next := if TakesHead(st.r) then st.r.queue[0].seqNo + 1 else st.next)
  }

  function Apply(st: State, step: Step): State
    requires Enabled(st, step)
  {
    match step
    case Start(op) => SealChunk(WithOps(st, st.s.ops + [op]), op, 0)
    case Transmit =>
      var j := st.s.job.value;
      st.(s := st.s.(job := Some(j.(attempts := j.attempts + 1))), frames := st.frames + {Pending(st)})
    case HearAck(u) =>
      var j := st.s.job.value;
      var match' := u == Utack(st.s.info.txKey, Pending(st).ptype, Pending(st).seqNo);
      st.(s := st.s.(job := Some(j.(acked := j.acked || match'))))
    case Proceed =>
      var j := st.s.job.value;
      if j.k + 1 < |Chunks(j.op)| then SealChunk(st, j.op, j.k + 1) else st.(s := st.s.(job := None))
    case Deliver(f) => Feed(st, f)
    case Read => ReadOne(st)
  }

  predicate Legal(st: State, steps: seq<Step>)
    decreases |steps|
  {
    steps == [] || (Enabled(st, steps[0]) && Legal(Apply(st, steps[0]), steps[1..]))
  }

  function Exec(st: State, steps: seq<Step>): State
    requires Legal(st, steps)
    decreases |steps|
  {
    if steps == [] then st else Exec(Apply(st, steps[0]), steps[1..])
  }

  /** What an epoch finds: the number in the transport's filter, the frames of former epochs on the network,
      those of them still queued, and acknowledgements of former epochs. */
  datatype Past = Past(seen: int, former: set<Frame>, backlog: seq<Frame>, acks: set<Utack>)

  /** After a handshake there is nothing. */
  const NO_PAST := Past(-1, {}, [], {})

  predicate PastOf(past: Past, key: Key) {
    && -1 <= past.seen && QueueBytes(past.backlog) <= MAX_READ_BUFFER
    && (forall f :: f in past.former ==> Foreign(key, f) && SessionType(f.ptype))
    && (forall f :: f in past.backlog ==> f in past.former)
    && (forall u :: u in past.acks ==> u.key != key)
  }

  /** The start of an epoch: the receiver's key is the sender's, and all counters are zero. */
  function Epoch(sender: Info, receiver: Info, past: Past): State {
    State(Sender(sender, None, []), Receiver(Idle(receiver), past.seen, past.backlog, []), {}, past.former, past.acks,
          [], {}, 0)
  }

  /** The first number a filter holding `seen` lets through. */
  function Floor(seen: int): nat {
    if seen < SPAN then 0 else seen - SPAN + 1
  }

  // ----- a receiver that misses nothing from `floor` on -----

  const BLANK: Info := Info([0, 0, 0, 0, 0, 0, 0, 0, 0, 0, 0, 0, 0, 0, 0, 0], Installed(0), Installed(1), 0, FRESH, AES256_GCM)

  /** The assembly, and the messages delivered, after chunks `floor` to `n` of the log in order. */
  function Shadow(log: seq<Chunk>, floor: nat, n: nat): (Rx, seq<bytes>)
    requires n <= floor || n <= |log|
    decreases n
  {
    if n <= floor then (Idle(BLANK), [])
    else
      var (r, ms) := Shadow(log, floor, n - 1);
      var (r', v) := Interpret(false, r, log[n - 1].ptype, n - 1, log[n - 1].plaintext);
      (r', ms + Yield(v))
  }

  lemma {:induction false} ShadowPrefix(log: seq<Chunk>, longer: seq<Chunk>, floor: nat, n: nat)
    requires log <= longer && (n <= floor || n <= |log|)
    ensures Shadow(longer, floor, n) == Shadow(log, floor, n)
    decreases n
  {
    hide Interpret;
    if n > floor {
      ShadowPrefix(log, longer, floor, n - 1);
    }
  }

  lemma {:induction false} ShadowGrows(log: seq<Chunk>, floor: nat, m: nat, n: nat)
    requires m <= n && (n <= floor || n <= |log|)
    ensures Shadow(log, floor, m).1 <= Shadow(log, floor, n).1
    decreases n
  {
    hide Interpret;
    if m < n && n > floor {
      ShadowGrows(log, floor, m, n - 1);
    }
  }

  lemma ShadowOneMore(log: seq<Chunk>, c: Chunk, floor: nat)
    requires floor <= |log|
    ensures var before := Shadow(log, floor, |log|);
      var (r, v) := Interpret(false, before.0, c.ptype, |log|, c.plaintext);
      Shadow(log + [c], floor, |log| + 1) == (r, before.1 + Yield(v))
  {
    hide Interpret;
    ShadowPrefix(log, log + [c], floor, |log|);
    assert (log + [c])[|log|] == c;
  }

  /** Its steps are those of a reader of chunks. */
  lemma {:induction false} ShadowHears(log: seq<Chunk>, cs: seq<Chunk>, floor: nat)
    requires floor <= |log| && Ordinary(cs)
    ensures var before := Shadow(log, floor, |log|);
      var h := Hear(false, before.0, cs, |log|);
      h.raised == None && Shadow(log + cs, floor, |log| + |cs|) == (h.rx, before.1 + h.messages)
    decreases |cs|
  {
    hide Interpret;
    hide Shadow;
    var before := Shadow(log, floor, |log|);
    if cs == [] {
      assert log + cs == log && before.1 + [] == before.1;
    } else {
      assert cs[0].ptype != BYE;
      assert forall k :: 0 <= k < |cs[1..]| ==> cs[1..][k] == cs[k + 1];
      NeverRaises(before.0, cs[0].ptype, |log|, cs[0].plaintext);
      ShadowOneMore(log, cs[0], floor);
      ShadowHears(log + [cs[0]], cs[1..], floor);
      assert log + [cs[0]] + cs[1..] == log + cs;
      var (r, v) := Interpret(false, before.0, cs[0].ptype, |log|, cs[0].plaintext);
      var h := Hear(false, r, cs[1..], |log| + 1);
      assert before.1 + (Yield(v) + h.messages) == before.1 + Yield(v) + h.messages;
    }
  }

  // ----- what it delivers -----

  /** The messages of the operations, oldest first. */
  function AllMessages(ops: seq<Op>): seq<bytes> {
    if ops == [] then [] else AllMessages(ops[..|ops| - 1]) + MessageFrom(ops[|ops| - 1], 0)
  }

  /** What a reader gets of an operation from its k-th frame on. */
  function MessageFrom(op: Op, k: nat): seq<bytes> {
    if op.Send? && k < |Chunks(op)| then [Tail(op.data, k)] else []
  }

  /** What a reader gets of the operations who sees their frames from number `floor` on: the tail of the
      message that lies across it, and every message after that one. */
  function MessagesFrom(ops: seq<Op>, floor: nat): seq<bytes> {
    if ops == [] then []
    else
      var front, op := ops[..|ops| - 1], ops[|ops| - 1];
      var start := |Flatten(front)|;
      MessagesFrom(front, floor) + MessageFrom(op, if floor <= start then 0 else floor - start)
  }

  predicate NoRekeyOps(ops: seq<Op>) {
    forall k :: 0 <= k < |ops| ==> !ops[k].Rekey?
  }

  lemma FlattenLast(ops: seq<Op>)
    requires ops != []
    ensures Flatten(ops) == Flatten(ops[..|ops| - 1]) + Chunks(ops[|ops| - 1])
  {
    hide Flatten;
    hide Chunks;
    var front := ops[..|ops| - 1];
    FlattenAppend(front, ops[|ops| - 1]);
    assert front + [ops[|ops| - 1]] == ops;
  }

  /** One more operation, read from its k-th frame on by a reader at rest. */
  lemma OpDelivered(log: seq<Chunk>, op: Op, floor: nat, k: nat)
    requires k < |Chunks(op)| && !op.Rekey? && floor <= |log| + k
    requires Shadow(log + Chunks(op)[..k], floor, |log| + k).0 == Idle(BLANK)
    ensures var before := Shadow(log + Chunks(op)[..k], floor, |log| + k);
      Shadow(log + Chunks(op), floor, |log + Chunks(op)|) == (Idle(BLANK), before.1 + MessageFrom(op, k))
  {
    hide Shadow;
    hide Fragment;
    var pre := log + Chunks(op)[..k];
    assert pre + Chunks(op)[k..] == log + Chunks(op);
    if op.Send? {
      hide Chunks;
      SendDelivered(pre, op, floor, k);
    } else {
      ChunkKinds(op, k);
      assert Chunks(op)[k..] == [Chunks(op)[0]];
      ControlDelivered(pre, Chunks(op)[0], floor);
    }
  }

  lemma SendDelivered(pre: seq<Chunk>, op: Op, floor: nat, k: nat)
    requires op.Send? && k < |Chunks(op)| && floor <= |pre| && Shadow(pre, floor, |pre|).0 == Idle(BLANK)
    ensures Shadow(pre + Chunks(op)[k..], floor, |pre| + |Chunks(op)[k..]|)
         == (Idle(BLANK), Shadow(pre, floor, |pre|).1 + MessageFrom(op, k))
  {
    OrdinarySend(op);
    hide Chunks;
    hide Fragment;
    hide Hear;
    hide Shadow;
    hide Tail;
    var cs := Chunks(op)[k..];
    assert Ordinary(cs);
    ShadowHears(pre, cs, floor);
    hide Ordinary;
    HearRest(false, BLANK, op.data, k, |pre|);
  }

  lemma ControlDelivered(pre: seq<Chunk>, c: Chunk, floor: nat)
    requires c.ptype == PING || c.ptype == PONG || c.ptype == BYE
    requires floor <= |pre| && Shadow(pre, floor, |pre|).0 == Idle(BLANK)
    ensures Shadow(pre + [c], floor, |pre| + 1) == (Idle(BLANK), Shadow(pre, floor, |pre|).1 + [])
  {
    ShadowOneMore(pre, c, floor);
    hide Shadow;
  }

  lemma OrdinarySend(op: Op)
    requires op.Send?
    ensures Ordinary(Chunks(op)) && Chunks(op) == Fragment(op.data)
  {
    forall k | 0 <= k < |Chunks(op)| ensures Chunks(op)[k].ptype != REKEY && Chunks(op)[k].ptype != BYE {
      ChunkKinds(op, k);
    }
  }

  /** A reader who sees every frame from `floor` on gets exactly that. */
  lemma {:induction false} ShadowDelivers(ops: seq<Op>, floor: nat)
    requires NoRekeyOps(ops)
    ensures Shadow(Flatten(ops), floor, |Flatten(ops)|) == (Idle(BLANK), MessagesFrom(ops, floor))
    decreases |ops|
  {
    hide Interpret;
    hide Chunks;
    if ops != [] {
      var front, op := ops[..|ops| - 1], ops[|ops| - 1];
      ShadowDelivers(front, floor);
      FlattenLast(ops);
      var log := Flatten(front);
      hide Flatten;
      var k := if floor <= |log| then 0 else floor - |log|;
      if k < |Chunks(op)| {
        assert k == 0 ==> log + Chunks(op)[..k] == log;
        OpDelivered(log, op, floor, k);
      } else {
        assert Chunks(op) != [] && |Flatten(ops)| <= floor;
        assert Shadow(Flatten(ops), floor, |Flatten(ops)|).1 == [] && Shadow(log, floor, |log|).1 == [];
        assert MessagesFrom(ops, floor) == MessagesFrom(front, floor) + MessageFrom(op, k);
      }
    }
  }

  lemma {:induction false} FromTheStart(ops: seq<Op>)
    ensures MessagesFrom(ops, 0) == AllMessages(ops)
  {
    hide Chunks;
    if ops != [] {
      FromTheStart(ops[..|ops| - 1]);
    }
  }

  /** No message begins before frame `floor`. */
  predicate NoneBefore(ops: seq<Op>, floor: nat) {
    forall p :: 0 <= p < |ops| && ops[p].Send? ==> floor <= |Flatten(ops[..p])|
  }

  lemma {:induction false} FewerFrom(ops: seq<Op>, floor: nat)
    ensures |MessagesFrom(ops, floor)| <= |AllMessages(ops)|
  {
    hide Chunks;
    if ops != [] {
      FewerFrom(ops[..|ops| - 1], floor);
    }
  }

  /** It is everything if and only if no message begins before frame `floor`. */
  lemma {:induction false} WholeFrom(ops: seq<Op>, floor: nat)
    ensures MessagesFrom(ops, floor) == AllMessages(ops) <==> NoneBefore(ops, floor)
  {
    if ops != [] {
      var front, op := ops[..|ops| - 1], ops[|ops| - 1];
      WholeFrom(front, floor);
      FewerFrom(front, floor);
      NoneBeforeSplit(ops, floor);
      var start := |Flatten(front)|;
      var k := if floor <= start then 0 else floor - start;
      LastWhole(op, k);
      hide Flatten;
      hide Chunks;
      hide MessageFrom;
      hide NoneBefore;
      SameEnds(MessagesFrom(front, floor), MessageFrom(op, k), AllMessages(front), MessageFrom(op, 0));
    }
  }

  lemma NoneBeforeSplit(ops: seq<Op>, floor: nat)
    requires ops != []
    ensures var front := ops[..|ops| - 1];
      NoneBefore(ops, floor) <==> NoneBefore(front, floor) && (ops[|ops| - 1].Send? ==> floor <= |Flatten(front)|)
  {
    hide Flatten;
    var front := ops[..|ops| - 1];
    assert forall p :: 0 <= p < |front| ==> front[..p] == ops[..p];
  }

  lemma LastWhole(op: Op, k: nat)
    ensures |MessageFrom(op, k)| <= |MessageFrom(op, 0)| <= 1
    ensures MessageFrom(op, k) == MessageFrom(op, 0) <==> !op.Send? || k == 0
  {
    if op.Send? && 0 < k < |Chunks(op)| {
      FragmentCount(op.data);
      assert |Tail(op.data, k)| < |op.data|;
    }
    assert op.Send? ==> Tail(op.data, 0) == op.data;
  }

  lemma SameEnds(xs: seq<bytes>, x: seq<bytes>, ys: seq<bytes>, y: seq<bytes>)
    requires |xs| <= |ys| && |x| <= |y|
    ensures xs + x == ys + y <==> xs == ys && x == y
  {
    if xs + x == ys + y {
      assert |xs| == |ys|;
      assert xs == (xs + x)[..|xs|] && ys == (ys + y)[..|ys|];
      assert x == (xs + x)[|xs|..] && y == (ys + y)[|ys|..];
    }
  }

  // ----- the invariant -----

  function Larger(a: int, b: int): int {
    if a < b then b else a
  }

  function Span(first: nat, end: nat): (s: set<nat>)
    ensures forall i: nat :: i in s <==> first <= i < end
    decreases end
  {
    if end <= first then {} else Span(first, end - 1) + {end - 1}
  }

  /** The last frame sealed has been queued, or lies below the filter. */
  predicate Settled(st: State, floor: nat) {
    st.log == [] || |st.log| - 1 in st.queued || |st.log| <= floor
  }

  /** How many of the sealed frames have been dealt with: all of them, or all but the one in flight. */
  function High(st: State, floor: nat): nat {
    if Settled(st, floor) then |st.log| else |st.log| - 1
  }

  /** The next number the session waits for. */
  function Next(st: State, floor: nat): nat {
    if st.next < floor then floor else st.next
  }

  function Upto(st: State, floor: nat): nat {
    if High(st, floor) < floor then floor else High(st, floor)
  }

  /** Read from the front, every frame under the key is a repeat or the next one, and the last one is
      `h - 1`. */
  predicate Ordered(key: Key, q: seq<Frame>, n: nat, h: nat)
    decreases |q|
  {
    if q == [] then n == h
    else if Foreign(key, q[0]) then Ordered(key, q[1..], n, h)
    else q[0].seqNo <= n && Ordered(key, q[1..], if q[0].seqNo == n then n + 1 else n, h)
  }

  lemma {:induction false} OrderedAppend(key: Key, q: seq<Frame>, f: Frame, n: nat, h: nat)
    requires Ordered(key, q, n, h) && (Foreign(key, f) || f.seqNo <= h)
    ensures Ordered(key, q + [f], n, if !Foreign(key, f) && f.seqNo == h then h + 1 else h)
    decreases |q|
  {
    hide Foreign;
    if q != [] {
      assert (q + [f])[1..] == q[1..] + [f];
      OrderedAppend(key, q[1..], f, if !Foreign(key, q[0]) && q[0].seqNo == n then n + 1 else n, h);
    } else {
      assert (q + [f])[1..] == [];
    }
  }

  lemma {:induction false} OrderedBound(key: Key, q: seq<Frame>, n: nat, h: nat)
    requires Ordered(key, q, n, h)
    ensures n <= h
    decreases |q|
  {
    hide Foreign;
    if q != [] {
      OrderedBound(key, q[1..], if !Foreign(key, q[0]) && q[0].seqNo == n then n + 1 else n, h);
    }
  }

  lemma {:induction false} OrderedForeign(key: Key, q: seq<Frame>, n: nat)
    requires forall f :: f in q ==> Foreign(key, f)
    ensures Ordered(key, q, n, n)
    decreases |q|
  {
    hide Foreign;
    if q != [] {
      OrderedForeign(key, q[1..], n);
    }
  }

  predicate FromLog(st: State, f: Frame)
    requires |st.log| <= MAX_SEQ
  {
    f.seqNo < |st.log| && f == Reassembly.LogFrame(st.s.info, st.log, f.seqNo)
  }

  /** The log is what the operations begun so far have sealed: all but the last in full, of the last, `op`,
      the first `k` chunks. */
  predicate Written(log: seq<Chunk>, ops: seq<Op>, op: Op, k: nat) {
    && ops != [] && ops[|ops| - 1] == op && k <= |Chunks(op)|
    && log == Flatten(ops[..|ops| - 1]) + Chunks(op)[..k]
  }

  /** The sender and what it has put on the network. */
  predicate SenderGood(st: State, floor: nat) {
    && |st.log| <= MAX_SEQ && st.s.info.txSeq == |st.log| && Reassembly.NoRekey(st.log) && NoRekeyOps(st.s.ops)
    && (forall f :: f in st.frames ==> FromLog(st, f))
    && (match st.s.job
        case None => st.log == Flatten(st.s.ops) && Settled(st, floor)
        case Some(j) => j.k < |Chunks(j.op)| && Written(st.log, st.s.ops, j.op, j.k + 1) && (j.acked ==> Settled(st, floor)))
  }

  /** The acknowledgement is one a frame of a former epoch calls for. */
  predicate Answers(former: set<Frame>, u: Utack) {
    exists f :: f in former && f.ptype == u.ptype && f.seqNo == u.seqNo
  }

  /** No frame of a former epoch has the type and number of a chunk at or above the floor. */
  predicate Clean(former: set<Frame>, log: seq<Chunk>, floor: nat) {
    forall f :: f in former && floor <= f.seqNo < |log| ==> f.ptype != log[f.seqNo].ptype
  }

  /** What the receiver's transport has queued and acknowledged. */
  predicate TransportGood(st: State, floor: nat)
    requires |st.log| <= MAX_SEQ
  {
    var key := st.s.info.txKey;
    && st.queued == Span(floor, High(st, floor))
    && (forall f :: f in st.former ==> Foreign(key, f))
    && (forall u :: u in st.acks && u.key == key ==> u.seqNo in st.queued || u.seqNo < floor || Answers(st.former, u))
    && (forall f :: f in st.r.queue ==> Foreign(key, f) || (FromLog(st, f) && floor <= f.seqNo))
    && QueueBytes(st.r.queue) <= MAX_READ_BUFFER
    && Ordered(key, st.r.queue, Next(st, floor), Upto(st, floor))
  }

  /** What the receiver's session has accepted: exactly the frames from the floor to the next. */
  ghost predicate SessionGood(st: State, seen: int)
    requires |st.log| <= MAX_SEQ
  {
    var floor, n := Floor(seen), Next(st, Floor(seen));
    && (n <= floor || n <= |st.log|) && st.r.lastRx == Larger(seen, n - 1)
    && Reassembly.Synced(st.s.info, st.r.rx.info)
    && Represents(st.r.rx.info.window, Span(floor, n))
    && st.r.rx == Shadow(st.log, floor, n).0.(info := st.r.rx.info)
    && st.r.got == Shadow(st.log, floor, n).1
  }

  ghost predicate Invariant(st: State, seen: int) {
    -1 <= seen && SenderGood(st, Floor(seen)) && TransportGood(st, Floor(seen)) && SessionGood(st, seen)
  }

  // ----- sealing -----

  /** Frames of a shorter log are frames of the longer one. */
  lemma LogFrameStable(i: Info, log: seq<Chunk>, i': Info, c: Chunk, n: nat)
    requires n < |log| < MAX_SEQ && i' == i.(txSeq := i'.txSeq)
    ensures Reassembly.LogFrame(i', log + [c], n) == Reassembly.LogFrame(i, log, n)
  {
    assert i'.(txSeq := n) == i.(txSeq := n);
    assert (log + [c])[n] == log[n];
  }

  /** Ready to seal chunk `k` of `op`, the last of `ops`: everything sealed so far has been dealt with. */
  predicate MaySeal(st: State, floor: nat, ops: seq<Op>, op: Op, k: nat) {
    && Sealing(st) && k < |Chunks(op)| && NoRekeyOps(ops) && Settled(st, floor) && Written(st.log, ops, op, k)
  }

  /** Frames already on the network stay frames of the longer log. */
  lemma SealKeepsFrame(st: State, ops: seq<Op>, op: Op, k: nat, f: Frame)
    requires |st.log| < MAX_SEQ && st.s.info.txSeq == |st.log| && k < |Chunks(op)| && FromLog(st, f)
    ensures FromLog(SealChunk(WithOps(st, ops), op, k), f)
  {
    var st' := SealChunk(WithOps(st, ops), op, k);
    assert st'.s.info == st.s.info.(txSeq := st'.s.info.txSeq);
    hide Chunks;
    hide Seal;
    LogFrameStable(st.s.info, st.log, st'.s.info, Chunks(op)[k], f.seqNo);
  }

  lemma WrittenMore(log: seq<Chunk>, ops: seq<Op>, op: Op, k: nat)
    requires Written(log, ops, op, k) && k < |Chunks(op)|
    ensures Written(log + [Chunks(op)[k]], ops, op, k + 1)
  {
    hide Chunks;
    hide Flatten;
    assert Chunks(op)[..k + 1] == Chunks(op)[..k] + [Chunks(op)[k]];
  }

  lemma SealKeepsSender(st: State, floor: nat, ops: seq<Op>, op: Op, k: nat)
    requires SenderGood(st, floor) && MaySeal(st, floor, ops, op, k)
    ensures SenderGood(SealChunk(WithOps(st, ops), op, k), floor)
  {
    var st' := SealChunk(WithOps(st, ops), op, k);
    assert st'.s.info.txSeq == |st'.log|;
    hide Seal;
    hide Chunks;
    hide Flatten;
    hide Reassembly.LogFrame;
    assert !ops[|ops| - 1].Rekey?;
    NotRekey(op, k);
    WrittenMore(st.log, ops, op, k);
    hide Written;
    forall f | f in st'.frames ensures FromLog(st', f) {
      SealKeepsFrame(st, ops, op, k, f);
    }
    hide FromLog;
  }

  lemma SealKeepsTransport(st: State, floor: nat, ops: seq<Op>, op: Op, k: nat)
    requires SenderGood(st, floor) && TransportGood(st, floor) && MaySeal(st, floor, ops, op, k)
    ensures TransportGood(SealChunk(WithOps(st, ops), op, k), floor)
  {
    hide Chunks;
    hide Flatten;
    hide Written;
    hide Ordered;
    hide QueueBytes;
    hide Foreign;
    hide Answers;
    hide Reassembly.LogFrame;
    var st', n := SealChunk(WithOps(st, ops), op, k), |st.log|;
    assert st'.s.info.txKey == st.s.info.txKey;
    hide Seal;
    assert High(st, floor) == n && n !in st.queued;
    assert High(st', floor) == if n < floor then n + 1 else n;
    assert Upto(st', floor) == Upto(st, floor) && Next(st', floor) == Next(st, floor);
    assert st'.queued == Span(floor, High(st', floor));
    forall f | f in st.r.queue ensures Foreign(st.s.info.txKey, f) || FromLog(st', f) {
      if !Foreign(st.s.info.txKey, f) {
        SealKeepsFrame(st, ops, op, k, f);
      }
    }
    hide FromLog;
  }

  lemma SealKeepsSession(st: State, seen: int, ops: seq<Op>, op: Op, k: nat)
    requires SenderGood(st, Floor(seen)) && SessionGood(st, seen) && MaySeal(st, Floor(seen), ops, op, k)
    ensures SessionGood(SealChunk(WithOps(st, ops), op, k), seen)
  {
    hide Chunks;
    hide Flatten;
    hide Written;
    hide Shadow;
    hide Represents;
    hide Span;
    var st' := SealChunk(WithOps(st, ops), op, k);
    assert Next(st', Floor(seen)) == Next(st, Floor(seen));
    ShadowPrefix(st.log, st'.log, Floor(seen), Next(st, Floor(seen)));
  }

  lemma SealKeeps(st: State, seen: int, ops: seq<Op>, op: Op, k: nat)
    requires Invariant(st, seen) && MaySeal(st, Floor(seen), ops, op, k)
    ensures Invariant(SealChunk(WithOps(st, ops), op, k), seen)
  {
    hide MaySeal;
    SealKeepsSender(st, Floor(seen), ops, op, k);
    SealKeepsTransport(st, Floor(seen), ops, op, k);
    SealKeepsSession(st, seen, ops, op, k);
    hide SenderGood;
    hide TransportGood;
    hide SessionGood;
  }

  // ----- the network -----

  /** A frame of the log was sealed under the epoch's key. */
  lemma OwnFrame(st: State, f: Frame)
    requires |st.log| <= MAX_SEQ && FromLog(st, f)
    ensures !Foreign(st.s.info.txKey, f)
  {
  }

  /** A frame that arrives is a repeat, or the one in flight. */
  lemma ArrivalInOrder(st: State, floor: nat, f: Frame)
    requires SenderGood(st, floor) && TransportGood(st, floor) && f in st.frames
    ensures FromLog(st, f) && f.seqNo <= High(st, floor) && Next(st, floor) <= Upto(st, floor)
    ensures f.seqNo == High(st, floor) ==> |st.log| == High(st, floor) + 1
  {
    hide Reassembly.LogFrame;
    hide Flatten;
    hide Chunks;
    hide Span;
    hide QueueBytes;
    hide Foreign;
    OrderedBound(st.s.info.txKey, st.r.queue, Next(st, floor), Upto(st, floor));
    hide Ordered;
  }

  lemma AckGood(st: State, floor: nat, u: Utack)
    requires |st.log| <= MAX_SEQ && TransportGood(st, floor)
    requires u.seqNo in st.queued || u.seqNo < floor || Answers(st.former, u)
    ensures TransportGood(st.(acks := st.acks + {u}), floor)
  {
    hide Reassembly.LogFrame;
    hide Ordered;
    hide Span;
    hide QueueBytes;
    hide Foreign;
    hide Answers;
    var st' := st.(acks := st.acks + {u});
    assert High(st', floor) == High(st, floor) && Next(st', floor) == Next(st, floor);
    assert forall f :: f in st.r.queue ==> FromLog(st', f) == FromLog(st, f);
  }

  lemma QueueGood(st: State, floor: nat, f: Frame)
    requires |st.log| <= MAX_SEQ && TransportGood(st, floor) && FromLog(st, f) && floor <= f.seqNo <= High(st, floor)
    requires f.seqNo == High(st, floor) ==> |st.log| == High(st, floor) + 1
    requires QueueBytes(st.r.queue) + FrameSize(f) <= MAX_READ_BUFFER
    ensures TransportGood(st.(r := st.r.(queue := st.r.queue + [f]), queued := st.queued + {f.seqNo}), floor)
  {
    OwnFrame(st, f);
    hide Reassembly.LogFrame;
    hide Span;
    hide Foreign;
    hide Answers;
    var st' := st.(r := st.r.(queue := st.r.queue + [f]), queued := st.queued + {f.seqNo});
    var h := High(st, floor);
    OrderedAppend(st.s.info.txKey, st.r.queue, f, Next(st, floor), h);
    QueueBytesAppend(st.r.queue, f);
    hide Ordered;
    hide QueueBytes;
    assert High(st', floor) == if f.seqNo == h then h + 1 else h;
    assert st'.queued == Span(floor, High(st', floor));
    assert forall g :: g in st'.r.queue ==> g in st.r.queue || g == f;
    assert forall g :: FromLog(st', g) == FromLog(st, g);
  }

  lemma QueueForeign(st: State, floor: nat, f: Frame)
    requires |st.log| <= MAX_SEQ && TransportGood(st, floor) && Foreign(st.s.info.txKey, f)
    requires QueueBytes(st.r.queue) + FrameSize(f) <= MAX_READ_BUFFER
    ensures TransportGood(st.(r := st.r.(queue := st.r.queue + [f])), floor)
  {
    hide Reassembly.LogFrame;
    hide Span;
    hide Foreign;
    hide Answers;
    var st' := st.(r := st.r.(queue := st.r.queue + [f]));
    OrderedAppend(st.s.info.txKey, st.r.queue, f, Next(st, floor), Upto(st, floor));
    QueueBytesAppend(st.r.queue, f);
    hide Ordered;
    hide QueueBytes;
    assert High(st', floor) == High(st, floor);
    assert forall g :: g in st'.r.queue ==> g in st.r.queue || g == f;
    assert forall g :: FromLog(st', g) == FromLog(st, g);
  }

  /** The filter discards exactly what lies below the floor, or what the session has had long ago. */
  lemma FilterExact(seen: int, n: nat, s: nat)
    requires -1 <= seen && Floor(seen) <= n
    ensures Stale(Larger(seen, n - 1), s) ==> s < n
    ensures s < Floor(seen) ==> Stale(Larger(seen, n - 1), s)
  {
  }

  lemma OwnKeepsTransport(st: State, seen: int, f: Frame)
    requires Invariant(st, seen) && f in st.frames
    ensures TransportGood(Feed(st, f), Floor(seen))
  {
    var floor := Floor(seen);
    ArrivalInOrder(st, floor, f);
    OwnFrame(st, f);
    FilterExact(seen, Next(st, floor), f.seqNo);
    assert st.r.rx.info.rxKey == st.s.info.txKey;
    assert st.r.lastRx == Larger(seen, Next(st, floor) - 1);
    assert st.queued == Span(floor, High(st, floor));
    hide SenderGood;
    hide SessionGood;
    hide Reassembly.LogFrame;
    hide Stale;
    hide Floor;
    hide Span;
    hide Foreign;
    var u := Utack(st.r.rx.info.rxKey, f.ptype, f.seqNo);
    var queued := st.(r := st.r.(queue := st.r.queue + [f]), queued := st.queued + {f.seqNo});
    if Stale(st.r.lastRx, f.seqNo) {
      hide TransportGood;
      AckGood(st, floor, u);
    } else if QueueBytes(st.r.queue) + FrameSize(f) <= MAX_READ_BUFFER {
      hide TransportGood;
      QueueGood(st, floor, f);
      AckGood(queued, floor, u);
      assert Feed(st, f) == queued.(acks := queued.acks + {u});
    }
  }

  lemma FormerKeepsTransport(st: State, floor: nat, f: Frame)
    requires |st.log| <= MAX_SEQ && TransportGood(st, floor) && st.r.rx.info.rxKey == st.s.info.txKey && f in st.former
    ensures TransportGood(Feed(st, f), floor)
  {
    assert Foreign(st.s.info.txKey, f);
    var u := Utack(st.r.rx.info.rxKey, f.ptype, f.seqNo);
    assert Answers(st.former, u);
    hide Stale;
    hide Foreign;
    hide Answers;
    hide TransportGood;
    var queued := st.(r := st.r.(queue := st.r.queue + [f]));
    if Stale(st.r.lastRx, f.seqNo) {
      AckGood(st, floor, u);
    } else if QueueBytes(st.r.queue) + FrameSize(f) <= MAX_READ_BUFFER {
      QueueForeign(st, floor, f);
      AckGood(queued, floor, u);
      assert Feed(st, f) == queued.(acks := queued.acks + {u});
    }
  }

  lemma DeliverKeepsTransport(st: State, seen: int, f: Frame)
    requires Invariant(st, seen) && (f in st.frames || f in st.former)
    ensures TransportGood(Feed(st, f), Floor(seen))
  {
    if f in st.frames {
      OwnKeepsTransport(st, seen, f);
    } else {
      hide TransportGood;
      hide Represents;
      hide Shadow;
      FormerKeepsTransport(st, Floor(seen), f);
    }
    hide Feed;
  }

  lemma DeliverKeeps(st: State, seen: int, f: Frame)
    requires Invariant(st, seen) && (f in st.frames || f in st.former)
    ensures Invariant(Feed(st, f), seen)
  {
    DeliverKeepsTransport(st, seen, f);
    DeliverKeepsSender(st, Floor(seen), f);
    hide TransportGood;
    hide SenderGood;
    hide Shadow;
    hide Represents;
    hide Span;
    hide Stale;
    hide QueueBytes;
    assert Next(Feed(st, f), Floor(seen)) == Next(st, Floor(seen));
  }

  lemma DeliverKeepsSender(st: State, floor: nat, f: Frame)
    requires SenderGood(st, floor)
    ensures SenderGood(Feed(st, f), floor)
  {
    hide Chunks;
    hide Flatten;
    hide Written;
    hide Reassembly.LogFrame;
    hide Stale;
    hide QueueBytes;
    var st' := Feed(st, f);
    assert st'.s == st.s && st'.log == st.log && st'.frames == st.frames && st.queued <= st'.queued;
    assert forall g :: FromLog(st', g) == FromLog(st, g);
  }

  lemma {:induction false} QueueBytesAppend(q: seq<Frame>, f: Frame)
    ensures QueueBytes(q + [f]) == QueueBytes(q) + FrameSize(f)
  {
    if q == [] {
      assert QueueBytes([f]) == FrameSize(f) + QueueBytes([f][1..]);
    } else {
      assert (q + [f])[1..] == q[1..] + [f];
      QueueBytesAppend(q[1..], f);
    }
  }

  // ----- the reader -----

  /** The window that has accepted the numbers from `floor` to `n` refuses those and admits the next. */
  lemma WindowInOrder(w: Window, floor: nat, n: nat)
    requires floor <= n && Represents(w, Span(floor, n))
    ensures forall s: nat :: floor <= s < n ==> !Admits(w, s)
    ensures Admits(w, n) && Represents(Accept(w, n), Span(floor, n + 1))
  {
    forall s: nat | floor <= s < n ensures !Admits(w, s) {
      DecidesExactly(w, Span(floor, n), s);
    }
    DecidesExactly(w, Span(floor, n), n);
    AcceptExtends(w, Span(floor, n), n);
    assert Span(floor, n) + {n} == Span(floor, n + 1);
  }

  /** The oldest queued frame is of a former epoch, or comes from the log and is a repeat or the next one. */
  lemma HeadInOrder(st: State, floor: nat)
    requires |st.log| <= MAX_SEQ && TransportGood(st, floor) && st.r.queue != [] && !Foreign(st.s.info.txKey, st.r.queue[0])
    ensures floor <= st.r.queue[0].seqNo <= Next(st, floor) && FromLog(st, st.r.queue[0])
  {
    hide Reassembly.LogFrame;
    hide Span;
    hide Foreign;
    hide Answers;
    assert st.r.queue[0] in st.r.queue;
  }

  /** A frame of a former epoch is dropped. */
  lemma ForeignIgnored(i: Info, f: Frame)
    requires Foreign(i.rxKey, f)
    ensures Open(false, i, f) == Ignored
  {
    AcceptedIsAuthentic(false, i, f);
    Reassembly.RefusedAtCap(i, f);
    hide Open;
    hide Admits;
  }

  /** The head is dropped if the session has had it, and accepted if it is the next. */
  lemma HeadOpens(st: State, seen: int)
    requires |st.log| <= MAX_SEQ && TransportGood(st, Floor(seen)) && SessionGood(st, seen) && st.r.queue != []
    ensures var f, i, n := st.r.queue[0], st.r.rx.info, Next(st, Floor(seen));
      && (Foreign(st.s.info.txKey, f) || f.seqNo < n ==> Open(false, i, f) == Ignored)
      && (!Foreign(st.s.info.txKey, f) && f.seqNo == n ==>
            && n < |st.log|
            && Open(false, i, f) == Accepted(i.(window := Accept(i.window, n)), st.log[n].plaintext))
  {
    hide TransportGood;
    hide Span;
    hide Shadow;
    var f, i, n := st.r.queue[0], st.r.rx.info, Next(st, Floor(seen));
    WindowInOrder(i.window, Floor(seen), n);
    hide Represents;
    hide Admits;
    hide Accept;
    if Foreign(st.s.info.txKey, f) {
      hide Foreign;
      ForeignIgnored(i, f);
      hide Open;
    } else {
      hide Foreign;
      HeadInOrder(st, Floor(seen));
      if f.seqNo == n {
        SealedOpens(false, st.s.info.(txSeq := n), st.log[n], i);
        hide Open;
      }
    }
  }

  /** Taking the head leaves the rest of the queue in order. */
  lemma PopKeeps(st: State, floor: nat, st': State)
    requires SenderGood(st, floor) && TransportGood(st, floor) && st.r.queue != []
    requires st' == st.(r := st'.r, next := st'.next) && st'.r.queue == st.r.queue[1..]
    requires Next(st', floor) == Next(st, floor) +
      if !Foreign(st.s.info.txKey, st.r.queue[0]) && st.r.queue[0].seqNo == Next(st, floor) then 1 else 0
    ensures SenderGood(st', floor) && TransportGood(st', floor)
  {
    hide Reassembly.LogFrame;
    hide Chunks;
    hide Flatten;
    hide Span;
    hide Written;
    hide Foreign;
    hide Answers;
    assert forall f :: f in st'.r.queue ==> f in st.r.queue;
    assert QueueBytes(st'.r.queue) <= QueueBytes(st.r.queue);
    assert High(st', floor) == High(st, floor);
    assert forall f :: FromLog(st', f) == FromLog(st, f);
  }

  lemma HeadDropped(st: State, seen: int)
    requires |st.log| <= MAX_SEQ && TransportGood(st, Floor(seen)) && SessionGood(st, seen) && st.r.queue != []
    requires Foreign(st.s.info.txKey, st.r.queue[0]) || st.r.queue[0].seqNo < Next(st, Floor(seen))
    ensures ReadOne(st) == st.(r := st.r.(queue := st.r.queue[1..]))
  {
    hide Foreign;
    HeadOpens(st, seen);
    IgnoredRead(st);
  }

  lemma IgnoredRead(st: State)
    requires st.r.queue != [] && Open(false, st.r.rx.info, st.r.queue[0]) == Ignored
    ensures ReadOne(st) == st.(r := st.r.(queue := st.r.queue[1..]))
  {
    hide Open;
    hide Interpret;
    assert st.r.got + [] == st.r.got;
  }

  /** An accepted frame is interpreted as the shadow receiver interprets its chunk. */
  lemma AcceptedLikeShadow(r: Rx, log: seq<Chunk>, floor: nat, n: nat, f: Frame, i: Info)
    requires floor <= n < |log| && log[n].ptype != REKEY && f.ptype == log[n].ptype && f.seqNo == n
    requires r == Shadow(log, floor, n).0.(info := r.info)
    requires Open(false, r.info, f) == Accepted(i, log[n].plaintext)
    ensures var (r', v) := Receive(false, r, f);
      r' == Shadow(log, floor, n + 1).0.(info := i) && Shadow(log, floor, n + 1).1 == Shadow(log, floor, n).1 + Yield(v)
  {
    hide Open;
    var (s, ms) := Shadow(log, floor, n);
    InterpretAnywhere(s, i, f.ptype, n, log[n].plaintext);
    hide Interpret;
    assert r.(info := i) == s.(info := i);
  }

  lemma TakeAccepted(r: Receiver, log: seq<Chunk>, floor: nat, n: nat, i: Info)
    requires r.queue != [] && floor <= n < |log| && log[n].ptype != REKEY
    requires r.queue[0].ptype == log[n].ptype && r.queue[0].seqNo == n
    requires r.rx == Shadow(log, floor, n).0.(info := r.rx.info) && r.got == Shadow(log, floor, n).1
    requires Open(false, r.rx.info, r.queue[0]) == Accepted(i, log[n].plaintext)
    ensures TakesHead(r)
    ensures Take(r) == Receiver(Shadow(log, floor, n + 1).0.(info := i), Confirm(r.lastRx, n), r.queue[1..],
                                Shadow(log, floor, n + 1).1)
  {
    hide Shadow;
    hide Receive;
    hide Open;
    AcceptedLikeShadow(r.rx, log, floor, n, r.queue[0], i);
  }

  /** The accepted frame takes the receiver where the shadow receiver goes. */
  lemma NextTaken(st: State, seen: int)
    requires |st.log| <= MAX_SEQ && Reassembly.NoRekey(st.log) && TransportGood(st, Floor(seen)) && SessionGood(st, seen)
    requires st.r.queue != [] && !Foreign(st.s.info.txKey, st.r.queue[0]) && st.r.queue[0].seqNo == Next(st, Floor(seen))
    ensures SessionGood(ReadOne(st), seen) && Next(ReadOne(st), Floor(seen)) == Next(st, Floor(seen)) + 1
  {
    hide TransportGood;
    hide Represents;
    hide Accept;
    hide Shadow;
    hide Take;
    hide TakesHead;
    hide Open;
    hide Span;
    hide Foreign;
    HeadOpens(st, seen);
    HeadInOrder(st, Floor(seen));
    var i, n := st.r.rx.info, Next(st, Floor(seen));
    WindowInOrder(i.window, Floor(seen), n);
    TakeAccepted(st.r, st.log, Floor(seen), n, i.(window := Accept(i.window, n)));
  }

  lemma ReadKeeps(st: State, seen: int)
    requires Invariant(st, seen) && st.r.queue != []
    ensures Invariant(ReadOne(st), seen)
  {
    if Foreign(st.s.info.txKey, st.r.queue[0]) {
      HeadDropped(st, seen);
    } else {
      HeadInOrder(st, Floor(seen));
      if st.r.queue[0].seqNo < Next(st, Floor(seen)) {
        HeadDropped(st, seen);
      } else {
        NextTaken(st, seen);
      }
    }
    hide Foreign;
    hide Take;
    hide TakesHead;
    hide SenderGood;
    hide TransportGood;
    hide Represents;
    hide Shadow;
    hide Span;
    PopKeeps(st, Floor(seen), ReadOne(st));
  }

  // ----- whole runs -----

  lemma MayStart(st: State, floor: nat, op: Op)
    requires SenderGood(st, floor) && Enabled(st, Start(op))
    ensures MaySeal(st, floor, st.s.ops + [op], op, 0)
  {
    hide Chunks;
    hide Flatten;
    var ops := st.s.ops + [op];
    assert ops[..|ops| - 1] == st.s.ops;
    assert st.log + Chunks(op)[..0] == st.log;
  }

  lemma MayProceed(st: State, floor: nat)
    requires SenderGood(st, floor) && Enabled(st, Proceed)
    ensures var j := st.s.job.value;
      if j.k + 1 < |Chunks(j.op)| then MaySeal(st, floor, st.s.ops, j.op, j.k + 1)
      else SenderGood(st.(s := st.s.(job := None)), floor)
  {
    hide Chunks;
    hide Reassembly.LogFrame;
    var j := st.s.job.value;
    FlattenLast(st.s.ops);
    hide Flatten;
    if j.k + 1 >= |Chunks(j.op)| {
      assert Chunks(j.op)[..j.k + 1] == Chunks(j.op);
    }
  }

  lemma TransmitKeeps(st: State, seen: int)
    requires Invariant(st, seen) && Enabled(st, Transmit)
    ensures Invariant(Apply(st, Transmit), seen)
  {
    hide Shadow;
    hide Represents;
    hide Reassembly.LogFrame;
    hide Chunks;
    hide Flatten;
    hide Span;
    hide Written;
    hide Ordered;
    hide Foreign;
    hide Answers;
    var st' := Apply(st, Transmit);
    assert High(st', Floor(seen)) == High(st, Floor(seen)) && Next(st', Floor(seen)) == Next(st, Floor(seen));
  }

  lemma HearAckKeeps(st: State, seen: int, u: Utack)
    requires Invariant(st, seen) && Enabled(st, HearAck(u)) && Clean(st.former, st.log, Floor(seen))
    ensures Invariant(Apply(st, HearAck(u)), seen)
  {
    hide Shadow;
    hide Represents;
    hide Reassembly.LogFrame;
    hide Chunks;
    hide Flatten;
    hide Span;
    hide Written;
    hide Ordered;
    hide Foreign;
    var st' := Apply(st, HearAck(u));
    assert High(st', Floor(seen)) == High(st, Floor(seen)) && Next(st', Floor(seen)) == Next(st, Floor(seen));
  }

  lemma JobDoneKeeps(st: State, seen: int)
    requires Invariant(st, seen) && SenderGood(st.(s := st.s.(job := None)), Floor(seen))
    ensures Invariant(st.(s := st.s.(job := None)), seen)
  {
    hide SenderGood;
    hide Shadow;
    hide Represents;
    hide Reassembly.LogFrame;
    hide Span;
    hide Ordered;
    hide Foreign;
    hide Answers;
    var st' := st.(s := st.s.(job := None));
    assert High(st', Floor(seen)) == High(st, Floor(seen)) && Next(st', Floor(seen)) == Next(st, Floor(seen));
  }

  lemma ProceedKeeps(st: State, seen: int)
    requires Invariant(st, seen) && Enabled(st, Proceed)
    ensures Invariant(Apply(st, Proceed), seen)
  {
    hide SenderGood;
    hide TransportGood;
    hide SessionGood;
    hide Chunks;
    hide MaySeal;
    hide SealChunk;
    MayProceed(st, Floor(seen));
    hide Invariant;
    var j := st.s.job.value;
    assert WithOps(st, st.s.ops) == st;
    if j.k + 1 < |Chunks(j.op)| {
      SealKeeps(st, seen, st.s.ops, j.op, j.k + 1);
    } else {
      JobDoneKeeps(st, seen);
    }
  }

  lemma StepKeeps(st: State, seen: int, step: Step)
    requires Invariant(st, seen) && Enabled(st, step) && Clean(st.former, st.log, Floor(seen))
    ensures Invariant(Apply(st, step), seen)
  {
    match step
    case Start(op) =>
      MayStart(st, Floor(seen), op);
      SealKeeps(st, seen, st.s.ops + [op], op, 0);
      hide Invariant;
    case Proceed =>
      ProceedKeeps(st, seen);
    case Deliver(f) =>
      DeliverKeeps(st, seen, f);
    case Read =>
      ReadKeeps(st, seen);
    case Transmit =>
      TransmitKeeps(st, seen);
    case HearAck(u) =>
      HearAckKeeps(st, seen, u);
  }

  lemma StepGrows(st: State, step: Step)
    requires Enabled(st, step)
    ensures st.log <= Apply(st, step).log && Apply(st, step).former == st.former
  {
    hide Chunks;
    hide Seal;
    hide Take;
    hide TakesHead;
    hide QueueBytes;
    hide Foreign;
    hide Stale;
  }

  lemma {:induction false} RunGrows(st: State, steps: seq<Step>)
    requires Legal(st, steps)
    ensures st.log <= Exec(st, steps).log && Exec(st, steps).former == st.former
    decreases |steps|
  {
    hide Apply;
    hide Enabled;
    if steps != [] {
      StepGrows(st, steps[0]);
      RunGrows(Apply(st, steps[0]), steps[1..]);
    }
  }

  lemma CleanBefore(former: set<Frame>, log: seq<Chunk>, longer: seq<Chunk>, floor: nat)
    requires log <= longer && Clean(former, longer, floor)
    ensures Clean(former, log, floor)
  {
  }

  lemma {:induction false} RunKeeps(st: State, seen: int, steps: seq<Step>)
    requires Invariant(st, seen) && Legal(st, steps) && Clean(st.former, Exec(st, steps).log, Floor(seen))
    ensures Invariant(Exec(st, steps), seen)
    decreases |steps|
  {
    hide Invariant;
    hide Apply;
    hide Enabled;
    hide Clean;
    if steps != [] {
      RunGrows(st, steps);
      CleanBefore(st.former, st.log, Exec(st, steps).log, Floor(seen));
      StepKeeps(st, seen, steps[0]);
      StepGrows(st, steps[0]);
      RunKeeps(Apply(st, steps[0]), seen, steps[1..]);
    }
  }

  /** The two ends of an epoch: the sender's key is the receiver's, all counters at zero. */
  predicate EpochStart(sender: Info, receiver: Info) {
    Reassembly.Synced(sender, receiver) && sender.txSeq == 0 && receiver.window == FRESH
  }

  lemma EpochGood(sender: Info, receiver: Info, past: Past)
    requires EpochStart(sender, receiver) && PastOf(past, sender.txKey)
    ensures Invariant(Epoch(sender, receiver, past), past.seen)
  {
    var floor := Floor(past.seen);
    FreshRepresents();
    assert Span(floor, 0) == {} && Span(floor, floor) == {};
    hide Represents;
    EpochTransport(sender, receiver, past);
    hide TransportGood;
    hide PastOf;
    hide FromLog;
  }

  lemma EpochTransport(sender: Info, receiver: Info, past: Past)
    requires PastOf(past, sender.txKey)
    ensures TransportGood(Epoch(sender, receiver, past), Floor(past.seen))
  {
    var floor := Floor(past.seen);
    assert Span(floor, 0) == {};
    hide Span;
    hide Foreign;
    hide FromLog;
    hide Answers;
    assert forall f :: f in past.backlog ==> f in past.former && Foreign(sender.txKey, f);
    OrderedForeign(sender.txKey, past.backlog, floor);
    hide Ordered;
    hide QueueBytes;
    hide Floor;
  }

  /** At the end of a run in which no frame of a former epoch collided with a new one, the invariant holds. */
  lemma RunGood(sender: Info, receiver: Info, past: Past, steps: seq<Step>)
    requires EpochStart(sender, receiver) && PastOf(past, sender.txKey) && Legal(Epoch(sender, receiver, past), steps)
    requires Clean(past.former, Exec(Epoch(sender, receiver, past), steps).log, Floor(past.seen))
    ensures Invariant(Exec(Epoch(sender, receiver, past), steps), past.seen)
  {
    hide Legal;
    hide Exec;
    hide Invariant;
    EpochGood(sender, receiver, past);
    RunKeeps(Epoch(sender, receiver, past), past.seen, steps);
  }

  /** What the invariant says of the messages: they are a prefix of what a reader gets who sees every
      frame from the floor on. */
  lemma GotIsPrefix(st: State, seen: int)
    requires Invariant(st, seen)
    ensures st.r.got <= MessagesFrom(st.s.ops, Floor(seen))
  {
    hide Represents;
    hide Interpret;
    hide Chunks;
    hide Reassembly.LogFrame;
    hide TransportGood;
    var floor, all := Floor(seen), Flatten(st.s.ops);
    LogIsPrefix(st, floor);
    ShadowDelivers(st.s.ops, floor);
    hide Flatten;
    hide SenderGood;
    var n := Next(st, floor);
    ShadowPrefix(st.log, all, floor, n);
    if n <= |all| {
      ShadowGrows(all, floor, n, |all|);
    }
    hide Shadow;
  }

  lemma LogIsPrefix(st: State, floor: nat)
    requires SenderGood(st, floor)
    ensures st.log <= Flatten(st.s.ops) && NoRekeyOps(st.s.ops)
  {
    hide Chunks;
    hide Reassembly.LogFrame;
    if st.s.job.Some? {
      FlattenLast(st.s.ops);
      hide Flatten;
    }
  }

  /** What it says of a sender at rest: every frame from the floor on has been queued, and once the queue is
      read, the messages are exactly what such a reader gets. */
  lemma RestingMeansQueued(st: State, seen: int)
    requires Invariant(st, seen) && st.s.job == None
    ensures forall i: nat :: i in st.queued <==> Floor(seen) <= i < |st.log|
    ensures st.r.queue == [] ==> st.r.got == MessagesFrom(st.s.ops, Floor(seen))
  {
    hide Represents;
    hide Interpret;
    hide Chunks;
    hide Reassembly.LogFrame;
    hide FromLog;
    var floor := Floor(seen);
    ShadowDelivers(st.s.ops, floor);
    hide Flatten;
    assert High(st, floor) == |st.log|;
    if st.r.queue == [] && |st.log| < floor {
      assert Shadow(st.log, floor, floor) == Shadow(st.log, floor, |st.log|);
    }
    hide Shadow;
  }

  /** At every reachable state of a first epoch the messages received are a prefix of the messages sent:
      each once, none altered, none out of order. */
  lemma DeliveredIsPrefix(sender: Info, receiver: Info, steps: seq<Step>)
    requires EpochStart(sender, receiver) && Legal(Epoch(sender, receiver, NO_PAST), steps)
    ensures var st := Exec(Epoch(sender, receiver, NO_PAST), steps); st.r.got <= AllMessages(st.s.ops)
  {
    hide Legal;
    hide Exec;
    hide Invariant;
    RunGood(sender, receiver, NO_PAST, steps);
    var st := Exec(Epoch(sender, receiver, NO_PAST), steps);
    GotIsPrefix(st, -1);
    FromTheStart(st.s.ops);
  }

  /** Whenever no operation is under way, so in particular when a `send` returns, every frame sealed
      so far has been queued at the receiver; once the queue is read, every message has arrived. */
  lemma ReturnedMeansQueued(sender: Info, receiver: Info, steps: seq<Step>)
    requires EpochStart(sender, receiver) && Legal(Epoch(sender, receiver, NO_PAST), steps)
    requires Exec(Epoch(sender, receiver, NO_PAST), steps).s.job == None
    ensures var st := Exec(Epoch(sender, receiver, NO_PAST), steps);
      && (forall i: nat :: i < |st.log| ==> i in st.queued)
      && (st.r.queue == [] ==> st.r.got == AllMessages(st.s.ops))
  {
    hide Legal;
    hide Exec;
    hide Invariant;
    RunGood(sender, receiver, NO_PAST, steps);
    var st := Exec(Epoch(sender, receiver, NO_PAST), steps);
    RestingMeansQueued(st, -1);
    FromTheStart(st.s.ops);
  }

  /** No run overfills the receiver's buffer.  While no frame of a former epoch has the type and number of a
      new one, the session never refuses a frame the transport queued for the first time: what it drops it
      has already had, or is of a former epoch. */
  lemma NothingLostInTheQueue(sender: Info, receiver: Info, past: Past, steps: seq<Step>)
    requires EpochStart(sender, receiver) && PastOf(past, sender.txKey) && Legal(Epoch(sender, receiver, past), steps)
    requires Clean(past.former, Exec(Epoch(sender, receiver, past), steps).log, Floor(past.seen))
    ensures var st := Exec(Epoch(sender, receiver, past), steps);
      && QueueBytes(st.r.queue) <= MAX_READ_BUFFER
      && (st.r.queue != [] ==>
            (Open(false, st.r.rx.info, st.r.queue[0]).Accepted? <==>
               !Foreign(st.s.info.txKey, st.r.queue[0]) && st.r.queue[0].seqNo == Next(st, Floor(past.seen))))
  {
    hide Legal;
    hide Exec;
    hide Foreign;
    RunGood(sender, receiver, past, steps);
    var st := Exec(Epoch(sender, receiver, past), steps);
    if st.r.queue != [] {
      if !Foreign(st.s.info.txKey, st.r.queue[0]) {
        HeadInOrder(st, Floor(past.seen));
      }
      HeadOpens(st, past.seen);
      hide Open;
    }
  }

  // ----- across a rekey -----

  /** The ends of an epoch as a rekey leaves them: new keys, all counters at zero. */
  lemma RekeyStartsEpoch(i: Info, peer: Info, salt: bytes)
    requires i.txKey == peer.rxKey && i.rxKey == peer.txKey && i.sessionId == peer.sessionId && i.suite == peer.suite
    ensures EpochStart(Rotate(i, true, salt), Rotate(peer, false, salt))
    ensures EpochStart(Rotate(peer, false, salt), Rotate(i, true, salt))
  {
    RekeyCrosses(i.txKey, i.rxKey, peer.sessionId, salt);
  }

  /** `_last_rx_seq` survives a rekey as `seen`, and the network its datagrams.  In every run of the new epoch in
      which no frame of a former epoch has the type and number of a frame sealed at or above `Floor(seen)`,
      exactly the frames from the floor on get through.  The others are acknowledged all the same, so that
      every `send` returns; of the messages sent, the receiver gets the tail of the one that lies across the
      floor and those after it, which is everything if and only if no message begins below the floor. */
  lemma RekeyLosesMessages(sender: Info, receiver: Info, past: Past, steps: seq<Step>)
    requires EpochStart(sender, receiver) && PastOf(past, sender.txKey) && Legal(Epoch(sender, receiver, past), steps)
    requires Clean(past.former, Exec(Epoch(sender, receiver, past), steps).log, Floor(past.seen))
    ensures var st, floor := Exec(Epoch(sender, receiver, past), steps), Floor(past.seen);
      && st.r.got <= MessagesFrom(st.s.ops, floor)
      && (st.s.job == None ==> forall i: nat :: i in st.queued <==> floor <= i < |st.log|)
      && (st.s.job == None && st.r.queue == [] ==>
            && st.r.got == MessagesFrom(st.s.ops, floor)
            && (st.r.got == AllMessages(st.s.ops) <==> NoneBefore(st.s.ops, floor)))
  {
    hide Legal;
    hide Exec;
    hide Invariant;
    hide NoneBefore;
    hide Floor;
    RunGood(sender, receiver, past, steps);
    var st := Exec(Epoch(sender, receiver, past), steps);
    GotIsPrefix(st, past.seen);
    WholeFrom(st.s.ops, Floor(past.seen));
    if st.s.job == None {
      RestingMeansQueued(st, past.seen);
    }
  }

  /** The transport acknowledges a frame below the floor whenever it arrives, and never queues it. */
  lemma BelowFloorAcknowledged(st: State, seen: int, f: Frame)
    requires Invariant(st, seen) && f.seqNo < Floor(seen)
    ensures Feed(st, f) == st.(acks := st.acks + {Utack(st.r.rx.info.rxKey, f.ptype, f.seqNo)})
  {
    FilterExact(seen, Next(st, Floor(seen)), f.seqNo);
    hide SenderGood;
    hide TransportGood;
    hide Represents;
    hide Shadow;
  }
}
