/** The session engine of `_session.py`: sealing, fragmentation, and one turn of the receive loop
as functions; `send` and `recv` as the loops they are.

Time, the outcome of each transport write and the frames the transport hands over are inputs.
*/
module Session {
  import opened Wire
  import opened Crypto
  import opened ReplayWindow

  /** A decoded frame as the session sees it. */
  datatype FrameRecord = Frame(ptype: PacketType, seqNo: nat, payload: Payload)
  type Frame = f: FrameRecord | f.seqNo <= MAX_SEQ && PayloadLen(f.payload) <= MAX_PAYLOAD
    witness Frame(DATA, 0, Noise([]))

  /** The mutable part of `SessionInfo`; the window holds `rx_seq` and `rx_window_bitmap`. */
  datatype InfoRecord = Info(sessionId: bytes, txKey: Key, rxKey: Key, txSeq: nat, window: Window, suite: CipherSuite)
  type Info = i: InfoRecord | |i.sessionId| == 16 && i.txSeq <= MAX_SEQ
    witness Info(seq(16, _ => 0), Installed(0), Installed(1), 0, FRESH, AES256_GCM)

  /** One frame's worth of outgoing plaintext. */
  datatype ChunkRecord = Chunk(ptype: PacketType, plaintext: bytes)
  type Chunk = c: ChunkRecord | |c.plaintext| <= MAX_DATA witness Chunk(DATA, [])

  // ----- sending -----

  /** `_send_encrypted_locked` up to the write: the sequence number is spent here, before anything
      can fail, and at the cap only a BYE is sealed. */
  function Seal(i: Info, c: Chunk): (r: Result<(Info, Frame)>)
    ensures r.Err? <==> i.txSeq == MAX_SEQ && c.ptype != BYE
  {
    if i.txSeq >= MAX_SEQ && c.ptype != BYE then Err(SequenceError)
    else
      var box := Encrypt(i.suite, i.txKey, Nonce(i.txSeq, i.sessionId), c.ptype, i.txSeq, c.plaintext);
      Ok((i.(txSeq := if i.txSeq + 1 < MAX_SEQ then i.txSeq + 1 else MAX_SEQ), Frame(c.ptype, i.txSeq, box)))
  }

  /** The key change both ends make around a REKEY frame. */
  function Rotate(i: Info, initiator: bool, salt: bytes): Info {
    var (tx, rx) := DeriveRekeyKeys(initiator, i.txKey, i.rxKey, i.sessionId, salt);
    i.(txKey := tx, rxKey := rx, txSeq := 0, window := FRESH)
  }

  /** How `send` cuts a message. */
  function Fragment(data: bytes): (chunks: seq<Chunk>)
    ensures chunks != []
    decreases |data|
  {
    if |data| <= MAX_DATA then [Chunk(DATA, data)]
    else [Chunk(DATA_FRAG, data[..MAX_DATA])] + Fragment(data[MAX_DATA..])
  }

  function Joined(chunks: seq<Chunk>): bytes {
    if chunks == [] then [] else chunks[0].plaintext + Joined(chunks[1..])
  }

  lemma {:induction false} JoinedAppend(chunks: seq<Chunk>, c: Chunk)
    ensures Joined(chunks + [c]) == Joined(chunks) + c.plaintext
  {
    if chunks == [] {
      assert Joined([c]) == c.plaintext + Joined([]);
    } else {
      assert (chunks + [c])[1..] == chunks[1..] + [c];
      JoinedAppend(chunks[1..], c);
    }
  }

  /** A message is cut into full fragments and one final DATA chunk, and the chunks joined again
      are the message. */
  lemma {:induction false} FragmentShape(data: bytes)
    ensures var cs := Fragment(data);
      && Joined(cs) == data
      && cs[|cs| - 1].ptype == DATA
      && (forall k :: 0 <= k < |cs| - 1 ==> cs[k].ptype == DATA_FRAG && |cs[k].plaintext| == MAX_DATA)
    decreases |data|
  {
    if |data| > MAX_DATA {
      var rest := data[MAX_DATA..];
      FragmentShape(rest);
      assert Fragment(data)[1..] == Fragment(rest);
      assert data == data[..MAX_DATA] + rest;
    } else {
      assert Joined([Chunk(DATA, data)]) == data + Joined([]);
    }
  }

  /** How many chunks that makes, at 452 bytes each. */
  lemma {:induction false} FragmentCount(data: bytes)
    ensures var n := |Fragment(data)|;
      452 * (n - 1) <= |data| <= 452 * n && (data != [] ==> 452 * (n - 1) < |data|)
    decreases |data|
  {
    if |data| > MAX_DATA {
      FragmentCount(data[MAX_DATA..]);
    }
  }

  /** The length `send` accepts is exactly the length that fits the receiver's fragment limit, and
      every chunk, once encrypted, fits the frame's payload bound. */
  lemma LimitsMeet(data: bytes)
    ensures MAX_MESSAGE == MAX_DATA * MAX_FRAMES
    ensures |data| <= MAX_MESSAGE <==> |Fragment(data)| <= MAX_FRAMES
    ensures forall k :: 0 <= k < |Fragment(data)| ==> |Fragment(data)[k].plaintext| + NONCE_LEN + TAG_LEN <= MAX_PAYLOAD
  {
    FragmentCount(data);
  }

  /** The operations that take the send lock. */
  datatype OpRecord = Send(data: bytes) | Ping | Pong | Bye | Rekey(salt: bytes)

  /** `send` refuses a longer message before it takes the lock; a salt is 32 random bytes. */
  type Op = o: OpRecord |
    (o.Send? ==> |o.data| <= MAX_MESSAGE) && (o.Rekey? ==> |o.salt| == 32)
    witness Ping

  /** The frames one lock hold writes, in order. */
  function Chunks(op: Op): (cs: seq<Chunk>)
    ensures cs != []
  {
    match op
    case Send(data) => Fragment(data)
    case Ping => [Chunk(PING, [])]
    case Pong => [Chunk(PONG, [])]
    case Bye => [Chunk(BYE, [])]
    case Rekey(salt) => [Chunk(REKEY, salt)]
  }

  /** The type of each chunk of an operation; only the last chunk of a message is DATA, and a message
      has at most four. */
  lemma ChunkKinds(op: Op, k: nat)
    requires k < |Chunks(op)|
    ensures Chunks(op)[k].ptype == match op
      case Send(_) => if k + 1 == |Chunks(op)| then DATA else DATA_FRAG
      case Ping => PING
      case Pong => PONG
      case Bye => BYE
      case Rekey(_) => REKEY
    ensures op.Send? ==> |Chunks(op)| <= MAX_FRAMES && Joined(Chunks(op)) == op.data
    ensures !op.Send? ==> |Chunks(op)| == 1 && Chunks(op)[0].plaintext == if op.Rekey? then op.salt else []
  {
    if op.Send? {
      SendKinds(op.data, k);
      hide Fragment;
      hide Joined;
    }
  }

  lemma SendKinds(data: bytes, k: nat)
    requires |data| <= MAX_MESSAGE && k < |Fragment(data)|
    ensures Fragment(data)[k].ptype == if k + 1 == |Fragment(data)| then DATA else DATA_FRAG
    ensures |Fragment(data)| <= MAX_FRAMES && Joined(Fragment(data)) == data
  {
    FragmentShape(data);
    LimitsMeet(data);
    hide Fragment;
    hide Joined;
  }

  /** Sealing and writing `chunks` in order, stopping at the first failure.  `writes(k)` says
      whether the write of the k-th chunk returned; a failed write has still used its frame. */
  function SealRun(i: Info, chunks: seq<Chunk>, writes: nat -> bool, k: nat): (Info, seq<Frame>, Result<()>)
    decreases |chunks|
  {
    if chunks == [] then (i, [], Ok(()))
    else match Seal(i, chunks[0])
      case Err(e) => (i, [], Err(e))
      case Ok((i', f)) =>
        if !writes(k) then (i', [f], Err(OsError))
        else
          var (last, frames, r) := SealRun(i', chunks[1..], writes, k + 1);
          (last, [f] + frames, r)
  }

  /** The chunk `send` cuts at `offset`. */
  function NextChunk(data: bytes, offset: nat): Chunk
    requires offset <= |data|
  {
    var chunk := if offset + MAX_DATA <= |data| then data[offset..offset + MAX_DATA] else data[offset..];
    Chunk(if offset + |chunk| < |data| then DATA_FRAG else DATA, chunk)
  }

  lemma NextChunkIsFirst(data: bytes, offset: nat)
    requires offset < |data| || offset == |data| == 0
    ensures var c := NextChunk(data, offset);
      && Fragment(data[offset..])[0] == c
      && Fragment(data[offset..])[1..] ==
           if offset + |c.plaintext| < |data| then Fragment(data[offset + |c.plaintext|..]) else []
  {
    var rest := data[offset..];
    if |rest| > MAX_DATA {
      assert rest[..MAX_DATA] == data[offset..offset + MAX_DATA];
      assert rest[MAX_DATA..] == data[offset + MAX_DATA..];
    }
  }

  /** `end` is what sealing `todo` from `i` arrives at once `sent` has been sent. */
  ghost predicate Continues(end: (Info, seq<Frame>, Result<()>), sent: seq<Frame>, i: Info,
                            todo: seq<Chunk>, writes: nat -> bool, k: nat) {
    var (last, frames, r) := SealRun(i, todo, writes, k);
    end == (last, sent + frames, r)
  }

  lemma ContinuesStep(end: (Info, seq<Frame>, Result<()>), sent: seq<Frame>, i: Info,
                      todo: seq<Chunk>, writes: nat -> bool, k: nat)
    requires todo != [] && Continues(end, sent, i, todo, writes, k)
    ensures match Seal(i, todo[0])
      case Err(e) => end == (i, sent, Err(e))
      case Ok((i', f)) =>
        if writes(k) then Continues(end, sent + [f], i', todo[1..], writes, k + 1)
        else end == (i', sent + [f], Err(OsError))
  {
    if Seal(i, todo[0]).Ok? {
      var (i', f) := Seal(i, todo[0]).value;
      var rest := SealRun(i', todo[1..], writes, k + 1).1;
      assert sent + ([f] + rest) == sent + [f] + rest;
    } else {
      assert sent + [] == sent;
    }
  }

  lemma ContinuesEnds(i: Info, todo: seq<Chunk>, writes: nat -> bool, k: nat, end: (Info, seq<Frame>, Result<()>), sent: seq<Frame>)
    ensures Continues(SealRun(i, todo, writes, k), [], i, todo, writes, k)
    ensures todo == [] && Continues(end, sent, i, todo, writes, k) ==> end == (i, sent, Ok(()))
  {
    var frames := SealRun(i, todo, writes, k).1;
    assert [] + frames == frames;
    assert sent + [] == sent;
  }

  // ----- receiving -----

  /** The receive loop's state: the session and the message under assembly. */
  datatype Rx = Rx(info: Info, assembled: bytes, count: nat, expected: nat)

  function Idle(i: Info): Rx {
    Rx(i, [], 0, 0)
  }

  /** What becomes of one frame.  `Violation` is a protocol error that UDP absorbs by dropping the
      partial message; `Raised` leaves the loop. */
  datatype Verdict =
    | Dropped
    | Absorbed
    | Delivered(message: bytes)
    | Control(ping: bool)
    | Rekeyed
    | Violation(error: Error)
    | Raised(error: Error)

  datatype Opened = Ignored | Refused(error: Error) | Accepted(info: Info, plaintext: bytes)

  /** Replay test, decryption, overflow test, and the sequence bookkeeping. */
  function Open(reliable: bool, i: Info, f: Frame): Opened {
    if !reliable && !Admits(i.window, f.seqNo) then Ignored
    else match Decrypt(i.suite, i.rxKey, Nonce(f.seqNo, i.sessionId), f.ptype, f.seqNo, f.payload)
      case Err(e) => if reliable then Refused(e) else Ignored
      case Ok(plaintext) =>
        if f.seqNo >= MAX_SEQ then Refused(SequenceError)
        else if !reliable then Accepted(i.(window := Accept(i.window, f.seqNo)), plaintext)
        else if f.seqNo != i.window.rxSeq then Refused(SequenceError)
        else Accepted(i.(window := i.window.(rxSeq := f.seqNo + 1)), plaintext)
  }

  function Violate(reliable: bool, i: Info, e: Error): (Rx, Verdict) {
    (Idle(i), if reliable then Raised(e) else Violation(e))
  }

  /** What the loop does with an authenticated frame. */
  function Interpret(reliable: bool, r: Rx, t: PacketType, seqNo: nat, plaintext: bytes): (Rx, Verdict) {
    match t
    case BYE => (Idle(r.info), Raised(ConnectionClosed))
    case PING | PONG =>
      if |r.assembled| > 0 then Violate(reliable, r.info, SequenceError)
      else (r, Control(t == PING))
    case REKEY =>
      if |r.assembled| > 0 then Violate(reliable, r.info, SequenceError)
      else if |plaintext| != 32 then Violate(reliable, r.info, PayloadError)
      else (r.(info := Rotate(r.info, false, plaintext)), Rekeyed)
    case DATA | DATA_FRAG =>
      if r.count > 0 && seqNo != r.expected then Violate(reliable, r.info, SequenceError)
      else
        var whole := r.assembled + plaintext;
        if t == DATA then (Idle(r.info), Delivered(whole))
        else if r.count + 1 >= MAX_FRAMES then Violate(reliable, r.info, PayloadError)
        else (Rx(r.info, whole, r.count + 1, if r.count > 0 then r.expected + 1 else seqNo + 1), Absorbed)
    case _ => Violate(reliable, r.info, ValueError)
  }

  /** One turn of the receive loop. */
  function Receive(reliable: bool, r: Rx, f: Frame): (Rx, Verdict) {
    match Open(reliable, r.info, f)
    case Ignored => (r, Dropped)
    case Refused(e) => (Idle(r.info), Raised(e))
    case Accepted(info, plaintext) => Interpret(reliable, r.(info := info), f.ptype, f.seqNo, plaintext)
  }

  /** A frame sealed by the peer at the number the receiver is ready for opens to its plaintext. */
  lemma SealedOpens(reliable: bool, sender: Info, c: Chunk, receiver: Info)
    requires sender.txSeq < MAX_SEQ
    requires sender.txKey == receiver.rxKey && sender.suite == receiver.suite
    requires sender.sessionId == receiver.sessionId
    requires if reliable then receiver.window.rxSeq == sender.txSeq else Admits(receiver.window, sender.txSeq)
    ensures var f := Seal(sender, c).value.1;
      Open(reliable, receiver, f) == Accepted(
        receiver.(window := if reliable then receiver.window.(rxSeq := sender.txSeq + 1)
                            else Accept(receiver.window, sender.txSeq)), c.plaintext)
  {
    var n := Nonce(sender.txSeq, sender.sessionId);
    OpensExactly(sender.suite, sender.txKey, n, c.ptype, sender.txSeq, c.plaintext,
                 receiver.suite, receiver.rxKey, n, c.ptype, sender.txSeq);
  }

  /** A frame sealed under any other key is refused on TCP and ignored on UDP. */
  lemma WrongKeyRefused(reliable: bool, sender: Info, c: Chunk, receiver: Info)
    requires Seal(sender, c).Ok? && sender.txKey != receiver.rxKey
    ensures var f := Seal(sender, c).value.1;
      Open(reliable, receiver, f) == if reliable then Refused(CryptoError) else Ignored
  {
    var s := sender.txSeq;
    OpensExactly(sender.suite, sender.txKey, Nonce(s, sender.sessionId), c.ptype, s, c.plaintext,
                 receiver.suite, receiver.rxKey, Nonce(s, receiver.sessionId), c.ptype, s);
  }

  /** The payload the holder of the sending key seals for this type, number and plaintext. */
  predicate Genuine(i: Info, f: Frame) {
    && f.payload.Sealed?
    && f.payload == Sealed(i.suite, i.rxKey, Nonce(f.seqNo, i.sessionId),
                           BuildAad(TypeByte(f.ptype), f.seqNo, 28 + |f.payload.plaintext|), f.payload.plaintext)
  }

  /** Either transport accepts a frame if and only if it is genuine, its number is not the last, and
      it is the very next on TCP or admissible on UDP; what comes out is the plaintext sealed in it. */
  lemma AcceptedIsAuthentic(reliable: bool, i: Info, f: Frame)
    ensures Open(reliable, i, f).Accepted? <==>
      && Genuine(i, f) && f.seqNo < MAX_SEQ
      && (if reliable then f.seqNo == i.window.rxSeq else Admits(i.window, f.seqNo))
    ensures Open(reliable, i, f).Accepted? ==> Open(reliable, i, f).plaintext == f.payload.plaintext
  {
    hide BuildAad;
    hide Admits;
    hide Accept;
    hide TypeByte;
  }

  // ----- the receive loop -----

  /** The control-frame budget of one `recv` call. */
  datatype Budget = Budget(start: real, count: nat)

  const BUDGET_SPAN := 1.0
  const BUDGET_LIMIT := 8

  function Spend(b: Budget, now: real): Budget {
    if now - b.start > BUDGET_SPAN then Budget(now, 1) else b.(count := b.count + 1)
  }

  /** What the transport hands to one turn: a frame or a parse error, the clock, and whether the
      PONG this turn may have to write gets through. */
  datatype Arrival = Arrival(frame: Result<Frame>, now: real, pongWritten: bool)

  /** Where a `recv` call stands: still reading, or ended with a message or an error. */
  datatype Outcome = Reading | Got(message: bytes) | Error(error: Error)

  /** The state a `recv` call works on, with the frames it has itself written. */
  datatype Loop = Loop(rx: Rx, budget: Budget, written: seq<Frame>, outcome: Outcome)

  /** The failures to read a frame that `recv` catches: protocol errors, but not a dead stream. */
  predicate Caught(e: Error) {
    e != OsError && e != ValueError
  }

  /** One turn, complete with PONG and budget. */
  function Turn(reliable: bool, l: Loop, a: Arrival): Loop {
    match a.frame
    case Err(e) => if reliable || !Caught(e) then l.(rx := Idle(l.rx.info), outcome := Error(e)) else l
    case Ok(f) =>
      var (rx, verdict) := Receive(reliable, l.rx, f);
      match verdict
      case Delivered(m) => l.(rx := rx, outcome := Got(m))
      case Raised(e) => l.(rx := rx, outcome := Error(e))
      case Control(ping) => Respond(reliable, l.(rx := rx), ping, a)
      case _ => l.(rx := rx)
  }

  /** A PONG if it was a PING, and the charge to the budget. */
  function Respond(reliable: bool, l: Loop, ping: bool, a: Arrival): Loop {
    if !ping then Count(l, a.now)
    else
      var (info, frames, r) := SealRun(l.rx.info, [Chunk(PONG, [])], _ => a.pongWritten, 0);
      var l' := l.(rx := l.rx.(info := info), written := l.written + frames);
      match r
      case Ok(_) => Count(l', a.now)
      case Err(SequenceError) =>
        if reliable then l'.(rx := Idle(info), outcome := Error(SequenceError)) else l'.(rx := Idle(info))
      case Err(e) => l'.(rx := Idle(info), outcome := Error(e))
  }

  function Count(l: Loop, now: real): Loop {
    var b := Spend(l.budget, now);
    if b.count > BUDGET_LIMIT then l.(rx := Idle(l.rx.info), budget := b, outcome := Error(ConnectionClosed))
    else l.(budget := b)
  }

  /** What a turn writes does not depend on what was written before. */
  lemma TurnAppends(reliable: bool, l: Loop, a: Arrival)
    ensures var t := Turn(reliable, l.(written := []), a);
      Turn(reliable, l, a) == t.(written := l.written + t.written)
  {
    hide Receive;
    hide Respond;
    assert l.written + [] == l.written;
    if a.frame.Ok? {
      var (rx, v) := Receive(reliable, l.rx, a.frame.value);
      if v.Control? {
        RespondAppends(reliable, l.(rx := rx), v.ping, a);
      }
    }
  }

  lemma RespondAppends(reliable: bool, l: Loop, ping: bool, a: Arrival)
    ensures var t := Respond(reliable, l.(written := []), ping, a);
      Respond(reliable, l, ping, a) == t.(written := l.written + t.written)
  {
    hide SealRun;
    var frames := SealRun(l.rx.info, [Chunk(PONG, [])], _ => a.pongWritten, 0).1;
    assert [] + frames == frames && l.written + [] == l.written;
  }

  /** The whole call on the arrivals so far. */
  function RecvRun(reliable: bool, l: Loop, arrivals: seq<Arrival>): (Loop, nat)
    decreases |arrivals|
  {
    if l.outcome != Reading || arrivals == [] then (l, 0)
    else
      var (last, n) := RecvRun(reliable, Turn(reliable, l, arrivals[0]), arrivals[1..]);
      (last, n + 1)
  }

  lemma RunTurn(reliable: bool, l: Loop, turn: Loop, arrivals: seq<Arrival>, used: nat)
    requires l.outcome == Reading && used < |arrivals|
    requires turn == Turn(reliable, l.(written := []), arrivals[used])
    ensures var (last, n) := RecvRun(reliable, turn.(written := l.written + turn.written), arrivals[used + 1..]);
      RecvRun(reliable, l, arrivals[used..]) == (last, n + 1)
  {
    TurnAppends(reliable, l, arrivals[used]);
    assert arrivals[used..][1..] == arrivals[used + 1..];
  }

  lemma RunEnds(reliable: bool, l: Loop, arrivals: seq<Arrival>)
    requires l.outcome != Reading || arrivals == []
    ensures RecvRun(reliable, l, arrivals) == (l, 0)
  {
  }

  /** What a turn makes the session tell a UDP transport: the number of an accepted frame. */
  function Confirmed(reliable: bool, i: Info, a: Arrival, lastRx: int): int {
    if !reliable && a.frame.Ok? && Open(reliable, i, a.frame.value).Accepted? then Confirm(lastRx, a.frame.value.seqNo)
    else lastRx
  }

  /** The same over a whole call. */
  function ConfirmedRun(reliable: bool, l: Loop, arrivals: seq<Arrival>, lastRx: int): int
    decreases |arrivals|
  {
    if l.outcome != Reading || arrivals == [] then lastRx
    else ConfirmedRun(reliable, Turn(reliable, l, arrivals[0]), arrivals[1..], Confirmed(reliable, l.rx.info, arrivals[0], lastRx))
  }

  /** The turn reads a REKEY and changes the keys. */
  predicate Rotates(reliable: bool, r: Rx, a: Arrival) {
    a.frame.Ok? && Receive(reliable, r, a.frame.value).1 == Rekeyed
  }

  function Keys(i: Info): (Key, Key) {
    (i.txKey, i.rxKey)
  }

  /** Only such a turn changes the keys. */
  lemma KeysStay(reliable: bool, l: Loop, a: Arrival)
    requires !Rotates(reliable, l.rx, a)
    ensures Keys(Turn(reliable, l, a).rx.info) == Keys(l.rx.info)
  {
    if a.frame.Ok? {
      ReceiveKeepsKeys(reliable, l.rx, a.frame.value);
    }
    hide Receive;
  }

  lemma ReceiveKeepsKeys(reliable: bool, r: Rx, f: Frame)
    requires Receive(reliable, r, f).1 != Rekeyed
    ensures Keys(Receive(reliable, r, f).0.info) == Keys(r.info)
  {
    if Open(reliable, r.info, f).Accepted? {
      OpenKeepsKeys(reliable, r.info, f);
    }
    hide Open;
  }

  lemma OpenKeepsKeys(reliable: bool, i: Info, f: Frame)
    requires Open(reliable, i, f).Accepted?
    ensures Keys(Open(reliable, i, f).info) == Keys(i)
  {
    hide Decrypt;
    hide Admits;
    hide Accept;
  }

  lemma {:induction false} SealRunKeepsKeys(i: Info, chunks: seq<Chunk>, writes: nat -> bool, k: nat)
    ensures Keys(SealRun(i, chunks, writes, k).0) == Keys(i)
    decreases |chunks|
  {
    if chunks != [] && Seal(i, chunks[0]).Ok? {
      SealRunKeepsKeys(Seal(i, chunks[0]).value.0, chunks[1..], writes, k + 1);
    }
  }

  lemma ConfirmedTurn(reliable: bool, l: Loop, turn: Loop, arrivals: seq<Arrival>, used: nat, lastRx: int)
    requires l.outcome == Reading && used < |arrivals|
    requires turn == Turn(reliable, l.(written := []), arrivals[used])
    ensures ConfirmedRun(reliable, l, arrivals[used..], lastRx)
         == ConfirmedRun(reliable, turn.(written := l.written + turn.written), arrivals[used + 1..],
                         Confirmed(reliable, l.rx.info, arrivals[used], lastRx))
  {
    TurnAppends(reliable, l, arrivals[used]);
    hide Turn;
    hide Confirmed;
    assert arrivals[used..][1..] == arrivals[used + 1..];
  }

  lemma ConfirmedEnds(reliable: bool, l: Loop, arrivals: seq<Arrival>, lastRx: int)
    requires l.outcome != Reading || arrivals == []
    ensures ConfirmedRun(reliable, l, arrivals, lastRx) == lastRx
  {
  }

  /** A session object.  `wire` is what it has handed to its transport, oldest first; the other three
      fields are what it has told the transport: the keys to use, the highest authentic number, and
      that it is over. */
  class USMPSession {
    const reliable: bool
    var info: Info
    var closed: bool
    var wire: seq<Frame>
    var transportKeys: (Key, Key)
    var lastRx: int
    var transportClosed: bool

    /** The transport works with the session's own keys. */
    predicate InStepWithTransport()
      reads this
    {
      transportKeys == Keys(info)
    }

    /** The handshake has installed the keys in the transport. */
    constructor (reliable: bool, info: Info)
      ensures this.reliable == reliable && this.info == info && !closed && wire == []
      ensures InStepWithTransport() && lastRx == -1 && !transportClosed
    {
      this.reliable := reliable;
      this.info := info;
      closed := false;
      wire := [];
      transportKeys := Keys(info);
      lastRx := -1;
      transportClosed := false;
    }

    /** The number is gone whether or not the write succeeds. */
    method SendEncryptedLocked(c: Chunk, written: bool) returns (r: Result<()>)
      modifies this`info, this`wire
      ensures match Seal(old(info), c)
        case Err(e) => r == Err(e) && info == old(info) && wire == old(wire)
        case Ok((i, f)) => info == i && wire == old(wire) + [f] && r == if written then Ok(()) else Err(OsError)
    {
      match Seal(info, c)
      case Err(e) =>
        r := Err(e);
      case Ok((i, f)) =>
        info := i;
        wire := wire + [f];
        r := if written then Ok(()) else Err(OsError);
    }

    method Send(data: bytes, writes: nat -> bool) returns (r: Result<()>)
      modifies this`info, this`wire
      ensures |data| > MAX_MESSAGE ==> r == Err(PayloadError) && info == old(info) && wire == old(wire)
      ensures |data| <= MAX_MESSAGE ==>
        var (i, frames, e) := SealRun(old(info), Fragment(data), writes, 0);
        info == i && wire == old(wire) + frames && r == e
      ensures Keys(info) == old(Keys(info))
    {
      if |data| > MAX_MESSAGE {
        return Err(PayloadError);
      }
      hide Fragment;
      hide SealRun;
      hide Continues;
      hide Seal;
      var offset, k := 0, 0;
      ghost var todo, sent: seq<Frame> := Fragment(data), [];
      assert data[0..] == data;
      ghost var end := SealRun(info, todo, writes, 0);
      SealRunKeepsKeys(info, todo, writes, 0);
      ContinuesEnds(info, todo, writes, 0, end, sent);
      while offset < |data| || |data| == 0
        invariant 0 <= offset <= |data| && (offset == |data| > 0 <==> todo == [])
        invariant todo != [] ==> todo == Fragment(data[offset..])
        invariant wire == old(wire) + sent
        invariant Continues(end, sent, info, todo, writes, k)
        decreases |todo|
      {
        var chunk := NextChunk(data, offset);
        NextChunkIsFirst(data, offset);
        ContinuesStep(end, sent, info, todo, writes, k);
        r := SendEncryptedLocked(chunk, writes(k));
        if r.Err? {
          return;
        }
        sent := sent + [wire[|wire| - 1]];
        offset := offset + |chunk.plaintext|;
        todo, k := todo[1..], k + 1;
        if |data| == 0 {
          break;
        }
      }
      ContinuesEnds(info, todo, writes, k, end, sent);
      r := Ok(());
    }

    method Ping(written: bool) returns (r: Result<()>)
      modifies this`info, this`wire
      ensures var (i, frames, e) := SealRun(old(info), Chunks(Op.Ping), _ => written, 0);
        info == i && wire == old(wire) + frames && r == e
    {
      r := SendEncryptedLocked(Chunk(PING, []), written);
    }

    method RotateKeys(initiator: bool, salt: bytes)
      modifies this`info, this`transportKeys
      ensures info == Rotate(old(info), initiator, salt) && InStepWithTransport()
    {
      var (tx, rx) := DeriveRekeyKeys(initiator, info.txKey, info.rxKey, info.sessionId, salt);
      info := info.(txKey := tx, rxKey := rx, txSeq := 0, window := FRESH);
      transportKeys := (tx, rx);
    }

    /** Keys change, here and in the transport, only if the REKEY frame was written. */
    method Rekey(salt: bytes, written: bool) returns (r: Result<()>)
      requires |salt| == 32
      modifies this`info, this`wire, this`transportKeys
      ensures transportKeys == if r.Ok? then Keys(info) else old(transportKeys)
      ensures var (i, frames, e) := SealRun(old(info), Chunks(Op.Rekey(salt)), _ => written, 0);
        && wire == old(wire) + frames && r == e
        && info == if e.Ok? then Rotate(i, true, salt) else i
    {
      r := SendEncryptedLocked(Chunk(REKEY, salt), written);
      if r.Ok? {
        RotateKeys(true, salt);
      }
    }

    /** Idempotent, never fails, and closes the transport whether or not the BYE was written. */
    method Bye(written: bool)
      modifies this`info, this`wire, this`closed, this`transportClosed
      ensures closed
      ensures old(closed) ==> info == old(info) && wire == old(wire) && transportClosed == old(transportClosed)
      ensures !old(closed) ==> transportClosed
      ensures !old(closed) ==> var (i, frames, _) := SealRun(old(info), Chunks(Op.Bye), _ => written, 0);
        info == i && wire == old(wire) + frames
    {
      if closed {
        return;
      }
      closed := true;
      var _ := SendEncryptedLocked(Chunk(BYE, []), written);
      transportClosed := true;
    }

    /** What the transport is told of an arriving frame: its number if it is accepted over UDP, and the
        new keys if it is a REKEY. */
    method InformTransport(rx: Rx, f: Frame)
      modifies this`transportKeys, this`lastRx
      ensures lastRx == if !reliable && Open(reliable, rx.info, f).Accepted? then Confirm(old(lastRx), f.seqNo) else old(lastRx)
      ensures var (rx', v) := Receive(reliable, rx, f);
        transportKeys == if v == Rekeyed then Keys(rx'.info) else old(transportKeys)
    {
      hide Interpret;
      if !reliable && Open(reliable, rx.info, f).Accepted? && f.seqNo > lastRx {
        lastRx := f.seqNo;
      }
      var (rx', v) := Receive(reliable, rx, f);
      if v == Rekeyed {
        transportKeys := Keys(rx'.info);
      }
    }

    method RespondTo(l: Loop, ping: bool, a: Arrival) returns (l': Loop)
      requires l.rx.info == info && l.written == []
      modifies this`info, this`wire
      ensures l' == Respond(reliable, l, ping, a) && info == l'.rx.info && wire == old(wire) + l'.written
    {
      l' := l;
      if ping {
        var before := |wire|;
        var r := SendEncryptedLocked(Chunk(PONG, []), a.pongWritten);
        l' := l.(rx := l.rx.(info := info), written := wire[before..]);
        if r.Err? {
          l' := l'.(rx := Idle(info));
          if reliable || r.error != SequenceError {
            l' := l'.(outcome := Error(r.error));
          }
          return;
        }
      }
      l' := l'.(budget := Spend(l'.budget, a.now));
      if l'.budget.count > BUDGET_LIMIT {
        l' := l'.(rx := Idle(info), outcome := Error(ConnectionClosed));
      }
    }

    /** One turn of the receive loop, on its local variables `rx` and `budget`. */
    method ReceiveTurn(rx: Rx, budget: Budget, a: Arrival) returns (l: Loop)
      requires rx.info == info
      modifies this`info, this`wire, this`transportKeys, this`lastRx
      ensures l == Turn(reliable, Loop(rx, budget, [], Reading), a)
      ensures info == l.rx.info && wire == old(wire) + l.written
      ensures lastRx == Confirmed(reliable, rx.info, a, old(lastRx))
      ensures transportKeys == if Rotates(reliable, rx, a) then Keys(info) else old(transportKeys)
    {
      hide Receive;
      hide Open;
      hide Respond;
      l := Loop(rx, budget, [], Reading);
      match a.frame {
        case Err(e) =>
          if reliable || !Caught(e) {
            l := l.(rx := Idle(info), outcome := Error(e));
          }
        case Ok(f) =>
          InformTransport(rx, f);
          var (rx', verdict) := Receive(reliable, rx, f);
          l, info := l.(rx := rx'), rx'.info;
          match verdict {
            case Delivered(m) =>
              l := l.(outcome := Got(m));
            case Raised(e) =>
              l := l.(outcome := Error(e));
            case Control(ping) =>
              l := RespondTo(l, ping, a);
            case _ =>
          }
      }
    }

    /** The receive loop on the arrivals so far; `used` of them are consumed.  The transport keeps the
        session's keys through every REKEY. */
    method Recv(arrivals: seq<Arrival>, start: real) returns (outcome: Outcome, used: nat)
      modifies this`info, this`wire, this`transportKeys, this`lastRx
      ensures used <= |arrivals|
      ensures var first := Loop(Idle(old(info)), Budget(start, 0), [], Reading);
        var (l, n) := RecvRun(reliable, first, arrivals);
        && info == l.rx.info && wire == old(wire) + l.written && outcome == l.outcome && used == n
        && lastRx == ConfirmedRun(reliable, first, arrivals, old(lastRx))
      ensures old(InStepWithTransport()) ==> InStepWithTransport()
    {
      hide Turn;
      hide RecvRun;
      hide ConfirmedRun;
      hide Confirmed;
      hide Rotates;
      var rx, budget := Idle(info), Budget(start, 0);
      used, outcome := 0, Reading;
      ghost var l := Loop(rx, budget, [], Reading);
      ghost var end := RecvRun(reliable, l, arrivals);
      ghost var confirmed := ConfirmedRun(reliable, l, arrivals, lastRx);
      assert arrivals[0..] == arrivals;
      while used < |arrivals| && outcome == Reading
        invariant used <= |arrivals| && rx.info == info
        invariant l.rx == rx && l.budget == budget && l.outcome == outcome && wire == old(wire) + l.written
        invariant RecvRun(reliable, l, arrivals[used..]) == (end.0, end.1 - used)
        invariant ConfirmedRun(reliable, l, arrivals[used..], lastRx) == confirmed
        invariant old(InStepWithTransport()) ==> InStepWithTransport()
        decreases |arrivals| - used
      {
        if !Rotates(reliable, rx, arrivals[used]) {
          KeysStay(reliable, Loop(rx, budget, [], Reading), arrivals[used]);
        }
        ConfirmedTurn(reliable, l, Turn(reliable, l.(written := []), arrivals[used]), arrivals, used, lastRx);
        var turn := ReceiveTurn(rx, budget, arrivals[used]);
        assert old(wire) + l.written + turn.written == old(wire) + (l.written + turn.written);
        RunTurn(reliable, l, turn, arrivals, used);
        l := turn.(written := l.written + turn.written);
        rx, budget, outcome, used := turn.rx, turn.budget, turn.outcome, used + 1;
      }
      RunEnds(reliable, l, arrivals[used..]);
      ConfirmedEnds(reliable, l, arrivals[used..], lastRx);
    }
  }
}
