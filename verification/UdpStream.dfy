/** `UDPStream`: acknowledgements, the bounded read buffer, and stop-and-wait sending.

Datagrams handed to the socket are appended to `outbox`.  The truncated HMAC of acknowledgements
is a parameter, and so is the outcome of each wait.
*/
module UdpStream {
  import opened Wire
  import opened Crypto
  import opened FrameCodec
  import opened Reals
  import opened RetransmissionTimer
  import opened UdpLimits
  import ReplayWindow

  const UTACK_HEADER_LEN := 7
  const UTACK_MAC_LEN := 8

  type Hmac = (Key, bytes) -> bytes

  ghost predicate Truncated(mac: Hmac) {
    forall k: Key, m: bytes :: |mac(k, m)| == UTACK_MAC_LEN
  }

  // ----- acknowledgements -----

  function UtackHeader(typeByte: byte, seqNo: nat): (h: bytes)
    requires seqNo <= MAX_SEQ
    ensures |h| == UTACK_HEADER_LEN
  {
    [0xAC, 0xAC, typeByte] + Pack32(seqNo)
  }

  function BuildUtack(mac: Hmac, rxKey: Option<Key>, typeByte: byte, seqNo: nat): bytes
    requires seqNo <= MAX_SEQ
  {
    var h := UtackHeader(typeByte, seqNo);
    if typeByte >= 5 && rxKey.Some? then h + mac(rxKey.value, h) else h
  }

  predicate IsUtack(data: bytes) {
    |data| >= UTACK_HEADER_LEN && data[..2] == [0xAC, 0xAC]
  }

  /** A session acknowledgement must carry the MAC of its header under our sending key. */
  predicate Authentic(mac: Hmac, txKey: Option<Key>, data: bytes)
    requires IsUtack(data)
  {
    data[2] >= 5 ==>
      && txKey.Some? && |data| >= UTACK_HEADER_LEN + UTACK_MAC_LEN
      && mac(txKey.value, data[..UTACK_HEADER_LEN]) == data[UTACK_HEADER_LEN..UTACK_HEADER_LEN + UTACK_MAC_LEN]
  }

  /** The acknowledgement that releases a sender waiting on the given type and number. */
  predicate Releases(mac: Hmac, txKey: Option<Key>, pendingType: Option<byte>, pendingSeq: Option<nat>, data: bytes) {
    && IsUtack(data) && Authentic(mac, txKey, data)
    && pendingSeq == Some(Unpack32(data[3..7])) && pendingType == Some(data[2])
  }

  /** What the peer's receiver builds for a frame releases the sender of that frame and of no other,
      provided it signs with the key the sender sends under. */
  lemma UtackReleasesItsFrame(mac: Hmac, key: Key, t: byte, s: nat, pendingType: byte, pendingSeq: nat)
    requires Truncated(mac) && s <= MAX_SEQ
    ensures Releases(mac, Some(key), Some(pendingType), Some(pendingSeq), BuildUtack(mac, Some(key), t, s))
       <==> t == pendingType && s == pendingSeq
  {
    var u := BuildUtack(mac, Some(key), t, s);
    var h := UtackHeader(t, s);
    assert u[..UTACK_HEADER_LEN] == h;
    assert u[..2] == [0xAC, 0xAC];
    assert u[3..7] == h[3..7] == Pack32(s);
    Unpack32Pack32(s);
    if t >= 5 {
      assert u[UTACK_HEADER_LEN..UTACK_HEADER_LEN + UTACK_MAC_LEN] == mac(key, h);
    }
  }

  /** The acknowledgement byte by byte: marker, type, number with the low byte first, and for a session frame,
      once there is a key, its MAC. */
  lemma UtackBytes(mac: Hmac, rxKey: Option<Key>, t: byte, s: nat)
    requires Truncated(mac) && s < 0x1_0000_0000
    ensures var u := BuildUtack(mac, rxKey, t, s);
      && u[0] == 0xAC && u[1] == 0xAC && u[2] == t
      && u[3] == s % 256 && u[4] == s / 256 % 256 && u[5] == s / 65536 % 256 && u[6] == s / 16777216
      && u[7..] == if t >= 5 && rxKey.Some? then mac(rxKey.value, u[..7]) else []
  {
    Pack32Bytes(s);
    var u, h := BuildUtack(mac, rxKey, t, s), UtackHeader(t, s);
    assert u[..7] == h;
  }

  /** A datagram releases a waiting sender if and only if it begins with the very acknowledgement a peer who signs
      with the sender's key builds for the pending frame; a session frame needs the key. */
  lemma ReleasesExactly(mac: Hmac, txKey: Option<Key>, t: byte, s: nat, data: bytes)
    requires Truncated(mac) && s <= MAX_SEQ
    ensures Releases(mac, txKey, Some(t), Some(s), data) <==>
      && (t >= 5 ==> txKey.Some?)
      && BuildUtack(mac, if t >= 5 then txKey else None, t, s) <= data
  {
    if Releases(mac, txKey, Some(t), Some(s), data) {
      ReleasingBegins(mac, txKey, t, s, data);
    }
    if (t >= 5 ==> txKey.Some?) && BuildUtack(mac, if t >= 5 then txKey else None, t, s) <= data {
      BeginningReleases(mac, txKey, t, s, data);
    }
  }

  lemma ReleasingBegins(mac: Hmac, txKey: Option<Key>, t: byte, s: nat, data: bytes)
    requires Truncated(mac) && s <= MAX_SEQ && Releases(mac, txKey, Some(t), Some(s), data)
    ensures (t >= 5 ==> txKey.Some?) && BuildUtack(mac, if t >= 5 then txKey else None, t, s) <= data
  {
    assert data[3..7] == Pack32(s);
    assert data[..7] == data[..2] + [data[2]] + data[3..7] == UtackHeader(t, s);
    if t >= 5 {
      assert data[..15] == data[..7] + data[7..15];
    }
  }

  lemma BeginningReleases(mac: Hmac, txKey: Option<Key>, t: byte, s: nat, data: bytes)
    requires Truncated(mac) && s <= MAX_SEQ && (t >= 5 ==> txKey.Some?)
    requires BuildUtack(mac, if t >= 5 then txKey else None, t, s) <= data
    ensures Releases(mac, txKey, Some(t), Some(s), data)
  {
    var h, u := UtackHeader(t, s), BuildUtack(mac, if t >= 5 then txKey else None, t, s);
    assert data[..|u|] == u && u[..7] == h;
    assert data[..7] == u[..7];
    assert data[..2] == data[..7][..2] && h[..2] == [0xAC, 0xAC];
    assert data[3..7] == data[..7][3..7] && h[3..7] == Pack32(s);
    Unpack32Pack32(s);
    if t >= 5 {
      assert data[7..15] == u[7..15] && u[7..15] == mac(txKey.value, h);
    }
  }

  /** A session acknowledgement built under another key releases nobody, as long as the MAC of its header
      tells the two keys apart. */
  lemma OtherKeyNeverReleases(mac: Hmac, key: Key, other: Key, t: byte, s: nat, pendingType: byte, pendingSeq: nat)
    requires Truncated(mac) && s <= MAX_SEQ && t >= 5 && mac(key, UtackHeader(t, s)) != mac(other, UtackHeader(t, s))
    ensures !Releases(mac, Some(key), Some(pendingType), Some(pendingSeq), BuildUtack(mac, Some(other), t, s))
  {
    var u := BuildUtack(mac, Some(other), t, s);
    var h := UtackHeader(t, s);
    assert u[..UTACK_HEADER_LEN] == h && u[2] == t;
    assert u[UTACK_HEADER_LEN..UTACK_HEADER_LEN + UTACK_MAC_LEN] == mac(other, h);
  }

  // ----- incoming frames -----

  predicate HandshakeType(t: byte) {
    t < 5 || t == 0x0A
  }

  predicate RepeatsHandshake(isServer: bool, lastType: int, t: byte) {
    || t == lastType
    || (t == 0x0A && lastType != -1)
    || (t == 2 && lastType == 4)
    || (isServer && lastType != -1 && t <= lastType)
  }

  /** A well-formed frame the transport has seen before or considers too old: acknowledged again,
      not queued. */
  predicate Repeated(isServer: bool, lastType: int, lastSeq: int, data: bytes)
    requires WholeFrame(data)
  {
    if HandshakeType(data[3]) then RepeatsHandshake(isServer, lastType, data[3])
    else ReplayWindow.Stale(lastSeq, Unpack32(data[4..8]))
  }

  /** The orders in which the types of handshake frames may be taken for new.  On a server they increase, and a
      HELLO_RETRY (10) is taken only first; on a client none is repeated at once, a HELLO_RETRY is taken only
      first, and no CHALLENGE (2) right after SESSION_OK (4). */
  predicate Lawful(isServer: bool, types: seq<byte>) {
    && (forall k :: 0 < k < |types| ==> types[k] != 10)
    && (if isServer then forall j, k :: 0 <= j < k < |types| ==> types[j] < types[k]
        else forall k :: 0 < k < |types| ==> types[k - 1] != types[k] && !(types[k - 1] == 4 && types[k] == 2))
  }

  function LastOf(types: seq<byte>): int {
    if types == [] then -1 else types[|types| - 1] as int
  }

  /** The transport's test on the last type decides exactly whether the order stays lawful. */
  lemma RepeatsExactly(isServer: bool, types: seq<byte>, t: byte)
    requires Lawful(isServer, types) && (t < 5 || t == 10) && forall k :: 0 <= k < |types| ==> types[k] < 5 || types[k] == 10
    ensures RepeatsHandshake(isServer, LastOf(types), t) <==> !Lawful(isServer, types + [t])
  {
    var more := types + [t];
    assert forall k :: 0 <= k < |types| ==> more[k] == types[k];
    if types != [] {
      var last := |types| - 1;
      assert more[last] == types[last] && more[last + 1] == t;
      if t == types[last] || t == 10 || (types[last] == 4 && t == 2) || (isServer && t <= types[last]) {
        assert !Lawful(isServer, more);
      }
    }
  }

  function Copies(data: bytes, n: nat): seq<bytes> {
    seq(n, _ => data)
  }

  /** A handshake frame once taken for new, even one that found no room, is never new again on a server, and on a
      client not before a frame of another type: its repeats are acknowledged and discarded. */
  lemma TakenIsNeverNew(isServer: bool, types: seq<byte>, t: byte, more: seq<byte>)
    ensures !Lawful(isServer, types + [t] + [t])
    ensures !Lawful(true, types + [t] + more + [t])
  {
    var twice, again := types + [t] + [t], types + [t] + more + [t];
    assert twice[|types|] == t && twice[|types| + 1] == t;
    assert again[|types|] == t && again[|types| + 1 + |more|] == t;
  }

  lemma CopiesMore(data: bytes, n: nat)
    ensures Copies(data, 0) == [] && Copies(data, n) + [data] == Copies(data, n + 1)
    ensures Copies(data, 1) == [data]
  {
  }

  datatype ReadOutcome = Suspended | Incomplete | Frame(result: Result<RawFrame>)

  class UDPStream {
    const isServer: bool
    const mac: Hmac
    var readBuffer: bytes
    var lastRxSeq: int
    var lastRxType: int
    var pendingData: Option<bytes>
    var pendingType: Option<byte>
    var pendingSeq: Option<nat>
    var acked: bool
    var closed: bool
    var dataReady: bool
    var socketClosed: bool
    var txKey: Option<Key>
    var rxKey: Option<Key>
    var timer: Timer
    var outbox: seq<bytes>

    /** The frames the buffer holds, oldest first, and the types of the handshake frames taken for new so far. */
    ghost var queue: seq<bytes>
    ghost var taken: seq<byte>

    /** The byte buffer is a queue of whole frames of at most 4096 bytes in all. */
    ghost predicate BufferGood()
      reads this`readBuffer, this`queue
    {
      && readBuffer == Concat(queue)
      && (forall i :: 0 <= i < |queue| ==> WholeFrame(queue[i]))
      && |readBuffer| <= MAX_READ_BUFFER
    }

    /** The handshake frames taken for new came in a lawful order, and the last of them is remembered. */
    ghost predicate OrderGood()
      reads this`taken, this`lastRxType
    {
      && Lawful(isServer, taken) && lastRxType == LastOf(taken)
      && (forall k :: 0 <= k < |taken| ==> taken[k] < 5 || taken[k] == 10)
    }

    ghost predicate Valid()
      reads this
    {
      BufferGood() && OrderGood()
    }

    /** The datagram is a well-formed frame of the given length. */
    predicate Feeds(data: bytes)
      reads this
    {
      !closed && !IsUtack(data) && WholeFrame(data)
    }

    /** It is new: a handshake frame if the order stays lawful with it, a session frame if its number is within 64 of
        the highest authentic one. */
    ghost predicate New(data: bytes)
      requires WholeFrame(data)
      reads this
    {
      if data[3] < 5 || data[3] == 10 then Lawful(isServer, taken + [data[3]])
      else lastRxSeq == -1 || Unpack32(data[4..8]) as int > lastRxSeq - 64
    }

    constructor (isServer: bool, mac: Hmac)
      ensures Valid() && queue == [] && taken == [] && outbox == [] && !closed && lastRxSeq == -1 && lastRxType == -1
      ensures timer == Timer(0.2, 0.1, 0.5) && txKey == None && rxKey == None && pendingSeq == None && !acked
      ensures !dataReady && !socketClosed
      ensures this.isServer == isServer && this.mac == mac
    {
      this.isServer, this.mac := isServer, mac;
      readBuffer, queue, taken, outbox := [], [], [], [];
      lastRxSeq, lastRxType := -1, -1;
      pendingData, pendingType, pendingSeq := None, None, None;
      acked, closed, dataReady, socketClosed := false, false, false, false;
      txKey, rxKey, timer := None, None, INITIAL;
    }

    method SetSessionKeys(tx: Key, rx: Key)
      modifies this`txKey, this`rxKey
      ensures txKey == Some(tx) && rxKey == Some(rx)
    {
      txKey, rxKey := Some(tx), Some(rx);
    }

    method ConfirmAuthenticated(s: nat)
      modifies this`lastRxSeq
      ensures lastRxSeq == ReplayWindow.Confirm(old(lastRxSeq), s)
    {
      if s > lastRxSeq {
        lastRxSeq := s;
      }
    }

    /** Any datagram whatever keeps the buffer a queue of whole frames: it is added whole at the
        end, or not at all.  A frame is queued if it is new and fits, and acknowledged if it is queued or not
        new; a new handshake frame counts as taken even if it does not fit.  An acknowledgement does nothing but
        release the frame it names. */
    method FeedPacket(data: bytes)
      requires Valid()
      modifies this`readBuffer, this`queue, this`taken, this`outbox, this`acked, this`lastRxType, this`dataReady
      ensures Valid() && dataReady == (old(dataReady) || queue != old(queue))
      ensures queue == if old(Feeds(data) && New(data)) && |old(readBuffer)| + |data| <= 4096 then old(queue) + [data] else old(queue)
      ensures outbox == old(outbox) + (if queue != old(queue) || old(Feeds(data) && !New(data))
                                       then [BuildUtack(mac, rxKey, data[3], Unpack32(data[4..8]))] else [])
      ensures taken == if old(Feeds(data) && New(data)) && (data[3] < 5 || data[3] == 10) then old(taken) + [data[3]] else old(taken)
      ensures acked == (old(acked) || (!closed && Releases(mac, txKey, pendingType, pendingSeq, data)))
    {
      hide BuildUtack;
      hide Lawful;
      if closed {
        return;
      }
      if |data| >= UTACK_HEADER_LEN && data[..2] == [0xAC, 0xAC] {
        FeedAck(data);
        return;
      }
      if |data| < HEADER_SIZE {
        return;
      }
      if Unpack16(data[..2]) != MAGIC {
        return;
      }
      var length := Unpack16(data[8..10]);
      if length > MAX_PAYLOAD || |data| != HEADER_SIZE + length {
        return;
      }
      FeedFrame(data);
    }

    /** An acknowledgement: forged ones are dropped, the one waited for releases the sender. */
    method FeedAck(data: bytes)
      requires IsUtack(data)
      modifies this`acked
      ensures acked == (old(acked) || Releases(mac, txKey, pendingType, pendingSeq, data))
    {
      var typeVal, seqVal := data[2], Unpack32(data[3..7]);
      if typeVal >= 5 {
        if txKey == None || |data| < UTACK_HEADER_LEN + UTACK_MAC_LEN {
          return;
        }
        if mac(txKey.value, data[..UTACK_HEADER_LEN]) != data[UTACK_HEADER_LEN..UTACK_HEADER_LEN + UTACK_MAC_LEN] {
          return;
        }
      }
      if pendingSeq == Some(seqVal) && pendingType == Some(typeVal) {
        acked := true;
      }
    }

    method FeedFrame(data: bytes)
      requires Valid() && WholeFrame(data)
      modifies this`readBuffer, this`queue, this`taken, this`outbox, this`lastRxType, this`dataReady
      ensures Valid() && dataReady == (old(dataReady) || queue != old(queue))
      ensures queue == if old(New(data)) && |old(readBuffer)| + |data| <= 4096 then old(queue) + [data] else old(queue)
      ensures outbox == old(outbox) + (if queue != old(queue) || old(!New(data))
                                       then [BuildUtack(mac, rxKey, data[3], Unpack32(data[4..8]))] else [])
      ensures taken == if old(New(data)) && (data[3] < 5 || data[3] == 10) then old(taken) + [data[3]] else old(taken)
    {
      hide BuildUtack;
      hide OrderGood;
      hide BufferGood;
      var utack := BuildUtack(mac, rxKey, data[3], Unpack32(data[4..8]));
      var isNew := TakeNew(data);
      hide New;
      hide WholeFrame;
      if !isNew {
        outbox := outbox + [utack];
        return;
      }
      if |readBuffer| + |data| > MAX_READ_BUFFER {
        return;
      }
      outbox := outbox + [utack];
      Enqueue(data);
      assert |old(queue) + [data]| == |old(queue)| + 1;
    }

    /** Whether the frame is new; a new handshake frame moves the last type, whatever becomes of it. */
    method TakeNew(data: bytes) returns (isNew: bool)
      requires OrderGood() && WholeFrame(data)
      modifies this`taken, this`lastRxType
      ensures OrderGood() && isNew == old(New(data))
      ensures taken == if isNew && (data[3] < 5 || data[3] == 10) then old(taken) + [data[3]] else old(taken)
    {
      var typeVal, seqVal := data[3], Unpack32(data[4..8]);
      hide WholeFrame;
      hide Unpack32;
      if HandshakeType(typeVal) {
        RepeatsExactly(isServer, taken, typeVal);
        hide Lawful;
        isNew := !RepeatsHandshake(isServer, lastRxType, typeVal);
        hide RepeatsHandshake;
        if isNew {
          lastRxType := typeVal;
          taken := taken + [typeVal];
        }
      } else {
        isNew := !(lastRxSeq != -1 && seqVal <= lastRxSeq - 64);
      }
    }

    method Enqueue(data: bytes)
      requires BufferGood() && WholeFrame(data) && |readBuffer| + |data| <= MAX_READ_BUFFER
      modifies this`readBuffer, this`queue, this`dataReady
      ensures BufferGood() && queue == old(queue) + [data] && dataReady
      ensures |readBuffer| == |old(readBuffer)| + |data|
    {
      ConcatAppend(queue, data);
      hide Concat;
      hide WholeFrame;
      readBuffer := readBuffer + data;
      queue := queue + [data];
      dataReady := true;
    }

    /** `readexactly` as far as it can go without waiting; `None` is a wait, or the error of a
        closed stream.  A wait begins with the event cleared, so whatever is queued from then on ends it. */
    method ReadExactly(n: nat) returns (r: Option<bytes>)
      modifies this`readBuffer, this`dataReady
      ensures if n <= |old(readBuffer)| then r == Some(old(readBuffer)[..n]) && readBuffer == old(readBuffer)[n..]
              else r == None && readBuffer == old(readBuffer)
      ensures dataReady == (old(dataReady) && (n <= |old(readBuffer)| || closed))
    {
      if |readBuffer| < n {
        if !closed {
          dataReady := false;
        }
        return None;
      }
      r := Some(readBuffer[..n]);
      readBuffer := readBuffer[n..];
    }

    /** Each read takes exactly one queued frame, whatever the decoder says of it, and waits only
        when the queue is empty, with nothing taken: never between a header and its payload. */
    method ReadFrame(verify: bool) returns (r: ReadOutcome)
      requires Valid()
      modifies this`readBuffer, this`queue, this`dataReady
      ensures Valid() && (r == Suspended ==> !dataReady && !closed)
      ensures old(queue) == [] ==> r == (if closed then Incomplete else Suspended) && queue == []
      ensures old(queue) != [] ==> r == Frame(Decode(old(queue)[0], verify)) && queue == old(queue)[1..]
    {
      ghost var frames, before := queue, readBuffer;
      if frames != [] {
        FirstFrame(frames);
      }
      var header := ReadExactly(HEADER_SIZE);
      if header == None {
        return if closed then Incomplete else Suspended;
      }
      var h := header.value;
      if Unpack16(h[..2]) != MAGIC {
        return Frame(Err(MagicError));
      }
      var length := Unpack16(h[8..10]);
      if length > MAX_PAYLOAD {
        return Frame(Err(PayloadError));
      }
      var payload := ReadExactly(length);
      if payload == None {
        return if closed then Incomplete else Suspended;
      }
      assert h + payload.value == frames[0];
      queue := frames[1..];
      assert readBuffer == Concat(frames[1..]);
      r := Frame(Decode(h + payload.value, verify));
    }

    method Write(data: bytes) returns (r: Result<()>)
      modifies this`pendingData, this`pendingType, this`pendingSeq
      ensures closed ==>
        && r == Err(OsError) && pendingData == old(pendingData)
        && pendingType == old(pendingType) && pendingSeq == old(pendingSeq)
      ensures !closed ==>
        && r == Ok(()) && pendingData == Some(data)
        && pendingType == (if |data| >= 8 then Some(data[3]) else None)
        && pendingSeq == (if |data| >= 8 then Some(Unpack32(data[4..8])) else None)
    {
      if closed {
        return Err(OsError);
      }
      pendingData := Some(data);
      if |data| >= 8 {
        pendingType, pendingSeq := Some(data[3]), Some(Unpack32(data[4..8]));
      } else {
        pendingType, pendingSeq := None, None;
      }
      r := Ok(());
    }

    /** Stop and wait.  `replies[k]` is the time after which attempt `k` saw its acknowledgement,
        or nothing if its wait ran out.  At most five copies are sent, the first wait is the timer's and each
        further one twice the one before, up to five seconds, they add up to at most 25 seconds, and only an
        acknowledged first attempt moves the timer. */
    method Drain(replies: seq<Option<real>>) returns (r: Result<()>, waits: seq<real>)
      requires |replies| == ATTEMPTS && Timers(timer)
      requires forall k :: 0 <= k < ATTEMPTS && replies[k].Some? ==> 0.0 <= replies[k].value
      modifies this`pendingData, this`acked, this`timer, this`outbox
      ensures Timers(timer) && pendingData == None && |waits| <= 5
      ensures old(pendingData) == None ==> r == Ok(()) && outbox == old(outbox) && waits == [] && timer == old(timer)
      ensures old(pendingData).Some? ==>
        outbox == old(outbox) + Copies(old(pendingData).value, if pendingSeq == None then 1 else |waits|)
      ensures old(pendingData).Some? && pendingSeq.Some? ==>
        && |waits| >= 1 && (forall k :: 0 <= k < |waits| - 1 ==> replies[k] == None)
        && (r.Ok? <==> replies[|waits| - 1].Some?) && (r.Err? ==> |waits| == 5 && r == Err(OsError))
        && timer == if |waits| == 1 && r.Ok? then Sample(old(timer), replies[0].value) else old(timer)
      ensures Sum(waits) <= 25.0
      ensures old(pendingData).Some? && pendingSeq.Some? ==> waits != [] && BacksOff(waits, old(timer).rto)
    {
      waits := [];
      if pendingData == None {
        return Ok(()), [];
      }
      var data := pendingData.value;
      pendingData := None;
      if pendingSeq == None {
        outbox := outbox + [data];
        CopiesMore(data, 0);
        return Ok(()), [];
      }
      hide Copies;
      hide BacksOff;
      hide Sample;
      hide Sum;
      r, waits := SendUntilAcked(data, replies);
    }

    /** The attempts, each with its wait. */
    method SendUntilAcked(data: bytes, replies: seq<Option<real>>) returns (r: Result<()>, waits: seq<real>)
      requires |replies| == ATTEMPTS && Timers(timer)
      requires forall k :: 0 <= k < ATTEMPTS && replies[k].Some? ==> 0.0 <= replies[k].value
      modifies this`acked, this`timer, this`outbox
      ensures Timers(timer) && 1 <= |waits| <= ATTEMPTS && outbox == old(outbox) + Copies(data, |waits|)
      ensures forall k :: 0 <= k < |waits| - 1 ==> replies[k] == None
      ensures (r.Ok? <==> replies[|waits| - 1].Some?) && (r.Err? ==> |waits| == ATTEMPTS && r == Err(OsError))
      ensures timer == if |waits| == 1 && r.Ok? then Sample(old(timer), replies[0].value) else old(timer)
      ensures Sum(waits) <= 25.0 && BacksOff(waits, old(timer).rto)
    {
      hide Timeout;
      hide Sample;
      hide Waits;
      hide BacksOff;
      hide Copies;
      hide Sum;
      waits := [];
      acked := false;
      var base := timer.rto;
      NoWaits(base);
      CopiesMore(data, 0);
      for attempt := 0 to ATTEMPTS
        invariant |waits| == attempt && outbox == old(outbox) + Copies(data, attempt) && Waits(waits, base)
        invariant timer == old(timer)
        invariant forall k :: 0 <= k < attempt ==> replies[k] == None
      {
        WaitAdded(waits, base);
        waits := waits + [Timeout(base, attempt)];
        CopiesMore(data, attempt);
        outbox := outbox + [data];
        if replies[attempt].Some? {
          if attempt == 0 {
            SampleInRange(timer, replies[0].value);
            timer := Sample(timer, replies[0].value);
          }
          WaitsFacts(waits, base);
          return Ok(()), waits;
        }
      }
      WaitsFacts(waits, base);
      r := Err(OsError);
    }

    /** Closes for good and wakes a waiting reader; only a client's stream owns its socket. */
    method Close()
      modifies this`closed, this`dataReady, this`socketClosed
      ensures closed && dataReady && socketClosed == (old(socketClosed) || !isServer)
    {
      closed := true;
      dataReady := true;
      if !isServer {
        socketClosed := true;
      }
    }
  }

  /** Where the first frame of a queue sits in the concatenation. */
  lemma FirstFrame(frames: seq<bytes>)
    requires frames != [] && WholeFrame(frames[0])
    ensures var b := Concat(frames);
      var f := frames[0];
      && HEADER_SIZE <= |b| && b[..HEADER_SIZE] == f[..HEADER_SIZE]
      && b[..HEADER_SIZE][..2] == f[..2] && b[..HEADER_SIZE][8..10] == f[8..10]
      && |f| - HEADER_SIZE <= |b[HEADER_SIZE..]|
      && b[HEADER_SIZE..][..|f| - HEADER_SIZE] == f[HEADER_SIZE..]
      && b[HEADER_SIZE..][|f| - HEADER_SIZE..] == Concat(frames[1..])
      && f[..HEADER_SIZE] + f[HEADER_SIZE..] == f
  {
  }
}
