/** The delivery model against the bytes: its frames, queue and acknowledgements are those of the
stream class, for any way of writing a sealed payload as that many bytes. */
module UdpBytes {
  import opened Wire
  import opened Crypto
  import opened Session
  import opened FrameCodec
  import opened UdpLimits
  import ReplayWindow
  import Stream = UdpStream
  import Delivery = UdpDelivery

  type Writer = Payload -> bytes

  ghost predicate Faithful(w: Writer) {
    forall p: Payload :: |w(p)| == PayloadLen(p)
  }

  /** The datagram that carries a session frame. */
  function Datagram(w: Writer, f: Frame): bytes
    requires |w(f.payload)| == PayloadLen(f.payload)
  {
    Encode(f.ptype, w(f.payload), f.seqNo, VERSION).value
  }

  lemma DatagramFields(w: Writer, f: Frame)
    requires Faithful(w)
    ensures var d := Datagram(w, f);
      && WholeFrame(d) && |d| == Delivery.FrameSize(f) && !Stream.IsUtack(d)
      && d[3] == TypeByte(f.ptype) && Unpack32(d[4..8]) == f.seqNo
      && Decode(d, true).Ok? && Decode(d, true).value.ptype == f.ptype
      && Decode(d, true).value.seqNo == f.seqNo && Decode(d, true).value.payload == w(f.payload)
  {
    EncodedFields(f.ptype, w(f.payload), f.seqNo);
    EncodedIsWhole(f.ptype, w(f.payload), f.seqNo);
    DecodeEncode(f.ptype, w(f.payload), f.seqNo, true);
    var d := Datagram(w, f);
    assert d[..2] == Pack16(MAGIC);
  }

  /** The byte buffer that holds the model's queue. */
  ghost function Buffered(w: Writer, q: seq<Frame>): seq<bytes>
    requires Faithful(w)
  {
    if q == [] then [] else [Datagram(w, q[0])] + Buffered(w, q[1..])
  }

  lemma {:induction false} BufferedBytes(w: Writer, q: seq<Frame>)
    requires Faithful(w)
    ensures |Concat(Buffered(w, q))| == Delivery.QueueBytes(q)
  {
    if q != [] {
      DatagramFields(w, q[0]);
      BufferedBytes(w, q[1..]);
      assert Buffered(w, q)[1..] == Buffered(w, q[1..]);
    }
  }

  /** On the datagram of a session frame the stream's tests are the model's: the same frames are too
      old, the same ones fit. */
  lemma FeedAgrees(w: Writer, st: Delivery.State, f: Frame, isServer: bool, lastType: int)
    requires Faithful(w) && SessionType(f.ptype)
    ensures var d := Datagram(w, f);
      && WholeFrame(d) && !Stream.IsUtack(d)
      && (Stream.Repeated(isServer, lastType, st.r.lastRx, d) <==> ReplayWindow.Stale(st.r.lastRx, f.seqNo))
      && (!Stream.Repeated(isServer, lastType, st.r.lastRx, d) && |Concat(Buffered(w, st.r.queue))| + |d| <= MAX_READ_BUFFER
          <==> Delivery.Feed(st, f).r.queue == st.r.queue + [f])
  {
    DatagramFields(w, f);
    BufferedBytes(w, st.r.queue);
    assert |st.r.queue + [f]| == |st.r.queue| + 1;
  }

  /** The MAC tells keys apart, as an ideal one does. */
  ghost predicate TellsKeysApart(mac: Stream.Hmac) {
    forall k: Key, k': Key, m: bytes :: mac(k, m) == mac(k', m) ==> k == k'
  }

  /** The bytes of an acknowledgement release the waiting sender exactly when the model's does: under
      the sender's own key, and never under another. */
  lemma AckAgrees(mac: Stream.Hmac, key: Key, u: Delivery.Utack, pending: Frame)
    requires Stream.Truncated(mac) && u.seqNo <= MAX_SEQ
    requires u.key == key || (TellsKeysApart(mac) && SessionType(u.ptype))
    ensures Stream.Releases(mac, Some(key), Some(TypeByte(pending.ptype)), Some(pending.seqNo),
                            Stream.BuildUtack(mac, Some(u.key), TypeByte(u.ptype), u.seqNo))
       <==> u == Delivery.Utack(key, pending.ptype, pending.seqNo)
  {
    if u.key == key {
      Stream.UtackReleasesItsFrame(mac, key, TypeByte(u.ptype), u.seqNo, TypeByte(pending.ptype), pending.seqNo);
    } else {
      Stream.OtherKeyNeverReleases(mac, key, u.key, TypeByte(u.ptype), u.seqNo, TypeByte(pending.ptype), pending.seqNo);
    }
    DistinctTypes(u.ptype);
    DistinctTypes(pending.ptype);
  }

  /** The associated data of a sealed payload is the first ten bytes of the frame that carries it. */
  lemma AadIsHeader(t: PacketType, payload: bytes, seqNo: nat)
    requires |payload| <= MAX_PAYLOAD && seqNo <= MAX_SEQ
    ensures Encode(t, payload, seqNo, VERSION).value[..10] == BuildAad(TypeByte(t), seqNo, |payload|)
  {
    assert [VERSION] + [TypeByte(t)] == [VERSION, TypeByte(t)];
  }
}
