/** The frame printer and parser of `_frame.py`. */
module FrameCodec {
  import opened Wire
  import Crc

  /** A decoded frame.  The parser fixes magic and version, and its `length` is `|payload|`. */
  datatype RawFrame = RawFrame(ptype: PacketType, seqNo: nat, crc: nat, payload: bytes)

  /** The ten header bytes the checksum covers. */
  function Prefix(version: byte, typeByte: byte, seqNo: nat, length: nat): (h: bytes)
    requires seqNo <= MAX_SEQ && length < 0x1_0000
    ensures |h| == 10
  {
    Pack16(MAGIC) + [version, typeByte] + Pack32(seqNo) + Pack16(length)
  }

  function FrameCrc(version: byte, typeByte: byte, seqNo: nat, payload: bytes): (c: nat)
    requires seqNo <= MAX_SEQ && |payload| < 0x1_0000
    ensures c < 0x1_0000
  {
    Crc.RegisterBelow(0xFFFF, Prefix(version, typeByte, seqNo, |payload|) + payload);
    Crc.Checksum(Prefix(version, typeByte, seqNo, |payload|) + payload)
  }

  function Encode(t: PacketType, payload: bytes, seqNo: nat, version: nat): (r: Result<bytes>)
    ensures r.Ok? <==> |payload| <= MAX_PAYLOAD && seqNo <= MAX_SEQ && version < 256
    ensures |payload| > 480 <==> r == Err(PayloadError)
    ensures r.Err? && |payload| <= 480 ==> r == Err(StructError)
    ensures r.Ok? ==> |r.value| == HEADER_SIZE + |payload| && r.value[HEADER_SIZE..] == payload
  {
    if |payload| > MAX_PAYLOAD then Err(PayloadError)
    else if seqNo > MAX_SEQ || version >= 256 then Err(StructError)
    else
      Ok(Prefix(version, TypeByte(t), seqNo, |payload|)
         + Pack16(FrameCrc(version, TypeByte(t), seqNo, payload)) + payload)
  }

  function Decode(data: bytes, verify: bool): Result<RawFrame> {
    if |data| < HEADER_SIZE then Err(FrameError)
    else if Unpack16(data[..2]) != MAGIC then Err(MagicError)
    else if data[2] != VERSION then Err(VersionError)
    else
      var length := Unpack16(data[8..10]);
      if length > MAX_PAYLOAD then Err(PayloadError)
      else if |data| < HEADER_SIZE + length then Err(PayloadError)
      else
        var seqNo := Unpack32(data[4..8]);
        var crc := Unpack16(data[10..12]);
        var payload := data[HEADER_SIZE..HEADER_SIZE + length];
        if verify && crc != FrameCrc(data[2], data[3], seqNo, payload) then Err(CrcError)
        else if TypeOf(data[3]).None? then Err(FrameError)
        else Ok(RawFrame(TypeOf(data[3]).value, seqNo, crc, payload))
  }

  // ----- round trips -----

  /** Where each header field of an encoded frame sits. */
  lemma EncodedFields(t: PacketType, payload: bytes, seqNo: nat)
    requires |payload| <= MAX_PAYLOAD && seqNo <= MAX_SEQ
    ensures var d := Encode(t, payload, seqNo, VERSION).value;
      && Unpack16(d[..2]) == MAGIC && d[2] == VERSION && d[3] == TypeByte(t)
      && Unpack32(d[4..8]) == seqNo && Unpack16(d[8..10]) == |payload|
      && Unpack16(d[10..12]) == FrameCrc(VERSION, TypeByte(t), seqNo, payload)
      && d[12..] == payload && |d| == 12 + |payload|
  {
    var d := Encode(t, payload, seqNo, VERSION).value;
    assert d[..2] == Pack16(MAGIC);
    assert d[4..8] == Pack32(seqNo);
    assert d[8..10] == Pack16(|payload|);
    assert d[10..12] == Pack16(FrameCrc(VERSION, TypeByte(t), seqNo, payload));
    Unpack32Pack32(seqNo);
  }

  /** An encoded header byte by byte. */
  lemma HeaderBytes(t: PacketType, payload: bytes, seqNo: nat)
    requires |payload| <= 480 && seqNo < 0x1_0000_0000
    ensures var d, n := Encode(t, payload, seqNo, 2).value, |payload|;
      && d[0] == 0xCD && d[1] == 0xAB && d[2] == 2
      && d[4] == seqNo % 256 && d[5] == seqNo / 256 % 256 && d[6] == seqNo / 65536 % 256 && d[7] == seqNo / 16777216
      && d[8] == n % 256 && d[9] == n / 256
      && d[10] == Crc.Checksum(d[..10] + payload) % 256 && d[11] == Crc.Checksum(d[..10] + payload) / 256
      && d[12..] == payload && |d| == 12 + n
    ensures Encode(t, payload, seqNo, 2).value[3] == match t
      case HELLO => 1 case CHALLENGE => 2 case HELLO_ACK => 3 case SESSION_OK => 4
      case DATA => 5 case PING => 6 case PONG => 7 case BYE => 8 case DATA_FRAG => 9
      case HELLO_RETRY => 10 case REKEY => 11 case ERROR => 255
  {
    var d := Encode(t, payload, seqNo, VERSION).value;
    Pack32Bytes(seqNo);
    assert d[..10] == Prefix(VERSION, TypeByte(t), seqNo, |payload|);
    assert d[4..8] == Pack32(seqNo);
    assert d[10..12] == Pack16(FrameCrc(VERSION, TypeByte(t), seqNo, payload));
    Crc.RegisterBelow(0xFFFF, d[..10] + payload);
  }

  /** The outcome of decoding, test by test: too short, wrong magic, wrong version, a length over the limit or over
      what is there, a wrong checksum, an unknown type; otherwise a frame. */
  lemma DecodeExactly(data: bytes, verify: bool)
    ensures |data| < 12 ==> Decode(data, verify) == Err(FrameError)
    ensures |data| >= 12 ==>
      && var length := data[8] as nat + 256 * data[9] as nat;
         var typeKnown := 1 <= data[3] <= 11 || data[3] == 255;
         Decode(data, verify).Err? <==>
           || data[0] != 0xCD || data[1] != 0xAB || data[2] != 2 || length > 480 || |data| < 12 + length || !typeKnown
           || (verify && data[10] as nat + 256 * data[11] as nat != Crc.Checksum(data[..10] + data[12..12 + length]))
    ensures |data| >= 12 && (data[0] != 0xCD || data[1] != 0xAB) ==> Decode(data, verify) == Err(MagicError)
    ensures |data| >= 12 && data[0] == 0xCD && data[1] == 0xAB && data[2] != 2 ==> Decode(data, verify) == Err(VersionError)
    ensures |data| >= 12 && data[0] == 0xCD && data[1] == 0xAB && data[2] == 2
      && data[8] as nat + 256 * data[9] as nat > (if |data| - 12 < 480 then |data| - 12 else 480)
      ==> Decode(data, verify) == Err(PayloadError)
    ensures |data| >= 12 && data[0] == 0xCD && data[1] == 0xAB && data[2] == 2
      && data[8] as nat + 256 * data[9] as nat <= (if |data| - 12 < 480 then |data| - 12 else 480) && Decode(data, verify).Err?
      ==> var end := 12 + data[8] as nat + 256 * data[9] as nat;
          Decode(data, verify) == Err(
            if verify && data[10] as nat + 256 * data[11] as nat != Crc.Checksum(data[..10] + data[12..end])
            then CrcError else FrameError)
  {
    if |data| >= 12 {
      var length := data[8] as nat + 256 * data[9] as nat;
      assert data[8..10] == [data[8], data[9]] && data[10..12] == [data[10], data[11]];
      assert data[..2] == [data[0], data[1]];
      MagicBytes(data);
      if data[0] == 0xCD && data[1] == 0xAB && data[2] == 2 && length <= 480 && |data| >= 12 + length {
        assert data[4..8] == Pack32(Unpack32(data[4..8]));
        assert data[8..10] == Pack16(length);
        assert data[..10] == Prefix(data[2], data[3], Unpack32(data[4..8]), length);
        hide Prefix;
      }
      hide Unpack32;
    }
  }

  lemma MagicBytes(data: bytes)
    requires |data| >= 2
    ensures Unpack16(data[..2]) == MAGIC <==> data[0] == 0xCD && data[1] == 0xAB
  {
  }

  /** Decoding, with or without the checksum test, recovers what was encoded. */
  lemma DecodeEncode(t: PacketType, payload: bytes, seqNo: nat, verify: bool)
    requires |payload| <= MAX_PAYLOAD && seqNo <= MAX_SEQ
    ensures Decode(Encode(t, payload, seqNo, VERSION).value, verify)
         == Ok(RawFrame(t, seqNo, FrameCrc(VERSION, TypeByte(t), seqNo, payload), payload))
  {
    EncodedFields(t, payload, seqNo);
    var d := Encode(t, payload, seqNo, VERSION).value;
    assert d[12..12 + |payload|] == payload;
    DistinctTypes(t);
  }

  /** A datagram of exactly the declared length that decodes is what the encoder prints. */
  lemma EncodeDecode(data: bytes)
    requires Decode(data, true).Ok? && |data| == HEADER_SIZE + |Decode(data, true).value.payload|
    ensures var f := Decode(data, true).value;
      f.seqNo <= MAX_SEQ && Encode(f.ptype, f.payload, f.seqNo, VERSION) == Ok(data)
  {
    var f := Decode(data, true).value;
    var e := Encode(f.ptype, f.payload, f.seqNo, VERSION).value;
    assert data[..2] == Pack16(MAGIC) && data[4..8] == Pack32(f.seqNo);
    assert data[8..10] == Pack16(|f.payload|) && data[10..12] == Pack16(f.crc);
    assert data == data[..2] + [data[2], data[3]] + data[4..8] + data[8..10] + data[10..12] + data[12..];
    assert data[12..] == f.payload;
  }

  // ----- corruption -----

  /** `damaged` differs from `data`, and only in the `width` bytes from `k` on: one, or two neighbours. */
  predicate Damaged(data: bytes, damaged: bytes, k: nat, width: nat) {
    && |damaged| == |data| && damaged != data && 1 <= width <= 2 && k + width <= |data|
    && forall i :: 0 <= i < |data| && !(k <= i < k + width) ==> damaged[i] == data[i]
  }

  /** Every place outside the length field; two neighbours lie both before the length, both in the
      checksum, or both in the payload. */
  predicate Guarded(k: nat, width: nat) {
    k + width <= 8 || (10 <= k && k + width <= 12) || 12 <= k
  }

  /** Damage to one byte or two neighbouring bytes of an encoded frame never decodes: in the
      magic or version it fails those tests, elsewhere it fails the checksum. */
  lemma DamageRejected(t: PacketType, payload: bytes, seqNo: nat, damaged: bytes, k: nat, width: nat)
    requires |payload| <= MAX_PAYLOAD && seqNo <= MAX_SEQ
    requires Damaged(Encode(t, payload, seqNo, VERSION).value, damaged, k, width) && Guarded(k, width)
    ensures Decode(damaged, true).Err?
    ensures k >= 3 ==> Decode(damaged, true) == Err(CrcError)
  {
    var d := Encode(t, payload, seqNo, VERSION).value;
    EncodedFields(t, payload, seqNo);
    hide Encode;
    assert damaged[8..10] == d[8..10];
    if damaged[..2] != d[..2] {
      MagicDiffers(damaged);
    } else if damaged[2] == d[2] {
      ChecksumFails(d, damaged, k, width);
    }
  }

  /** A frame whose stored checksum is right stops being one when damaged. */
  lemma ChecksumFails(d: bytes, damaged: bytes, k: nat, width: nat)
    requires WholeFrame(d) && Damaged(d, damaged, k, width) && Guarded(k, width)
    requires damaged[..2] == d[..2] && damaged[8..10] == d[8..10] && damaged[2] == d[2] == VERSION
    requires Unpack16(d[10..12]) == FrameCrc(d[2], d[3], Unpack32(d[4..8]), d[12..])
    ensures Decode(damaged, true) == Err(CrcError)
  {
    CoveredBytes(damaged);
    CoveredBytes(d);
    hide FrameCrc;
    assert damaged[12..12 + (|d| - 12)] == damaged[12..];
    assert d[10..12] == [d[10], d[11]] && damaged[10..12] == [damaged[10], damaged[11]];
    if 10 <= k < 12 {
      assert Covered(damaged) == Covered(d);
      assert damaged[10] != d[10] || damaged[11] != d[11];
      assert Unpack16(damaged[10..12]) != Unpack16(d[10..12]);
    } else {
      assert damaged[10..12] == d[10..12];
      CoveredDiffers(d, damaged, k, width);
    }
  }

  lemma MagicDiffers(data: bytes)
    requires |data| >= 2 && data[..2] != Pack16(MAGIC)
    ensures Unpack16(data[..2]) != MAGIC
  {
  }

  /** The bytes the checksum of `data` is computed over. */
  function Covered(data: bytes): (c: bytes)
    requires |data| >= HEADER_SIZE
    ensures |c| == |data| - 2
  {
    data[..10] + data[12..]
  }

  /** The parser recomputes the checksum over exactly the covered bytes. */
  lemma CoveredBytes(data: bytes)
    requires |data| >= HEADER_SIZE && data[..2] == Pack16(MAGIC)
    requires |data| == HEADER_SIZE + Unpack16(data[8..10])
    ensures FrameCrc(data[2], data[3], Unpack32(data[4..8]), data[12..]) == Crc.Checksum(Covered(data))
  {
    assert data[4..8] == Pack32(Unpack32(data[4..8]));
    assert data[8..10] == Pack16(|data[12..]|);
    assert data[..10] == data[..2] + [data[2], data[3]] + data[4..8] + data[8..10];
  }

  lemma CoveredDiffers(data: bytes, damaged: bytes, k: nat, width: nat)
    requires |data| >= HEADER_SIZE && Damaged(data, damaged, k, width)
    requires k + width <= 8 || 12 <= k
    ensures Crc.Checksum(Covered(data)) != Crc.Checksum(Covered(damaged))
  {
    var c, c' := Covered(data), Covered(damaged);
    forall i | 0 <= i < |c|
      ensures c[i] == data[if i < 10 then i else i + 2] && c'[i] == damaged[if i < 10 then i else i + 2]
    {
      CoveredAt(data, if i < 10 then i else i + 2);
      CoveredAt(damaged, if i < 10 then i else i + 2);
    }
    hide Covered;
    assert exists i :: k <= i < k + width && data[i] != damaged[i];
    var j := if k < 10 then k else k - 2;
    assert c[j] != c'[j] || (width == 2 && c[j + 1] != c'[j + 1]);
    PairDiffers(c, c', if j + 1 < |c| then j else j - 1);
  }

  lemma CoveredAt(data: bytes, k: nat)
    requires |data| >= HEADER_SIZE && k < |data| && (k < 10 || 12 <= k)
    ensures Covered(data)[if k < 10 then k else k - 2] == data[k]
  {
  }

  lemma PairDiffers(c: bytes, c': bytes, j: nat)
    requires |c| == |c'| && j + 1 < |c| && (c[j] != c'[j] || c[j + 1] != c'[j + 1])
    requires forall i :: 0 <= i < |c| && i != j && i != j + 1 ==> c[i] == c'[i]
    ensures Crc.Checksum(c) != Crc.Checksum(c')
  {
    assert c == c[..j] + [c[j], c[j + 1]] + c[j + 2..];
    assert c' == c[..j] + [c'[j], c'[j + 1]] + c[j + 2..];
    Crc.NeighbourChangeDetected(c[..j], c[j], c[j + 1], c'[j], c'[j + 1], c[j + 2..]);
  }

  // ----- reading from a stream -----

  /** What `read_frame` does with the bytes available so far: wait for the header, wait for the
      payload with the header already taken, or return (or raise) leaving the rest. */
  datatype Read =
    | AwaitHeader
    | AwaitPayload(header: bytes)
    | Done(result: Result<RawFrame>, rest: bytes)

  function ReadFrame(available: bytes, verify: bool): Read {
    if |available| < HEADER_SIZE then AwaitHeader
    else
      var header, body := available[..HEADER_SIZE], available[HEADER_SIZE..];
      if Unpack16(header[..2]) != MAGIC then Done(Err(MagicError), body)
      else
        var length := Unpack16(header[8..10]);
        if length > MAX_PAYLOAD then Done(Err(PayloadError), body)
        else if |body| < length then AwaitPayload(header)
        else Done(Decode(header + body[..length], verify), body[length..])
  }

  /** A byte string `read_frame` takes as one frame, whatever it then thinks of its contents. */
  predicate WholeFrame(data: bytes) {
    && |data| >= HEADER_SIZE
    && Unpack16(data[..2]) == MAGIC
    && Unpack16(data[8..10]) <= MAX_PAYLOAD
    && |data| == HEADER_SIZE + Unpack16(data[8..10])
  }

  /** Reading from a whole frame followed by anything takes exactly that frame: no wait, and
      the outcome, error or not, is the decoder's on the frame alone. */
  lemma ReadTakesOneFrame(frame: bytes, rest: bytes, verify: bool)
    requires WholeFrame(frame)
    ensures ReadFrame(frame + rest, verify) == Done(Decode(frame, verify), rest)
  {
    var a := frame + rest;
    assert a[..HEADER_SIZE] == frame[..HEADER_SIZE];
    assert a[..HEADER_SIZE][..2] == frame[..2] && a[..HEADER_SIZE][8..10] == frame[8..10];
    assert a[HEADER_SIZE..][..|frame| - HEADER_SIZE] == frame[HEADER_SIZE..];
    assert a[HEADER_SIZE..][|frame| - HEADER_SIZE..] == rest;
    assert frame[..HEADER_SIZE] + frame[HEADER_SIZE..] == frame;
  }

  /** A read that is cancelled while it waits for a payload has already taken the header.  The next read then
      takes the payload for a header: of an encrypted frame, whose payload starts with its number, it is an error
      unless the low half of that number happens to be the magic. */
  lemma CancelledReadDerails(t: PacketType, payload: bytes, seqNo: nat, rest: bytes, verify: bool)
    requires HEADER_SIZE <= |payload| <= MAX_PAYLOAD && seqNo <= MAX_SEQ && payload[..4] == Pack32(seqNo)
    ensures var d := Encode(t, payload, seqNo, VERSION).value;
      ReadFrame(d[..HEADER_SIZE], verify) == AwaitPayload(d[..HEADER_SIZE])
    ensures ReadFrame(payload + rest, verify) == Done(Err(MagicError), (payload + rest)[HEADER_SIZE..])
       <==> seqNo % 0x1_0000 != MAGIC
  {
    EncodedFields(t, payload, seqNo);
    var d, a := Encode(t, payload, seqNo, VERSION).value, payload + rest;
    hide Encode;
    assert d[..HEADER_SIZE][..2] == d[..2] && d[..HEADER_SIZE][8..10] == d[8..10];
    assert d[..HEADER_SIZE][..HEADER_SIZE] == d[..HEADER_SIZE];
    assert a[..HEADER_SIZE][..2] == payload[..4][..2] == Pack16(seqNo % 0x1_0000);
    Unpack16Pack16(seqNo % 0x1_0000);
    hide Decode;
  }

  /** How far the bytes of a read go: a header, and the payload it announces if it is worth reading. */
  function Extent(a: bytes): nat
    requires |a| >= 12
  {
    var length := a[8] as nat + 256 * a[9] as nat;
    if a[0] == 0xCD && a[1] == 0xAB && length <= 480 then 12 + length else 12
  }

  /** A read waits if and only if its bytes are not all there; otherwise it takes exactly those and comes to the same,
      whatever follows them. */
  lemma ReadsExactly(a: bytes, more: bytes, verify: bool)
    ensures ReadFrame(a, verify).Done? <==> |a| >= 12 && |a| >= Extent(a)
    ensures ReadFrame(a, verify).Done? ==>
      && ReadFrame(a, verify).rest == a[Extent(a)..]
      && ReadFrame(a + more, verify) == Done(ReadFrame(a, verify).result, a[Extent(a)..] + more)
    ensures |a| >= 12 && (a[0] != 0xCD || a[1] != 0xAB) ==> ReadFrame(a, verify).Done? && ReadFrame(a, verify).result == Err(MagicError)
    ensures |a| >= 12 && a[0] == 0xCD && a[1] == 0xAB && a[8] as nat + 256 * a[9] as nat > 480
      ==> ReadFrame(a, verify).Done? && ReadFrame(a, verify).result == Err(PayloadError)
  {
    hide Decode;
    if |a| >= 12 {
      var b, length := a + more, a[8] as nat + 256 * a[9] as nat;
      MagicBytes(a);
      assert a[..12][..2] == a[..2] && a[..12][8..10] == [a[8], a[9]];
      assert b[..12] == a[..12] && b[12..] == a[12..] + more;
      assert Unpack16(a[..12][8..10]) == length;
      if |a| >= 12 + length {
        assert b[12..][..length] == a[12..][..length] && a[12..][length..] == a[12 + length..];
        assert b[12..][length..] == a[12 + length..] + more;
      }
    }
  }

  function Concat(parts: seq<bytes>): bytes {
    if parts == [] then [] else parts[0] + Concat(parts[1..])
  }

  lemma {:induction false} ConcatAppend(parts: seq<bytes>, last: bytes)
    ensures Concat(parts + [last]) == Concat(parts) + last
  {
    if parts == [] {
      assert Concat([last]) == last + Concat([]);
    } else {
      assert (parts + [last])[1..] == parts[1..] + [last];
      ConcatAppend(parts[1..], last);
    }
  }

  /** `read_frame` called again and again until it has to wait. */
  function ReadAll(stream: bytes, verify: bool): seq<Result<RawFrame>>
    decreases |stream|
  {
    match ReadFrame(stream, verify)
    case Done(r, rest) => [r] + ReadAll(rest, verify)
    case _ => []
  }

  /** Reading the concatenation of any list of whole frames yields the decoder's outcome on each,
      in order, one for one. */
  lemma {:induction false} ReadAllConcat(frames: seq<bytes>, verify: bool)
    requires forall i :: 0 <= i < |frames| ==> WholeFrame(frames[i])
    ensures |ReadAll(Concat(frames), verify)| == |frames|
    ensures forall i :: 0 <= i < |frames| ==> ReadAll(Concat(frames), verify)[i] == Decode(frames[i], verify)
  {
    if frames != [] {
      ReadTakesOneFrame(frames[0], Concat(frames[1..]), verify);
      ReadAllConcat(frames[1..], verify);
    }
  }

  lemma EncodedIsWhole(t: PacketType, payload: bytes, seqNo: nat)
    requires |payload| <= MAX_PAYLOAD && seqNo <= MAX_SEQ
    ensures WholeFrame(Encode(t, payload, seqNo, VERSION).value)
  {
    EncodedFields(t, payload, seqNo);
  }

  /** One frame as its writer sees it. */
  datatype Item = Item(ptype: PacketType, payload: bytes, seqNo: nat)

  predicate Encodable(i: Item) {
    |i.payload| <= MAX_PAYLOAD && i.seqNo <= MAX_SEQ
  }

  /** The stream `write_frame` produces for a list of frames. */
  function Printed(items: seq<Item>): bytes
    requires forall k :: 0 <= k < |items| ==> Encodable(items[k])
  {
    if items == [] then []
    else
      assert Encodable(items[0]);
      Encode(items[0].ptype, items[0].payload, items[0].seqNo, VERSION).value + Printed(items[1..])
  }

  /** The outcome of reading is the frame that was written. */
  predicate Recovers(r: Result<RawFrame>, i: Item) {
    r.Ok? && r.value.ptype == i.ptype && r.value.payload == i.payload && r.value.seqNo == i.seqNo
  }

  lemma FirstReadBack(i: Item, rest: bytes, verify: bool) returns (r: Result<RawFrame>)
    requires Encodable(i)
    ensures Recovers(r, i)
    ensures ReadAll(Encode(i.ptype, i.payload, i.seqNo, VERSION).value + rest, verify) == [r] + ReadAll(rest, verify)
  {
    var d := Encode(i.ptype, i.payload, i.seqNo, VERSION).value;
    EncodedIsWhole(i.ptype, i.payload, i.seqNo);
    DecodeEncode(i.ptype, i.payload, i.seqNo, verify);
    ReadTakesOneFrame(d, rest, verify);
    hide Encode;
    hide Decode;
    hide ReadFrame;
    r := Decode(d, verify);
  }

  /** Reading back any list of written frames yields that list. */
  lemma {:induction false} ReadBack(items: seq<Item>, verify: bool)
    requires forall k :: 0 <= k < |items| ==> Encodable(items[k])
    ensures |ReadAll(Printed(items), verify)| == |items|
    ensures forall k :: 0 <= k < |items| ==> Recovers(ReadAll(Printed(items), verify)[k], items[k])
  {
    if items != [] {
      assert Encodable(items[0]);
      var r := FirstReadBack(items[0], Printed(items[1..]), verify);
      ReadBack(items[1..], verify);
      hide Encode;
      hide ReadAll;
      hide Recovers;
      var out := ReadAll(Printed(items), verify);
      assert out == [r] + ReadAll(Printed(items[1..]), verify);
      forall k | 0 <= k < |items| ensures Recovers(out[k], items[k]) {
        if k > 0 {
          assert items[1..][k - 1] == items[k];
        }
      }
    }
  }
}
