/** Byte strings, `struct.pack` in little-endian form, and the constants of the protocol. */
module Wire {

  type byte = x: int | 0 <= x < 256
  type bytes = seq<byte>

  datatype Option<+T> = None | Some(value: T)

  /** The errors a member of the source can raise, one constructor per exception class. */
  datatype Error =
    | FrameError | CrcError | MagicError | VersionError | PayloadError | StructError
    | CryptoError | SequenceError | ConnectionClosed | AuthError | HandshakeError
    | ValueError | OsError

  datatype Result<+T> = Ok(value: T) | Err(error: Error)

  const MAGIC := 0xABCD
  const VERSION := 2
  const HEADER_SIZE := 12
  const MAX_PAYLOAD := 480
  const MAX_FRAMES := 4
  /** `MAX_DATA * MAX_FRAMES`, as `LimitsMeet` confirms. */
  const MAX_MESSAGE := 1808
  const TAG_LEN := 16
  const NONCE_LEN := 12
  const MAX_DATA := MAX_PAYLOAD - TAG_LEN - NONCE_LEN
  const MAX_SEQ := 0xFFFF_FFFF

  datatype PacketType =
    | HELLO | CHALLENGE | HELLO_ACK | SESSION_OK | DATA | PING | PONG | BYE
    | DATA_FRAG | HELLO_RETRY | REKEY | ERROR

  function TypeByte(t: PacketType): byte {
    match t
    case HELLO => 1
    case CHALLENGE => 2
    case HELLO_ACK => 3
    case SESSION_OK => 4
    case DATA => 5
    case PING => 6
    case PONG => 7
    case BYE => 8
    case DATA_FRAG => 9
    case HELLO_RETRY => 10
    case REKEY => 11
    case ERROR => 255
  }

  /** `PacketType(b)`; `None` is the `ValueError` of an unknown value. */
  function TypeOf(b: byte): (r: Option<PacketType>)
    ensures r.Some? ==> TypeByte(r.value) == b
    ensures r.None? ==> forall t: PacketType :: TypeByte(t) != b
  {
    if b == 1 then Some(HELLO)
    else if b == 2 then Some(CHALLENGE)
    else if b == 3 then Some(HELLO_ACK)
    else if b == 4 then Some(SESSION_OK)
    else if b == 5 then Some(DATA)
    else if b == 6 then Some(PING)
    else if b == 7 then Some(PONG)
    else if b == 8 then Some(BYE)
    else if b == 9 then Some(DATA_FRAG)
    else if b == 10 then Some(HELLO_RETRY)
    else if b == 11 then Some(REKEY)
    else if b == 255 then Some(ERROR)
    else None
  }

  /** The types of frames that belong to a session. */
  predicate SessionType(t: PacketType) {
    TypeByte(t) >= 5 && t != HELLO_RETRY
  }

  lemma DistinctTypes(t: PacketType)
    ensures TypeOf(TypeByte(t)) == Some(t)
  {
  }

  // ----- little-endian integers -----

  function Pack16(n: nat): (s: bytes)
    requires n < 0x1_0000
    ensures |s| == 2
  {
    [n % 256, n / 256]
  }

  function Unpack16(s: bytes): (n: nat)
    requires |s| == 2
    ensures n < 0x1_0000 && Pack16(n) == s
  {
    (s[0] as int) + 256 * (s[1] as int)
  }

  function Pack32(n: nat): (s: bytes)
    requires n <= MAX_SEQ
    ensures |s| == 4
  {
    Pack16(n % 0x1_0000) + Pack16(n / 0x1_0000)
  }

  function Unpack32(s: bytes): (n: nat)
    requires |s| == 4
    ensures n <= MAX_SEQ && Pack32(n) == s
  {
    var low, high := Unpack16(s[..2]), Unpack16(s[2..]);
    Halves(low, high);
    assert s == s[..2] + s[2..];
    low + 0x1_0000 * high
  }

  lemma Halves(low: nat, high: nat)
    requires low < 0x1_0000 && high < 0x1_0000
    ensures var n := low + 0x1_0000 * high; n % 0x1_0000 == low && n / 0x1_0000 == high && n <= MAX_SEQ
  {
  }

  /** The four bytes, low byte first. */
  lemma Pack32Bytes(n: nat)
    requires n <= MAX_SEQ
    ensures var s := Pack32(n);
      s[0] == n % 256 && s[1] == n / 256 % 256 && s[2] == n / 65536 % 256 && s[3] == n / 16777216
  {
    DigitsOf(n, n / 16777216, n / 65536 % 256, n / 256 % 256, n % 256);
  }

  /** Four digits to the base 256 are those of their sum. */
  lemma DigitsOf(n: nat, d: nat, c: nat, b: nat, a: nat)
    requires a < 256 && b < 256 && c < 256
    requires d == n / 16777216 && c == n / 65536 % 256 && b == n / 256 % 256 && a == n % 256
    ensures n % 65536 == a + 256 * b && n / 65536 == c + 256 * d
    ensures (a + 256 * b) % 256 == a && (a + 256 * b) / 256 == b && (c + 256 * d) % 256 == c && (c + 256 * d) / 256 == d
  {
    var m, k := n / 256, n / 65536;
    assert n == 256 * m + a;
    assert m / 256 == k;
    assert m == 256 * k + b;
    assert k / 256 == d;
  }

  lemma Unpack16Pack16(n: nat)
    requires n < 0x1_0000
    ensures Unpack16(Pack16(n)) == n
  {
  }

  lemma Unpack32Pack32(n: nat)
    requires n <= MAX_SEQ
    ensures Unpack32(Pack32(n)) == n
  {
    assert Pack32(n)[..2] == Pack16(n % 0x1_0000);
    assert Pack32(n)[2..] == Pack16(n / 0x1_0000);
  }

  lemma Pack32Injective(m: nat, n: nat)
    requires m <= MAX_SEQ && n <= MAX_SEQ && Pack32(m) == Pack32(n)
    ensures m == n
  {
    Unpack32Pack32(m);
    Unpack32Pack32(n);
  }

  /** Concatenations with parts of equal length are equal only part by part. */
  lemma SplitEqual(a: bytes, b: bytes, c: bytes, d: bytes)
    requires a + b == c + d && |a| == |c|
    ensures a == c && b == d
  {
    assert a == (a + b)[..|a|] && c == (c + d)[..|c|];
    assert b == (a + b)[|a|..] && d == (c + d)[|c|..];
  }
}
