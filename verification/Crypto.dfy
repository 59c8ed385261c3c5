/** `_crypto.py` with its primitives taken as free constructors.

HKDF, X25519 and the two AEAD ciphers are library code.  A derived key is the term that says
how it was derived, so two keys are equal exactly when they were derived alike, and a sealed box
opens only under the key, nonce and associated data it was made with.  Diffie-Hellman keeps the
one law the protocol relies on: both sides compute the same secret, so a secret is the unordered
pair of public keys.
*/
module Crypto {
  import opened Wire

  datatype CipherSuite = AES256_GCM | CHACHA20_POLY1305

  /** Input keying material: a Diffie-Hellman secret, or two keys one after the other. */
  datatype Secret = Shared(publics: set<bytes>) | Pair(first: Key, second: Key)

  /** A 32-byte key: installed from outside, or one half of an HKDF output. */
  datatype Key = Installed(id: nat) | Half(upper: bool, ikm: Secret, salt: bytes, info: bytes)

  /** How many derivations a key is away from the keys it started from. */
  function Rank(k: Key): nat {
    match k
    case Installed(_) => 0
    case Half(_, Shared(_), _, _) => 0
    case Half(_, Pair(a, b), _, _) => 1 + Rank(a) + Rank(b)
  }

  /** The labels "usmp-v2" and "usmp-rekey". */
  const SESSION_LABEL: bytes := [0x75, 0x73, 0x6d, 0x70, 0x2d, 0x76, 0x32]
  const REKEY_LABEL: bytes := [0x75, 0x73, 0x6d, 0x70, 0x2d, 0x72, 0x65, 0x6b, 0x65, 0x79]

  /** `derive_session_keys` on a private key, which is named by its public half.  Returns the
      client-to-server and the server-to-client key; a low-order peer key is refused. */
  function DeriveSessionKeys(ownPub: bytes, peerPub: bytes, lowOrder: set<bytes>,
                             nonce: bytes, pubC: bytes, pubS: bytes): (r: Result<(Key, Key)>)
    ensures r.Ok? <==> peerPub !in lowOrder
    ensures r.Ok? ==> r.value.0 != r.value.1
  {
    if peerPub in lowOrder then Err(CryptoError)
    else
      var info := SESSION_LABEL + pubC + pubS;
      var ikm := Shared({ownPub, peerPub});
      Ok((Half(false, ikm, nonce, info), Half(true, ikm, nonce, info)))
  }

  /** Client and server derive the same pair of keys from each other's public keys. */
  lemma SessionKeysAgree(pubC: bytes, pubS: bytes, nonce: bytes, lowOrder: set<bytes>)
    requires pubC !in lowOrder && pubS !in lowOrder
    ensures DeriveSessionKeys(pubC, pubS, lowOrder, nonce, pubC, pubS)
         == DeriveSessionKeys(pubS, pubC, lowOrder, nonce, pubC, pubS)
  {
    assert {pubC, pubS} == {pubS, pubC};
  }

  /** `derive_rekey_keys`: the new sending and receiving key. */
  function DeriveRekeyKeys(initiator: bool, tx: Key, rx: Key, sessionId: bytes, salt: bytes): (r: (Key, Key))
    ensures Rank(tx) < Rank(r.0) && Rank(rx) < Rank(r.0)
    ensures Rank(tx) < Rank(r.1) && Rank(rx) < Rank(r.1)
    ensures r.0 != r.1
  {
    var ikm := if initiator then Pair(tx, rx) else Pair(rx, tx);
    var info := REKEY_LABEL + sessionId;
    var low, high := Half(false, ikm, salt, info), Half(true, ikm, salt, info);
    if initiator then (low, high) else (high, low)
  }

  /** The bytes are the ASCII codes of the characters. */
  predicate Spells(text: bytes, s: string) {
    |text| == |s| && forall k :: 0 <= k < |s| ==> text[k] == s[k] as int
  }

  /** Whoever derives them, the client-to-server key is the lower and the server-to-client key the upper half of what
      HKDF makes of the shared secret, salted with the nonce, for the label and the client's and server's public key. */
  lemma SessionKeysFromHkdf(own: bytes, peer: bytes, lowOrder: set<bytes>, nonce: bytes, pubC: bytes, pubS: bytes)
    requires peer !in lowOrder
    ensures DeriveSessionKeys(own, peer, lowOrder, nonce, pubC, pubS)
         == Ok((Half(false, Shared({own, peer}), nonce, SESSION_LABEL + pubC + pubS),
                Half(true, Shared({own, peer}), nonce, SESSION_LABEL + pubC + pubS)))
    ensures Spells(SESSION_LABEL, "usmp-v2")
  {
    assert |SESSION_LABEL| == |"usmp-v2"|;
  }

  /** Whichever end derives them, the initiator's new sending key is the lower and its new receiving key the upper half of
      what HKDF makes of its old sending and receiving key, in this order, with the salt, for the label and the session. */
  lemma RekeyFromHkdf(tx: Key, rx: Key, sessionId: bytes, salt: bytes)
    ensures var low, high := Half(false, Pair(tx, rx), salt, REKEY_LABEL + sessionId), Half(true, Pair(tx, rx), salt, REKEY_LABEL + sessionId);
      DeriveRekeyKeys(true, tx, rx, sessionId, salt) == (low, high) && DeriveRekeyKeys(false, rx, tx, sessionId, salt) == (high, low)
    ensures Spells(REKEY_LABEL, "usmp-rekey")
  {
    assert |REKEY_LABEL| == |"usmp-rekey"|;
  }

  /** Everything that goes into a rekey comes out: in the same role, two rekeys give the same keys if and only if
      they start from the same keys, in the same session, with the same salt. */
  lemma RekeyDetermined(initiator: bool, tx: Key, rx: Key, sessionId: bytes, salt: bytes,
                        tx': Key, rx': Key, sessionId': bytes, salt': bytes)
    requires |sessionId| == |sessionId'| == 16
    ensures DeriveRekeyKeys(initiator, tx, rx, sessionId, salt) == DeriveRekeyKeys(initiator, tx', rx', sessionId', salt')
       <==> tx == tx' && rx == rx' && sessionId == sessionId' && salt == salt'
  {
    SplitSame(REKEY_LABEL, sessionId, sessionId');
  }

  lemma SplitSame(front: bytes, a: bytes, b: bytes)
    ensures front + a == front + b ==> a == b
  {
    if front + a == front + b {
      SplitEqual(front, a, front, b);
    }
  }

  /** The same of a handshake: the session keys determine the nonce, the two public keys they were derived for, and
      the pair of public keys behind the shared secret, and are determined by these. */
  lemma SessionKeysDetermined(own: bytes, peer: bytes, nonce: bytes, pubC: bytes, pubS: bytes,
                              own': bytes, peer': bytes, nonce': bytes, pubC': bytes, pubS': bytes, lowOrder: set<bytes>)
    requires |pubC| == |pubC'| == 32 && peer !in lowOrder && peer' !in lowOrder
    ensures DeriveSessionKeys(own, peer, lowOrder, nonce, pubC, pubS) == DeriveSessionKeys(own', peer', lowOrder, nonce', pubC', pubS')
       <==> nonce == nonce' && pubC == pubC' && pubS == pubS' && {own, peer} == {own', peer'}
  {
    var a, b := SESSION_LABEL + pubC + pubS, SESSION_LABEL + pubC' + pubS';
    if a == b {
      SplitEqual(SESSION_LABEL + pubC, pubS, SESSION_LABEL + pubC', pubS');
      SplitEqual(SESSION_LABEL, pubC, SESSION_LABEL, pubC');
    }
  }

  /** If the two ends hold crossed keys before a rekey, they hold crossed keys after it. */
  lemma RekeyCrosses(tx: Key, rx: Key, sessionId: bytes, salt: bytes)
    ensures DeriveRekeyKeys(true, tx, rx, sessionId, salt).0 == DeriveRekeyKeys(false, rx, tx, sessionId, salt).1
    ensures DeriveRekeyKeys(true, tx, rx, sessionId, salt).1 == DeriveRekeyKeys(false, rx, tx, sessionId, salt).0
  {
  }

  // ----- authenticated encryption -----

  function BuildAad(typeByte: byte, seqNo: nat, length: nat): (aad: bytes)
    requires seqNo <= MAX_SEQ && length < 0x1_0000
    ensures |aad| == 10
  {
    Pack16(MAGIC) + [VERSION] + [typeByte] + Pack32(seqNo) + Pack16(length)
  }

  /** The associated data determines every header field it is built from. */
  lemma AadInjective(t: byte, s: nat, l: nat, t': byte, s': nat, l': nat)
    requires s <= MAX_SEQ && s' <= MAX_SEQ && l < 0x1_0000 && l' < 0x1_0000
    requires BuildAad(t, s, l) == BuildAad(t', s', l')
    ensures t == t' && s == s' && l == l'
  {
    var a, b := BuildAad(t, s, l), BuildAad(t', s', l');
    assert a[3] == t && b[3] == t';
    assert a[4..8] == Pack32(s) && b[4..8] == Pack32(s');
    assert a[8..] == Pack16(l) && b[8..] == Pack16(l');
    Pack32Injective(s, s');
    Unpack16Pack16(l);
    Unpack16Pack16(l');
  }

  /** A payload as it travels: the explicit nonce, then ciphertext and tag, or noise. */
  datatype Payload =
    | Sealed(suite: CipherSuite, key: Key, nonce: bytes, aad: bytes, plaintext: bytes)
    | Noise(content: bytes)

  function PayloadLen(p: Payload): nat {
    match p
    case Sealed(_, _, n, _, m) => |n| + |m| + TAG_LEN
    case Noise(c) => |c|
  }

  /** The 12-byte nonce of sequence number `seqNo` in a session. */
  function Nonce(seqNo: nat, sessionId: bytes): (n: bytes)
    requires seqNo <= MAX_SEQ && |sessionId| == 16
    ensures |n| == NONCE_LEN
  {
    Pack32(seqNo) + sessionId[..8]
  }

  /** The nonce byte by byte: the number, low byte first, and the first eight bytes of the session id. */
  lemma NonceBytes(seqNo: nat, sessionId: bytes)
    requires seqNo <= MAX_SEQ && |sessionId| == 16
    ensures var n := Nonce(seqNo, sessionId);
      && n[0] == seqNo % 256 && n[1] == seqNo / 256 % 256 && n[2] == seqNo / 65536 % 256 && n[3] == seqNo / 16777216
      && n[4..] == sessionId[..8]
  {
    Pack32Bytes(seqNo);
  }

  lemma NonceInjective(m: nat, n: nat, sessionId: bytes)
    requires m <= MAX_SEQ && n <= MAX_SEQ && |sessionId| == 16
    requires Nonce(m, sessionId) == Nonce(n, sessionId)
    ensures m == n
  {
    SplitEqual(Pack32(m), sessionId[..8], Pack32(n), sessionId[..8]);
    Pack32Injective(m, n);
  }

  function Encrypt(suite: CipherSuite, key: Key, nonce: bytes, t: PacketType, seqNo: nat, plaintext: bytes): (p: Payload)
    requires seqNo <= MAX_SEQ && |plaintext| + 28 < 0x1_0000 && |nonce| == NONCE_LEN
    ensures PayloadLen(p) == 28 + |plaintext|
  {
    Sealed(suite, key, nonce, BuildAad(TypeByte(t), seqNo, 12 + |plaintext| + TAG_LEN), plaintext)
  }

  function Decrypt(suite: CipherSuite, key: Key, nonce: bytes, t: PacketType, seqNo: nat, p: Payload): Result<bytes>
    requires seqNo <= MAX_SEQ && PayloadLen(p) < 0x1_0000
  {
    if PayloadLen(p) < 12 + TAG_LEN then Err(CryptoError)
    else if p.Noise? then Err(CryptoError)
    else if p.nonce != nonce then Err(CryptoError)
    else if p.suite == suite && p.key == key && p.aad == BuildAad(TypeByte(t), seqNo, PayloadLen(p))
    then Ok(p.plaintext)
    else Err(CryptoError)
  }

  /** A box made by `Encrypt` opens exactly under the same suite, key, nonce, type and sequence
      number, and gives the plaintext back. */
  lemma OpensExactly(suite: CipherSuite, key: Key, nonce: bytes, t: PacketType, s: nat, m: bytes,
                     suite': CipherSuite, key': Key, nonce': bytes, t': PacketType, s': nat)
    requires s <= MAX_SEQ && s' <= MAX_SEQ && |m| + 28 < 0x1_0000 && |nonce| == |nonce'| == NONCE_LEN
    ensures var r := Decrypt(suite', key', nonce', t', s', Encrypt(suite, key, nonce, t, s, m));
      && (r.Ok? <==> suite == suite' && key == key' && nonce == nonce' && t == t' && s == s')
      && (r.Ok? ==> r.value == m)
  {
    hide BuildAad;
    hide TypeByte;
    if BuildAad(TypeByte(t), s, 28 + |m|) == BuildAad(TypeByte(t'), s', 28 + |m|) {
      AadInjective(TypeByte(t), s, 28 + |m|, TypeByte(t'), s', 28 + |m|);
      DistinctTypes(t);
      DistinctTypes(t');
    }
  }
}
