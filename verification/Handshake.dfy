/** The four-message handshake against a network that delivers whatever it likes.

Any number of clients and servers run at once.  Every payload an instance receives is chosen by the
network.  The one thing the network cannot do is invent an HMAC: a tag under a pre-shared key that
has not leaked was computed by some instance.  Ephemeral public keys are fresh.
*/
module Handshake {
  import opened Wire
  import opened Crypto

  const PUB_LEN := 32
  const CHALLENGE_LEN := 32
  const DEVICE_ID_LEN := 6
  const SESSION_ID_LEN := 16

  /** `_compute_hmac`: a tag is the term that says what it was computed from. */
  datatype Mac = Mac(psk: bytes, data: bytes)

  function ClientTagData(nonce: bytes, deviceId: bytes, pubC: bytes, pubS: bytes): bytes {
    Pack16(MAGIC) + [VERSION, TypeByte(HELLO_ACK)] + nonce + deviceId + pubC + pubS
  }

  function ServerTagData(nonce: bytes, sessionId: bytes, pubC: bytes, pubS: bytes): bytes {
    Pack16(MAGIC) + [VERSION, TypeByte(SESSION_OK)] + nonce + sessionId + pubC + pubS
  }

  /** What a finished handshake returns. */
  datatype Session = Session(deviceId: bytes, sessionId: bytes, tx: Key, rx: Key)

  datatype Challenge = Challenge(nonce: bytes, pubS: bytes, keys: (Key, Key))

  datatype Client = Client(psk: bytes, deviceId: bytes, pub: bytes, retried: bool,
                           challenge: Option<Challenge>, session: Option<Session>, failed: bool)

  datatype Hello = Hello(psk: bytes, deviceId: bytes, pubC: bytes, pub: bytes, nonce: bytes, keys: (Key, Key))

  datatype Server = Server(hello: Option<Hello>, session: Option<Session>, failed: bool)

  /** All instances, the tags they have computed, the public keys drawn, the leaked pre-shared keys,
      and the low-order points. */
  datatype World = World(clients: map<nat, Client>, servers: map<nat, Server>, tags: set<Mac>,
                         pubs: set<bytes>, leaked: set<bytes>, lowOrder: set<bytes>)

  datatype Step =
    | NewClient(id: nat, psk: bytes, deviceId: bytes, pub: bytes)
    | NewServer(id: nat)
    | ServerHears(id: nat, hello: bytes, found: Option<bytes>, pub: bytes, nonce: bytes)
    | ClientRetries(id: nat, cookie: bytes)
    | ClientHears(id: nat, challenge: bytes)
    | ServerChecks(id: nat, tag: Mac, sessionId: bytes)
    | ClientChecks(id: nat, sessionId: bytes, tag: Mac)
    | ClientDies(id: nat)
    | ServerDies(id: nat)
    | Leak(psk: bytes)

  /** A tag the network is able to present. */
  predicate Presentable(w: World, tag: Mac) {
    tag in w.tags || tag.psk in w.leaked
  }

  predicate ClientWaits(w: World, id: nat) {
    id in w.clients && !w.clients[id].failed && w.clients[id].session == None
  }

  predicate ServerWaits(w: World, id: nat) {
    id in w.servers && !w.servers[id].failed && w.servers[id].session == None
  }

  predicate FreshPub(w: World, pub: bytes) {
    |pub| == PUB_LEN && pub !in w.pubs
  }

  predicate Enabled(w: World, step: Step) {
    match step
    case NewClient(id, psk, _, pub) => id !in w.clients && |psk| >= 16 && FreshPub(w, pub)
    case NewServer(id) => id !in w.servers
    case ServerHears(id, _, _, pub, nonce) =>
      ServerWaits(w, id) && w.servers[id].hello == None && FreshPub(w, pub) && |nonce| == CHALLENGE_LEN
    case ClientRetries(id, _) => ClientWaits(w, id) && w.clients[id].challenge == None && !w.clients[id].retried
    case ClientHears(id, _) => ClientWaits(w, id) && w.clients[id].challenge == None
    case ServerChecks(id, tag, sessionId) =>
      ServerWaits(w, id) && w.servers[id].hello.Some? && Presentable(w, tag) && |sessionId| == SESSION_ID_LEN
    case ClientChecks(id, sessionId, tag) =>
      ClientWaits(w, id) && w.clients[id].challenge.Some? && Presentable(w, tag) && |sessionId| == SESSION_ID_LEN
    case ClientDies(id) => ClientWaits(w, id)
    case ServerDies(id) => ServerWaits(w, id)
    case Leak(_) => true
  }

  function PutClient(w: World, id: nat, c: Client): World {
    w.(clients := w.clients[id := c])
  }

  function PutServer(w: World, id: nat, s: Server): World {
    w.(servers := w.servers[id := s])
  }

  /** The server's answer to a HELLO payload: check its length, look up the key, derive. */
  function Answer(w: World, hello: bytes, psk: Option<bytes>, pub: bytes, nonce: bytes): Option<Hello> {
    if |hello| != 38 && |hello| != 54 then None
    else if psk == None || |psk.value| < 16 then None
    else
      var deviceId, pubC := hello[..6], hello[6..38];
      match DeriveSessionKeys(pub, pubC, w.lowOrder, nonce, pubC, pub)
      case Err(_) => None
      case Ok(keys) => Some(Hello(psk.value, deviceId, pubC, pub, nonce, keys))
  }

  /** The client's reading of a CHALLENGE payload. */
  function Heed(w: World, c: Client, challenge: bytes): Option<Challenge> {
    if |challenge| != CHALLENGE_LEN + PUB_LEN then None
    else
      var nonce, pubS := challenge[..CHALLENGE_LEN], challenge[CHALLENGE_LEN..];
      match DeriveSessionKeys(c.pub, pubS, w.lowOrder, nonce, c.pub, pubS)
      case Err(_) => None
      case Ok(keys) => Some(Challenge(nonce, pubS, keys))
  }

  function Apply(w: World, step: Step): World
    requires Enabled(w, step)
  {
    match step
    case NewClient(id, psk, deviceId, pub) =>
      PutClient(w, id, Client(psk, deviceId, pub, false, None, None, false)).(pubs := w.pubs + {pub})
    case NewServer(id) => PutServer(w, id, Server(None, None, false))
    case ServerHears(id, hello, psk, pub, nonce) =>
      var s := w.servers[id];
      var h := Answer(w, hello, psk, pub, nonce);
      PutServer(w, id, if h.Some? then s.(hello := h) else s.(failed := true)).(pubs := w.pubs + {pub})
    case ClientRetries(id, cookie) =>
      var c := w.clients[id];
      PutClient(w, id, if |cookie| == 16 then c.(retried := true) else c.(failed := true))
    case ClientHears(id, challenge) =>
      var c := w.clients[id];
      var h := Heed(w, c, challenge);
      if h == None then PutClient(w, id, c.(failed := true))
      else
        PutClient(w, id, c.(challenge := h))
        .(tags := w.tags + {Mac(c.psk, ClientTagData(h.value.nonce, c.deviceId, c.pub, h.value.pubS))})
    case ServerChecks(id, tag, sessionId) =>
      var s := w.servers[id];
      var h := s.hello.value;
      if tag != Mac(h.psk, ClientTagData(h.nonce, h.deviceId, h.pubC, h.pub)) then PutServer(w, id, s.(failed := true))
      else
        PutServer(w, id, s.(session := Some(Session(h.deviceId, sessionId, h.keys.1, h.keys.0))))
        .(tags := w.tags + {Mac(h.psk, ServerTagData(h.nonce, sessionId, h.pubC, h.pub))})
    case ClientChecks(id, sessionId, tag) =>
      var c := w.clients[id];
      var h := c.challenge.value;
      if tag != Mac(c.psk, ServerTagData(h.nonce, sessionId, c.pub, h.pubS)) || |c.deviceId| != DEVICE_ID_LEN
      then PutClient(w, id, c.(failed := true))
      else PutClient(w, id, c.(session := Some(Session(c.deviceId, sessionId, h.keys.0, h.keys.1))))
    case ClientDies(id) => PutClient(w, id, w.clients[id].(failed := true))
    case ServerDies(id) => PutServer(w, id, w.servers[id].(failed := true))
    case Leak(psk) => w.(leaked := w.leaked + {psk})
  }

  predicate Legal(w: World, steps: seq<Step>)
    decreases |steps|
  {
    steps == [] || (Enabled(w, steps[0]) && Legal(Apply(w, steps[0]), steps[1..]))
  }

  function Exec(w: World, steps: seq<Step>): World
    requires Legal(w, steps)
    decreases |steps|
  {
    if steps == [] then w else Exec(Apply(w, steps[0]), steps[1..])
  }

  function Empty(lowOrder: set<bytes>): World {
    World(map[], map[], {}, {}, {}, lowOrder)
  }

  // ----- what a tag's bytes determine -----

  /** A server's tag fixes every field it was computed from. */
  lemma ServerTagFields(n: bytes, s: bytes, c: bytes, p: bytes, n': bytes, s': bytes, c': bytes, p': bytes)
    requires |n| == |n'| && |s| == |s'| && |c| == |c'|
    requires ServerTagData(n, s, c, p) == ServerTagData(n', s', c', p')
    ensures n == n' && s == s' && c == c' && p == p'
  {
    var h := Pack16(MAGIC) + [VERSION, TypeByte(SESSION_OK)];
    assert |h + n + s + c + p| == |h + n' + s' + c' + p'|;
    SplitEqual(h + n + s + c, p, h + n' + s' + c', p');
    SplitEqual(h + n + s, c, h + n' + s', c');
    SplitEqual(h + n, s, h + n', s');
    SplitEqual(h, n, h, n');
  }

  /** A client's tag does too, even though a client may be given a device id of any length. */
  lemma ClientTagFields(n: bytes, d: bytes, c: bytes, p: bytes, n': bytes, d': bytes, c': bytes, p': bytes)
    requires |n| == |n'| && |c| == |c'| && |p| == |p'|
    requires ClientTagData(n, d, c, p) == ClientTagData(n', d', c', p')
    ensures n == n' && d == d' && c == c' && p == p'
  {
    var h := Pack16(MAGIC) + [VERSION, TypeByte(HELLO_ACK)];
    assert |h + n + d + c + p| == |h + n' + d' + c' + p'|;
    SplitEqual(h + n + d + c, p, h + n' + d' + c', p');
    SplitEqual(h + n + d, c, h + n' + d', c');
    SplitEqual(h + n, d, h + n', d');
    SplitEqual(h, n, h, n');
  }

  /** The two kinds of tag never coincide: their prefixes differ. */
  lemma TagKindsDiffer(n: bytes, d: bytes, c: bytes, p: bytes, n': bytes, s': bytes, c': bytes, p': bytes)
    ensures ClientTagData(n, d, c, p) != ServerTagData(n', s', c', p')
  {
    assert ClientTagData(n, d, c, p)[3] == TypeByte(HELLO_ACK);
    assert ServerTagData(n', s', c', p')[3] == TypeByte(SESSION_OK);
  }

  // ----- the invariant -----

  predicate ClientTag(w: World, id: nat, tag: Mac) {
    id in w.clients && w.clients[id].challenge.Some? &&
    var c := w.clients[id];
    tag == Mac(c.psk, ClientTagData(c.challenge.value.nonce, c.deviceId, c.pub, c.challenge.value.pubS))
  }

  predicate ServerTag(w: World, id: nat, tag: Mac) {
    id in w.servers && w.servers[id].hello.Some? && w.servers[id].session.Some? &&
    var h := w.servers[id].hello.value;
    tag == Mac(h.psk, ServerTagData(h.nonce, w.servers[id].session.value.sessionId, h.pubC, h.pub))
  }

  /** A tag in the world was computed by an instance that still remembers its inputs. */
  ghost predicate Computed(w: World, tag: Mac) {
    (exists id :: ClientTag(w, id, tag)) || (exists id :: ServerTag(w, id, tag))
  }

  predicate ClientGood(w: World, id: nat)
    requires id in w.clients
  {
    var c := w.clients[id];
    && |c.pub| == PUB_LEN && c.pub in w.pubs
    && (c.challenge.Some? ==>
          var h := c.challenge.value;
          && |h.nonce| == CHALLENGE_LEN && |h.pubS| == PUB_LEN
          && DeriveSessionKeys(c.pub, h.pubS, w.lowOrder, h.nonce, c.pub, h.pubS) == Ok(h.keys))
    && (c.session.Some? ==>
          && c.challenge.Some? && |c.session.value.sessionId| == SESSION_ID_LEN
          && c.session.value == Session(c.deviceId, c.session.value.sessionId, c.challenge.value.keys.0, c.challenge.value.keys.1)
          && Presentable(w, Mac(c.psk, ServerTagData(c.challenge.value.nonce, c.session.value.sessionId, c.pub, c.challenge.value.pubS))))
  }

  predicate ServerGood(w: World, id: nat)
    requires id in w.servers
  {
    var s := w.servers[id];
    && (s.hello.Some? ==>
          var h := s.hello.value;
          && |h.nonce| == CHALLENGE_LEN && |h.pubC| == PUB_LEN && |h.pub| == PUB_LEN && |h.deviceId| == DEVICE_ID_LEN
          && h.pub in w.pubs
          && DeriveSessionKeys(h.pub, h.pubC, w.lowOrder, h.nonce, h.pubC, h.pub) == Ok(h.keys))
    && (s.session.Some? ==>
          && s.hello.Some? && |s.session.value.sessionId| == SESSION_ID_LEN
          && var h := s.hello.value;
             s.session.value == Session(h.deviceId, s.session.value.sessionId, h.keys.1, h.keys.0)
             && Presentable(w, Mac(h.psk, ClientTagData(h.nonce, h.deviceId, h.pubC, h.pub))))
  }

  predicate DistinctClients(w: World) {
    forall i, j :: i in w.clients && j in w.clients && i != j ==> w.clients[i].pub != w.clients[j].pub
  }

  predicate Drew(w: World, id: nat) {
    id in w.servers && w.servers[id].hello.Some?
  }

  ghost predicate DistinctServers(w: World) {
    forall i, j :: Drew(w, i) && Drew(w, j) && i != j ==> w.servers[i].hello.value.pub != w.servers[j].hello.value.pub
  }

  ghost predicate Invariant(w: World) {
    && (forall id :: id in w.clients ==> ClientGood(w, id))
    && (forall id :: id in w.servers ==> ServerGood(w, id))
    && (forall tag :: tag in w.tags ==> Computed(w, tag))
    && DistinctClients(w) && DistinctServers(w)
  }

  predicate ClientExtends(c: Client, c': Client) {
    && c'.psk == c.psk && c'.deviceId == c.deviceId && c'.pub == c.pub
    && (c.challenge.Some? ==> c'.challenge == c.challenge) && (c.session.Some? ==> c'.session == c.session)
  }

  predicate ServerExtends(s: Server, s': Server) {
    (s.hello.Some? ==> s'.hello == s.hello) && (s.session.Some? ==> s'.session == s.session)
  }

  /** Nothing an instance has learned is forgotten by a step. */
  predicate Extends(w: World, w': World) {
    && w.tags <= w'.tags && w.pubs <= w'.pubs && w.leaked <= w'.leaked && w.lowOrder == w'.lowOrder
    && (forall id :: id in w.clients ==> id in w'.clients && ClientExtends(w.clients[id], w'.clients[id]))
    && (forall id :: id in w.servers ==> id in w'.servers && ServerExtends(w.servers[id], w'.servers[id]))
  }

  lemma StepExtendsClient(w: World, step: Step, id: nat)
    requires Enabled(w, step) && id in w.clients
    ensures id in Apply(w, step).clients && ClientExtends(w.clients[id], Apply(w, step).clients[id])
  {
    hide Answer;
    hide Heed;
    hide ClientTagData;
    hide ServerTagData;
  }

  lemma StepExtendsServer(w: World, step: Step, id: nat)
    requires Enabled(w, step) && id in w.servers
    ensures id in Apply(w, step).servers && ServerExtends(w.servers[id], Apply(w, step).servers[id])
  {
    hide Answer;
    hide Heed;
    hide ClientTagData;
    hide ServerTagData;
  }

  lemma StepExtendsNetwork(w: World, step: Step)
    requires Enabled(w, step)
    ensures var w' := Apply(w, step);
      w.tags <= w'.tags && w.pubs <= w'.pubs && w.leaked <= w'.leaked && w.lowOrder == w'.lowOrder
  {
    hide Answer;
    hide Heed;
    hide ClientTagData;
    hide ServerTagData;
  }

  lemma StepExtends(w: World, step: Step)
    requires Enabled(w, step)
    ensures Extends(w, Apply(w, step))
  {
    hide Apply;
    hide ClientExtends;
    hide ServerExtends;
    StepExtendsNetwork(w, step);
    var w' := Apply(w, step);
    forall id | id in w.clients ensures id in w'.clients && ClientExtends(w.clients[id], w'.clients[id]) {
      StepExtendsClient(w, step, id);
    }
    forall id | id in w.servers ensures id in w'.servers && ServerExtends(w.servers[id], w'.servers[id]) {
      StepExtendsServer(w, step, id);
    }
  }

  lemma TagsStayComputed(w: World, w': World, tag: Mac)
    requires Extends(w, w') && Computed(w, tag)
    ensures Computed(w', tag)
  {
    if id :| ClientTag(w, id, tag) {
      assert ClientTag(w', id, tag);
    } else {
      var id :| ServerTag(w, id, tag);
      assert ServerTag(w', id, tag);
    }
  }

  lemma StepComputes(w: World, step: Step)
    requires Invariant(w) && Enabled(w, step)
    ensures forall tag :: tag in Apply(w, step).tags ==> Computed(Apply(w, step), tag)
  {
    var w' := Apply(w, step);
    StepExtends(w, step);
    forall tag | tag in w'.tags ensures Computed(w', tag) {
      if tag in w.tags {
        TagsStayComputed(w, w', tag);
      } else if step.ClientHears? {
        assert ClientTag(w', step.id, tag);
      } else {
        assert ServerTag(w', step.id, tag);
      }
    }
  }

  lemma ClientStaysGood(w: World, step: Step, id: nat)
    requires (forall i :: i in w.clients ==> ClientGood(w, i)) && Enabled(w, step) && id in Apply(w, step).clients
    ensures ClientGood(Apply(w, step), id)
  {
    hide ClientTagData;
    hide ServerTagData;
    hide DeriveSessionKeys;
    hide Answer;
    if id in w.clients {
      assert ClientGood(w, id);
    }
  }

  lemma ServerStaysGood(w: World, step: Step, id: nat)
    requires (forall i :: i in w.servers ==> ServerGood(w, i)) && Enabled(w, step) && id in Apply(w, step).servers
    ensures ServerGood(Apply(w, step), id)
  {
    hide ClientTagData;
    hide ServerTagData;
    hide DeriveSessionKeys;
    hide Heed;
    if id in w.servers {
      assert ServerGood(w, id);
    }
  }

  lemma StepGood(w: World, step: Step)
    requires Invariant(w) && Enabled(w, step)
    ensures forall id :: id in Apply(w, step).clients ==> ClientGood(Apply(w, step), id)
    ensures forall id :: id in Apply(w, step).servers ==> ServerGood(Apply(w, step), id)
  {
    hide Apply;
    hide ClientGood;
    hide ServerGood;
    forall id | id in Apply(w, step).clients ensures ClientGood(Apply(w, step), id) {
      ClientStaysGood(w, step, id);
    }
    forall id | id in Apply(w, step).servers ensures ServerGood(Apply(w, step), id) {
      ServerStaysGood(w, step, id);
    }
  }

  /** Only a step that draws a key adds one, and it draws one nobody has. */
  lemma ClientsStayDistinct(w: World, step: Step)
    requires DistinctClients(w) && (forall id :: id in w.clients ==> w.clients[id].pub in w.pubs) && Enabled(w, step)
    ensures DistinctClients(Apply(w, step))
  {
    hide Apply;
    var w' := Apply(w, step);
    forall i | i in w'.clients
      ensures if i in w.clients then w'.clients[i].pub == w.clients[i].pub
              else step.NewClient? && i == step.id && w'.clients[i].pub !in w.pubs
    {
      if i in w.clients {
        StepExtendsClient(w, step, i);
      } else {
        NewClientDraws(w, step, i);
      }
    }
  }

  lemma NewClientDraws(w: World, step: Step, id: nat)
    requires Enabled(w, step) && id in Apply(w, step).clients && id !in w.clients
    ensures step.NewClient? && id == step.id && Apply(w, step).clients[id].pub !in w.pubs
  {
    hide ClientTagData;
    hide ServerTagData;
    hide Answer;
    hide Heed;
  }

  lemma ServersStayDistinct(w: World, step: Step)
    requires DistinctServers(w) && (forall id :: Drew(w, id) ==> w.servers[id].hello.value.pub in w.pubs) && Enabled(w, step)
    ensures DistinctServers(Apply(w, step))
  {
    hide ClientTagData;
    hide ServerTagData;
    hide Heed;
    hide DeriveSessionKeys;
    var w' := Apply(w, step);
    if step.ServerHears? {
      assert forall i :: i != step.id && Drew(w', i) ==> Drew(w, i) && w'.servers[i] == w.servers[i];
      assert Drew(w', step.id) ==> w'.servers[step.id].hello.value.pub !in w.pubs;
    } else {
      hide Answer;
      assert forall i :: Drew(w', i) ==> Drew(w, i) && w'.servers[i].hello == w.servers[i].hello;
    }
  }

  lemma StepDistinct(w: World, step: Step)
    requires Invariant(w) && Enabled(w, step)
    ensures DistinctClients(Apply(w, step)) && DistinctServers(Apply(w, step))
  {
    hide Computed;
    hide DeriveSessionKeys;
    hide ClientTagData;
    hide ServerTagData;
    forall id | id in w.clients ensures w.clients[id].pub in w.pubs {
      assert ClientGood(w, id);
    }
    forall id | Drew(w, id) ensures w.servers[id].hello.value.pub in w.pubs {
      assert ServerGood(w, id);
    }
    hide Apply;
    hide DistinctClients;
    hide DistinctServers;
    ClientsStayDistinct(w, step);
    ServersStayDistinct(w, step);
  }

  lemma {:induction false} RunKeeps(w: World, steps: seq<Step>)
    requires Invariant(w) && Legal(w, steps)
    ensures Invariant(Exec(w, steps))
    decreases |steps|
  {
    if steps != [] {
      StepComputes(w, steps[0]);
      StepGood(w, steps[0]);
      StepDistinct(w, steps[0]);
      RunKeeps(Apply(w, steps[0]), steps[1..]);
    }
  }

  // ----- agreement -----

  /** The two instances ran the same handshake and hold crossed keys. */
  predicate Agree(c: Client, s: Server) {
    && c.challenge.Some? && s.hello.Some? && s.session.Some?
    && var h, k := s.hello.value, c.challenge.value;
       && h.psk == c.psk && h.nonce == k.nonce && h.pubC == c.pub && h.pub == k.pubS && h.deviceId == c.deviceId
       && s.session.value.tx == k.keys.1 && s.session.value.rx == k.keys.0
  }

  /** A server that finished under an unleaked key talks to the one client whose key it saw, about
      the same nonce, keys and device. */
  lemma ServerKnowsClient(w: World, id: nat) returns (c: nat)
    requires Invariant(w) && id in w.servers && w.servers[id].session.Some?
    requires w.servers[id].hello.Some? && w.servers[id].hello.value.psk !in w.leaked
    ensures c in w.clients && Agree(w.clients[c], w.servers[id])
    ensures forall other :: other in w.clients && Agree(w.clients[other], w.servers[id]) ==> other == c
  {
    assert ServerGood(w, id);
    var h := w.servers[id].hello.value;
    var tag := Mac(h.psk, ClientTagData(h.nonce, h.deviceId, h.pubC, h.pub));
    assert tag in w.tags && Computed(w, tag);
    if i :| ServerTag(w, i, tag) {
      var g := w.servers[i].hello.value;
      TagKindsDiffer(h.nonce, h.deviceId, h.pubC, h.pub, g.nonce, w.servers[i].session.value.sessionId, g.pubC, g.pub);
      assert false;
    }
    c :| ClientTag(w, c, tag);
    assert ClientGood(w, c);
    var k := w.clients[c].challenge.value;
    ClientTagFields(h.nonce, h.deviceId, h.pubC, h.pub, k.nonce, w.clients[c].deviceId, w.clients[c].pub, k.pubS);
    SessionKeysAgree(h.pubC, h.pub, h.nonce, w.lowOrder);
  }

  /** In every run, a client that finishes under an unleaked key has exactly one server that agrees
      with it on nonce, both public keys, session id and device id and holds the crossed keys. */
  lemma ClientAgreement(lowOrder: set<bytes>, steps: seq<Step>, id: nat) returns (s: nat)
    requires Legal(Empty(lowOrder), steps)
    requires var w := Exec(Empty(lowOrder), steps);
      id in w.clients && w.clients[id].session.Some? && w.clients[id].psk !in w.leaked
    ensures var w := Exec(Empty(lowOrder), steps);
      && s in w.servers && Agree(w.clients[id], w.servers[s])
      && var mine, theirs := w.clients[id].session.value, w.servers[s].session.value;
         && mine.sessionId == theirs.sessionId && mine.deviceId == theirs.deviceId
         && mine.tx == theirs.rx && mine.rx == theirs.tx
         && forall other :: other in w.servers && Agree(w.clients[id], w.servers[other]) ==> other == s
  {
    var w := Exec(Empty(lowOrder), steps);
    RunKeeps(Empty(lowOrder), steps);
    assert ClientGood(w, id);
    var c := w.clients[id];
    var k, sid := c.challenge.value, c.session.value.sessionId;
    var tag := Mac(c.psk, ServerTagData(k.nonce, sid, c.pub, k.pubS));
    assert tag in w.tags && Computed(w, tag);
    if i :| ClientTag(w, i, tag) {
      var d := w.clients[i];
      TagKindsDiffer(d.challenge.value.nonce, d.deviceId, d.pub, d.challenge.value.pubS, k.nonce, sid, c.pub, k.pubS);
      assert false;
    }
    s :| ServerTag(w, s, tag);
    assert ServerGood(w, s);
    var h := w.servers[s].hello.value;
    ServerTagFields(k.nonce, sid, c.pub, k.pubS, h.nonce, w.servers[s].session.value.sessionId, h.pubC, h.pub);
    var back := ServerKnowsClient(w, s);
    assert w.clients[back].pub == c.pub;
  }

  /** And in every run a server that finishes under an unleaked key has exactly one client that
      agrees with it on everything but the session id, which that client has yet to hear. */
  lemma ServerAgreement(lowOrder: set<bytes>, steps: seq<Step>, id: nat) returns (c: nat)
    requires Legal(Empty(lowOrder), steps)
    requires var w := Exec(Empty(lowOrder), steps);
      && id in w.servers && w.servers[id].session.Some? && w.servers[id].hello.Some?
      && w.servers[id].hello.value.psk !in w.leaked
    ensures var w := Exec(Empty(lowOrder), steps);
      && c in w.clients && Agree(w.clients[c], w.servers[id])
      && forall other :: other in w.clients && Agree(w.clients[other], w.servers[id]) ==> other == c
  {
    RunKeeps(Empty(lowOrder), steps);
    c := ServerKnowsClient(Exec(Empty(lowOrder), steps), id);
  }

  // ----- what each message is checked for -----

  /** What the tag in a HELLO_ACK is computed over: magic, version, type, and the four fields in this order. */
  function HelloAckBytes(nonce: bytes, deviceId: bytes, pubC: bytes, pubS: bytes): bytes {
    [0xCD, 0xAB, 2, 3] + nonce + deviceId + pubC + pubS
  }

  /** What the tag in a SESSION_OK is computed over. */
  function SessionOkBytes(nonce: bytes, sessionId: bytes, pubC: bytes, pubS: bytes): bytes {
    [0xCD, 0xAB, 2, 4] + nonce + sessionId + pubC + pubS
  }

  lemma TagBytes(nonce: bytes, id: bytes, pubC: bytes, pubS: bytes)
    ensures ClientTagData(nonce, id, pubC, pubS) == HelloAckBytes(nonce, id, pubC, pubS)
    ensures ServerTagData(nonce, id, pubC, pubS) == SessionOkBytes(nonce, id, pubC, pubS)
  {
    assert Pack16(MAGIC) == [0xCD, 0xAB];
    assert Pack16(MAGIC) + [VERSION, TypeByte(HELLO_ACK)] == [0xCD, 0xAB, 2, 3];
    assert Pack16(MAGIC) + [VERSION, TypeByte(SESSION_OK)] == [0xCD, 0xAB, 2, 4];
  }

  /** A server takes a HELLO if and only if it is 38 or 54 bytes long, a key of at least 16 bytes is found for it, and its
      public key is not low-order; it then holds the first six bytes as the device id and the next 32 as that key.
      It takes a HELLO_ACK if and only if its tag is the one over these and its own nonce and public key. */
  lemma ServerChecksExactly(w: World, step: Step)
    requires Enabled(w, step) && (step.ServerHears? || step.ServerChecks?)
    ensures var s' := Apply(w, step).servers[step.id];
      match step
      case ServerHears(_, hello, found, pub, nonce) =>
        if (|hello| == 38 || |hello| == 54) && found.Some? && |found.value| >= 16 && hello[6..38] !in w.lowOrder then
          && !s'.failed && s'.session == None && s'.hello.Some?
          && DeriveSessionKeys(pub, hello[6..38], w.lowOrder, nonce, hello[6..38], pub) == Ok(s'.hello.value.keys)
          && s'.hello.value == Hello(found.value, hello[..6], hello[6..38], pub, nonce, s'.hello.value.keys)
        else s'.failed && s'.hello == None
      case ServerChecks(_, tag, sessionId) =>
        var h := w.servers[step.id].hello.value;
        if tag == Mac(h.psk, HelloAckBytes(h.nonce, h.deviceId, h.pubC, h.pub)) then
          && !s'.failed && s'.session == Some(Session(h.deviceId, sessionId, h.keys.1, h.keys.0))
          && Mac(h.psk, SessionOkBytes(h.nonce, sessionId, h.pubC, h.pub)) in Apply(w, step).tags
        else s'.failed && s'.session == None
  {
    if step.ServerChecks? {
      var h := w.servers[step.id].hello.value;
      TagBytes(h.nonce, h.deviceId, h.pubC, h.pub);
      TagBytes(h.nonce, step.sessionId, h.pubC, h.pub);
    }
    hide ClientTagData;
    hide ServerTagData;
    hide HelloAckBytes;
    hide SessionOkBytes;
  }

  /** A client takes a HELLO_RETRY if and only if it is 16 bytes long, and a CHALLENGE if and only if it is 64 bytes long
      and its public key is not low-order; it then answers with its tag.  It takes a SESSION_OK if and only if its tag is
      the one over these and its own public key; a device id of another length than six is refused only then. */
  lemma ClientChecksExactly(w: World, step: Step)
    requires Enabled(w, step) && (step.ClientRetries? || step.ClientHears? || step.ClientChecks?)
    ensures var c, c' := w.clients[step.id], Apply(w, step).clients[step.id];
      match step
      case ClientRetries(_, cookie) => c' == if |cookie| == 16 then c.(retried := true) else c.(failed := true)
      case ClientHears(_, challenge) =>
        if |challenge| == 64 && challenge[32..] !in w.lowOrder then
          && !c'.failed && c'.session == None && c'.challenge.Some?
          && DeriveSessionKeys(c.pub, challenge[32..], w.lowOrder, challenge[..32], c.pub, challenge[32..]) == Ok(c'.challenge.value.keys)
          && c'.challenge.value == Challenge(challenge[..32], challenge[32..], c'.challenge.value.keys)
          && Mac(c.psk, HelloAckBytes(challenge[..32], c.deviceId, c.pub, challenge[32..])) in Apply(w, step).tags
        else c'.failed && c'.challenge == None
      case ClientChecks(_, sessionId, tag) =>
        var h := c.challenge.value;
        if tag == Mac(c.psk, SessionOkBytes(h.nonce, sessionId, c.pub, h.pubS)) && |c.deviceId| == 6 then
          !c'.failed && c'.session == Some(Session(c.deviceId, sessionId, h.keys.0, h.keys.1))
        else c'.failed && c'.session == None
  {
    var c := w.clients[step.id];
    if step.ClientHears? && |step.challenge| == 64 {
      TagBytes(step.challenge[..32], c.deviceId, c.pub, step.challenge[32..]);
    } else if step.ClientChecks? {
      TagBytes(c.challenge.value.nonce, step.sessionId, c.pub, c.challenge.value.pubS);
    }
    hide ClientTagData;
    hide ServerTagData;
    hide HelloAckBytes;
    hide SessionOkBytes;
  }

  // ----- completion -----

  /** What the parties of an honest handshake choose. */
  datatype Choices = Choices(psk: bytes, deviceId: bytes, pubC: bytes, pubS: bytes, nonce: bytes, sessionId: bytes)

  predicate Proper(ch: Choices, lowOrder: set<bytes>) {
    && |ch.psk| >= 16 && |ch.deviceId| == 6 && |ch.pubC| == |ch.pubS| == 32 && ch.pubC != ch.pubS
    && |ch.nonce| == 32 && |ch.sessionId| == 16 && ch.pubC !in lowOrder && ch.pubS !in lowOrder
  }

  function HelloAckTag(ch: Choices): Mac {
    Mac(ch.psk, HelloAckBytes(ch.nonce, ch.deviceId, ch.pubC, ch.pubS))
  }

  function SessionOkTag(ch: Choices): Mac {
    Mac(ch.psk, SessionOkBytes(ch.nonce, ch.sessionId, ch.pubC, ch.pubS))
  }

  /** The messages of one client and one server, delivered as they are sent.  Over UDP the client first hears a
      HELLO_RETRY and sends its HELLO again with the 16-byte cookie. */
  function Honest(ch: Choices, cookie: Option<bytes>): seq<Step> {
    [NewClient(0, ch.psk, ch.deviceId, ch.pubC), NewServer(0)]
    + (if cookie.Some? then [ClientRetries(0, cookie.value)] else [])
    + [ServerHears(0, ch.deviceId + ch.pubC + (if cookie.Some? then cookie.value else []), Some(ch.psk), ch.pubS, ch.nonce),
       ClientHears(0, ch.nonce + ch.pubS),
       ServerChecks(0, HelloAckTag(ch), ch.sessionId),
       ClientChecks(0, ch.sessionId, SessionOkTag(ch))]
  }

  lemma HonestAnswer(w: World, ch: Choices, cookie: bytes)
    requires Proper(ch, w.lowOrder) && (cookie == [] || |cookie| == 16)
    ensures var h := Answer(w, ch.deviceId + ch.pubC + cookie, Some(ch.psk), ch.pubS, ch.nonce);
      && h.Some? && DeriveSessionKeys(ch.pubC, ch.pubS, w.lowOrder, ch.nonce, ch.pubC, ch.pubS) == Ok(h.value.keys)
      && h.value == Hello(ch.psk, ch.deviceId, ch.pubC, ch.pubS, ch.nonce, h.value.keys)
  {
    var hello := ch.deviceId + ch.pubC + cookie;
    assert hello[..6] == ch.deviceId && hello[6..38] == ch.pubC;
    SessionKeysAgree(ch.pubC, ch.pubS, ch.nonce, w.lowOrder);
  }

  lemma HonestHeed(w: World, ch: Choices, c: Client)
    requires Proper(ch, w.lowOrder) && c.pub == ch.pubC
    ensures var h := Heed(w, c, ch.nonce + ch.pubS);
      && h.Some? && DeriveSessionKeys(ch.pubC, ch.pubS, w.lowOrder, ch.nonce, ch.pubC, ch.pubS) == Ok(h.value.keys)
      && h.value == Challenge(ch.nonce, ch.pubS, h.value.keys)
  {
    var challenge := ch.nonce + ch.pubS;
    assert challenge[..32] == ch.nonce && challenge[32..] == ch.pubS;
  }

  lemma HonestTags(ch: Choices)
    ensures HelloAckTag(ch) == Mac(ch.psk, ClientTagData(ch.nonce, ch.deviceId, ch.pubC, ch.pubS))
    ensures SessionOkTag(ch) == Mac(ch.psk, ServerTagData(ch.nonce, ch.sessionId, ch.pubC, ch.pubS))
  {
    TagBytes(ch.nonce, ch.deviceId, ch.pubC, ch.pubS);
    TagBytes(ch.nonce, ch.sessionId, ch.pubC, ch.pubS);
  }

  /** One step and then a run. */
  lemma First(w: World, step: Step, rest: seq<Step>)
    requires Enabled(w, step) && Legal(Apply(w, step), rest)
    ensures Legal(w, [step] + rest) && Exec(w, [step] + rest) == Exec(Apply(w, step), rest)
  {
    hide Apply;
    hide Enabled;
    assert ([step] + rest)[1..] == rest;
  }

  /** Nothing has happened yet but the client's and the server's start, and perhaps a retry. */
  predicate Begun(w: World, ch: Choices, retried: bool) {
    && w.clients == map[0 := Client(ch.psk, ch.deviceId, ch.pubC, retried, None, None, false)]
    && w.servers == map[0 := Server(None, None, false)] && w.pubs == {ch.pubC} && w.tags == {}
  }

  /** Both ends have finished, about the same device and session, with crossed keys. */
  predicate Finished(w: World, ch: Choices) {
    && 0 in w.clients && 0 in w.servers && w.clients[0].session.Some? && w.servers[0].session.Some?
    && var c, s := w.clients[0].session.value, w.servers[0].session.value;
       && c.deviceId == s.deviceId == ch.deviceId && c.sessionId == s.sessionId == ch.sessionId
       && c.tx == s.rx && c.rx == s.tx && c.tx != c.rx
  }

  /** Both have computed the keys, and the client's tag is on its way. */
  predicate Exchanged(w: World, ch: Choices, keys: (Key, Key)) {
    && 0 in w.clients && 0 in w.servers && keys.0 != keys.1
    && w.clients[0] == Client(ch.psk, ch.deviceId, ch.pubC, w.clients[0].retried, Some(Challenge(ch.nonce, ch.pubS, keys)), None, false)
    && w.servers[0] == Server(Some(Hello(ch.psk, ch.deviceId, ch.pubC, ch.pubS, ch.nonce, keys)), None, false)
    && HelloAckTag(ch) in w.tags
  }

  lemma FirstTwo(w: World, ch: Choices, cookie: bytes) returns (keys: (Key, Key))
    requires Proper(ch, w.lowOrder) && Begun(w, ch, cookie != []) && (cookie == [] || |cookie| == 16)
    ensures var a := ServerHears(0, ch.deviceId + ch.pubC + cookie, Some(ch.psk), ch.pubS, ch.nonce);
      var b := ClientHears(0, ch.nonce + ch.pubS);
      Enabled(w, a) && Enabled(Apply(w, a), b) && Exchanged(Apply(Apply(w, a), b), ch, keys)
  {
    HonestTags(ch);
    HonestAnswer(w, ch, cookie);
    keys := DeriveSessionKeys(ch.pubC, ch.pubS, w.lowOrder, ch.nonce, ch.pubC, ch.pubS).value;
    var a := ServerHears(0, ch.deviceId + ch.pubC + cookie, Some(ch.psk), ch.pubS, ch.nonce);
    hide ClientTagData;
    hide ServerTagData;
    hide HelloAckTag;
    hide Answer;
    var w1 := Apply(w, a);
    HonestHeed(w1, ch, w1.clients[0]);
    hide Heed;
    hide DeriveSessionKeys;
  }

  lemma LastTwo(w: World, ch: Choices, keys: (Key, Key))
    requires |ch.deviceId| == 6 && |ch.sessionId| == 16 && Exchanged(w, ch, keys)
    ensures var c := ServerChecks(0, HelloAckTag(ch), ch.sessionId);
      var d := ClientChecks(0, ch.sessionId, SessionOkTag(ch));
      Enabled(w, c) && Enabled(Apply(w, c), d) && Finished(Apply(Apply(w, c), d), ch)
  {
    HonestTags(ch);
    hide ClientTagData;
    hide ServerTagData;
    hide HelloAckTag;
    hide SessionOkTag;
    hide Answer;
    hide Heed;
  }

  /** From there the four messages finish the handshake. */
  lemma FourMessages(w: World, ch: Choices, cookie: bytes) returns (steps: seq<Step>)
    requires Proper(ch, w.lowOrder) && Begun(w, ch, cookie != []) && (cookie == [] || |cookie| == 16)
    ensures steps == [ServerHears(0, ch.deviceId + ch.pubC + cookie, Some(ch.psk), ch.pubS, ch.nonce), ClientHears(0, ch.nonce + ch.pubS),
                      ServerChecks(0, HelloAckTag(ch), ch.sessionId), ClientChecks(0, ch.sessionId, SessionOkTag(ch))]
    ensures Legal(w, steps) && Finished(Exec(w, steps), ch)
  {
    hide Legal;
    hide Exec;
    hide Apply;
    hide Enabled;
    hide Finished;
    hide Exchanged;
    hide Begun;
    var keys := FirstTwo(w, ch, cookie);
    var a := ServerHears(0, ch.deviceId + ch.pubC + cookie, Some(ch.psk), ch.pubS, ch.nonce);
    var b := ClientHears(0, ch.nonce + ch.pubS);
    var c := ServerChecks(0, HelloAckTag(ch), ch.sessionId);
    var d := ClientChecks(0, ch.sessionId, SessionOkTag(ch));
    var w1 := Apply(w, a);
    var w2 := Apply(w1, b);
    LastTwo(w2, ch, keys);
    var w3 := Apply(w2, c);
    Nothing(Apply(w3, d));
    First(w3, d, []);
    First(w2, c, [d] + []);
    First(w1, b, [c] + ([d] + []));
    First(w, a, [b] + ([c] + ([d] + [])));
    steps := [a] + ([b] + ([c] + ([d] + [])));
  }

  lemma Nothing(w: World)
    ensures Legal(w, []) && Exec(w, []) == w
  {
  }

  /** An honest handshake finishes, with and without a cookie, and both ends then agree. */
  lemma HonestCompletes(ch: Choices, cookie: Option<bytes>, lowOrder: set<bytes>)
    requires Proper(ch, lowOrder) && (cookie.Some? ==> |cookie.value| == 16)
    ensures Legal(Empty(lowOrder), Honest(ch, cookie))
    ensures Finished(Exec(Empty(lowOrder), Honest(ch, cookie)), ch)
  {
    hide Legal;
    hide Exec;
    hide Finished;
    var w0 := Empty(lowOrder);
    var a, b := NewClient(0, ch.psk, ch.deviceId, ch.pubC), NewServer(0);
    var w1 := Apply(w0, a);
    var w2 := Apply(w1, b);
    assert w2.clients == map[0 := Client(ch.psk, ch.deviceId, ch.pubC, false, None, None, false)];
    assert Begun(w2, ch, false);
    if cookie == None {
      var rest := FourMessages(w2, ch, []);
      First(w1, b, rest);
      First(w0, a, [b] + rest);
      assert Honest(ch, cookie) == [a] + ([b] + rest);
    } else {
      var r := ClientRetries(0, cookie.value);
      var w3 := Apply(w2, r);
      assert w3.clients == map[0 := Client(ch.psk, ch.deviceId, ch.pubC, true, None, None, false)];
      var rest := FourMessages(w3, ch, cookie.value);
      First(w2, r, rest);
      First(w1, b, [r] + rest);
      First(w0, a, [b] + ([r] + rest));
      assert Honest(ch, cookie) == [a] + ([b] + ([r] + rest));
    }
  }
}
