/** What `recv` can return over UDP, whatever subset of the peer's frames arrives in whatever order. */
module Reassembly {
  import opened Wire
  import opened Crypto
  import opened Session
  import opened Transfer
  import opened ReplayWindow

  /** Frame `i` of an epoch in which the sender seals `log` from number zero. */
  function LogFrame(sender: Info, log: seq<Chunk>, i: nat): (f: Frame)
    requires i < |log| <= MAX_SEQ
    ensures f.seqNo == i && f.ptype == log[i].ptype
  {
    Seal(sender.(txSeq := i), log[i]).value.1
  }

  /** Anything the network can present: any header, over any payload that is not sealed under the
      receiver's key or is the payload of a frame of the log. */
  predicate Plausible(sender: Info, log: seq<Chunk>, rxKey: Key, f: Frame)
    requires |log| <= MAX_SEQ
  {
    f.payload.Sealed? && f.payload.key == rxKey ==>
      exists i :: 0 <= i < |log| && f.payload == LogFrame(sender, log, i).payload
  }

  /** A run of chunks that are all fragments. */
  predicate AllFragments(log: seq<Chunk>, first: nat, end: nat)
    requires first <= end <= |log|
  {
    forall k :: first <= k < end ==> log[k].ptype == DATA_FRAG
  }

  /** The partial message is a run of at most three consecutive accepted fragments. */
  predicate Explained(log: seq<Chunk>, accepted: set<nat>, r: Rx) {
    if r.count == 0 then r.assembled == []
    else
      && r.count < MAX_FRAMES && r.count <= r.expected <= |log|
      && AllFragments(log, r.expected - r.count, r.expected)
      && (forall k :: r.expected - r.count <= k < r.expected ==> k in accepted)
      && r.assembled == Joined(log[r.expected - r.count..r.expected])
  }

  /** A message made of at most four consecutive chunks, the last DATA, the others fragments. */
  predicate Shaped(log: seq<Chunk>, message: bytes, first: nat, n: nat) {
    && 1 <= n <= MAX_FRAMES && first + n <= |log|
    && AllFragments(log, first, first + n - 1) && log[first + n - 1].ptype == DATA
    && message == Joined(log[first..first + n])
  }

  /** The same, with every chunk accepted by the replay window. */
  predicate Assembled(log: seq<Chunk>, accepted: set<nat>, message: bytes, first: nat, n: nat) {
    Shaped(log, message, first, n) && forall k :: first <= k < first + n ==> k in accepted
  }

  /** What befalls a reader over UDP: a frame arrives, or the call under way is given up, by its timeout
      or a cancellation, and its partial message with it. */
  datatype Event = Arrives(frame: Frame) | GivenUp

  /** One `recv` call after another: what becomes of each frame, and the state arrived at. */
  function UdpRun(r: Rx, events: seq<Event>): (seq<Verdict>, Rx)
    decreases |events|
  {
    if events == [] then ([], r)
    else match events[0]
      case GivenUp => UdpRun(Idle(r.info), events[1..])
      case Arrives(f) =>
        var (r', v) := Receive(false, r, f);
        var (vs, last) := UdpRun(r', events[1..]);
        ([v] + vs, last)
  }

  predicate AllPlausible(sender: Info, log: seq<Chunk>, rxKey: Key, events: seq<Event>)
    requires |log| <= MAX_SEQ
  {
    forall k :: 0 <= k < |events| && events[k].Arrives? ==> Plausible(sender, log, rxKey, events[k].frame)
  }

  predicate Synced(sender: Info, i: Info) {
    sender.txKey == i.rxKey && sender.suite == i.suite && sender.sessionId == i.sessionId
  }

  predicate NoRekey(log: seq<Chunk>) {
    forall k :: 0 <= k < |log| ==> log[k].ptype != REKEY
  }

  /** Extending an explained assembly by the chunk it expects. */
  lemma ExtendRun(log: seq<Chunk>, accepted: set<nat>, r: Rx, i: nat) returns (first: nat)
    requires i < |log| && i in accepted && Explained(log, accepted, r) && (r.count == 0 || i == r.expected)
    ensures first + r.count == i && AllFragments(log, first, i)
    ensures forall k :: first <= k <= i ==> k in accepted
    ensures r.assembled + log[i].plaintext == Joined(log[first..i + 1])
  {
    first := i - r.count;
    assert log[first..i + 1] == log[first..i] + [log[i]];
    JoinedAppend(log[first..i], log[i]);
    if r.count == 0 {
      assert log[first..i] == [];
    }
  }

  /** What an accepted chunk of the log does to an explained assembly. */
  lemma ChunkExplained(log: seq<Chunk>, accepted: set<nat>, r: Rx, i: nat) returns (first: nat, n: nat)
    requires i < |log| && i in accepted && NoRekey(log) && Explained(log, accepted, r)
    ensures var (r', v) := Interpret(false, r, log[i].ptype, i, log[i].plaintext);
      && Explained(log, accepted, r') && r'.info == r.info
      && (v.Delivered? ==> Assembled(log, accepted, v.message, first, n))
  {
    first, n := 0, 0;
    if log[i].ptype != DATA && log[i].ptype != DATA_FRAG {
      assert log[i].ptype != REKEY;
    } else if r.count == 0 || i == r.expected {
      first := ExtendRun(log, accepted, r, i);
      n := r.count + 1;
      hide Joined;
      if log[i].ptype == DATA {
        assert Shaped(log, r.assembled + log[i].plaintext, first, n);
      }
    }
  }

  /** What one frame does to a receiver in an explained state. */
  lemma FrameExplained(sender: Info, log: seq<Chunk>, accepted: set<nat>, r: Rx, f: Frame)
    returns (accepted': set<nat>, first: nat, n: nat)
    requires |log| <= MAX_SEQ && NoRekey(log) && Synced(sender, r.info)
    requires Represents(r.info.window, accepted) && Explained(log, accepted, r)
    requires Plausible(sender, log, r.info.rxKey, f)
    ensures var (r', v) := Receive(false, r, f);
      && accepted <= accepted' && Represents(r'.info.window, accepted')
      && Explained(log, accepted', r') && Synced(sender, r'.info) && r'.info.rxKey == r.info.rxKey
      && (v.Delivered? ==> Assembled(log, accepted', v.message, first, n))
  {
    accepted', first, n := accepted, 0, 1;
    hide Represents;
    hide Interpret;
    hide Accept;
    hide Explained;
    if i :| 0 <= i < |log| && f == LogFrame(sender, log, i) && Admits(r.info.window, i) {
      hide Receive;
      accepted' := accepted + {i};
      first, n := AdmittedExplained(sender, log, accepted, r, i);
    } else {
      ElseIgnored(sender, log, r.info, f);
      hide Open;
    }
  }

  /** An admissible frame of the log is accepted and interpreted. */
  lemma AdmittedExplained(sender: Info, log: seq<Chunk>, accepted: set<nat>, r: Rx, i: nat) returns (first: nat, n: nat)
    requires i < |log| <= MAX_SEQ && NoRekey(log) && Synced(sender, r.info) && Admits(r.info.window, i)
    requires Represents(r.info.window, accepted) && Explained(log, accepted, r)
    ensures var (r', v) := Receive(false, r, LogFrame(sender, log, i));
      && Represents(r'.info.window, accepted + {i}) && r'.info == r.info.(window := r'.info.window)
      && Explained(log, accepted + {i}, r')
      && (v.Delivered? ==> Assembled(log, accepted + {i}, v.message, first, n))
  {
    SealedOpens(false, sender.(txSeq := i), log[i], r.info);
    AcceptExtends(r.info.window, accepted, i);
    var r1 := r.(info := r.info.(window := Accept(r.info.window, i)));
    assert Explained(log, accepted + {i}, r1);
    hide Represents;
    hide Interpret;
    hide Accept;
    hide Explained;
    hide Open;
    hide Assembled;
    first, n := ChunkExplained(log, accepted + {i}, r1, i);
  }

  /** A frame that is not an admissible frame of the log is ignored. */
  lemma ElseIgnored(sender: Info, log: seq<Chunk>, i: Info, f: Frame)
    requires |log| <= MAX_SEQ && Plausible(sender, log, i.rxKey, f) && Synced(sender, i)
    requires forall k :: 0 <= k < |log| && f == LogFrame(sender, log, k) ==> !Admits(i.window, k)
    ensures Open(false, i, f) == Ignored
  {
    AcceptedIsAuthentic(false, i, f);
    RefusedAtCap(i, f);
    hide Open;
    if Genuine(i, f) {
      var k :| 0 <= k < |log| && f.payload == LogFrame(sender, log, k).payload;
      HeaderFits(sender, log[k], i, f, k);
    }
  }

  /** A payload of the log is genuine only under the header it was sealed for. */
  lemma HeaderFits(sender: Info, c: Chunk, i: Info, f: Frame, k: nat)
    requires k < MAX_SEQ && Genuine(i, f) && Synced(sender, i) && f.payload == Seal(sender.(txSeq := k), c).value.1.payload
    ensures f == Seal(sender.(txSeq := k), c).value.1
  {
    var m := |c.plaintext|;
    hide BuildAad;
    hide Nonce;
    hide TypeByte;
    NonceInjective(f.seqNo, k, i.sessionId);
    AadInjective(TypeByte(f.ptype), f.seqNo, 28 + m, TypeByte(c.ptype), k, 28 + m);
    DistinctTypes(f.ptype);
    DistinctTypes(c.ptype);
  }

  /** In every UDP run, through any calls returned or given up, each payload `recv` returns is the
      concatenation of at most four consecutive accepted frames, fragments closed by a DATA frame. */
  lemma {:induction false} ReassemblySound(sender: Info, log: seq<Chunk>, accepted: set<nat>, r: Rx, events: seq<Event>)
    requires |log| <= MAX_SEQ && NoRekey(log) && Synced(sender, r.info)
    requires Represents(r.info.window, accepted) && Explained(log, accepted, r)
    requires AllPlausible(sender, log, r.info.rxKey, events)
    ensures exists final: set<nat> ::
      && accepted <= final && Represents(UdpRun(r, events).1.info.window, final)
      && forall m :: Delivered(m) in UdpRun(r, events).0 ==> exists first: nat, n: nat :: Assembled(log, final, m, first, n)
    decreases |events|, 1
  {
    hide Represents;
    hide Explained;
    hide Receive;
    if events == [] {
      assert accepted <= accepted;
    } else {
      assert forall k :: 0 <= k < |events[1..]| ==> events[1..][k] == events[k + 1];
      if events[0].GivenUp? {
        IdleExplained(log, accepted, r.info);
        ReassemblySound(sender, log, accepted, Idle(r.info), events[1..]);
      } else {
        assert Plausible(sender, log, r.info.rxKey, events[0].frame);
        ArrivalSound(sender, log, accepted, r, events);
      }
    }
  }

  lemma IdleExplained(log: seq<Chunk>, accepted: set<nat>, i: Info)
    ensures Explained(log, accepted, Idle(i))
  {
  }

  lemma {:induction false} ArrivalSound(sender: Info, log: seq<Chunk>, accepted: set<nat>, r: Rx, events: seq<Event>)
    requires |log| <= MAX_SEQ && NoRekey(log) && Synced(sender, r.info)
    requires Represents(r.info.window, accepted) && Explained(log, accepted, r)
    requires events != [] && events[0].Arrives? && Plausible(sender, log, r.info.rxKey, events[0].frame)
    requires AllPlausible(sender, log, r.info.rxKey, events[1..])
    ensures exists final: set<nat> ::
      && accepted <= final && Represents(UdpRun(r, events).1.info.window, final)
      && forall m :: Delivered(m) in UdpRun(r, events).0 ==> exists first: nat, n: nat :: Assembled(log, final, m, first, n)
    decreases |events|, 0
  {
    hide Represents;
    hide Explained;
    hide Receive;
    var (r', v) := Receive(false, r, events[0].frame);
    var accepted', first, n := FrameExplained(sender, log, accepted, r, events[0].frame);
    ReassemblySound(sender, log, accepted', r', events[1..]);
    var final: set<nat> :| accepted' <= final && Represents(UdpRun(r', events[1..]).1.info.window, final)
      && forall m :: Delivered(m) in UdpRun(r', events[1..]).0 ==> exists a: nat, b: nat :: Assembled(log, final, m, a, b);
    forall m | Delivered(m) in UdpRun(r, events).0 ensures exists a: nat, b: nat :: Assembled(log, final, m, a, b) {
      if v == Delivered(m) {
        assert Assembled(log, final, m, first, n);
      } else {
        assert Delivered(m) in UdpRun(r', events[1..]).0;
      }
    }
  }

  /** The rules of reassembly an authenticated frame can break: nothing but the next chunk while part
      of a message is held, at most four chunks to a message, 32 bytes in a REKEY, no other type. */
  predicate Breaks(r: Rx, t: PacketType, seqNo: nat, plaintext: bytes) {
    || ((t == PING || t == PONG || t == REKEY) && r.assembled != [])
    || (t == REKEY && |plaintext| != 32)
    || ((t == DATA || t == DATA_FRAG) && r.count > 0 && seqNo != r.expected)
    || (t == DATA_FRAG && r.count + 1 >= 4)
    || t !in {DATA, DATA_FRAG, PING, PONG, BYE, REKEY}
  }

  /** Over UDP a frame is a violation if and only if it is authentic and breaks a rule; it then leaves a
      fresh assembly and the loop running.  Only an authentic BYE or a genuine frame with the last
      sequence number ends the loop. */
  lemma ViolationAbsorbed(r: Rx, f: Frame)
    ensures var (r', v) := Receive(false, r, f);
      var accepted := Genuine(r.info, f) && f.seqNo < MAX_SEQ && Admits(r.info.window, f.seqNo);
      && (v.Violation? <==> accepted && Breaks(r, f.ptype, f.seqNo, f.payload.plaintext))
      && (v.Violation? ==> r' == Idle(r'.info))
      && (v.Raised? <==> (accepted && f.ptype == BYE)
                         || (Genuine(r.info, f) && f.seqNo == MAX_SEQ && Admits(r.info.window, f.seqNo)))
  {
    AcceptedIsAuthentic(false, r.info, f);
    RefusedAtCap(r.info, f);
    hide Open;
    hide Genuine;
    hide Admits;
  }

  lemma RefusedAtCap(i: Info, f: Frame)
    ensures Open(false, i, f).Refused? <==> Genuine(i, f) && f.seqNo == MAX_SEQ && Admits(i.window, f.seqNo)
  {
    hide BuildAad;
    hide Admits;
    hide Accept;
    hide TypeByte;
  }

  // ----- whole messages -----

  /** Joining the chunks of a message from the j-th on gives the rest of the message from there. */
  lemma {:induction false} FragmentTail(data: bytes, j: nat)
    requires j < |Fragment(data)|
    ensures 452 * j <= |data| && Joined(Fragment(data)[j..]) == data[452 * j..]
    decreases j
  {
    if j == 0 {
      FragmentShape(data);
      assert Fragment(data)[0..] == Fragment(data);
    } else {
      var rest := data[MAX_DATA..];
      assert Fragment(data)[j..] == Fragment(rest)[j - 1..];
      FragmentTail(rest, j - 1);
      hide Fragment;
      hide Joined;
      assert rest[452 * (j - 1)..] == data[452 * j..];
    }
  }

  /** What is left of message `p` from its j-th frame on, which is all of it exactly when `j` is zero. */
  predicate IsTail(ops: seq<Op>, message: bytes, p: nat, j: nat) {
    && p < |ops| && ops[p].Send? && j < |Chunks(ops[p])| && 452 * j <= |ops[p].data|
    && message == ops[p].data[452 * j..] && (message == ops[p].data <==> j == 0)
  }

  /** When no `send` was abandoned, what `recv` returns is the tail of one sent message, cut at a
      fragment boundary; it is the whole message exactly when the tail starts at its first frame. */
  lemma {:induction false} DeliveredIsTail(ops: seq<Op>, message: bytes, first: nat, n: nat)
    returns (p: nat, j: nat)
    requires Shaped(Flatten(ops), message, first, n)
    ensures IsTail(ops, message, p, j)
    ensures first == |Flatten(ops[..p])| + j && first + n == |Flatten(ops[..p])| + |Chunks(ops[p])|
    decreases |ops|
  {
    hide Chunks;
    var cs, rest := Chunks(ops[0]), Flatten(ops[1..]);
    if first >= |cs| {
      ShapedShift(cs, rest, message, first, n);
      p, j := DeliveredIsTail(ops[1..], message, first - |cs|, n);
      p := p + 1;
      assert ops[..p][1..] == ops[1..][..p - 1];
    } else {
      p, j := 0, first;
      TailWithin(ops[0], rest, first, n);
      TailOfSend(ops[0], j);
      assert (cs + rest)[first..first + n] == cs[j..];
      assert ops[..0] == [];
    }
  }

  lemma TailOfSend(op: Op, j: nat)
    requires op.Send? && j < |Chunks(op)|
    ensures 452 * j <= |op.data| && Joined(Chunks(op)[j..]) == op.data[452 * j..]
    ensures op.data[452 * j..] == op.data <==> j == 0
  {
    FragmentTail(op.data, j);
    hide Fragment;
    hide Joined;
    if j > 0 {
      assert |op.data[452 * j..]| < |op.data|;
    }
  }

  lemma ShapedShift(cs: seq<Chunk>, rest: seq<Chunk>, message: bytes, first: nat, n: nat)
    requires |cs| <= first && Shaped(cs + rest, message, first, n)
    ensures Shaped(rest, message, first - |cs|, n)
  {
    var first' := first - |cs|;
    assert (cs + rest)[first..first + n] == rest[first'..first' + n];
    forall k | first' <= k < first' + n - 1 ensures rest[k].ptype == DATA_FRAG {
      assert (cs + rest)[k + |cs|].ptype == DATA_FRAG;
    }
  }

  /** From a fresh session, for any operations sent whole, any frames that arrive and any calls given up
      in between, everything `recv` returns is such a tail. */
  lemma UdpDeliversTails(sender: Info, ops: seq<Op>, i: Info, events: seq<Event>)
    requires |Flatten(ops)| <= MAX_SEQ && NoRekey(Flatten(ops)) && Synced(sender, i) && i.window == FRESH
    requires AllPlausible(sender, Flatten(ops), i.rxKey, events)
    ensures forall m :: Delivered(m) in UdpRun(Idle(i), events).0 ==> exists p: nat, j: nat :: IsTail(ops, m, p, j)
  {
    FreshRepresents();
    ReassemblySound(sender, Flatten(ops), {}, Idle(i), events);
    hide UdpRun;
    hide Chunks;
    forall m | Delivered(m) in UdpRun(Idle(i), events).0 ensures exists p: nat, j: nat :: IsTail(ops, m, p, j) {
      var first: nat, n: nat :| Shaped(Flatten(ops), m, first, n);
      var p, j := DeliveredIsTail(ops, m, first, n);
      assert IsTail(ops, m, p, j);
    }
  }

  /** A run that starts inside an operation's chunks ends with them. */
  lemma TailWithin(op: Op, rest: seq<Chunk>, first: nat, n: nat)
    requires first < |Chunks(op)| && n >= 1 && first + n <= |Chunks(op)| + |rest|
    requires AllFragments(Chunks(op) + rest, first, first + n - 1) && (Chunks(op) + rest)[first + n - 1].ptype == DATA
    ensures op.Send? && first + n == |Chunks(op)|
  {
    var cs := Chunks(op);
    var log := cs + rest;
    assert log[first] == cs[first];
    ChunkKinds(op, first);
    ChunkKinds(op, |cs| - 1);
    if first + n - 1 < |cs| {
      ChunkKinds(op, first + n - 1);
    }
    hide Chunks;
    assert log[|cs| - 1] == cs[|cs| - 1];
  }
}
