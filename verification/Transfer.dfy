/** How far a sender is through an operation, and what the receiver must then hold. */
module Transfer {
  import opened Wire
  import opened Session

  /** A sender between operations, or with `done` of the chunks of `op` already sealed. */
  datatype Outgoing = Between | Within(op: Op, done: nat)

  predicate Proper(o: Outgoing) {
    o.Within? ==> o.op.Send? && 0 < o.done < |Chunks(o.op)|
  }

  /** The sender about to seal chunk `k` of `op`. */
  function At(op: Op, k: nat): Outgoing {
    if k == 0 then Between else Within(op, k)
  }

  /** The sender after sealing chunk `k` of `op`. */
  function After(op: Op, k: nat): Outgoing {
    if k + 1 < |Chunks(op)| then Within(op, k + 1) else Between
  }

  /** The messages that sealing chunk `k` of `op` completes. */
  function Completes(op: Op, k: nat): seq<bytes> {
    if op.Send? && k + 1 >= |Chunks(op)| then [op.data] else []
  }

  /** The receiver has assembled exactly what the sender has sealed of its current message. */
  predicate InStep(r: Rx, o: Outgoing, next: nat) {
    match o
    case Between => r.assembled == [] && r.count == 0
    case Within(op, done) =>
      done <= |Chunks(op)| && r.assembled == Joined(Chunks(op)[..done]) && r.count == done && r.expected == next
  }

  /** The messages a verdict hands to the application. */
  function Yield(v: Verdict): seq<bytes> {
    if v.Delivered? then [v.message] else []
  }

  /** The verdict on chunk `k` of `op`, met in step. */
  function Due(op: Op, k: nat): Verdict {
    match op
    case Send(data) => if k + 1 < |Chunks(op)| then Absorbed else Delivered(data)
    case Ping => Control(true)
    case Pong => Control(false)
    case Bye => Raised(ConnectionClosed)
    case Rekey(_) => Rekeyed
  }

  lemma NotRekey(op: Op, k: nat)
    requires k < |Chunks(op)| && !op.Rekey?
    ensures Chunks(op)[k].ptype != REKEY
  {
    ChunkKinds(op, k);
    hide Chunks;
  }

  /** An authentic chunk that arrives in step keeps the two ends in step. */
  lemma ChunkInStep(reliable: bool, r: Rx, op: Op, k: nat, seqNo: nat)
    requires k < |Chunks(op)| && InStep(r, At(op, k), seqNo)
    ensures var c := Chunks(op)[k];
      var (r', v) := Interpret(reliable, r, c.ptype, seqNo, c.plaintext);
      && v == Due(op, k) && Yield(v) == Completes(op, k)
      && InStep(r', After(op, k), seqNo + 1)
      && r'.info == if op.Rekey? then Rotate(r.info, false, op.salt) else r.info
  {
    ChunkKinds(op, k);
    if op.Send? {
      SendInStep(reliable, r, op, k, seqNo);
    }
  }

  lemma SendInStep(reliable: bool, r: Rx, op: Op, k: nat, seqNo: nat)
    requires op.Send? && k < |Chunks(op)| && InStep(r, At(op, k), seqNo)
    ensures var c := Chunks(op)[k];
      var (r', v) := Interpret(reliable, r, c.ptype, seqNo, c.plaintext);
      && v == Due(op, k) && InStep(r', After(op, k), seqNo + 1) && r'.info == r.info
  {
    ChunkKinds(op, k);
    hide Chunks;
    var cs := Chunks(op);
    assert cs[..k + 1] == cs[..k] + [cs[k]];
    JoinedAppend(cs[..k], cs[k]);
    assert k == 0 ==> Joined(cs[..k]) == [];
    assert k + 1 == |cs| ==> cs[..k + 1] == cs;
    hide Joined;
  }

  /** The assembly does not depend on the session it belongs to. */
  lemma InterpretAnywhere(r: Rx, i: Info, t: PacketType, seqNo: nat, plaintext: bytes)
    requires t != REKEY
    ensures var (r', v) := Interpret(false, r, t, seqNo, plaintext);
      r'.info == r.info && Interpret(false, r.(info := i), t, seqNo, plaintext) == (r'.(info := i), v)
  {
  }

  /** Operations one after the other, all their chunks sealed. */
  function Flatten(ops: seq<Op>): seq<Chunk> {
    if ops == [] then [] else Chunks(ops[0]) + Flatten(ops[1..])
  }

  lemma {:induction false} FlattenAppend(ops: seq<Op>, op: Op)
    ensures Flatten(ops + [op]) == Flatten(ops) + Chunks(op)
  {
    if ops == [] {
      assert Flatten([op]) == Chunks(op) + Flatten([]);
    } else {
      assert (ops + [op])[1..] == ops[1..] + [op];
      FlattenAppend(ops[1..], op);
    }
  }
}
