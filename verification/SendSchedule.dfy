/** Every schedule of concurrent `send`, `ping`, `pong`, `rekey` and `bye` calls on one session,
with a REKEY from the peer arriving at any moment.

A step is the code between two suspension points.  A call waits for the send lock, seals one frame
per write, and may be abandoned by an error or a cancellation at any write; each abandoned write
has still put its frame on the wire.
*/
module SendSchedule {
  import opened Wire
  import opened Crypto
  import opened Session

  datatype Phase = Waiting | Ready | Writing | Done | Failed

  /** One call: what it does, how far it got, and where its first frame is on the wire. */
  datatype Task = Task(op: Op, phase: Phase, start: nat, sent: nat)

  datatype Sent = Sent(task: nat, frame: Frame)

  /** `base` is the sequence number the run started from, `rotations` counts key changes. */
  datatype State = State(info: Info, closed: bool, lock: Option<nat>, tasks: map<nat, Task>,
                         wire: seq<Sent>, base: nat, rotations: nat)

  datatype Step =
    | Call(id: nat, op: Op)
    | Acquire(id: nat)
    | SealNext(id: nat)
    | WriteReturns(id: nat)
    | WriteRaises(id: nat)
    | Abandon(id: nat)
    | PeerRekey(salt: bytes)

  predicate InPhase(s: State, id: nat, p: Phase) {
    id in s.tasks && s.tasks[id].phase == p
  }

  predicate Enabled(s: State, step: Step) {
    match step
    case Call(id, op) => id !in s.tasks && (op.Bye? ==> !s.closed)
    case Acquire(id) => InPhase(s, id, Waiting) && s.lock == None
    case SealNext(id) => InPhase(s, id, Ready) && s.tasks[id].sent < |Chunks(s.tasks[id].op)|
    case WriteReturns(id) => InPhase(s, id, Writing)
    case WriteRaises(id) => InPhase(s, id, Writing)
    case Abandon(id) => InPhase(s, id, Waiting)
    case PeerRekey(salt) => |salt| == 32
  }

  function Put(s: State, id: nat, t: Task): State {
    s.(tasks := s.tasks[id := t])
  }

  function Apply(s: State, step: Step): State
    requires Enabled(s, step)
  {
    match step
    case Call(id, op) => Put(s, id, Task(op, Waiting, 0, 0)).(closed := s.closed || op.Bye?)
    case Acquire(id) => Put(s, id, s.tasks[id].(phase := Ready, start := |s.wire|)).(lock := Some(id))
    case SealNext(id) =>
      var t := s.tasks[id];
      (match Seal(s.info, Chunks(t.op)[t.sent])
       case Err(_) => Put(s, id, t.(phase := Failed)).(lock := None)
       case Ok((i, f)) =>
         Put(s, id, t.(phase := Writing, sent := t.sent + 1)).(info := i, wire := s.wire + [Sent(id, f)]))
    case WriteReturns(id) =>
      var t := s.tasks[id];
      if t.sent < |Chunks(t.op)| then Put(s, id, t.(phase := Ready))
      else
        var s' := Put(s, id, t.(phase := Done)).(lock := None);
        if t.op.Rekey? then s'.(info := Rotate(s.info, true, t.op.salt), rotations := s.rotations + 1) else s'
    case WriteRaises(id) => Put(s, id, s.tasks[id].(phase := Failed)).(lock := None)
    case Abandon(id) => Put(s, id, s.tasks[id].(phase := Failed))
    case PeerRekey(salt) => s.(info := Rotate(s.info, false, salt), rotations := s.rotations + 1)
  }

  function Start(info: Info): State {
    State(info, false, None, map[], [], info.txSeq, 0)
  }

  predicate Legal(s: State, steps: seq<Step>)
    decreases |steps|
  {
    steps == [] || (Enabled(s, steps[0]) && Legal(Apply(s, steps[0]), steps[1..]))
  }

  function Exec(s: State, steps: seq<Step>): State
    requires Legal(s, steps)
    decreases |steps|
  {
    if steps == [] then s else Exec(Apply(s, steps[0]), steps[1..])
  }

  // ----- the lock and the wire -----

  predicate Active(t: Task) {
    t.phase == Ready || t.phase == Writing
  }

  predicate LockHeld(s: State) {
    && (s.lock.Some? ==> s.lock.value in s.tasks)
    && (forall id :: id in s.tasks ==> (Active(s.tasks[id]) <==> s.lock == Some(id)))
  }

  predicate Carries(f: Frame, c: Chunk) {
    f.ptype == c.ptype && f.payload.Sealed? && f.payload.plaintext == c.plaintext
  }

  /** The frames of a call are one unbroken stretch of the wire carrying its first chunks. */
  predicate Stretch(s: State, id: nat)
    requires id in s.tasks
  {
    var t := s.tasks[id];
    && t.sent <= |Chunks(t.op)|
    && (t.phase == Waiting ==> t.sent == 0)
    && (t.phase == Done ==> t.sent == |Chunks(t.op)|)
    && (Active(t) ==> t.start + t.sent == |s.wire|)
    && (t.sent > 0 ==> t.start + t.sent <= |s.wire|)
    && forall k :: 0 <= k < t.sent ==> Carries(s.wire[t.start + k].frame, Chunks(t.op)[k])
  }

  predicate Owned(s: State, j: nat)
    requires j < |s.wire|
  {
    var id := s.wire[j].task;
    id in s.tasks && s.tasks[id].start <= j < s.tasks[id].start + s.tasks[id].sent
  }

  predicate Layout(s: State) {
    && LockHeld(s)
    && (forall id :: id in s.tasks ==> Stretch(s, id))
    && (forall j :: 0 <= j < |s.wire| ==> Owned(s, j))
    && (forall id, j ::
          id in s.tasks && s.tasks[id].start <= j < s.tasks[id].start + s.tasks[id].sent && j < |s.wire| ==>
            s.wire[j].task == id)
  }

  /** A call that is not touched keeps its stretch as the wire grows. */
  lemma StretchKept(s: State, s': State, id: nat)
    requires id in s.tasks && id in s'.tasks && s'.tasks[id] == s.tasks[id] && Stretch(s, id)
    requires s.wire <= s'.wire && (Active(s.tasks[id]) ==> s'.wire == s.wire)
    ensures Stretch(s', id) && (s.tasks[id].sent > 0 ==> s.tasks[id].start + s.tasks[id].sent <= |s.wire|)
  {
    hide Chunks;
  }

  lemma OwnedKept(s: State, s': State, j: nat)
    requires j < |s.wire| <= |s'.wire| && s'.wire[j] == s.wire[j] && Owned(s, j) && s.wire[j].task in s'.tasks
    requires s'.tasks[s.wire[j].task].start == s.tasks[s.wire[j].task].start
    requires s'.tasks[s.wire[j].task].sent >= s.tasks[s.wire[j].task].sent
    ensures Owned(s', j)
  {
  }

  /** The stretch of a call that changes phase without writing. */
  lemma StretchMoved(s: State, s': State, id: nat)
    requires id in s.tasks && id in s'.tasks && s'.wire == s.wire && Stretch(s, id)
    requires var t := s'.tasks[id];
      && t.op == s.tasks[id].op && t.sent == s.tasks[id].sent && (t.start == s.tasks[id].start || t.sent == 0)
      && (t.phase == Waiting ==> t.sent == 0) && (t.phase == Done ==> t.sent == |Chunks(t.op)|)
      && (Active(t) ==> t.start + t.sent == |s.wire|)
    ensures Stretch(s', id)
  {
    hide Chunks;
  }

  /** A call changes phase without writing. */
  lemma MoveKeepsLayout(s: State, id: nat, t: Task, lock: Option<nat>)
    requires Layout(s) && id in s.tasks
    requires t.op == s.tasks[id].op && t.sent == s.tasks[id].sent && (t.start == s.tasks[id].start || t.sent == 0)
    requires t.phase == Waiting ==> t.sent == 0
    requires t.phase == Done ==> t.sent == |Chunks(t.op)|
    requires if Active(t) then lock == Some(id) && t.start + t.sent == |s.wire| && (s.lock == None || s.lock == lock)
             else lock == if s.lock == Some(id) then None else s.lock
    ensures Layout(Put(s, id, t).(lock := lock))
  {
    hide Chunks;
    hide Stretch;
    var s' := Put(s, id, t).(lock := lock);
    forall i | i in s'.tasks ensures Stretch(s', i) {
      if i == id {
        StretchMoved(s, s', id);
      } else {
        StretchKept(s, s', i);
      }
    }
    forall j | 0 <= j < |s'.wire| ensures Owned(s', j) {
      assert Owned(s, j);
    }
  }

  lemma CallKeepsLayout(s: State, id: nat, op: Op)
    requires Layout(s) && Enabled(s, Call(id, op))
    ensures Layout(Apply(s, Call(id, op)))
  {
    hide Chunks;
    var s' := Apply(s, Call(id, op));
    assert Stretch(s', id);
    hide Stretch;
    forall i | i in s'.tasks ensures Stretch(s', i) {
      if i != id {
        StretchKept(s, s', i);
      }
    }
    forall j | 0 <= j < |s'.wire| ensures Owned(s', j) {
      assert Owned(s, j);
    }
  }

  /** Only the task table, the lock and the wire matter to the layout. */
  lemma LayoutOfParts(s: State, s': State)
    requires Layout(s) && s.tasks == s'.tasks && s.lock == s'.lock && s.wire == s'.wire
    ensures Layout(s')
  {
    hide Chunks;
    forall i | i in s'.tasks ensures Stretch(s', i) {
      assert Stretch(s, i);
    }
    forall j | 0 <= j < |s'.wire| ensures Owned(s', j) {
      assert Owned(s, j);
    }
  }

  lemma LayoutKept(s: State, step: Step)
    requires Layout(s) && Enabled(s, step)
    ensures Layout(Apply(s, step))
  {
    hide Rotate;
    hide Seal;
    hide Chunks;
    hide Layout;
    if step.Call? {
      CallKeepsLayout(s, step.id, step.op);
    } else if step.PeerRekey? {
      LayoutOfParts(s, Apply(s, step));
    } else if step.SealNext? && Seal(s.info, Chunks(s.tasks[step.id].op)[s.tasks[step.id].sent]).Ok? {
      SealKeepsLayout(s, step.id);
    } else {
      PhaseKeepsLayout(s, step);
    }
  }

  /** What the layout says of one call: how much it has sent, and where, and whether it has the lock. */
  lemma HolderWrites(s: State, id: nat)
    requires Layout(s) && id in s.tasks
    ensures var t := s.tasks[id];
      && (Active(t) <==> s.lock == Some(id)) && (Active(t) ==> t.start + t.sent == |s.wire|)
      && (t.phase == Waiting ==> t.sent == 0) && t.sent <= |Chunks(t.op)|
  {
    hide Chunks;
    assert Stretch(s, id);
  }

  /** A step that changes the phase of one call and writes nothing. */
  predicate Moves(s: State, step: Step) {
    && Enabled(s, step) && !step.Call? && !step.PeerRekey?
    && (step.SealNext? ==> Seal(s.info, Chunks(s.tasks[step.id].op)[s.tasks[step.id].sent]).Err?)
  }

  lemma MovesOne(s: State, step: Step)
    requires Moves(s, step)
    ensures var s' := Apply(s, step);
      step.id in s.tasks && step.id in s'.tasks && s'.tasks == s.tasks[step.id := s'.tasks[step.id]] && s'.wire == s.wire
  {
    hide Rotate;
    hide Seal;
    hide Chunks;
  }

  lemma MoveAllowed(s: State, step: Step)
    requires Layout(s) && Moves(s, step)
    ensures step.id in s.tasks && step.id in Apply(s, step).tasks
    ensures var t, t', lock := s.tasks[step.id], Apply(s, step).tasks[step.id], Apply(s, step).lock;
      && t'.op == t.op && t'.sent == t.sent && (t'.start == t.start || t'.sent == 0)
      && (t'.phase == Waiting ==> t'.sent == 0) && (t'.phase == Done ==> t'.sent == |Chunks(t'.op)|)
      && (if Active(t') then lock == Some(step.id) && t'.start + t'.sent == |s.wire| && (s.lock == None || s.lock == lock)
          else lock == if s.lock == Some(step.id) then None else s.lock)
  {
    hide Rotate;
    hide Seal;
    hide Chunks;
    hide Layout;
    HolderWrites(s, step.id);
  }

  lemma PhaseKeepsLayout(s: State, step: Step)
    requires Layout(s) && Moves(s, step)
    ensures Layout(Apply(s, step))
  {
    hide Layout;
    MovesOne(s, step);
    MoveAllowed(s, step);
    hide Apply;
    hide Moves;
    hide Chunks;
    var s' := Apply(s, step);
    MoveKeepsLayout(s, step.id, s'.tasks[step.id], s'.lock);
    LayoutOfParts(Put(s, step.id, s'.tasks[step.id]).(lock := s'.lock), s');
  }

  lemma SealKeepsLayout(s: State, id: nat)
    requires Layout(s) && Enabled(s, SealNext(id)) && Seal(s.info, Chunks(s.tasks[id].op)[s.tasks[id].sent]).Ok?
    ensures Layout(Apply(s, SealNext(id)))
  {
    hide Chunks;
    hide Seal;
    hide Stretch;
    var s' := Apply(s, SealNext(id));
    StretchGrows(s, id);
    forall i | i in s'.tasks
      ensures Stretch(s', i)
      ensures i != id && s.tasks[i].sent > 0 ==> s.tasks[i].start + s.tasks[i].sent <= |s.wire|
    {
      if i != id {
        StretchKept(s, s', i);
      }
    }
    forall j | 0 <= j < |s'.wire| ensures Owned(s', j) {
      if j < |s.wire| {
        OwnedKept(s, s', j);
      }
    }
  }

  /** The stretch of the call whose frame is sealed grows by that frame. */
  lemma StretchGrows(s: State, id: nat)
    requires Layout(s) && Enabled(s, SealNext(id)) && Seal(s.info, Chunks(s.tasks[id].op)[s.tasks[id].sent]).Ok?
    ensures s.tasks[id].start + s.tasks[id].sent == |s.wire| && Stretch(Apply(s, SealNext(id)), id)
  {
    hide Chunks;
    assert Stretch(s, id);
    SealCarries(s.info, Chunks(s.tasks[id].op)[s.tasks[id].sent]);
    hide Seal;
    hide Layout;
  }

  lemma SealCarries(i: Info, c: Chunk)
    requires Seal(i, c).Ok?
    ensures Carries(Seal(i, c).value.1, c)
  {
  }

  // ----- one BYE -----

  predicate OneBye(s: State) {
    && (forall id :: id in s.tasks && s.tasks[id].op.Bye? ==> s.closed)
    && (forall id, id' :: id in s.tasks && id' in s.tasks && s.tasks[id].op.Bye? && s.tasks[id'].op.Bye? ==> id == id')
  }

  lemma OnlyByeCarriesBye(op: Op, k: nat)
    requires k < |Chunks(op)| && Chunks(op)[k].ptype == BYE
    ensures op.Bye? && |Chunks(op)| == 1
  {
    ChunkKinds(op, k);
    hide Chunks;
  }

  // ----- keys and sequence numbers -----

  /** A frame on the wire was sealed under an earlier key, or under the present one with a number
      already spent; only a BYE carries the last number. */
  predicate Spent(s: State, f: Frame) {
    && f.payload.Sealed?
    && f.payload.nonce == Nonce(f.seqNo, s.info.sessionId)
    && (f.seqNo == MAX_SEQ ==> f.ptype == BYE)
    && (|| Rank(f.payload.key) < Rank(s.info.txKey)
        || (f.payload.key == s.info.txKey && (f.seqNo < s.info.txSeq || f.seqNo == MAX_SEQ)))
  }

  predicate SameNonce(f: Frame, g: Frame)
    requires f.payload.Sealed? && g.payload.Sealed?
  {
    f.payload.key == g.payload.key && f.payload.nonce == g.payload.nonce
  }

  predicate Numbers(s: State) {
    && OneBye(s)
    && (forall j :: 0 <= j < |s.wire| ==> Spent(s, s.wire[j].frame))
    && (forall i, j :: 0 <= i < j < |s.wire| ==> !SameNonce(s.wire[i].frame, s.wire[j].frame))
  }

  lemma NumbersKept(s: State, step: Step)
    requires Layout(s) && Numbers(s) && Enabled(s, step)
    ensures Numbers(Apply(s, step))
  {
    hide Layout;
    hide Chunks;
    if step.SealNext? {
      SealKeepsNumbers(s, step.id);
    } else {
      var s' := Apply(s, step);
      forall j | 0 <= j < |s.wire| ensures Spent(s', s'.wire[j].frame) {
        assert Spent(s, s.wire[j].frame);
      }
    }
  }

  lemma SealKeepsNumbers(s: State, id: nat)
    requires Layout(s) && Numbers(s) && Enabled(s, SealNext(id))
    ensures Numbers(Apply(s, SealNext(id)))
  {
    hide Layout;
    hide Chunks;
    var s' := Apply(s, SealNext(id));
    if s'.wire != s.wire {
      forall j | 0 <= j < |s.wire|
        ensures Spent(s', s'.wire[j].frame) && !SameNonce(s'.wire[j].frame, s'.wire[|s.wire|].frame)
      {
        assert Spent(s, s.wire[j].frame);
        NewNonce(s, id, j);
      }
    }
  }

  /** A call about to seal a BYE finds no BYE on the wire. */
  lemma ByeOnce(s: State, id: nat, j: nat)
    requires Layout(s) && OneBye(s) && Enabled(s, SealNext(id)) && j < |s.wire|
    requires Chunks(s.tasks[id].op)[s.tasks[id].sent].ptype == BYE
    ensures s.wire[j].frame.ptype != BYE
  {
    var owner := s.wire[j].task;
    assert Owned(s, j) && Stretch(s, owner);
    OnlyByeCarriesBye(s.tasks[id].op, s.tasks[id].sent);
    var k := j - s.tasks[owner].start;
    assert Carries(s.wire[s.tasks[owner].start + k].frame, Chunks(s.tasks[owner].op)[k]);
    if s.wire[j].frame.ptype == BYE {
      OnlyByeCarriesBye(s.tasks[owner].op, k);
    }
  }

  /** The frame about to be sealed shares its nonce with no frame on the wire. */
  lemma NewNonce(s: State, id: nat, j: nat)
    requires Layout(s) && Numbers(s) && Enabled(s, SealNext(id)) && j < |s.wire|
    requires Seal(s.info, Chunks(s.tasks[id].op)[s.tasks[id].sent]).Ok?
    ensures !SameNonce(s.wire[j].frame, Seal(s.info, Chunks(s.tasks[id].op)[s.tasks[id].sent]).value.1)
  {
    var earlier := s.wire[j].frame;
    var c := Chunks(s.tasks[id].op)[s.tasks[id].sent];
    var f := Seal(s.info, c).value.1;
    assert Spent(s, earlier);
    if SameNonce(earlier, f) {
      NonceInjective(earlier.seqNo, f.seqNo, s.info.sessionId);
      assert c.ptype == BYE;
      ByeOnce(s, id, j);
    }
  }

  // ----- no gaps while the keys stay -----

  predicate GapFree(s: State) {
    s.rotations == 0 ==>
      && s.base + |s.wire| <= MAX_SEQ + 1
      && s.info.txSeq == (if s.base + |s.wire| <= MAX_SEQ then s.base + |s.wire| else MAX_SEQ)
      && forall j :: 0 <= j < |s.wire| ==> s.wire[j].frame.seqNo == s.base + j
  }

  lemma GapFreeKept(s: State, step: Step)
    requires Layout(s) && Numbers(s) && GapFree(s) && Enabled(s, step) && s.base <= MAX_SEQ
    ensures GapFree(Apply(s, step))
  {
    hide Layout;
    hide Chunks;
    var s' := Apply(s, step);
    if step.SealNext? && s'.wire != s.wire {
      forall j | 0 <= j < |s.wire| ensures s.wire[j].frame.seqNo == MAX_SEQ ==> s.wire[j].frame.ptype == BYE {
        assert Spent(s, s.wire[j].frame);
      }
      if s.rotations == 0 && s.base + |s.wire| == MAX_SEQ + 1 && |s.wire| > 0 {
        ByeOnce(s, step.id, |s.wire| - 1);
      }
    }
  }

  // ----- whole runs -----

  predicate Invariant(s: State) {
    Layout(s) && Numbers(s) && GapFree(s) && s.base <= MAX_SEQ
  }

  lemma {:induction false} RunKeeps(s: State, steps: seq<Step>)
    requires Invariant(s) && Legal(s, steps)
    ensures Invariant(Exec(s, steps))
    decreases |steps|
  {
    if steps != [] {
      LayoutKept(s, steps[0]);
      NumbersKept(s, steps[0]);
      GapFreeKept(s, steps[0]);
      RunKeeps(Apply(s, steps[0]), steps[1..]);
    }
  }

  /** In every schedule, whichever writes fail and however often the keys change, no two frames are
      ever encrypted under the same key and nonce. */
  lemma NonceNeverReused(info: Info, steps: seq<Step>, i: nat, j: nat)
    requires Legal(Start(info), steps) && i < j < |Exec(Start(info), steps).wire|
    ensures var w := Exec(Start(info), steps).wire;
      && w[i].frame.payload.Sealed? && w[j].frame.payload.Sealed?
      && !(w[i].frame.payload.key == w[j].frame.payload.key && w[i].frame.payload.nonce == w[j].frame.payload.nonce)
  {
    RunKeeps(Start(info), steps);
    var s := Exec(Start(info), steps);
    assert Spent(s, s.wire[i].frame) && Spent(s, s.wire[j].frame);
    assert !SameNonce(s.wire[i].frame, s.wire[j].frame);
  }

  /** In every schedule the frames of one call are contiguous on the wire and are its chunks in
      order, all of them if it returned; no frame of another call lies between them. */
  lemma MessagesAtomic(info: Info, steps: seq<Step>, id: nat)
    requires Legal(Start(info), steps) && id in Exec(Start(info), steps).tasks
    ensures var s := Exec(Start(info), steps);
      var t := s.tasks[id];
      && t.sent <= |Chunks(t.op)| && (t.phase == Done ==> t.sent == |Chunks(t.op)|)
      && (t.sent > 0 ==> t.start + t.sent <= |s.wire|)
      && (forall k :: 0 <= k < t.sent ==> Carries(s.wire[t.start + k].frame, Chunks(t.op)[k]))
      && (forall j :: 0 <= j < |s.wire| ==> (s.wire[j].task == id <==> t.start <= j < t.start + t.sent))
  {
    StartGood(info);
    hide Chunks;
    hide Layout;
    hide Numbers;
    hide GapFree;
    hide Legal;
    hide Exec;
    RunKeeps(Start(info), steps);
    OneStretch(Exec(Start(info), steps), id);
  }

  lemma StartGood(info: Info)
    ensures Invariant(Start(info))
  {
  }

  lemma OneStretch(s: State, id: nat)
    requires Layout(s) && id in s.tasks
    ensures Stretch(s, id)
    ensures var t := s.tasks[id];
      forall j :: 0 <= j < |s.wire| ==> (s.wire[j].task == id <==> t.start <= j < t.start + t.sent)
  {
    hide Chunks;
    hide Stretch;
    forall j | 0 <= j < |s.wire| ensures s.wire[j].task == id <==> s.tasks[id].start <= j < s.tasks[id].start + s.tasks[id].sent {
      assert Owned(s, j);
    }
  }

  /** While the keys stay, sequence numbers on the wire have no gap, and the last one is only
      ever carried by a BYE. */
  lemma SequenceGapFree(info: Info, steps: seq<Step>, j: nat)
    requires Legal(Start(info), steps) && Exec(Start(info), steps).rotations == 0
    requires j < |Exec(Start(info), steps).wire|
    ensures var f := Exec(Start(info), steps).wire[j].frame;
      f.seqNo == info.txSeq + j && (f.seqNo == MAX_SEQ ==> f.ptype == BYE)
  {
    RunKeeps(Start(info), steps);
    BaseKept(Start(info), steps);
    var s := Exec(Start(info), steps);
    assert Spent(s, s.wire[j].frame);
  }

  lemma {:induction false} BaseKept(s: State, steps: seq<Step>)
    requires Legal(s, steps)
    ensures Exec(s, steps).base == s.base
    decreases |steps|
  {
    if steps != [] {
      BaseKept(Apply(s, steps[0]), steps[1..]);
    }
  }
}
