/** Two sessions over TCP: a first-in first-out channel in each direction, rekeying by either side.

A REKEY frame is written before the initiator changes its own keys, and `rekey` suspends in
between, so the change is a step of its own.  The steps are taken under the discipline the code
needs and does not enforce: whoever rekeys has nothing on its way to it and a peer at a message
boundary; nobody writes while a REKEY is on its way to it; nobody reads in the middle of its own
rekey; no `send` is abandoned half-way and no `recv` given up half-way.  The lemmas at the end show what
each condition is for; the last two are `Interruptions.AbandonedSendSplices` and
`RecvCalls.GivenUpOverTcp`.
*/
module TcpPairing {
  import opened Wire
  import opened Crypto
  import opened Session
  import opened Transfer

  /** One end: its receive loop, its current operation, the salt of a rekey it has written but not
      yet performed, the messages it has sent in full and those it has received. */
  datatype End = End(rx: Rx, out: Outgoing, rotating: Option<bytes>, sent: seq<bytes>, got: seq<bytes>)

  /** The ends and the frames in flight from each to the other, oldest first. */
  datatype Net = Net(a: End, b: End, ab: seq<Frame>, ba: seq<Frame>)

  function Swap(n: Net): Net {
    Net(n.b, n.a, n.ba, n.ab)
  }

  predicate HasRekey(frames: seq<Frame>) {
    exists k :: 0 <= k < |frames| && frames[k].ptype == REKEY
  }

  datatype Step =
    | Begin(byA: bool, op: Op)
    | Continue(byA: bool)
    | FinishRekey(byA: bool)
    | Consume(byA: bool)

  // ----- the steps of end `a`; those of `b` are the same on the swapped net -----

  predicate MaySeal(n: Net) {
    n.a.rotating == None && !HasRekey(n.ba) && n.a.rx.info.txSeq < MAX_SEQ
  }

  predicate EnabledA(n: Net, step: Step) {
    match step
    case Begin(_, op) =>
      && MaySeal(n) && n.a.out == Between && !op.Bye?
      && (op.Rekey? ==> n.ba == [] && n.b.out == Between)
    case Continue(_) => MaySeal(n) && n.a.out.Within? && n.a.out.done < |Chunks(n.a.out.op)|
    case FinishRekey(_) => n.a.rotating.Some?
    case Consume(_) => n.a.rotating == None && n.ba != []
  }

  /** Seal chunk `k` of `op` and put it on the channel. */
  function Emit(n: Net, op: Op, k: nat): Net
    requires k < |Chunks(op)| && n.a.rx.info.txSeq < MAX_SEQ
  {
    var (i, f) := Seal(n.a.rx.info, Chunks(op)[k]).value;
    n.(a := n.a.(rx := n.a.rx.(info := i), out := After(op, k), sent := n.a.sent + Completes(op, k),
                 rotating := if op.Rekey? then Some(op.salt) else None),
       ab := n.ab + [f])
  }

  /** The end once a rekey it has under way is performed. */
  function Settled(e: End): Rx {
    match e.rotating
    case None => e.rx
    case Some(salt) => e.rx.(info := Rotate(e.rx.info, true, salt))
  }

  function ApplyA(n: Net, step: Step): Net
    requires EnabledA(n, step)
  {
    match step
    case Begin(_, op) => Emit(n, op, 0)
    case Continue(_) => Emit(n, n.a.out.op, n.a.out.done)
    case FinishRekey(_) => n.(a := n.a.(rx := Settled(n.a), rotating := None))
    case Consume(_) =>
      var (rx, v) := Receive(true, n.a.rx, n.ba[0]);
      n.(a := n.a.(rx := rx, got := n.a.got + Yield(v)), ba := n.ba[1..])
  }

  predicate Enabled(n: Net, step: Step) {
    if step.byA then EnabledA(n, step) else EnabledA(Swap(n), step)
  }

  function Apply(n: Net, step: Step): Net
    requires Enabled(n, step)
  {
    if step.byA then ApplyA(n, step) else Swap(ApplyA(Swap(n), step))
  }

  predicate Legal(n: Net, steps: seq<Step>)
    decreases |steps|
  {
    steps == [] || (Enabled(n, steps[0]) && Legal(Apply(n, steps[0]), steps[1..]))
  }

  function Exec(n: Net, steps: seq<Step>): Net
    requires Legal(n, steps)
    decreases |steps|
  {
    if steps == [] then n else Exec(Apply(n, steps[0]), steps[1..])
  }

  // ----- replaying what is in flight -----

  /** Read `frames` to the end: the state and messages arrived at, or nothing if one is refused. */
  function Replay(r: Rx, frames: seq<Frame>): Option<(Rx, seq<bytes>)>
    decreases |frames|
  {
    if frames == [] then Some((r, []))
    else
      var (r', v) := Receive(true, r, frames[0]);
      if v.Raised? then None
      else match Replay(r', frames[1..])
        case None => None
        case Some((last, ms)) => Some((last, Yield(v) + ms))
  }

  lemma {:induction false} ReplayAppend(r: Rx, frames: seq<Frame>, f: Frame)
    requires Replay(r, frames).Some?
    ensures var (m, ms) := Replay(r, frames).value;
      var (last, v) := Receive(true, m, f);
      Replay(r, frames + [f]) == if v.Raised? then None else Some((last, ms + Yield(v)))
    decreases |frames|
  {
    hide Receive;
    if frames == [] {
      assert [f][1..] == [];
      var (last, v) := Receive(true, r, f);
      assert Replay(last, []) == Some((last, []));
      assert Yield(v) + [] == [] + Yield(v);
    } else {
      assert (frames + [f])[1..] == frames[1..] + [f];
      var (r', v) := Receive(true, r, frames[0]);
      ReplayAppend(r', frames[1..], f);
      var (m, ms) := Replay(r', frames[1..]).value;
      var w := Receive(true, m, f).1;
      assert Yield(v) + (ms + Yield(w)) == Yield(v) + ms + Yield(w);
    }
  }

  /** Reading frames other than REKEY leaves the sending side alone, and does not look at it. */
  lemma ReceiveLeavesTx(r: Rx, f: Frame, t: nat)
    requires f.ptype != REKEY && t <= MAX_SEQ
    ensures var (r', v) := Receive(true, r, f);
      && r'.info.txSeq == r.info.txSeq && r'.info.txKey == r.info.txKey && r'.info.rxKey == r.info.rxKey
      && r'.info.sessionId == r.info.sessionId && r'.info.suite == r.info.suite
      && Receive(true, r.(info := r.info.(txSeq := t)), f) == (r'.(info := r'.info.(txSeq := t)), v)
      && (!v.Raised? ==> r'.info.window.rxSeq == r.info.window.rxSeq + 1)
  {
    OpenLeavesTx(r.info, f, t);
    hide Open;
  }

  lemma OpenLeavesTx(i: Info, f: Frame, t: nat)
    requires t <= MAX_SEQ
    ensures Open(true, i.(txSeq := t), f) == match Open(true, i, f)
      case Accepted(i', m) => Accepted(i'.(txSeq := t), m)
      case other => other
    ensures Open(true, i, f) != Ignored
    ensures Open(true, i, f).Accepted? ==>
      Open(true, i, f).info == i.(window := i.window.(rxSeq := i.window.rxSeq + 1))
  {
    hide Decrypt;
  }

  lemma {:induction false} ReplayLeavesTx(r: Rx, frames: seq<Frame>, t: nat)
    requires Replay(r, frames).Some? && !HasRekey(frames) && t <= MAX_SEQ
    ensures var (last, ms) := Replay(r, frames).value;
      && last.info.txSeq == r.info.txSeq && last.info.txKey == r.info.txKey && last.info.rxKey == r.info.rxKey
      && last.info.sessionId == r.info.sessionId && last.info.suite == r.info.suite
      && last.info.window.rxSeq == r.info.window.rxSeq + |frames|
      && Replay(r.(info := r.info.(txSeq := t)), frames) == Some((last.(info := last.info.(txSeq := t)), ms))
    decreases |frames|
  {
    hide Receive;
    if frames != [] {
      assert frames[0].ptype != REKEY;
      ReceiveLeavesTx(r, frames[0], t);
      assert forall k :: 0 <= k < |frames[1..]| ==> frames[1..][k] == frames[k + 1];
      ReplayLeavesTx(Receive(true, r, frames[0]).0, frames[1..], t);
    }
  }

  // ----- the invariant -----

  predicate Paired(x: Info, y: Info) {
    && x.txKey == y.rxKey && x.rxKey == y.txKey
    && x.txSeq == y.window.rxSeq && y.txSeq == x.window.rxSeq
    && x.sessionId == y.sessionId && x.suite == y.suite
  }

  /** The end after settling its own rekey and reading everything in flight to it. */
  function Future(e: End, inbound: seq<Frame>): Option<(Rx, seq<bytes>)> {
    Replay(Settled(e), inbound)
  }

  /** What must hold of end `a`, of its peer's view of it, and of the channel from it. */
  predicate Side(n: Net) {
    && Proper(n.a.out) && (n.a.rotating.Some? ==> n.a.out == Between)
    && (HasRekey(n.ab) ==> n.ba == [] && n.b.out == Between)
    && Future(n.a, n.ba).Some? && Future(n.b, n.ab).Some?
    && InStep(Future(n.b, n.ab).value.0, n.a.out, Future(n.a, n.ba).value.0.info.txSeq)
    && n.b.got + Future(n.b, n.ab).value.1 == n.a.sent
  }

  predicate Invariant(n: Net) {
    Side(n) && Side(Swap(n)) && Paired(Future(n.a, n.ba).value.0.info, Future(n.b, n.ab).value.0.info)
  }

  lemma SwapKeeps(n: Net)
    requires Invariant(n)
    ensures Invariant(Swap(n))
  {
    assert Swap(Swap(n)) == n;
  }

  // ----- every step keeps it -----

  /** The chunk just sealed is the next thing the peer accepts. */
  lemma PeerReads(i: Info, op: Op, k: nat, r: Rx)
    requires k < |Chunks(op)| && i.txSeq < MAX_SEQ && !op.Bye?
    requires i.txKey == r.info.rxKey && i.suite == r.info.suite && i.sessionId == r.info.sessionId
    requires i.txSeq == r.info.window.rxSeq && InStep(r, At(op, k), i.txSeq)
    ensures var f := Seal(i, Chunks(op)[k]).value.1;
      var (r', v) := Receive(true, r, f);
      var info := r.info.(window := r.info.window.(rxSeq := i.txSeq + 1));
      && !v.Raised? && Yield(v) == Completes(op, k) && InStep(r', After(op, k), i.txSeq + 1)
      && r'.info == if op.Rekey? then Rotate(info, false, op.salt) else info
  {
    SealedOpens(true, i, Chunks(op)[k], r.info);
    var info := r.info.(window := r.info.window.(rxSeq := i.txSeq + 1));
    ChunkInStep(true, r.(info := info), op, k, i.txSeq);
  }

  /** What the peer's future becomes when the chunk is added to the channel. */
  lemma PeerFuture(e: End, inbound: seq<Frame>, i: Info, op: Op, k: nat, r: Rx, ms: seq<bytes>) returns (r': Rx)
    requires Future(e, inbound) == Some((r, ms))
    requires k < |Chunks(op)| && i.txSeq < MAX_SEQ && !op.Bye?
    requires i.txKey == r.info.rxKey && i.suite == r.info.suite && i.sessionId == r.info.sessionId
    requires i.txSeq == r.info.window.rxSeq && InStep(r, At(op, k), i.txSeq)
    ensures Future(e, inbound + [Seal(i, Chunks(op)[k]).value.1]) == Some((r', ms + Completes(op, k)))
    ensures InStep(r', After(op, k), i.txSeq + 1)
    ensures r'.info == (var info := r.info.(window := r.info.window.(rxSeq := i.txSeq + 1));
                        if op.Rekey? then Rotate(info, false, op.salt) else info)
  {
    hide Receive;
    hide Seal;
    hide InStep;
    hide Rotate;
    hide Chunks;
    var f := Seal(i, Chunks(op)[k]).value.1;
    PeerReads(i, op, k, r);
    ReplayAppend(Settled(e), inbound, f);
    r' := Receive(true, r, f).0;
  }

  /** Sealing chunk `k` of any operation but REKEY. */
  lemma EmitKeeps(n: Net, op: Op, k: nat)
    requires Invariant(n) && MaySeal(n) && k < |Chunks(op)| && n.a.out == At(op, k) && !op.Bye? && !op.Rekey?
    ensures Invariant(Emit(n, op, k))
  {
    hide Replay;
    hide InStep;
    hide Chunks;
    hide HasRekey;
    var i := n.a.rx.info;
    var (fa, ma) := Future(n.a, n.ba).value;
    var (fb, mb) := Future(n.b, n.ab).value;
    ReplayLeavesTx(n.a.rx, n.ba, i.txSeq + 1);
    var fb' := PeerFuture(n.b, n.ab, i, op, k, fb, mb);
    NotRekey(op, k);
    EmitChannel(n, Seal(i, Chunks(op)[k]).value.1);
    EmitProper(op, k);
    EmitInStep(n.b.out, fa, i.txSeq + 1, fb.info.txSeq);
    assert n.b.got + (mb + Completes(op, k)) == n.b.got + mb + Completes(op, k);
  }

  /** Writing a REKEY: once it is read and the writer has settled, the keys are crossed again and
      all counters are zero. */
  lemma RekeyKeeps(n: Net, op: Op)
    requires Invariant(n) && EnabledA(n, Begin(true, op)) && op.Rekey?
    ensures Invariant(Emit(n, op, 0))
  {
    var n' := Emit(n, op, 0);
    var (fb, mb) := Future(n.b, n.ab).value;
    var fb' := PeerFuture(n.b, n.ab, n.a.rx.info, op, 0, fb, mb);
    RekeyCrosses(n.a.rx.info.txKey, n.a.rx.info.rxKey, n.a.rx.info.sessionId, op.salt);
    assert n.b.got + (mb + []) == n.b.got + mb;
  }

  lemma EmitInStep(o: Outgoing, r: Rx, t: nat, next: nat)
    requires InStep(r, o, next) && t <= MAX_SEQ
    ensures InStep(r.(info := r.info.(txSeq := t)), o, next)
  {
  }

  lemma EmitProper(op: Op, k: nat)
    requires k < |Chunks(op)|
    ensures Proper(After(op, k))
  {
  }

  lemma EmitChannel(n: Net, f: Frame)
    requires f.ptype != REKEY
    ensures HasRekey(n.ab + [f]) <==> HasRekey(n.ab)
  {
    var g := n.ab + [f];
    assert forall k :: 0 <= k < |n.ab| ==> g[k] == n.ab[k];
  }

  lemma ConsumeKeeps(n: Net)
    requires Invariant(n) && EnabledA(n, Consume(true))
    ensures !Receive(true, n.a.rx, n.ba[0]).1.Raised? && Invariant(ApplyA(n, Consume(true)))
  {
    hide Receive;
    hide InStep;
    var n' := ApplyA(n, Consume(true));
    var (rx, v) := Receive(true, n.a.rx, n.ba[0]);
    var ms := Replay(rx, n.ba[1..]).value.1;
    assert n.a.got + (Yield(v) + ms) == n.a.got + Yield(v) + ms;
    assert forall k :: 0 <= k < |n'.ba| ==> n'.ba[k] == n.ba[k + 1];
    assert HasRekey(n'.ba) ==> HasRekey(n.ba);
  }

  lemma FinishKeeps(n: Net)
    requires Invariant(n) && EnabledA(n, FinishRekey(true))
    ensures Invariant(ApplyA(n, FinishRekey(true)))
  {
    hide Replay;
    hide InStep;
    hide Rotate;
    hide HasRekey;
  }

  lemma StepKeepsA(n: Net, step: Step)
    requires Invariant(n) && EnabledA(n, step)
    ensures Invariant(ApplyA(n, step))
  {
    match step
    case Begin(_, op) =>
      if op.Rekey? {
        RekeyKeeps(n, op);
      } else {
        EmitKeeps(n, op, 0);
      }
    case Continue(_) =>
      EmitKeeps(n, n.a.out.op, n.a.out.done);
    case FinishRekey(_) =>
      FinishKeeps(n);
    case Consume(_) =>
      ConsumeKeeps(n);
  }

  lemma {:induction false} RunKeeps(n: Net, steps: seq<Step>)
    requires Invariant(n) && Legal(n, steps)
    ensures Invariant(Exec(n, steps))
    decreases |steps|
  {
    if steps != [] {
      hide Invariant;
      if steps[0].byA {
        StepKeepsA(n, steps[0]);
      } else {
        SwapKeeps(n);
        StepKeepsA(Swap(n), steps[0]);
        SwapKeeps(ApplyA(Swap(n), steps[0]));
      }
      RunKeeps(Apply(n, steps[0]), steps[1..]);
    }
  }

  /** Two idle ends with crossed keys and matching counters, nothing in flight. */
  predicate Fresh(n: Net) {
    && n.ab == [] && n.ba == [] && Paired(n.a.rx.info, n.b.rx.info)
    && n.a == End(Idle(n.a.rx.info), Between, None, [], []) && n.b == End(Idle(n.b.rx.info), Between, None, [], [])
  }

  // ----- what holds at every moment of every run -----

  /** Every frame in flight will be accepted, and reading them all leaves the ends with crossed keys
      and matching sequence counters, however many rekeys are among them. */
  lemma StaysPaired(n: Net, steps: seq<Step>)
    requires Fresh(n) && Legal(n, steps)
    ensures var m := Exec(n, steps);
      && Future(m.a, m.ba).Some? && Future(m.b, m.ab).Some?
      && Paired(Future(m.a, m.ba).value.0.info, Future(m.b, m.ab).value.0.info)
  {
    assert Invariant(n) by { FreshIsGood(n); }
    RunKeeps(n, steps);
  }

  lemma FreshIsGood(n: Net)
    requires Fresh(n)
    ensures Invariant(n)
  {
  }

  /** No read ever fails: the next frame in either direction is accepted as it stands. */
  lemma EveryReadSucceeds(n: Net, steps: seq<Step>)
    requires Fresh(n) && Legal(n, steps)
    ensures var m := Exec(n, steps);
      && (m.b.rotating == None && m.ab != [] ==> !Receive(true, m.b.rx, m.ab[0]).1.Raised?)
      && (m.a.rotating == None && m.ba != [] ==> !Receive(true, m.a.rx, m.ba[0]).1.Raised?)
  {
    StaysPaired(n, steps);
    hide Receive;
  }

  /** The messages received are a prefix of the messages sent, and all of them once nothing is in
      flight. */
  lemma MessagesRoundTrip(n: Net, steps: seq<Step>)
    requires Fresh(n) && Legal(n, steps)
    ensures var m := Exec(n, steps);
      && m.b.got <= m.a.sent && m.a.got <= m.b.sent
      && (m.ab == [] ==> m.b.got == m.a.sent) && (m.ba == [] ==> m.a.got == m.b.sent)
  {
    FreshIsGood(n);
    RunKeeps(n, steps);
    hide InStep;
    var m := Exec(n, steps);
    assert m.b.got + [] == m.b.got && m.a.got + [] == m.a.got;
  }

  /** With no rekey under way, a sender is ahead of its peer by exactly the frames in flight. */
  lemma LagIsInFlight(n: Net, steps: seq<Step>)
    requires Fresh(n) && Legal(n, steps)
    requires var m := Exec(n, steps);
      !HasRekey(m.ab) && !HasRekey(m.ba) && m.a.rotating == None && m.b.rotating == None
    ensures var m := Exec(n, steps);
      && m.a.rx.info.txSeq == m.b.rx.info.window.rxSeq + |m.ab|
      && m.b.rx.info.txSeq == m.a.rx.info.window.rxSeq + |m.ba|
  {
    StaysPaired(n, steps);
    var m := Exec(n, steps);
    ReplayLeavesTx(m.a.rx, m.ba, 0);
    ReplayLeavesTx(m.b.rx, m.ab, 0);
  }

  // ----- every operation can be carried out -----

  /** Nothing in flight, no message or rekey under way. */
  predicate Quiet(n: Net) {
    n.ab == [] && n.ba == [] && n.a.out == n.b.out == Between && n.a.rotating == n.b.rotating == None
  }

  /** Nothing in flight, and end `a` about to seal chunk `k` of `op`. */
  predicate Midway(n: Net, op: Op, k: nat) {
    n.ab == [] && n.ba == [] && n.a.out == At(op, k) && n.b.out == Between && n.a.rotating == n.b.rotating == None
  }

  lemma OneStep(n: Net, step: Step, rest: seq<Step>)
    requires Enabled(n, step) && Legal(Apply(n, step), rest)
    ensures Legal(n, [step] + rest) && Exec(n, [step] + rest) == Exec(Apply(n, step), rest)
  {
    hide Apply;
    hide Enabled;
    assert ([step] + rest)[1..] == rest;
  }

  lemma {:induction false} StepsThen(n: Net, xs: seq<Step>, ys: seq<Step>)
    requires Legal(n, xs) && Legal(Exec(n, xs), ys)
    ensures Legal(n, xs + ys) && Exec(n, xs + ys) == Exec(Exec(n, xs), ys)
    decreases |xs|
  {
    hide Apply;
    hide Enabled;
    if xs == [] {
      assert xs + ys == ys;
    } else {
      assert (xs + ys)[0] == xs[0] && (xs + ys)[1..] == xs[1..] + ys;
      StepsThen(Apply(n, xs[0]), xs[1..], ys);
    }
  }

  lemma NoSteps(n: Net)
    ensures Legal(n, []) && Exec(n, []) == n
  {
  }

  function SealStep(op: Op, k: nat): Step {
    if k == 0 then Begin(true, op) else Continue(true)
  }

  /** End `a` seals chunk `k`; the channel holds just that frame. */
  lemma SealOne(n: Net, op: Op, k: nat)
    requires Midway(n, op, k) && k < |Chunks(op)| && !op.Bye? && n.a.rx.info.txSeq < MAX_SEQ
    ensures Enabled(n, SealStep(op, k))
    ensures var n' := Apply(n, SealStep(op, k));
      && |n'.ab| == 1 && n'.ba == [] && n'.b == n.b && n'.a.out == After(op, k) && n'.a.sent == n.a.sent + Completes(op, k)
      && n'.a.rx.info == n.a.rx.info.(txSeq := n.a.rx.info.txSeq + 1) && n'.a.rotating == if op.Rekey? then Some(op.salt) else None
  {
    hide Chunks;
    assert [] + [Seal(n.a.rx.info, Chunks(op)[k]).value.1] == [Seal(n.a.rx.info, Chunks(op)[k]).value.1];
  }

  /** End `b` reads the one frame there is. */
  lemma ReadOne(n: Net)
    requires |n.ab| == 1 && n.ba == [] && n.b.rotating == None
    ensures Enabled(n, Consume(false))
    ensures var n' := Apply(n, Consume(false)); n'.ab == [] && n'.ba == [] && n'.a == n.a && n'.b.out == n.b.out && n'.b.rotating == None
  {
    hide Receive;
  }

  /** A frame sealed and read: end `a` is one chunk on, and done after the last, once a rekey is performed. */
  lemma OneFrame(n: Net, op: Op, k: nat) returns (steps: seq<Step>)
    requires Midway(n, op, k) && k < |Chunks(op)| && !op.Bye? && n.a.rx.info.txSeq < MAX_SEQ
    ensures Legal(n, steps)
    ensures var n' := Exec(n, steps);
      && n'.a.sent == n.a.sent + Completes(op, k) && (!op.Rekey? ==> n'.a.rx.info.txSeq == n.a.rx.info.txSeq + 1)
      && if k + 1 < |Chunks(op)| then Midway(n', op, k + 1) else Quiet(n')
  {
    SealOne(n, op, k);
    var n1 := Apply(n, SealStep(op, k));
    ReadOne(n1);
    var n2 := Apply(n1, Consume(false));
    ChunkKinds(op, k);
    hide Chunks;
    hide Legal;
    hide Exec;
    if op.Rekey? {
      var n3 := Apply(n2, FinishRekey(true));
      NoSteps(n3);
      OneStep(n2, FinishRekey(true), []);
      OneStep(n1, Consume(false), [FinishRekey(true)] + []);
      OneStep(n, SealStep(op, k), [Consume(false)] + ([FinishRekey(true)] + []));
      steps := [SealStep(op, k)] + ([Consume(false)] + ([FinishRekey(true)] + []));
    } else {
      hide Apply;
      hide Enabled;
      NoSteps(n2);
      OneStep(n1, Consume(false), []);
      OneStep(n, SealStep(op, k), [Consume(false)] + []);
      steps := [SealStep(op, k)] + ([Consume(false)] + []);
    }
  }

  lemma {:induction false} OpRuns(n: Net, op: Op, k: nat) returns (steps: seq<Step>)
    requires Midway(n, op, k) && k < |Chunks(op)| && !op.Bye? && n.a.rx.info.txSeq + (|Chunks(op)| - k) <= MAX_SEQ
    ensures Legal(n, steps) && Quiet(Exec(n, steps))
    ensures Exec(n, steps).a.sent == n.a.sent + (if op.Send? then [op.data] else [])
    decreases |Chunks(op)| - k
  {
    ChunkKinds(op, k);
    hide Chunks;
    hide Legal;
    hide Exec;
    var first := OneFrame(n, op, k);
    if k + 1 < |Chunks(op)| {
      var rest := OpRuns(Exec(n, first), op, k + 1);
      StepsThen(n, first, rest);
      steps := first + rest;
      assert n.a.sent + [] == n.a.sent;
    } else {
      steps := first;
    }
  }

  /** In every run, when nothing is under way, any operation but a BYE can be carried out as long as the numbers suffice;
      then nothing is under way again, and its message, if it has one, has arrived. */
  lemma AnyOperationPasses(n: Net, before: seq<Step>, op: Op) returns (steps: seq<Step>)
    requires Fresh(n) && Legal(n, before) && Quiet(Exec(n, before)) && !op.Bye?
    requires Exec(n, before).a.rx.info.txSeq + |Chunks(op)| <= MAX_SEQ
    ensures Legal(n, before + steps)
    ensures var m, m' := Exec(n, before), Exec(n, before + steps);
      Quiet(m') && m'.b.got == m'.a.sent == m.a.sent + (if op.Send? then [op.data] else [])
  {
    hide Chunks;
    hide Legal;
    hide Exec;
    steps := OpRuns(Exec(n, before), op, 0);
    StepsThen(n, before, steps);
    MessagesRoundTrip(n, before + steps);
  }

  // ----- the discipline is needed -----

  /** A rekey strands whatever is on its way to the end that makes it: after it, the frames in
      flight can all be read exactly when there are none. */
  lemma RekeyStrandsInbound(r: Rx, inbound: seq<Frame>, salt: bytes)
    requires Replay(r, inbound).Some?
    ensures Replay(r.(info := Rotate(r.info, true, salt)), inbound).Some? <==> inbound == []
  {
    if inbound != [] {
      var f := inbound[0];
      assert Open(true, r.info, f).Accepted?;
      assert f.payload.Sealed? && f.payload.key == r.info.rxKey;
      var i := Rotate(r.info, true, salt);
      assert Rank(r.info.rxKey) < Rank(i.rxKey);
      assert Open(true, i, f) == Refused(CryptoError);
    }
  }

  /** A frame the peer seals before it has read the REKEY is refused by the end that rekeyed. */
  lemma SealingBeforeReadingStrands(i: Info, peer: Info, c: Chunk, salt: bytes)
    requires Paired(i, peer) && Seal(peer, c).Ok?
    ensures Open(true, Rotate(i, true, salt), Seal(peer, c).value.1) == Refused(CryptoError)
  {
    var i' := Rotate(i, true, salt);
    assert Rank(i.rxKey) < Rank(i'.rxKey);
    WrongKeyRefused(true, peer, c, i');
  }

  /** And an end that reads between writing its REKEY and changing its own keys refuses what the
      peer seals after reading it. */
  lemma ReadingMidRekeyFails(i: Info, peer: Info, c: Chunk, salt: bytes)
    requires Paired(i, peer) && Seal(Rotate(peer, false, salt), c).Ok?
    ensures Open(true, i, Seal(Rotate(peer, false, salt), c).value.1) == Refused(CryptoError)
  {
    var peer' := Rotate(peer, false, salt);
    assert Rank(peer.txKey) < Rank(peer'.txKey);
    WrongKeyRefused(true, peer', c, i);
  }

  /** And a rekey in the middle of a message from the peer breaks that message: the peer goes on with
      number 0 of the new epoch, which is accepted exactly when nothing of the message had been read. */
  lemma RekeyMidMessageFails(r: Rx, peer: Info, op: Op, k: nat, salt: bytes)
    requires Paired(r.info, peer) && op.Send? && k < |Chunks(op)| && k <= peer.txSeq
    requires InStep(r, At(op, k), peer.txSeq)
    ensures var f := Seal(Rotate(peer, false, salt), Chunks(op)[k]).value.1;
      Receive(true, r.(info := Rotate(r.info, true, salt)), f).1 == if k == 0 then Due(op, 0) else Raised(SequenceError)
  {
    var mine, theirs := Rotate(r.info, true, salt), Rotate(peer, false, salt);
    RekeyCrosses(r.info.txKey, r.info.rxKey, peer.sessionId, salt);
    assert Paired(mine, theirs) && theirs.txSeq == 0;
    hide Rotate;
    SealedOpens(true, theirs, Chunks(op)[k], mine);
    ChunkKinds(op, k);
    var info := mine.(window := mine.window.(rxSeq := 1));
    if k == 0 {
      ChunkInStep(true, r.(info := info), op, 0, 0);
    }
    hide Open;
    hide Chunks;
  }
}
