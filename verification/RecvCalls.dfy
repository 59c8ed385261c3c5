/** Whole `recv` calls over TCP, control frames and their budget included. */
module RecvCalls {
  import opened Wire
  import opened Session
  import opened Transfer
  import Interruptions

  /** The frame that carries `c` under sequence number `t`. */
  function FrameAt(i: Info, t: nat, c: Chunk): Frame
    requires t < MAX_SEQ
  {
    Seal(i.(txSeq := t), c).value.1
  }

  /** The arrivals are the peer's frames for `chunks`, in order from number `t`, at any times, and
      every PONG they call for gets written. */
  predicate Carried(i: Info, t: nat, chunks: seq<Chunk>, arrivals: seq<Arrival>) {
    && |arrivals| == |chunks| && t + |chunks| <= MAX_SEQ
    && forall k :: 0 <= k < |chunks| ==> arrivals[k].frame == Ok(FrameAt(i, t + k, chunks[k])) && arrivals[k].pongWritten
  }

  /** The receiver expects the sender's next frame to be number `t`. */
  predicate Ready(i: Info, r: Info, t: nat) {
    i.txKey == r.rxKey && i.suite == r.suite && i.sessionId == r.sessionId && r.window.rxSeq == t
  }

  lemma {:induction false} CarriedTail(i: Info, t: nat, chunks: seq<Chunk>, arrivals: seq<Arrival>)
    requires chunks != [] && Carried(i, t, chunks, arrivals)
    ensures Carried(i, t + 1, chunks[1..], arrivals[1..])
  {
    forall k | 0 <= k < |chunks[1..]|
      ensures arrivals[1..][k].frame == Ok(FrameAt(i, t + 1 + k, chunks[1..][k])) && arrivals[1..][k].pongWritten
    {
      assert arrivals[1..][k] == arrivals[k + 1];
    }
  }

  /** One turn on the chunk of a message that is due. */
  lemma MessageTurn(i: Info, t: nat, op: Op, k: nat, l: Loop, a: Arrival)
    requires t < MAX_SEQ && op.Send? && k < |Chunks(op)|
    requires Ready(i, l.rx.info, t) && InStep(l.rx, At(op, k), t)
    requires a.frame == Ok(FrameAt(i, t, Chunks(op)[k]))
    ensures var l' := Turn(true, l, a);
      && Ready(i, l'.rx.info, t + 1) && InStep(l'.rx, After(op, k), t + 1)
      && l'.rx.info.txSeq == l.rx.info.txSeq
      && l'.outcome == if k + 1 == |Chunks(op)| then Got(op.data) else l.outcome
  {
    SealedOpens(true, i.(txSeq := t), Chunks(op)[k], l.rx.info);
    var info := l.rx.info.(window := l.rx.info.window.(rxSeq := t + 1));
    ChunkInStep(true, l.rx.(info := info), op, k, t);
    hide Interpret;
    hide InStep;
    assert Receive(true, l.rx, a.frame.value).1 == Due(op, k);
  }

  /** The rest of a message, from its k-th chunk, ends the call with the message. */
  lemma {:induction false} RestOfMessage(i: Info, t: nat, op: Op, k: nat, l: Loop, arrivals: seq<Arrival>)
    requires op.Send? && k < |Chunks(op)| && Carried(i, t, Chunks(op)[k..], arrivals)
    requires Ready(i, l.rx.info, t) && InStep(l.rx, At(op, k), t) && l.outcome == Reading
    ensures var (last, n) := RecvRun(true, l, arrivals);
      && last.outcome == Got(op.data) && n == |arrivals|
      && Ready(i, last.rx.info, t + |arrivals|) && last.rx.info.txSeq == l.rx.info.txSeq
    decreases |arrivals|
  {
    hide Turn;
    hide InStep;
    hide Chunks;
    var l' := Turn(true, l, arrivals[0]);
    MessageTurn(i, t, op, k, l, arrivals[0]);
    if k + 1 < |Chunks(op)| {
      CarriedTail(i, t, Chunks(op)[k..], arrivals);
      assert Chunks(op)[k..][1..] == Chunks(op)[k + 1..];
      RestOfMessage(i, t + 1, op, k + 1, l', arrivals[1..]);
    } else {
      assert arrivals[1..] == [];
      RunEnds(true, l', arrivals[1..]);
    }
  }

  lemma JustMessage(i: Info, t: nat, op: Op, l: Loop, arrivals: seq<Arrival>)
    requires op.Send? && Carried(i, t, Chunks(op), arrivals) && Ready(i, l.rx.info, t)
    requires l.rx == Idle(l.rx.info) && l.outcome == Reading
    ensures var (last, n) := RecvRun(true, l, arrivals);
      && last.outcome == Got(op.data) && n == |arrivals|
      && Ready(i, last.rx.info, t + |arrivals|) && last.rx.info.txSeq == l.rx.info.txSeq
  {
    hide Chunks;
    hide RecvRun;
    hide Carried;
    assert Chunks(op)[0..] == Chunks(op);
    RestOfMessage(i, t, op, 0, l, arrivals);
  }

  /** Chunks `j` to `k` of a message, met in step, leave the call reading. */
  lemma {:induction false} PartOfMessage(i: Info, t: nat, op: Op, j: nat, k: nat, l: Loop, arrivals: seq<Arrival>)
    requires op.Send? && j <= k < |Chunks(op)| && Carried(i, t, Chunks(op)[j..k], arrivals)
    requires Ready(i, l.rx.info, t) && InStep(l.rx, At(op, j), t) && l.outcome == Reading
    ensures var (last, n) := RecvRun(true, l, arrivals);
      last.outcome == Reading && n == k - j && Ready(i, last.rx.info, t + (k - j))
    decreases k - j
  {
    hide Turn;
    hide InStep;
    hide Chunks;
    if j < k {
      MessageTurn(i, t, op, j, l, arrivals[0]);
      CarriedTail(i, t, Chunks(op)[j..k], arrivals);
      assert Chunks(op)[j..k][1..] == Chunks(op)[j + 1..k];
      PartOfMessage(i, t + 1, op, j + 1, k, Turn(true, l, arrivals[0]), arrivals[1..]);
    }
  }

  lemma CarriedSplit(i: Info, t: nat, chunks: seq<Chunk>, arrivals: seq<Arrival>, k: nat)
    requires Carried(i, t, chunks, arrivals) && k <= |chunks|
    ensures Carried(i, t, chunks[..k], arrivals[..k]) && Carried(i, t + k, chunks[k..], arrivals[k..])
  {
    hide FrameAt;
    forall n | 0 <= n < |chunks[k..]|
      ensures arrivals[k..][n].frame == Ok(FrameAt(i, t + k + n, chunks[k..][n])) && arrivals[k..][n].pongWritten
    {
      assert arrivals[k..][n] == arrivals[k + n] && chunks[k..][n] == chunks[k + n];
    }
  }

  /** Over TCP a `recv` given up after `k` frames of a message loses them: the next one returns the rest as a
      complete message, which is the message sent if and only if `k` is zero. */
  lemma GivenUpOverTcp(i: Info, t: nat, op: Op, k: nat, info: Info, b: Budget, b': Budget, arrivals: seq<Arrival>)
    returns (first: Loop, second: Loop)
    requires op.Send? && k < |Chunks(op)| && Carried(i, t, Chunks(op), arrivals) && Ready(i, info, t)
    ensures first == RecvRun(true, Loop(Idle(info), b, [], Reading), arrivals[..k]).0 && first.outcome == Reading
    ensures second == RecvRun(true, Loop(Idle(first.rx.info), b', [], Reading), arrivals[k..]).0
    ensures second.outcome == Got(Interruptions.Tail(op.data, k)) && (second.outcome == Got(op.data) <==> k == 0)
  {
    hide RecvRun;
    hide Chunks;
    hide Fragment;
    var rest := TailOp(op, k);
    hide Interruptions.Tail;
    CarriedSplit(i, t, Chunks(op), arrivals, k);
    hide Carried;
    hide Ready;
    var l := Loop(Idle(info), b, [], Reading);
    assert Chunks(op)[0..k] == Chunks(op)[..k];
    PartOfMessage(i, t, op, 0, k, l, arrivals[..k]);
    first := RecvRun(true, l, arrivals[..k]).0;
    var l' := Loop(Idle(first.rx.info), b', [], Reading);
    JustMessage(i, t + k, rest, l', arrivals[k..]);
    second := RecvRun(true, l', arrivals[k..]).0;
  }

  /** The tail of a message as an operation of its own. */
  lemma TailOp(op: Op, k: nat) returns (rest: Op)
    requires op.Send? && k < |Chunks(op)|
    ensures rest.Send? && rest.data == Interruptions.Tail(op.data, k) && Chunks(rest) == Chunks(op)[k..]
    ensures rest.data == op.data <==> k == 0
  {
    Interruptions.FragmentOfTail(op.data, k);
    Interruptions.TailWhole(op.data, k);
    hide Fragment;
    assert [Interruptions.Tail(op.data, k)][0] == Interruptions.Tail(op.data, k) && [op.data][0] == op.data;
    rest := Op.Send(Interruptions.Tail(op.data, k));
  }

  // ----- control frames and their budget -----

  predicate IsControl(op: Op) {
    op.Ping? || op.Pong?
  }

  predicate AllControl(ops: seq<Op>) {
    forall k :: 0 <= k < |ops| ==> IsControl(ops[k])
  }

  /** How many PONGs the control frames call for. */
  function Pings(ops: seq<Op>): nat {
    if ops == [] then 0 else (if ops[0].Ping? then 1 else 0) + Pings(ops[1..])
  }

  /** The first `n` arrivals, each charged to the budget at its own time, never exceed it. */
  predicate Affordable(b: Budget, n: nat, arrivals: seq<Arrival>)
    decreases n
  {
    n == 0 || (arrivals != [] &&
      (var b' := Spend(b, arrivals[0].now); b'.count <= BUDGET_LIMIT && Affordable(b', n - 1, arrivals[1..])))
  }

  /** A PING is answered by one PONG, a PONG by nothing; either is charged to the budget, and the call
      ends when the budget is exceeded. */
  lemma ControlSpends(i: Info, t: nat, op: Op, l: Loop, a: Arrival)
    requires t < MAX_SEQ && IsControl(op) && Ready(i, l.rx.info, t) && l.rx == Idle(l.rx.info)
    requires a.frame == Ok(FrameAt(i, t, Chunks(op)[0])) && (op.Ping? ==> a.pongWritten && l.rx.info.txSeq < MAX_SEQ)
    ensures var l' := Turn(true, l, a);
      && Ready(i, l'.rx.info, t + 1) && l'.rx == Idle(l'.rx.info) && l'.budget == Spend(l.budget, a.now)
      && l'.outcome == (if Spend(l.budget, a.now).count > BUDGET_LIMIT then Error(ConnectionClosed) else l.outcome)
      && l'.rx.info.txSeq == l.rx.info.txSeq + (if op.Ping? then 1 else 0)
      && (if op.Ping? then
            && |l'.written| == |l.written| + 1 && l'.written[..|l.written|] == l.written
            && l'.written[|l.written|] == FrameAt(l.rx.info, l.rx.info.txSeq, Chunk(PONG, []))
          else l'.written == l.written)
  {
    SealedOpens(true, i.(txSeq := t), Chunks(op)[0], l.rx.info);
  }

  lemma RunSteps(reliable: bool, l: Loop, arrivals: seq<Arrival>)
    requires l.outcome == Reading && arrivals != []
    ensures var (last, n) := RecvRun(reliable, Turn(reliable, l, arrivals[0]), arrivals[1..]);
      RecvRun(reliable, l, arrivals) == (last, n + 1)
  {
    hide Turn;
  }

  lemma ControlFirst(ops: seq<Op>)
    requires ops != [] && IsControl(ops[0])
    ensures |Chunks(ops[0])| == 1 && Flatten(ops) == [Chunks(ops[0])[0]] + Flatten(ops[1..])
    ensures Flatten(ops)[1..] == Flatten(ops[1..])
  {
  }

  /** A call that stops stops at the first arrival the budget cannot pay for. */
  predicate StopsAt(b: Budget, n: nat, arrivals: seq<Arrival>) {
    n >= 1 && Affordable(b, n - 1, arrivals) && !Affordable(b, n, arrivals)
  }

  /** A call at rest, with control frames and then `rest` ahead of it. */
  predicate Ahead(i: Info, t: nat, ops: seq<Op>, rest: seq<Chunk>, l: Loop, arrivals: seq<Arrival>) {
    && AllControl(ops) && Carried(i, t, Flatten(ops) + rest, arrivals) && Ready(i, l.rx.info, t)
    && l.rx == Idle(l.rx.info) && l.rx.info.txSeq + Pings(ops) <= MAX_SEQ
  }

  /** The chunks of control frames and of what follows, split after the first. */
  lemma ControlChunks(ops: seq<Op>, rest: seq<Chunk>)
    requires ops != [] && IsControl(ops[0])
    ensures var chunks := Flatten(ops) + rest;
      chunks != [] && chunks[0] == Chunks(ops[0])[0] && chunks[1..] == Flatten(ops[1..]) + rest
  {
    ControlFirst(ops);
    hide Flatten;
    hide Chunks;
    assert [Chunks(ops[0])[0]] + Flatten(ops[1..]) + rest == [Chunks(ops[0])[0]] + (Flatten(ops[1..]) + rest);
  }

  lemma CarriedFirst(i: Info, t: nat, chunks: seq<Chunk>, arrivals: seq<Arrival>)
    requires chunks != [] && Carried(i, t, chunks, arrivals)
    ensures arrivals != [] && t < MAX_SEQ
    ensures arrivals[0].frame == Ok(FrameAt(i, t, chunks[0])) && arrivals[0].pongWritten
  {
    hide FrameAt;
    assert t + 0 == t;
  }

  /** The first arrival carries the first control frame, the others the rest. */
  lemma CarriedControl(i: Info, t: nat, ops: seq<Op>, rest: seq<Chunk>, arrivals: seq<Arrival>)
    requires ops != [] && AllControl(ops) && Carried(i, t, Flatten(ops) + rest, arrivals)
    ensures IsControl(ops[0]) && arrivals != [] && t < MAX_SEQ
    ensures arrivals[0].frame == Ok(FrameAt(i, t, Chunks(ops[0])[0])) && arrivals[0].pongWritten
    ensures AllControl(ops[1..]) && Carried(i, t + 1, Flatten(ops[1..]) + rest, arrivals[1..])
  {
    hide Chunks;
    hide Flatten;
    hide FrameAt;
    hide Carried;
    assert IsControl(ops[0]);
    assert forall k :: 0 <= k < |ops[1..]| ==> ops[1..][k] == ops[k + 1];
    hide IsControl;
    ControlChunks(ops, rest);
    var chunks := Flatten(ops) + rest;
    CarriedFirst(i, t, chunks, arrivals);
    CarriedTail(i, t, chunks, arrivals);
  }

  /** The first control frame is charged, and the rest lies ahead as before. */
  lemma OneControl(i: Info, t: nat, ops: seq<Op>, rest: seq<Chunk>, l: Loop, arrivals: seq<Arrival>)
    requires ops != [] && Ahead(i, t, ops, rest, l, arrivals)
    ensures arrivals != []
    ensures var l' := Turn(true, l, arrivals[0]);
      && l'.budget == Spend(l.budget, arrivals[0].now) && Ahead(i, t + 1, ops[1..], rest, l', arrivals[1..])
      && l'.outcome == (if l'.budget.count > BUDGET_LIMIT then Error(ConnectionClosed) else l.outcome)
      && l'.rx.info.txSeq + Pings(ops[1..]) == l.rx.info.txSeq + Pings(ops)
  {
    hide Turn;
    hide Chunks;
    hide Ready;
    hide Carried;
    hide Flatten;
    hide AllControl;
    hide FrameAt;
    CarriedControl(i, t, ops, rest, arrivals);
    ControlSpends(i, t, ops[0], l, arrivals[0]);
  }

  /** The run from `l` is the run from `l'` on what follows the first `m` arrivals. */
  predicate Skips(l: Loop, l': Loop, m: nat, arrivals: seq<Arrival>) {
    && m <= |arrivals|
    && RecvRun(true, l, arrivals) == (RecvRun(true, l', arrivals[m..]).0, m + RecvRun(true, l', arrivals[m..]).1)
  }

  lemma SkipsOne(l: Loop, l': Loop, m: nat, arrivals: seq<Arrival>)
    requires l.outcome == Reading && arrivals != [] && Skips(Turn(true, l, arrivals[0]), l', m, arrivals[1..])
    ensures Skips(l, l', m + 1, arrivals)
  {
    hide Turn;
    RunSteps(true, l, arrivals);
    hide RecvRun;
    assert arrivals[1..][m..] == arrivals[m + 1..];
  }

  /** Control frames the budget pays for are all read, whatever follows them. */
  lemma {:induction false} ControlsPaid(i: Info, t: nat, ops: seq<Op>, rest: seq<Chunk>, l: Loop, arrivals: seq<Arrival>)
    returns (l': Loop)
    requires Ahead(i, t, ops, rest, l, arrivals) && l.outcome == Reading && Affordable(l.budget, |ops|, arrivals)
    ensures Skips(l, l', |ops|, arrivals) && Ahead(i, t + |ops|, [], rest, l', arrivals[|ops|..])
    ensures l'.outcome == Reading && l'.rx.info.txSeq == l.rx.info.txSeq + Pings(ops)
    decreases |ops|
  {
    hide Turn;
    hide Ahead;
    hide RecvRun;
    assert arrivals[0..] == arrivals;
    if ops == [] {
      l' := l;
    } else {
      OneControl(i, t, ops, rest, l, arrivals);
      l' := ControlsPaid(i, t + 1, ops[1..], rest, Turn(true, l, arrivals[0]), arrivals[1..]);
      SkipsOne(l, l', |ops| - 1, arrivals);
      hide Skips;
      assert arrivals[1..][|ops| - 1..] == arrivals[|ops|..];
    }
  }

  /** Control frames it does not pay for end the connection, at the first that is too many. */
  lemma {:induction false} ControlsUnpaid(i: Info, t: nat, ops: seq<Op>, rest: seq<Chunk>, l: Loop, arrivals: seq<Arrival>)
    requires Ahead(i, t, ops, rest, l, arrivals) && l.outcome == Reading && !Affordable(l.budget, |ops|, arrivals)
    ensures var (last, n) := RecvRun(true, l, arrivals);
      last.outcome == Error(ConnectionClosed) && n <= |ops| && StopsAt(l.budget, n, arrivals)
    decreases |ops|
  {
    hide Turn;
    hide Ahead;
    OneControl(i, t, ops, rest, l, arrivals);
    RunSteps(true, l, arrivals);
    hide RecvRun;
    var l' := Turn(true, l, arrivals[0]);
    if l'.outcome == Reading {
      ControlsUnpaid(i, t + 1, ops[1..], rest, l', arrivals[1..]);
    } else {
      RunEnds(true, l', arrivals[1..]);
    }
  }

  lemma MessageAhead(i: Info, t: nat, message: Op, l: Loop, arrivals: seq<Arrival>)
    requires message.Send? && Ahead(i, t, [], Chunks(message), l, arrivals) && l.outcome == Reading
    ensures var (last, n) := RecvRun(true, l, arrivals);
      && last.outcome == Got(message.data) && n == |arrivals|
      && Ready(i, last.rx.info, t + |arrivals|) && last.rx.info.txSeq == l.rx.info.txSeq
  {
    hide RecvRun;
    hide Carried;
    hide Chunks;
    hide Ready;
    assert Flatten([]) + Chunks(message) == Chunks(message);
    JustMessage(i, t, message, l, arrivals);
  }

  /** Control frames and then a message: the call returns the message if and only if the budget pays
      for the control frames, and otherwise ends the connection at the first it cannot pay for. */
  lemma ControlsThenMessage(i: Info, t: nat, ops: seq<Op>, message: Op, l: Loop, arrivals: seq<Arrival>)
    requires message.Send? && Ahead(i, t, ops, Chunks(message), l, arrivals) && l.outcome == Reading
    ensures var (last, n) := RecvRun(true, l, arrivals);
      if Affordable(l.budget, |ops|, arrivals) then
        && last.outcome == Got(message.data) && n == |arrivals|
        && Ready(i, last.rx.info, t + |arrivals|) && last.rx.info.txSeq == l.rx.info.txSeq + Pings(ops)
      else last.outcome == Error(ConnectionClosed) && n <= |ops| && StopsAt(l.budget, n, arrivals)
  {
    hide RecvRun;
    hide Ahead;
    hide Chunks;
    hide Ready;
    hide Affordable;
    hide StopsAt;
    if Affordable(l.budget, |ops|, arrivals) {
      var l' := ControlsPaid(i, t, ops, Chunks(message), l, arrivals);
      MessageAhead(i, t + |ops|, message, l', arrivals[|ops|..]);
    } else {
      ControlsUnpaid(i, t, ops, Chunks(message), l, arrivals);
    }
  }

  /** Control frames alone: the call goes on reading if and only if the budget pays for them. */
  lemma BudgetExact(i: Info, t: nat, ops: seq<Op>, l: Loop, arrivals: seq<Arrival>)
    requires Ahead(i, t, ops, [], l, arrivals) && l.outcome == Reading
    ensures var (last, n) := RecvRun(true, l, arrivals);
      if Affordable(l.budget, |ops|, arrivals) then last.outcome == Reading && n == |ops| == |arrivals|
      else last.outcome == Error(ConnectionClosed) && StopsAt(l.budget, n, arrivals)
  {
    hide RecvRun;
    hide Ready;
    hide Affordable;
    hide StopsAt;
    if Affordable(l.budget, |ops|, arrivals) {
      var l' := ControlsPaid(i, t, ops, [], l, arrivals);
      assert Flatten([]) + [] == [];
      RunEnds(true, l', arrivals[|ops|..]);
    } else {
      ControlsUnpaid(i, t, ops, [], l, arrivals);
    }
  }

  // ----- what the budget pays for -----

  /** Within one second of the window's start it pays for exactly what is left of eight. */
  lemma {:induction false} AffordableInOneWindow(b: Budget, n: nat, arrivals: seq<Arrival>)
    requires n <= |arrivals| && b.count <= BUDGET_LIMIT
    requires forall k :: 0 <= k < n ==> arrivals[k].now - b.start <= BUDGET_SPAN
    ensures Affordable(b, n, arrivals) <==> b.count + n <= BUDGET_LIMIT
    decreases n
  {
    if n > 0 && b.count < BUDGET_LIMIT {
      assert forall k :: 0 <= k < n - 1 ==> arrivals[1..][k] == arrivals[k + 1];
      AffordableInOneWindow(Spend(b, arrivals[0].now), n - 1, arrivals[1..]);
    }
  }

  /** No nine of the arrivals in a row come within one second. */
  predicate NoBurst(arrivals: seq<Arrival>) {
    && (forall k :: 0 <= k < |arrivals| - 1 ==> arrivals[k].now <= arrivals[k + 1].now)
    && (forall k :: 0 <= k < |arrivals| - 8 ==> arrivals[k + 8].now - arrivals[k].now > BUDGET_SPAN)
  }

  /** Over any length of time it pays for any number of control frames without a burst: a call may wait
      for ever on keep-alives. */
  lemma NoBurstAffordable(start: real, arrivals: seq<Arrival>)
    requires NoBurst(arrivals) && (arrivals != [] ==> start <= arrivals[0].now)
    ensures Affordable(Budget(start, 0), |arrivals|, arrivals)
  {
    assert arrivals[0..] == arrivals;
    AffordableFrom(Budget(start, 0), arrivals, 0);
  }

  lemma {:induction false} AffordableFrom(b: Budget, arrivals: seq<Arrival>, p: nat)
    requires NoBurst(arrivals) && p <= |arrivals| && b.count <= p && b.count <= BUDGET_LIMIT
    requires p - b.count < |arrivals| ==> b.start <= arrivals[p - b.count].now
    ensures Affordable(b, |arrivals| - p, arrivals[p..])
    decreases |arrivals| - p
  {
    if p < |arrivals| {
      var b' := Spend(b, arrivals[p].now);
      assert arrivals[p..][1..] == arrivals[p + 1..];
      assert p >= 8 ==> arrivals[(p - 8) + 8].now - arrivals[p - 8].now > BUDGET_SPAN;
      AffordableFrom(b', arrivals, p + 1);
    }
  }

  // ----- one call after another -----

  /** One `recv` call: the control frames and the message the peer sends for it, when it starts, and
      what then arrives. */
  datatype Round = Round(controls: seq<Op>, message: Op, start: real, arrivals: seq<Arrival>)

  function Entered(info: Info, round: Round): Loop {
    Loop(Idle(info), Budget(round.start, 0), [], Reading)
  }

  /** The calls one after the other, each from a fresh loop on the session as it stands. */
  function Outcomes(info: Info, rounds: seq<Round>): seq<Outcome>
    decreases |rounds|
  {
    if rounds == [] then []
    else
      var last := RecvRun(true, Entered(info, rounds[0]), rounds[0].arrivals).0;
      [last.outcome] + Outcomes(last.rx.info, rounds[1..])
  }

  /** Any number of control frames and then a message, sent from number `t`. */
  predicate Sent(i: Info, t: nat, round: Round) {
    && AllControl(round.controls) && round.message.Send?
    && Carried(i, t, Flatten(round.controls) + Chunks(round.message), round.arrivals)
  }

  predicate AllSent(i: Info, t: nat, rounds: seq<Round>)
    decreases |rounds|
  {
    rounds != [] ==> Sent(i, t, rounds[0]) && AllSent(i, t + |rounds[0].arrivals|, rounds[1..])
  }

  function AllPings(rounds: seq<Round>): nat {
    if rounds == [] then 0 else Pings(rounds[0].controls) + AllPings(rounds[1..])
  }

  /** The call's own budget pays for its control frames. */
  predicate Paid(round: Round) {
    Affordable(Budget(round.start, 0), |round.controls|, round.arrivals)
  }

  predicate AllPaid(rounds: seq<Round>) {
    forall k :: 0 <= k < |rounds| ==> Paid(rounds[k])
  }

  /** The outcome of a call is the message of its round. */
  predicate Answers(outcome: Outcome, round: Round) {
    round.message.Send? && outcome == Got(round.message.data)
  }

  predicate AllAnswered(outcomes: seq<Outcome>, rounds: seq<Round>) {
    |outcomes| == |rounds| && forall k :: 0 <= k < |rounds| ==> Answers(outcomes[k], rounds[k])
  }

  lemma AnsweredCons(first: Outcome, rest: seq<Outcome>, rounds: seq<Round>)
    requires rounds != []
    ensures AllAnswered([first] + rest, rounds) <==> Answers(first, rounds[0]) && AllAnswered(rest, rounds[1..])
    ensures AllPaid(rounds) <==> Paid(rounds[0]) && AllPaid(rounds[1..])
  {
    hide Answers;
    hide Paid;
    var all := [first] + rest;
    assert all[0] == first && all[1..] == rest;
    assert forall k :: 0 < k < |rounds| ==> rounds[k] == rounds[1..][k - 1];
    assert forall k :: 0 < k < |all| ==> all[k] == rest[k - 1];
    if AllAnswered(all, rounds) {
      forall k | 0 <= k < |rounds[1..]| ensures Answers(rest[k], rounds[1..][k]) {
        assert Answers(all[k + 1], rounds[k + 1]);
      }
    }
    if AllPaid(rounds) {
      forall k | 0 <= k < |rounds[1..]| ensures Paid(rounds[1..][k]) {
        assert Paid(rounds[k + 1]);
      }
    }
  }

  lemma RoundReturns(i: Info, t: nat, info: Info, round: Round)
    requires Sent(i, t, round) && Ready(i, info, t) && info.txSeq + Pings(round.controls) <= MAX_SEQ
    ensures var last := RecvRun(true, Entered(info, round), round.arrivals).0;
      && (Answers(last.outcome, round) <==> Paid(round))
      && (Paid(round) ==> Ready(i, last.rx.info, t + |round.arrivals|)
                          && last.rx.info.txSeq == info.txSeq + Pings(round.controls))
  {
    hide RecvRun;
    hide Carried;
    hide Flatten;
    hide Chunks;
    hide Affordable;
    hide StopsAt;
    ControlsThenMessage(i, t, round.controls, round.message, Entered(info, round), round.arrivals);
  }

  /** For any list of messages with any control frames before each, at whatever times they arrive,
      successive `recv` calls return exactly those messages if and only if each call's budget pays for
      its control frames. */
  lemma {:induction false} CallsReturnMessages(i: Info, t: nat, info: Info, rounds: seq<Round>)
    requires AllSent(i, t, rounds) && Ready(i, info, t) && info.txSeq + AllPings(rounds) <= MAX_SEQ
    ensures AllAnswered(Outcomes(info, rounds), rounds) <==> AllPaid(rounds)
    decreases |rounds|
  {
    hide RecvRun;
    hide Entered;
    hide Sent;
    hide Answers;
    hide Paid;
    hide Ready;
    hide Pings;
    if rounds != [] {
      RoundReturns(i, t, info, rounds[0]);
      var last := RecvRun(true, Entered(info, rounds[0]), rounds[0].arrivals).0;
      AnsweredCons(last.outcome, Outcomes(last.rx.info, rounds[1..]), rounds);
      hide AllAnswered;
      hide AllPaid;
      if Paid(rounds[0]) {
        CallsReturnMessages(i, t + |rounds[0].arrivals|, last.rx.info, rounds[1..]);
      }
    }
  }
}
