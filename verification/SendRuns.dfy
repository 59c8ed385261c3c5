/** What one call puts on the wire, frame by frame: alone in a method, and as a run of the send schedule. */
module SendRuns {
  import opened Wire
  import opened Crypto
  import opened Session
  import opened ReplayWindow
  import opened SendSchedule

  /** The frame that carries a chunk under a number. */
  function Carrier(i: Info, c: Chunk, n: nat): Frame
    requires n <= MAX_SEQ
  {
    Frame(c.ptype, n, Sealed(i.suite, i.txKey, Nonce(n, i.sessionId), BuildAad(TypeByte(c.ptype), n, 28 + |c.plaintext|), c.plaintext))
  }

  /** The number `k` places on; it stops at the last. */
  function Later(n: nat, k: nat): (m: nat)
    ensures m <= MAX_SEQ
  {
    if n + k < 0xFFFF_FFFF then n + k else 0xFFFF_FFFF
  }

  lemma SealExactly(i: Info, c: Chunk)
    ensures Seal(i, c) ==
      if i.txSeq == 0xFFFF_FFFF && c.ptype != BYE then Err(SequenceError)
      else Ok((i.(txSeq := Later(i.txSeq, 1)), Carrier(i, c, i.txSeq)))
  {
  }

  /** Sealing and writing chunks: each frame carries its chunk under the next number, and the numbers used are spent. */
  lemma {:induction false} SealRunFrames(i: Info, chunks: seq<Chunk>, writes: nat -> bool, k: nat)
    ensures var (last, frames, _) := SealRun(i, chunks, writes, k);
      && |frames| <= |chunks| && last == i.(txSeq := Later(i.txSeq, |frames|))
      && forall j :: 0 <= j < |frames| ==> frames[j] == Carrier(i, chunks[j], Later(i.txSeq, j))
    decreases |chunks|
  {
    hide Carrier;
    if chunks != [] {
      SealExactly(i, chunks[0]);
      hide Seal;
      if Seal(i, chunks[0]).Ok? && writes(k) {
        var i1 := Seal(i, chunks[0]).value.0;
        SealRunFrames(i1, chunks[1..], writes, k + 1);
        var rest := SealRun(i1, chunks[1..], writes, k + 1).1;
        forall j | 0 <= j < |rest| ensures rest[j] == Carrier(i, chunks[j + 1], Later(i.txSeq, j + 1)) {
          assert rest[j] == Carrier(i1, chunks[1..][j], Later(i1.txSeq, j));
          SameCarrier(i, i1, chunks[j + 1], Later(i1.txSeq, j));
        }
      }
    }
  }

  /** How a run of `n` frames from write `k` ends.  Every write but the last returned; it ends well when all chunks are
      written, and otherwise at the first write that fails, or at the last number if the next chunk is no BYE. */
  predicate Ends(txSeq: nat, chunks: seq<Chunk>, writes: nat -> bool, k: nat, n: nat, r: Result<()>)
    requires n <= |chunks|
  {
    && (forall j :: k <= j < k + n - 1 ==> writes(j))
    && r == (if n > 0 && !writes(k + n - 1) then Err(OsError)
             else if n == |chunks| then Ok(())
             else Err(SequenceError))
    && (r == Err(SequenceError) ==> Later(txSeq, n) == 0xFFFF_FFFF && chunks[n].ptype != BYE)
    && (forall j :: 0 <= j < n ==> Later(txSeq, j) < 0xFFFF_FFFF || chunks[j].ptype == BYE)
  }

  lemma {:induction false} SealRunEnds(i: Info, chunks: seq<Chunk>, writes: nat -> bool, k: nat)
    ensures var (_, frames, r) := SealRun(i, chunks, writes, k);
      |frames| <= |chunks| && Ends(i.txSeq, chunks, writes, k, |frames|, r)
    decreases |chunks|
  {
    if chunks != [] {
      SealExactly(i, chunks[0]);
      hide Seal;
      hide Carrier;
      if Seal(i, chunks[0]).Ok? && writes(k) {
        var i1 := Seal(i, chunks[0]).value.0;
        SealRunEnds(i1, chunks[1..], writes, k + 1);
        var (_, rest, r) := SealRun(i1, chunks[1..], writes, k + 1);
        EndsFirst(i.txSeq, i1.txSeq, chunks, writes, k, |rest|, r);
        hide Ends;
      }
    }
  }

  lemma EndsFirst(txSeq: nat, next: nat, chunks: seq<Chunk>, writes: nat -> bool, k: nat, n: nat, r: Result<()>)
    requires chunks != [] && n < |chunks| && writes(k) && next == Later(txSeq, 1)
    requires txSeq < 0xFFFF_FFFF || (txSeq == 0xFFFF_FFFF && chunks[0].ptype == BYE)
    requires Ends(next, chunks[1..], writes, k + 1, n, r)
    ensures Ends(txSeq, chunks, writes, k, n + 1, r)
  {
    forall j | 0 <= j < n + 1 ensures Later(txSeq, j) < 0xFFFF_FFFF || chunks[j].ptype == BYE {
      if j > 0 {
        assert Later(next, j - 1) == Later(txSeq, j) && chunks[1..][j - 1] == chunks[j];
      }
    }
  }

  /** Frames depend on the session's keys, not on its counter. */
  lemma SameCarrier(i: Info, i1: Info, c: Chunk, n: nat)
    requires i1 == i.(txSeq := i1.txSeq) && n <= MAX_SEQ
    ensures Carrier(i1, c, n) == Carrier(i, c, n)
  {
  }

  // ----- one call in the schedule -----

  /** Sealing and writing `j` frames. */
  function Rounds(id: nat, j: nat): seq<Step> {
    if j == 0 then [] else Rounds(id, j - 1) + [SealNext(id), WriteReturns(id)]
  }

  function Opening(id: nat, op: Op): seq<Step> {
    [Call(id, op), Acquire(id)]
  }

  /** The first `j` frames of a call. */
  function FirstFrames(id: nat, i: Info, op: Op, j: nat): (frames: seq<Sent>)
    requires j <= |Chunks(op)|
    ensures |frames| == j
  {
    if j == 0 then [] else FirstFrames(id, i, op, j - 1) + [Sent(id, Carrier(i, Chunks(op)[j - 1], Later(i.txSeq, j - 1)))]
  }

  /** The call has the lock and has sealed `j` of its frames. */
  function Under(s: State, id: nat, op: Op, phase: Phase, j: nat): State
    requires j <= |Chunks(op)|
  {
    State(s.info.(txSeq := Later(s.info.txSeq, j)), s.closed || op.Bye?, Some(id), s.tasks[id := Task(op, phase, |s.wire|, j)],
          s.wire + FirstFrames(id, s.info, op, j), s.base, s.rotations)
  }

  /** The call is over: the lock is free, `j` frames are on the wire, and the keys are changed if it is a rekey whose
      frame was written. */
  function Over(s: State, id: nat, op: Op, phase: Phase, j: nat): State
    requires j <= |Chunks(op)|
  {
    var u := Under(s, id, op, phase, j);
    if op.Rekey? && phase == Done then
      var (tx, rx) := DeriveRekeyKeys(true, s.info.txKey, s.info.rxKey, s.info.sessionId, op.salt);
      u.(lock := None, info := s.info.(txKey := tx, rxKey := rx, txSeq := 0, window := Window(0, 0)), rotations := s.rotations + 1)
    else u.(lock := None)
  }

  /** The call can go through: the lock is free, and the numbers suffice or it is a BYE. */
  predicate Fits(s: State, id: nat, op: Op) {
    && s.lock == None && id !in s.tasks && (op.Bye? ==> !s.closed)
    && (op.Bye? || s.info.txSeq + |Chunks(op)| <= MAX_SEQ)
  }

  lemma {:induction false} ThenSteps(s: State, xs: seq<Step>, ys: seq<Step>)
    requires Legal(s, xs) && Legal(Exec(s, xs), ys)
    ensures Legal(s, xs + ys) && Exec(s, xs + ys) == Exec(Exec(s, xs), ys)
    decreases |xs|
  {
    hide Apply;
    hide Enabled;
    if xs == [] {
      assert xs + ys == ys;
    } else {
      assert (xs + ys)[0] == xs[0] && (xs + ys)[1..] == xs[1..] + ys;
      ThenSteps(Apply(s, xs[0]), xs[1..], ys);
    }
  }

  lemma TwoSteps(s: State, a: Step, b: Step)
    requires Enabled(s, a) && Enabled(Apply(s, a), b)
    ensures Legal(s, [a, b]) && Exec(s, [a, b]) == Apply(Apply(s, a), b)
  {
    hide Apply;
    hide Enabled;
    var s2 := Apply(Apply(s, a), b);
    assert Legal(s2, []) && Exec(s2, []) == s2;
    assert [b][1..] == [] && [a, b][1..] == [b];
    assert Legal(Apply(s, a), [b]) && Exec(Apply(s, a), [b]) == s2;
  }

  lemma Opened(s: State, id: nat, op: Op)
    requires Fits(s, id, op)
    ensures Legal(s, Opening(id, op)) && Exec(s, Opening(id, op)) == Under(s, id, op, Ready, 0)
  {
    hide Chunks;
    assert s.wire + [] == s.wire;
    var s1 := Apply(s, Call(id, op));
    assert s1.tasks[id := s1.tasks[id].(phase := Ready, start := |s.wire|)] == s.tasks[id := Task(op, Ready, |s.wire|, 0)];
    TwoSteps(s, Call(id, op), Acquire(id));
    hide Legal;
    hide Exec;
  }

  /** The frame after `j` is sealed as the next one. */
  lemma OneSealed(s: State, id: nat, op: Op, j: nat)
    requires Fits(s, id, op) && j < |Chunks(op)|
    ensures Enabled(Under(s, id, op, Ready, j), SealNext(id))
    ensures Apply(Under(s, id, op, Ready, j), SealNext(id)) == Under(s, id, op, Writing, j + 1)
  {
    var u := Under(s, id, op, Ready, j);
    ChunkKinds(op, j);
    hide Chunks;
    SealExactly(u.info, Chunks(op)[j]);
    hide Seal;
    SameCarrier(s.info, u.info, Chunks(op)[j], u.info.txSeq);
    hide Carrier;
    assert s.wire + (FirstFrames(id, s.info, op, j) + [Sent(id, Carrier(s.info, Chunks(op)[j], u.info.txSeq))])
        == s.wire + FirstFrames(id, s.info, op, j) + [Sent(id, Carrier(s.info, Chunks(op)[j], u.info.txSeq))];
    assert u.tasks[id := Task(op, Writing, |s.wire|, j + 1)] == s.tasks[id := Task(op, Writing, |s.wire|, j + 1)];
  }

  lemma Rewritten(tasks: map<nat, Task>, id: nat, t: Task, t': Task)
    ensures tasks[id := t][id := t'] == tasks[id := t']
  {
  }

  lemma OneRound(s: State, id: nat, op: Op, j: nat)
    requires Fits(s, id, op) && j < |Chunks(op)|
    ensures var u := Under(s, id, op, Ready, j);
      && Legal(u, [SealNext(id), WriteReturns(id)]) && Legal(u, [SealNext(id), WriteRaises(id)])
      && Exec(u, [SealNext(id), WriteRaises(id)]) == Over(s, id, op, Failed, j + 1)
      && Exec(u, [SealNext(id), WriteReturns(id)]) ==
           if j + 1 < |Chunks(op)| then Under(s, id, op, Ready, j + 1) else Over(s, id, op, Done, j + 1)
  {
    OneSealed(s, id, op, j);
    var u := Under(s, id, op, Ready, j);
    TwoSteps(u, SealNext(id), WriteReturns(id));
    TwoSteps(u, SealNext(id), WriteRaises(id));
    hide Legal;
    hide Exec;
    hide Chunks;
    hide FirstFrames;
    hide DeriveRekeyKeys;
    var t := Task(op, Writing, |s.wire|, j + 1);
    Rewritten(s.tasks, id, t, t.(phase := Ready));
    Rewritten(s.tasks, id, t, t.(phase := Done));
    Rewritten(s.tasks, id, t, t.(phase := Failed));
  }

  lemma {:induction false} SomeRounds(s: State, id: nat, op: Op, j: nat)
    requires Fits(s, id, op) && j < |Chunks(op)|
    ensures Legal(s, Opening(id, op) + Rounds(id, j)) && Exec(s, Opening(id, op) + Rounds(id, j)) == Under(s, id, op, Ready, j)
    decreases j
  {
    hide Legal;
    hide Exec;
    hide Under;
    hide Over;
    hide Fits;
    hide Opening;
    if j == 0 {
      Opened(s, id, op);
      assert Opening(id, op) + [] == Opening(id, op);
    } else {
      SomeRounds(s, id, op, j - 1);
      OneRound(s, id, op, j - 1);
      ThenSteps(s, Opening(id, op) + Rounds(id, j - 1), [SealNext(id), WriteReturns(id)]);
      assert Opening(id, op) + Rounds(id, j - 1) + [SealNext(id), WriteReturns(id)]
          == Opening(id, op) + (Rounds(id, j - 1) + [SealNext(id), WriteReturns(id)]);
    }
  }

  /** A call that finds the lock free can run to its end.  All its frames are then on the wire, each under the next
      number, the lock is free again, and a rekey, and nothing else, has changed the keys. */
  lemma CallCompletes(s: State, id: nat, op: Op)
    requires Fits(s, id, op)
    ensures var steps := Opening(id, op) + Rounds(id, |Chunks(op)|);
      Legal(s, steps) && Exec(s, steps) == Over(s, id, op, Done, |Chunks(op)|)
  {
    hide Legal;
    hide Exec;
    hide Under;
    hide Over;
    hide Fits;
    hide Opening;
    hide Chunks;
    var j := |Chunks(op)| - 1;
    SomeRounds(s, id, op, j);
    OneRound(s, id, op, j);
    ThenSteps(s, Opening(id, op) + Rounds(id, j), [SealNext(id), WriteReturns(id)]);
    assert Opening(id, op) + Rounds(id, j) + [SealNext(id), WriteReturns(id)]
        == Opening(id, op) + (Rounds(id, j) + [SealNext(id), WriteReturns(id)]);
  }

  /** Its write number `j` may fail.  Then the first `j + 1` frames are on the wire, their numbers are spent, the lock is
      free and the keys are as they were. */
  lemma CallFails(s: State, id: nat, op: Op, j: nat)
    requires Fits(s, id, op) && j < |Chunks(op)|
    ensures var steps := Opening(id, op) + Rounds(id, j) + [SealNext(id), WriteRaises(id)];
      Legal(s, steps) && Exec(s, steps) == Over(s, id, op, Failed, j + 1)
  {
    hide Legal;
    hide Exec;
    hide Under;
    hide Over;
    hide Fits;
    hide Opening;
    hide Chunks;
    SomeRounds(s, id, op, j);
    OneRound(s, id, op, j);
    ThenSteps(s, Opening(id, op) + Rounds(id, j), [SealNext(id), WriteRaises(id)]);
  }

  /** What can happen to a session from outside its calls: a REKEY from the peer gives it the keys of a responder and
      starts both counters again, in whatever state the lock is; a call abandoned while it waits for the lock has done
      nothing. */
  lemma FromOutside(s: State, step: Step)
    requires Enabled(s, step) && (step.PeerRekey? || step.Abandon?)
    ensures var s' := Apply(s, step);
      && s'.wire == s.wire && s'.lock == s.lock && s'.closed == s.closed
      && (step.Abandon? ==> s'.info == s.info && s'.tasks == s.tasks[step.id := s.tasks[step.id].(phase := Failed)])
      && (step.PeerRekey? ==>
            var (tx, rx) := DeriveRekeyKeys(false, s.info.txKey, s.info.rxKey, s.info.sessionId, step.salt);
            s'.info == Info(s.info.sessionId, tx, rx, 0, Window(0, 0), s.info.suite) && s'.tasks == s.tasks)
  {
  }
}
