/** Nothing ever blocks the delivery of `UdpDelivery` but the network itself: from every state a first epoch can reach,
as long as the frame being written has not been sent five times in vain, every message can still arrive. */
module UdpProgress {
  import opened Wire
  import opened Session
  import opened Transfer
  import opened UdpDelivery
  import opened UdpReplay
  import Reassembly

  /** The reader empties the queue, and touches nothing but its own end. */
  lemma {:induction false} ReadAll(st: State) returns (steps: seq<Step>)
    ensures Legal(st, steps) && Exec(st, steps).r.queue == []
    ensures Exec(st, steps) == st.(r := Exec(st, steps).r, next := Exec(st, steps).next)
    decreases |st.r.queue|
  {
    hide Receive;
    hide TakesHead;
    steps := [];
    if st.r.queue != [] {
      var rest := ReadAll(ReadOne(st));
      steps := First(st, Read, rest);
    }
  }

  /** The pending frame, sent once more, delivered to an empty queue and acknowledged. */
  lemma Released(sender: Info, receiver: Info, steps: seq<Step>) returns (more: seq<Step>)
    requires EpochStart(sender, receiver) && Legal(Epoch(sender, receiver, NO_PAST), steps)
    requires var st := Exec(Epoch(sender, receiver, NO_PAST), steps); st.s.job.Some? && st.s.job.value.attempts < 5
    ensures Legal(Epoch(sender, receiver, NO_PAST), steps + more)
    ensures var st, st' := Exec(Epoch(sender, receiver, NO_PAST), steps), Exec(Epoch(sender, receiver, NO_PAST), steps + more);
      st'.s == st.s.(job := Some(st.s.job.value.(attempts := st.s.job.value.attempts + 1, acked := true))) && st'.log == st.log
  {
    hide Legal;
    hide Exec;
    hide Invariant;
    hide Chunks;
    hide Flatten;
    hide Reassembly.LogFrame;
    var start := Epoch(sender, receiver, NO_PAST);
    var st := Exec(start, steps);
    var emptied := ReadAll(st);
    Then(start, steps, emptied);
    RunGood(sender, receiver, NO_PAST, steps + emptied);
    var drained := Exec(st, emptied);
    FrameWaits(drained);
    hide Epoch;
    var send := SendAndHear(drained, Pending(drained));
    Then(start, steps + emptied, send);
    assert steps + emptied + send == steps + (emptied + send);
    more := emptied + send;
  }

  lemma FrameWaits(st: State)
    requires Invariant(st, -1) && st.s.job.Some?
    ensures 0 < |st.log| <= MAX_SEQ && st.r.rx.info.rxKey == st.s.info.txKey && st.s.info.txSeq == |st.log|
    ensures var j := st.s.job.value;
      && st.s.ops != [] && st.s.ops[|st.s.ops| - 1] == j.op && j.k < |Chunks(j.op)|
      && |st.log| + (|Chunks(j.op)| - (j.k + 1)) == |Flatten(st.s.ops)|
  {
    hide TransportGood;
    hide Shadow;
    hide Chunks;
    FlattenLast(st.s.ops);
    hide Flatten;
  }

  /** The write under way has been acknowledged, or has attempts left, and the numbers suffice for its operation. */
  predicate Hopeful(st: State) {
    && |Flatten(st.s.ops)| <= MAX_SEQ
    && (st.s.job.Some? ==> st.s.job.value.acked || st.s.job.value.attempts < 5)
  }

  lemma ProceedApplies(st: State)
    requires st.s.job.Some? && st.s.job.value.acked && (st.s.job.value.k + 1 < |Chunks(st.s.job.value.op)| ==> Sealing(st))
    ensures Enabled(st, Proceed)
    ensures var j, st' := st.s.job.value, Apply(st, Proceed);
      && st'.s.ops == st.s.ops
      && st'.s.job == if j.k + 1 < |Chunks(j.op)| then Some(Job(j.op, j.k + 1, 0, false)) else None
  {
    hide Chunks;
    hide Seal;
    hide Feed;
    hide ReadOne;
    hide Pending;
  }

  lemma ProceedStep(st: State)
    requires Invariant(st, -1) && st.s.job.Some? && st.s.job.value.acked && |Flatten(st.s.ops)| <= MAX_SEQ
    ensures Enabled(st, Proceed)
    ensures var j, st' := st.s.job.value, Apply(st, Proceed);
      && st'.s.ops == st.s.ops
      && st'.s.job == if j.k + 1 < |Chunks(j.op)| then Some(Job(j.op, j.k + 1, 0, false)) else None
  {
    hide Flatten;
    hide Chunks;
    hide Apply;
    hide Enabled;
    hide Invariant;
    FrameWaits(st);
    ProceedApplies(st);
  }

  lemma {:induction false} Finishes(sender: Info, receiver: Info, steps: seq<Step>, left: nat) returns (more: seq<Step>)
    requires EpochStart(sender, receiver) && Legal(Epoch(sender, receiver, NO_PAST), steps)
    requires var st := Exec(Epoch(sender, receiver, NO_PAST), steps);
      && Hopeful(st) && (st.s.job.Some? ==> st.s.job.value.k + left >= |Chunks(st.s.job.value.op)|)
    ensures Legal(Epoch(sender, receiver, NO_PAST), steps + more)
    ensures var st, st' := Exec(Epoch(sender, receiver, NO_PAST), steps), Exec(Epoch(sender, receiver, NO_PAST), steps + more);
      st'.s.job == None && st'.s.ops == st.s.ops
    decreases left
  {
    hide Legal;
    hide Exec;
    hide Invariant;
    hide Flatten;
    hide Chunks;
    hide Apply;
    hide Enabled;
    var start := Epoch(sender, receiver, NO_PAST);
    var st := Exec(start, steps);
    if st.s.job == None {
      more := [];
      assert steps + [] == steps;
    } else {
      var now := steps;
      if !st.s.job.value.acked {
        var first := Released(sender, receiver, steps);
        now := steps + first;
      }
      var st1 := Exec(start, now);
      RunGood(sender, receiver, NO_PAST, now);
      ProceedStep(st1);
      LastFits(st1, left);
      Once(st1, Proceed);
      Then(start, now, [Proceed]);
      var rest := Finishes(sender, receiver, now + [Proceed], left - 1);
      more := (now + [Proceed] + rest)[|steps|..];
      assert steps + more == now + [Proceed] + rest;
    }
  }

  lemma LastFits(st: State, left: nat)
    requires Invariant(st, -1) && st.s.job.Some? && st.s.job.value.k + left >= |Chunks(st.s.job.value.op)|
    ensures left > 0
  {
    FrameWaits(st);
  }

  /** From every state a first epoch can reach, if the write under way has been acknowledged or has attempts left, some
      continuation completes its operation and delivers every message begun so far. */
  lemma CanAlwaysFinish(sender: Info, receiver: Info, steps: seq<Step>) returns (more: seq<Step>)
    requires EpochStart(sender, receiver) && Legal(Epoch(sender, receiver, NO_PAST), steps)
    requires Hopeful(Exec(Epoch(sender, receiver, NO_PAST), steps))
    ensures Legal(Epoch(sender, receiver, NO_PAST), steps + more)
    ensures var st, st' := Exec(Epoch(sender, receiver, NO_PAST), steps), Exec(Epoch(sender, receiver, NO_PAST), steps + more);
      st'.s.job == None && st'.s.ops == st.s.ops && st'.r.queue == [] && st'.r.got == AllMessages(st.s.ops)
  {
    hide Legal;
    hide Exec;
    hide Chunks;
    hide Flatten;
    var start := Epoch(sender, receiver, NO_PAST);
    var st := Exec(start, steps);
    var left: nat := if st.s.job.Some? then |Chunks(st.s.job.value.op)| else 0;
    var first := Finishes(sender, receiver, steps, left);
    var emptied := ReadAll(Exec(start, steps + first));
    Then(start, steps + first, emptied);
    more := first + emptied;
    assert steps + first + emptied == steps + more;
    ReturnedMeansQueued(sender, receiver, steps + more);
  }
}
