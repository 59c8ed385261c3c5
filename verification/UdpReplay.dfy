/** Frames of a former epoch against the frames of a new one, over UDP.

The transport acknowledges a frame by its type and number before anyone has authenticated it.  A repeated
frame of a former epoch is therefore acknowledged under the new key, and that acknowledgement releases the
sender of the new frame with the same type and number, whether or not the new frame ever arrives.
*/
module UdpReplay {
  import opened Wire
  import opened Crypto
  import opened Session
  import opened Transfer
  import opened ReplayWindow
  import opened Interruptions
  import opened UdpDelivery
  import opened UdpLimits
  import Reassembly

  // ----- runs put together -----

  lemma {:induction false} Then(st: State, xs: seq<Step>, ys: seq<Step>)
    requires Legal(st, xs) && Legal(Exec(st, xs), ys)
    ensures Legal(st, xs + ys) && Exec(st, xs + ys) == Exec(Exec(st, xs), ys)
    decreases |xs|
  {
    hide Apply;
    hide Enabled;
    if xs == [] {
      assert xs + ys == ys;
    } else {
      assert (xs + ys)[0] == xs[0] && (xs + ys)[1..] == xs[1..] + ys;
      Then(Apply(st, xs[0]), xs[1..], ys);
    }
  }

  lemma Once(st: State, step: Step)
    requires Enabled(st, step)
    ensures Legal(st, [step]) && Exec(st, [step]) == Apply(st, step)
  {
    hide Apply;
    hide Enabled;
    assert [step][1..] == [] && Legal(Apply(st, step), []) && Exec(Apply(st, step), []) == Apply(st, step);
  }

  /** One step and then a run. */
  lemma First(st: State, step: Step, rest: seq<Step>) returns (steps: seq<Step>)
    requires Enabled(st, step) && Legal(Apply(st, step), rest)
    ensures Legal(st, steps) && Exec(st, steps) == Exec(Apply(st, step), rest)
  {
    hide Apply;
    hide Enabled;
    Once(st, step);
    Then(st, [step], rest);
    steps := [step] + rest;
  }

  // ----- a reader that misses some frames -----

  /** The assembly and the messages after the first `n` chunks of the log, those in `skip` left out. */
  function Skim(log: seq<Chunk>, skip: set<nat>, n: nat): (Rx, seq<bytes>)
    requires n <= |log|
    decreases n
  {
    if n == 0 then (Idle(BLANK), [])
    else if n - 1 in skip then Skim(log, skip, n - 1)
    else
      var (r, ms) := Skim(log, skip, n - 1);
      var (r', v) := Interpret(false, r, log[n - 1].ptype, n - 1, log[n - 1].plaintext);
      (r', ms + Yield(v))
  }

  lemma {:induction false} SkimPrefix(log: seq<Chunk>, longer: seq<Chunk>, skip: set<nat>, n: nat)
    requires log <= longer && n <= |log|
    ensures Skim(longer, skip, n) == Skim(log, skip, n)
    decreases n
  {
    hide Interpret;
    if n > 0 {
      SkimPrefix(log, longer, skip, n - 1);
    }
  }

  lemma SkimOneMore(log: seq<Chunk>, c: Chunk, skip: set<nat>)
    ensures var before := Skim(log, skip, |log|);
      var (r, v) := Interpret(false, before.0, c.ptype, |log|, c.plaintext);
      Skim(log + [c], skip, |log| + 1) == if |log| in skip then before else (r, before.1 + Yield(v))
  {
    hide Interpret;
    SkimPrefix(log, log + [c], skip, |log|);
    assert (log + [c])[|log|] == c;
  }

  /** Leaving out what lies below a floor, and nothing else, is reading from the floor on. */
  lemma {:induction false} SkimIsShadow(log: seq<Chunk>, skip: set<nat>, floor: nat, n: nat)
    requires n <= |log| && forall k: nat :: k < n ==> (k in skip <==> k < floor)
    ensures Skim(log, skip, n) == Shadow(log, floor, n)
    decreases n
  {
    hide Interpret;
    if n > 0 {
      SkimIsShadow(log, skip, floor, n - 1);
    }
  }

  // ----- riding: every frame delivered and read as soon as it is sent -----

  /** The state in which everything sealed has been dealt with and read, except what is in `skip`. */
  ghost predicate Riding(st: State, seen: int, skip: set<nat>) {
    && |st.log| <= MAX_SEQ && st.s.info.txSeq == |st.log| && st.r.queue == []
    && Reassembly.Synced(st.s.info, st.r.rx.info) && Clear(st.r.rx.info.window, |st.log|)
    && seen <= st.r.lastRx <= Larger(seen, |st.log| - 1)
    && st.r.rx == Skim(st.log, skip, |st.log|).0.(info := st.r.rx.info)
    && st.r.got == Skim(st.log, skip, |st.log|).1
    && (forall n :: n in st.queued ==> n !in skip && n < |st.log|)
  }

  /** The state after the pending frame is sent, `x` delivered and its acknowledgement heard. */
  function Heard(st: State, x: Frame): State
    requires st.s.job.Some? && 0 < |st.log| <= MAX_SEQ
  {
    var j, taken := st.s.job.value, !Stale(st.r.lastRx, x.seqNo);
    st.(s := st.s.(job := Some(j.(attempts := j.attempts + 1, acked := true))),
        frames := st.frames + {Pending(st)}, acks := st.acks + {Utack(st.r.rx.info.rxKey, x.ptype, x.seqNo)},
        r := if taken then st.r.(queue := [x]) else st.r,
        queued := if taken && !Foreign(st.r.rx.info.rxKey, x) then st.queued + {x.seqNo} else st.queued)
  }

  lemma SendAndHear(st: State, x: Frame) returns (steps: seq<Step>)
    requires st.s.job.Some? && st.s.job.value.attempts < 5 && 0 < |st.log| <= MAX_SEQ && st.r.queue == []
    requires st.r.rx.info.rxKey == st.s.info.txKey && (x == Pending(st) || x in st.former)
    requires x.ptype == Pending(st).ptype && x.seqNo == Pending(st).seqNo
    ensures Legal(st, steps) && Exec(st, steps) == Heard(st, x)
  {
    hide Reassembly.LogFrame;
    hide Stale;
    hide Foreign;
    hide Legal;
    hide Exec;
    var u := Utack(st.r.rx.info.rxKey, x.ptype, x.seqNo);
    assert QueueBytes([]) == 0 && FrameSize(x) <= MAX_READ_BUFFER;
    hide QueueBytes;
    var s1 := Apply(st, Transmit);
    var s2 := Apply(s1, Deliver(x));
    assert Pending(s2) == Pending(st) && u in s2.acks;
    var s3 := Apply(s2, HearAck(u));
    assert [] + [x] == [x];
    assert s3 == Heard(st, x);
    Once(s2, HearAck(u));
    var rest := First(s1, Deliver(x), [HearAck(u)]);
    steps := First(st, Transmit, rest);
  }

  /** The state right after sealing a chunk on top of `before`. */
  predicate JustSealed(before: State, st: State, c: Chunk) {
    && st.log == before.log + [c] && st.r == before.r && st.queued == before.queued && st.former == before.former
    && |st.log| <= MAX_SEQ && st.s.info == before.s.info.(txSeq := |st.log|)
    && st.s.job.Some? && st.s.job.value.attempts == 0
  }

  /** The state once that chunk has been dealt with. */
  predicate Dealt(st: State, st': State) {
    && st'.log == st.log && st'.former == st.former && st.s.job.Some?
    && st'.s == st.s.(job := Some(st.s.job.value.(attempts := 1, acked := true)))
  }

  lemma NotYetStale(seen: int, n: nat, lastRx: int)
    requires -1 <= seen <= lastRx <= Larger(seen, n - 1)
    ensures Stale(lastRx, n) <==> n < Floor(seen)
  {
  }

  /** A frame below the floor is acknowledged and that is all. */
  lemma RideBelow(before: State, st: State, c: Chunk, seen: int, skip: set<nat>) returns (steps: seq<Step>)
    requires Riding(before, seen, skip) && JustSealed(before, st, c) && -1 <= seen && |before.log| < Floor(seen)
    requires |before.log| in skip
    ensures Legal(st, steps) && Riding(Exec(st, steps), seen, skip) && Dealt(st, Exec(st, steps))
  {
    hide Legal;
    hide Exec;
    hide Skim;
    var n := |before.log|;
    NotYetStale(seen, n, st.r.lastRx);
    SkimOneMore(before.log, c, skip);
    ClearLater(st.r.rx.info.window, n, n + 1);
    hide Interpret;
    hide Floor;
    hide Stale;
    hide Clear;
    steps := SendAndHear(st, Pending(st));
    hide Reassembly.LogFrame;
  }

  /** A frame of a former epoch takes the place of the new one: it is queued, acknowledged, and dropped. */
  lemma RideReplaced(before: State, st: State, c: Chunk, seen: int, skip: set<nat>, g: Frame) returns (steps: seq<Step>)
    requires Riding(before, seen, skip) && JustSealed(before, st, c) && -1 <= seen && Floor(seen) <= |before.log|
    requires |before.log| in skip && g in st.former && Foreign(st.s.info.txKey, g) && g.ptype == c.ptype && g.seqNo == |before.log|
    ensures Legal(st, steps) && Riding(Exec(st, steps), seen, skip) && Dealt(st, Exec(st, steps))
  {
    hide Legal;
    hide Exec;
    hide Skim;
    var n := |before.log|;
    NotYetStale(seen, n, st.r.lastRx);
    SkimOneMore(before.log, c, skip);
    ClearLater(st.r.rx.info.window, n, n + 1);
    hide Interpret;
    hide Floor;
    hide Stale;
    hide Clear;
    assert Pending(st).ptype == c.ptype && Pending(st).seqNo == n;
    var xs := SendAndHear(st, g);
    hide Reassembly.LogFrame;
    var m := Heard(st, g);
    ForeignIgnored(m.r.rx.info, g);
    hide Foreign;
    hide Open;
    IgnoredRead(m);
    Once(m, Read);
    Then(st, xs, [Read]);
    steps := xs + [Read];
    assert [g][1..] == [];
  }

  /** Any other frame is queued, acknowledged, and read. */
  lemma RideRead(before: State, st: State, c: Chunk, seen: int, skip: set<nat>) returns (steps: seq<Step>)
    requires Riding(before, seen, skip) && JustSealed(before, st, c) && -1 <= seen && Floor(seen) <= |before.log|
    requires |before.log| !in skip && c.ptype != REKEY
    ensures Legal(st, steps) && Riding(Exec(st, steps), seen, skip) && Dealt(st, Exec(st, steps))
  {
    hide Legal;
    hide Exec;
    hide Skim;
    hide Clear;
    hide Interpret;
    var n := |before.log|;
    NotYetStale(seen, n, st.r.lastRx);
    hide Floor;
    var f := Pending(st);
    assert f.seqNo == n && FromLog(st, f);
    OwnFrame(st, f);
    hide Reassembly.LogFrame;
    hide Foreign;
    hide Stale;
    var xs := SendAndHear(st, f);
    var m := Heard(st, f);
    assert m.r == st.r.(queue := [f]) && m.queued == st.queued + {n};
    ReadRides(before, st, m, c, seen, skip);
    hide Riding;
    hide Heard;
    Once(m, Read);
    Then(st, xs, [Read]);
    steps := xs + [Read];
  }

  lemma ReadRides(before: State, st: State, m: State, c: Chunk, seen: int, skip: set<nat>)
    requires Riding(before, seen, skip) && JustSealed(before, st, c) && -1 <= seen
    requires |before.log| !in skip && c.ptype != REKEY && m.r == st.r.(queue := [Pending(st)])
    requires m.log == st.log && m.s.info == st.s.info && m.queued == st.queued + {|before.log|}
    ensures Riding(ReadOne(m), seen, skip)
  {
    hide Skim;
    hide Clear;
    hide Interpret;
    hide Pending;
    FreshRead(before, st, m, c, skip);
    SkimOneMore(before.log, c, skip);
    hide Take;
    hide TakesHead;
  }

  /** What reading it does. */
  lemma FreshRead(before: State, st: State, m: State, c: Chunk, skip: set<nat>)
    requires JustSealed(before, st, c) && c.ptype != REKEY && m.r == st.r.(queue := [Pending(st)])
    requires before.s.info.txSeq == |before.log| && Reassembly.Synced(before.s.info, st.r.rx.info)
    requires Clear(st.r.rx.info.window, |before.log|)
    requires st.r.rx == Skim(before.log, skip, |before.log|).0.(info := st.r.rx.info)
    ensures var n, r := |before.log|, ReadOne(m).r;
      var (rx, v) := Interpret(false, Skim(before.log, skip, n).0, c.ptype, n, c.plaintext);
      && r.queue == [] && r.lastRx == Confirm(st.r.lastRx, n) && r.got == st.r.got + Yield(v)
      && r.rx == rx.(info := r.rx.info) && Reassembly.Synced(before.s.info, r.rx.info) && Clear(r.rx.info.window, n + 1)
  {
    hide Skim;
    var n, i, f := |before.log|, st.r.rx.info, Pending(st);
    ClearAdmits(i.window, n);
    assert f == Seal(before.s.info, c).value.1;
    SealedOpens(false, before.s.info, c, i);
    var i' := i.(window := Accept(i.window, n));
    InterpretAnywhere(Skim(before.log, skip, n).0, i', c.ptype, n, c.plaintext);
    hide Interpret;
    hide Open;
    hide Accept;
    hide Admits;
    hide Clear;
    hide Seal;
    hide Reassembly.LogFrame;
    assert st.r.rx.(info := i') == Skim(before.log, skip, n).0.(info := i');
    assert [f][1..] == [];
  }

  lemma ClearLater(w: Window, n: nat, m: nat)
    requires Clear(w, n) && n <= m
    ensures Clear(w, m)
  {
    hide Represents;
    var accepted: set<nat> :| Represents(w, accepted) && AllBelow(accepted, n);
    assert AllBelow(accepted, m);
  }

  // ----- riding through whole operations -----

  /** What a ride meets: the number in the filter, the key and the former frames, the one of them, if any, that
      takes the place of a new frame, and everything that is to be sealed. */
  datatype Ride = Ride(seen: int, key: Key, former: set<Frame>, hit: Option<Frame>, all: seq<Chunk>)

  predicate RideGood(ride: Ride) {
    && -1 <= ride.seen && |ride.all| <= MAX_SEQ && Reassembly.NoRekey(ride.all)
    && (forall f :: f in ride.former ==> Foreign(ride.key, f))
    && (ride.hit.Some? ==>
          && var g := ride.hit.value;
             g in ride.former && Floor(ride.seen) <= g.seqNo < |ride.all| && g.ptype == ride.all[g.seqNo].ptype)
  }

  /** The numbers a reader misses. */
  function Skip(ride: Ride): (s: set<nat>)
    ensures forall n: nat :: n in s <==> n < Floor(ride.seen) || (ride.hit.Some? && n == ride.hit.value.seqNo)
  {
    Span(0, Floor(ride.seen)) + (if ride.hit.Some? then {ride.hit.value.seqNo} else {})
  }

  ghost predicate OnTrack(st: State, ride: Ride) {
    && Riding(st, ride.seen, Skip(ride)) && st.former == ride.former && st.s.info.txKey == ride.key
    && st.log <= ride.all
  }

  lemma RideChunk(before: State, st: State, c: Chunk, ride: Ride) returns (steps: seq<Step>)
    requires RideGood(ride) && OnTrack(before, ride) && JustSealed(before, st, c) && st.log <= ride.all
    ensures Legal(st, steps) && OnTrack(Exec(st, steps), ride) && Dealt(st, Exec(st, steps))
  {
    hide Riding;
    hide Legal;
    hide Exec;
    hide Foreign;
    hide Floor;
    var n := |before.log|;
    assert st.log[n] == c && ride.all[n] == c;
    if n < Floor(ride.seen) {
      steps := RideBelow(before, st, c, ride.seen, Skip(ride));
    } else if n in Skip(ride) {
      steps := RideReplaced(before, st, c, ride.seen, Skip(ride), ride.hit.value);
    } else {
      steps := RideRead(before, st, c, ride.seen, Skip(ride));
    }
  }

  lemma SealedJust(st: State, op: Op, k: nat, ops: seq<Op>)
    requires k < |Chunks(op)| && Sealing(st) && |st.log| < MAX_SEQ && st.s.info.txSeq == |st.log|
    ensures JustSealed(st, SealChunk(WithOps(st, ops), op, k), Chunks(op)[k])
  {
    hide Chunks;
  }

  /** The log still to come is within what is to be sealed. */
  lemma WithinAll(log: seq<Chunk>, ops: seq<Op>, op: Op, k: nat, all: seq<Chunk>)
    requires Written(log, ops, op, k) && Flatten(ops) <= all
    ensures log <= all && (k < |Chunks(op)| ==> log + [Chunks(op)[k]] <= all && |log| < |all|)
    ensures k == |Chunks(op)| ==> log == Flatten(ops)
  {
    hide Flatten;
    hide Chunks;
    FlattenLast(ops);
    SlicePrefix(Flatten(ops[..|ops| - 1]), Chunks(op), k, all);
  }

  lemma SlicePrefix(front: seq<Chunk>, cs: seq<Chunk>, k: nat, all: seq<Chunk>)
    requires front + cs <= all && k <= |cs|
    ensures front + cs[..k] <= all && (k == |cs| ==> front + cs[..k] == front + cs)
    ensures k < |cs| ==> front + cs[..k] + [cs[k]] <= all && |front + cs[..k]| < |all|
  {
    assert all[..|front| + |cs|] == front + cs;
    assert front + cs[..k] == all[..|front| + k];
    if k < |cs| {
      assert front + cs[..k] + [cs[k]] == all[..|front| + k + 1];
    }
  }

  /** From a chunk dealt with to the end of its operation. */
  lemma {:induction false} RideOn(st: State, ride: Ride, op: Op, k: nat) returns (steps: seq<Step>)
    requires RideGood(ride) && OnTrack(st, ride) && k < |Chunks(op)| && st.s.job == Some(Job(op, k, 1, true))
    requires Written(st.log, st.s.ops, op, k + 1) && Flatten(st.s.ops) <= ride.all
    ensures Legal(st, steps) && OnTrack(Exec(st, steps), ride)
    ensures var end := Exec(st, steps); end.s.job == None && end.s.ops == st.s.ops && end.log == Flatten(st.s.ops)
    decreases |Chunks(op)| - k
  {
    hide Chunks;
    hide Flatten;
    hide Legal;
    hide Exec;
    hide RideGood;
    hide Written;
    WithinAll(st.log, st.s.ops, op, k + 1, ride.all);
    if k + 1 < |Chunks(op)| {
      AllFits(ride);
      SealedJust(st, op, k + 1, st.s.ops);
      WrittenMore(st.log, st.s.ops, op, k + 1);
      var c, sealed := Chunks(op)[k + 1], SealChunk(st, op, k + 1);
      assert WithOps(st, st.s.ops) == st && Apply(st, Proceed) == sealed;
      var xs := RideChunk(st, sealed, c, ride);
      var ys := RideOn(Exec(sealed, xs), ride, op, k + 1);
      Then(sealed, xs, ys);
      steps := First(st, Proceed, xs + ys);
    } else {
      hide Riding;
      Once(st, Proceed);
      steps := [Proceed];
      RidingSame(st, Apply(st, Proceed), ride);
    }
  }

  lemma AllFits(ride: Ride)
    requires RideGood(ride)
    ensures |ride.all| <= MAX_SEQ
  {
  }

  lemma RidingSame(st: State, st': State, ride: Ride)
    requires OnTrack(st, ride) && st' == st.(s := st.s.(job := st'.s.job))
    ensures OnTrack(st', ride)
  {
    hide Skim;
    hide Clear;
  }

  /** One more operation. */
  lemma RideOp(st: State, ride: Ride, op: Op) returns (steps: seq<Step>)
    requires RideGood(ride) && OnTrack(st, ride) && st.s.job == None && st.log == Flatten(st.s.ops) && !op.Rekey?
    requires Flatten(st.s.ops + [op]) <= ride.all
    ensures Legal(st, steps) && OnTrack(Exec(st, steps), ride)
    ensures var end := Exec(st, steps);
      end.s.job == None && end.s.ops == st.s.ops + [op] && end.log == Flatten(end.s.ops)
  {
    hide Chunks;
    hide Flatten;
    hide Legal;
    hide Exec;
    var ops := st.s.ops + [op];
    assert ops[..|ops| - 1] == st.s.ops && st.log + Chunks(op)[..0] == st.log;
    assert Written(st.log, ops, op, 0);
    WithinAll(st.log, ops, op, 0, ride.all);
    SealedJust(st, op, 0, ops);
    WrittenMore(st.log, ops, op, 0);
    hide Written;
    var c, sealed := Chunks(op)[0], SealChunk(WithOps(st, ops), op, 0);
    assert Apply(st, Start(op)) == sealed;
    hide RideGood;
    var xs := RideChunk(st, sealed, c, ride);
    var ys := RideOn(Exec(sealed, xs), ride, op, 0);
    Then(sealed, xs, ys);
    steps := First(st, Start(op), xs + ys);
  }

  /** Reading what a former epoch left in the queue. */
  lemma {:induction false} Drained(st: State) returns (steps: seq<Step>)
    requires forall f :: f in st.r.queue ==> Foreign(st.r.rx.info.rxKey, f)
    ensures Legal(st, steps) && Exec(st, steps) == st.(r := st.r.(queue := []))
    decreases |st.r.queue|
  {
    hide Foreign;
    steps := [];
    if st.r.queue != [] {
      var f := st.r.queue[0];
      assert f in st.r.queue;
      ForeignIgnored(st.r.rx.info, f);
      hide Open;
      IgnoredRead(st);
      var next := st.(r := st.r.(queue := st.r.queue[1..]));
      var rest := Drained(next);
      steps := First(st, Read, rest);
    }
  }

  lemma RideBegins(sender: Info, receiver: Info, past: Past, ride: Ride) returns (steps: seq<Step>)
    requires EpochStart(sender, receiver) && PastOf(past, sender.txKey)
    requires ride.seen == past.seen && ride.former == past.former && ride.key == sender.txKey
    ensures Legal(Epoch(sender, receiver, past), steps) && OnTrack(Exec(Epoch(sender, receiver, past), steps), ride)
    ensures var st := Exec(Epoch(sender, receiver, past), steps); st.s.job == None && st.s.ops == [] && st.log == []
  {
    var st := Epoch(sender, receiver, past);
    FreshRepresents();
    var none: set<nat> := {};
    assert Represents(FRESH, none) && AllBelow(none, 0);
    assert Clear(FRESH, 0);
    hide Represents;
    hide Foreign;
    hide Floor;
    hide Legal;
    hide Exec;
    steps := Drained(st);
    hide Clear;
  }

  /** A run through the operations in which every frame from the floor on is read, but for the one whose place is
      taken. */
  lemma {:induction false} RideOps(sender: Info, receiver: Info, past: Past, ride: Ride, ops: seq<Op>) returns (steps: seq<Step>)
    requires EpochStart(sender, receiver) && PastOf(past, sender.txKey) && RideGood(ride) && NoRekeyOps(ops)
    requires ride.seen == past.seen && ride.former == past.former && ride.key == sender.txKey && Flatten(ops) <= ride.all
    ensures Legal(Epoch(sender, receiver, past), steps) && OnTrack(Exec(Epoch(sender, receiver, past), steps), ride)
    ensures var st := Exec(Epoch(sender, receiver, past), steps);
      st.s.job == None && st.s.ops == ops && st.log == Flatten(ops)
    decreases |ops|
  {
    hide Legal;
    hide Exec;
    hide OnTrack;
    hide RideGood;
    hide Chunks;
    if ops == [] {
      steps := RideBegins(sender, receiver, past, ride);
    } else {
      var front, op := ops[..|ops| - 1], ops[|ops| - 1];
      FlattenLast(ops);
      hide Flatten;
      var xs := RideOps(sender, receiver, past, ride, front);
      assert front + [op] == ops && !op.Rekey?;
      var ys := RideOp(Exec(Epoch(sender, receiver, past), xs), ride, op);
      Then(Epoch(sender, receiver, past), xs, ys);
      steps := xs + ys;
    }
  }

  // ----- what every run writes -----

  /** The log is what the operations begun have sealed, whatever was acknowledged. */
  predicate Structured(st: State) {
    && NoRekeyOps(st.s.ops)
    && match st.s.job
       case None => st.log == Flatten(st.s.ops)
       case Some(j) => j.k < |Chunks(j.op)| && Written(st.log, st.s.ops, j.op, j.k + 1)
  }

  lemma StructureKept(st: State, step: Step)
    requires Structured(st) && Enabled(st, step)
    ensures Structured(Apply(st, step)) && st.s.ops <= Apply(st, step).s.ops
  {
    hide Chunks;
    hide Seal;
    hide Take;
    hide TakesHead;
    hide Feed;
    hide Pending;
    if step.Start? {
      var ops := st.s.ops + [step.op];
      assert ops[..|ops| - 1] == st.s.ops && st.log + Chunks(step.op)[..0] == st.log;
      hide Flatten;
      WrittenMore(st.log, ops, step.op, 0);
      hide Written;
    } else if step.Proceed? {
      var j := st.s.job.value;
      FlattenLast(st.s.ops);
      hide Flatten;
      if j.k + 1 < |Chunks(j.op)| {
        WrittenMore(st.log, st.s.ops, j.op, j.k + 1);
      } else {
        assert Chunks(j.op)[..j.k + 1] == Chunks(j.op);
      }
      hide Written;
    } else {
      FeedLeavesSender(st, step);
      hide Flatten;
      hide Written;
    }
  }

  lemma FeedLeavesSender(st: State, step: Step)
    ensures step.Deliver? ==> Feed(st, step.f).s == st.s && Feed(st, step.f).log == st.log
  {
    hide QueueBytes;
    hide Foreign;
    hide Stale;
  }

  lemma {:induction false} StructureOf(st: State, steps: seq<Step>)
    requires Structured(st) && Legal(st, steps)
    ensures Structured(Exec(st, steps))
    decreases |steps|
  {
    hide Structured;
    hide Apply;
    hide Enabled;
    if steps != [] {
      StructureKept(st, steps[0]);
      StructureOf(Apply(st, steps[0]), steps[1..]);
    }
  }

  lemma StructurePrefix(st: State)
    requires Structured(st)
    ensures st.log <= Flatten(st.s.ops)
  {
    hide Chunks;
    if st.s.job.Some? {
      WithinAll(st.log, st.s.ops, st.s.job.value.op, st.s.job.value.k + 1, Flatten(st.s.ops));
    }
    hide Flatten;
  }

  lemma {:induction false} FlattenPrefix(ops: seq<Op>, longer: seq<Op>)
    requires ops <= longer
    ensures Flatten(ops) <= Flatten(longer)
    decreases |longer|
  {
    hide Chunks;
    if ops != longer {
      FlattenLast(longer);
      FlattenPrefix(ops, longer[..|longer| - 1]);
    }
    hide Flatten;
  }

  /** In any run of operations that make up `ops` or a beginning of them, a clean past stays clean. */
  lemma CleanRun(sender: Info, receiver: Info, past: Past, steps: seq<Step>, ops: seq<Op>)
    requires Legal(Epoch(sender, receiver, past), steps) && Exec(Epoch(sender, receiver, past), steps).s.ops <= ops
    requires Clean(past.former, Flatten(ops), Floor(past.seen))
    ensures Clean(past.former, Exec(Epoch(sender, receiver, past), steps).log, Floor(past.seen))
  {
    hide Legal;
    hide Exec;
    hide Clean;
    hide Chunks;
    StructureOf(Epoch(sender, receiver, past), steps);
    var st := Exec(Epoch(sender, receiver, past), steps);
    StructurePrefix(st);
    FlattenPrefix(st.s.ops, ops);
    hide Flatten;
    CleanBefore(past.former, st.log, Flatten(ops), Floor(past.seen));
  }

  // ----- exactly when frames get through -----

  /** Every frame from the floor on has been queued. */
  predicate Through(st: State, floor: nat) {
    forall n: nat :: floor <= n < |st.log| ==> n in st.queued
  }

  /** Whenever a beginning of the operations has been carried out, all their frames have got through. */
  ghost predicate AllGetThrough(sender: Info, receiver: Info, past: Past, ops: seq<Op>) {
    forall steps ::
      && Legal(Epoch(sender, receiver, past), steps)
      && Exec(Epoch(sender, receiver, past), steps).s.job == None
      && Exec(Epoch(sender, receiver, past), steps).s.ops <= ops
      ==> Through(Exec(Epoch(sender, receiver, past), steps), Floor(past.seen))
  }

  lemma {:induction false} FlattenOps(ops: seq<Op>)
    requires NoRekeyOps(ops)
    ensures Reassembly.NoRekey(Flatten(ops))
    ensures AllSends(ops) ==>
      forall n :: 0 <= n < |Flatten(ops)| ==> Flatten(ops)[n].ptype == DATA || Flatten(ops)[n].ptype == DATA_FRAG
    decreases |ops|
  {
    hide Chunks;
    if ops != [] {
      var front, op := ops[..|ops| - 1], ops[|ops| - 1];
      FlattenLast(ops);
      FlattenOps(front);
      hide Flatten;
      forall k | 0 <= k < |Chunks(op)|
        ensures Chunks(op)[k].ptype != REKEY && (op.Send? ==> Chunks(op)[k].ptype == DATA || Chunks(op)[k].ptype == DATA_FRAG)
      {
        ChunkKinds(op, k);
      }
    }
  }

  /** A run in which the frame `f` of a former epoch takes the place of the new frame with its type and number. */
  lemma RunWithout(sender: Info, receiver: Info, past: Past, ops: seq<Op>, f: Frame) returns (steps: seq<Step>)
    requires EpochStart(sender, receiver) && PastOf(past, sender.txKey) && NoRekeyOps(ops) && |Flatten(ops)| <= MAX_SEQ
    requires f in past.former && Floor(past.seen) <= f.seqNo < |Flatten(ops)| && f.ptype == Flatten(ops)[f.seqNo].ptype
    ensures Legal(Epoch(sender, receiver, past), steps)
    ensures var st := Exec(Epoch(sender, receiver, past), steps);
      && st.s.job == None && st.s.ops == ops && st.log == Flatten(ops) && st.r.queue == [] && f.seqNo !in st.queued
      && st.r.got == Skim(Flatten(ops), Skip(Ride(past.seen, sender.txKey, past.former, Some(f), Flatten(ops))), |Flatten(ops)|).1
  {
    hide Legal;
    hide Exec;
    hide Foreign;
    hide Floor;
    hide Skim;
    hide Clear;
    hide Chunks;
    var ride := Ride(past.seen, sender.txKey, past.former, Some(f), Flatten(ops));
    FlattenOps(ops);
    hide Flatten;
    steps := RideOps(sender, receiver, past, ride, ops);
  }

  /** Over all runs of the operations every frame from the floor on gets through if and only if no frame of a
      former epoch has the type and number of one of them. */
  lemma GetThroughExactly(sender: Info, receiver: Info, past: Past, ops: seq<Op>)
    requires EpochStart(sender, receiver) && PastOf(past, sender.txKey) && NoRekeyOps(ops) && |Flatten(ops)| <= MAX_SEQ
    ensures AllGetThrough(sender, receiver, past, ops) <==> Clean(past.former, Flatten(ops), Floor(past.seen))
  {
    hide Legal;
    hide Exec;
    hide PastOf;
    hide Floor;
    hide Flatten;
    if Clean(past.former, Flatten(ops), Floor(past.seen)) {
      hide Clean;
      forall steps |
        && Legal(Epoch(sender, receiver, past), steps)
        && Exec(Epoch(sender, receiver, past), steps).s.job == None
        && Exec(Epoch(sender, receiver, past), steps).s.ops <= ops
        ensures Through(Exec(Epoch(sender, receiver, past), steps), Floor(past.seen))
      {
        CleanRun(sender, receiver, past, steps, ops);
        RekeyLosesMessages(sender, receiver, past, steps);
      }
    } else {
      var f :| f in past.former && Floor(past.seen) <= f.seqNo < |Flatten(ops)| && f.ptype == Flatten(ops)[f.seqNo].ptype;
      var steps := RunWithout(sender, receiver, past, ops, f);
      assert !Through(Exec(Epoch(sender, receiver, past), steps), Floor(past.seen));
    }
  }

  // ----- exactly when messages get through -----

  /** The operation that sealed frame `n`, and which of its chunks that is. */
  lemma {:induction false} Locate(ops: seq<Op>, n: nat) returns (p: nat, k: nat)
    requires n < |Flatten(ops)|
    ensures p < |ops| && k < |Chunks(ops[p])| && n == |Flatten(ops[..p])| + k && Flatten(ops)[n] == Chunks(ops[p])[k]
    decreases |ops|
  {
    hide Chunks;
    var front := ops[..|ops| - 1];
    FlattenLast(ops);
    if n < |Flatten(front)| {
      p, k := Locate(front, n);
      assert front[..p] == ops[..p];
    } else {
      p, k := |ops| - 1, n - |Flatten(front)|;
    }
  }

  /** What a reader makes of a message whose chunk `k` is missing, having read it from chunk `k0` on: not what it
      would have made of it with that chunk. */
  lemma HearWithout(i: Info, r: Rx, b: bytes, k0: nat, k: nat, start: nat) returns (ms: seq<bytes>)
    requires |b| <= MAX_MESSAGE && k0 <= k < |Fragment(b)|
    requires r.info == i && r.count == k - k0 && (r.count > 0 ==> r.expected == start + k) && (r.count == 0 ==> r == Idle(i))
    ensures var h := Hear(false, r, Fragment(b)[k + 1..], start + k + 1); h.raised == None && h.messages == ms
    ensures |ms| <= 1 && ms != [Tail(b, k0)] && ms != [b]
  {
    hide Fragment;
    hide Hear;
    hide Interpret;
    MessageChunks(b);
    hide Reassembly.AllFragments;
    hide Joined;
    var cs, s := Fragment(b)[k + 1..], start + k + 1;
    FragmentCount(b);
    if cs == [] {
      HearNothing(false, r, s);
      ms := [];
    } else if r.count == 0 {
      HearRest(false, i, b, k + 1, s);
      ms := [Tail(b, k + 1)];
    } else {
      DataChunk(b, k + 1);
      HearOutOfTurn(r, cs, s);
      assert cs[1..] == Fragment(b)[k + 2..];
      if cs[1..] == [] {
        HearNothing(false, Idle(i), s + 1);
        ms := [];
      } else {
        HearRest(false, i, b, k + 2, s + 1);
        ms := [Tail(b, k + 2)];
      }
    }
  }

  lemma DataChunk(b: bytes, k: nat)
    requires |b| <= MAX_MESSAGE && k < |Fragment(b)|
    ensures Fragment(b)[k].ptype == DATA || Fragment(b)[k].ptype == DATA_FRAG
  {
    SendKinds(b, k);
    hide Fragment;
  }

  lemma {:induction false} SkimHears(log: seq<Chunk>, cs: seq<Chunk>, skip: set<nat>)
    requires Ordinary(cs) && forall n: nat :: |log| <= n < |log| + |cs| ==> n !in skip
    ensures var before := Skim(log, skip, |log|);
      var h := Hear(false, before.0, cs, |log|);
      h.raised == None && Skim(log + cs, skip, |log| + |cs|) == (h.rx, before.1 + h.messages)
    decreases |cs|
  {
    hide Interpret;
    hide Skim;
    var before := Skim(log, skip, |log|);
    if cs == [] {
      assert log + cs == log && before.1 + [] == before.1;
    } else {
      assert cs[0].ptype != BYE;
      assert forall k :: 0 <= k < |cs[1..]| ==> cs[1..][k] == cs[k + 1];
      NeverRaises(before.0, cs[0].ptype, |log|, cs[0].plaintext);
      SkimOneMore(log, cs[0], skip);
      SkimHears(log + [cs[0]], cs[1..], skip);
      assert log + [cs[0]] + cs[1..] == log + cs;
      var (r, v) := Interpret(false, before.0, cs[0].ptype, |log|, cs[0].plaintext);
      var h := Hear(false, r, cs[1..], |log| + 1);
      assert before.1 + (Yield(v) + h.messages) == before.1 + Yield(v) + h.messages;
    }
  }

  lemma {:induction false} SkimSkips(log: seq<Chunk>, cs: seq<Chunk>, skip: set<nat>)
    requires forall n: nat :: |log| <= n < |log| + |cs| ==> n in skip
    ensures Skim(log + cs, skip, |log| + |cs|) == Skim(log, skip, |log|)
    decreases |cs|
  {
    hide Interpret;
    hide Skim;
    if cs == [] {
      assert log + cs == log;
    } else {
      SkimOneMore(log, cs[0], skip);
      SkimSkips(log + [cs[0]], cs[1..], skip);
      assert log + [cs[0]] + cs[1..] == log + cs;
    }
  }

  /** The numbers of the message left out: those before chunk `k0`, and chunk `k`. */
  predicate LeavesOut(skip: set<nat>, start: nat, m: nat, k0: nat, k: nat) {
    forall n: nat :: start <= n < start + m ==> (n in skip <==> n < start + k0 || n == start + k)
  }

  lemma Pieces(cs: seq<Chunk>, k0: nat, k: nat)
    requires k0 <= k < |cs| && Ordinary(cs) && Reassembly.AllFragments(cs, 0, |cs| - 1)
    ensures Ordinary(cs[k0..k]) && Reassembly.AllFragments(cs[k0..k], 0, k - k0) && Ordinary(cs[k + 1..])
  {
  }

  /** What is held when chunk `k` is due. */
  lemma SkimHeld(log: seq<Chunk>, cs: seq<Chunk>, skip: set<nat>, k0: nat, k: nat) returns (r: Rx)
    requires k0 <= k < |cs| <= MAX_FRAMES && Ordinary(cs) && Reassembly.AllFragments(cs, 0, |cs| - 1)
    requires Skim(log, skip, |log|).0 == Idle(BLANK) && LeavesOut(skip, |log|, |cs|, k0, k)
    ensures Skim(log + cs[..k], skip, |log| + k) == (r, Skim(log, skip, |log|).1)
    ensures r.info == BLANK && r.count == k - k0 && (r.count > 0 ==> r.expected == |log| + k) && (r.count == 0 ==> r == Idle(BLANK))
  {
    hide Skim;
    hide Hear;
    hide Joined;
    hide Ordinary;
    hide Reassembly.AllFragments;
    Pieces(cs, k0, k);
    var l1, held := log + cs[..k0], cs[k0..k];
    SkimSkips(log, cs[..k0], skip);
    SkimHears(l1, held, skip);
    assert l1 + held == log + cs[..k];
    hide LeavesOut;
    HearFragments(false, Idle(BLANK), held, |log| + k0);
    HearNothing(false, Idle(BLANK), |log| + k0);
    r := Hear(false, Idle(BLANK), held, |log| + k0).rx;
    var before := Skim(log, skip, |log|).1;
    assert before + [] == before;
  }

  /** Reading a message from chunk `k0` on with chunk `k` missing. */
  lemma SkimWithout(log: seq<Chunk>, op: Op, skip: set<nat>, k0: nat, k: nat) returns (ms: seq<bytes>)
    requires op.Send? && k0 <= k < |Chunks(op)| && Skim(log, skip, |log|).0 == Idle(BLANK)
    requires LeavesOut(skip, |log|, |Chunks(op)|, k0, k)
    ensures Skim(log + Chunks(op), skip, |log + Chunks(op)|).1 == Skim(log, skip, |log|).1 + ms
    ensures |ms| <= 1 && ms != [Tail(op.data, k0)] && ms != [op.data]
  {
    hide Chunks;
    hide Fragment;
    hide Skim;
    hide Hear;
    hide Tail;
    hide Ordinary;
    hide Joined;
    hide Reassembly.AllFragments;
    OrdinarySend(op);
    MessageChunks(op.data);
    var cs := Chunks(op);
    var r := SkimHeld(log, cs, skip, k0, k);
    Pieces(cs, k0, k);
    ms := HearWithout(BLANK, r, op.data, k0, k, |log|);
    SkimRest(log, cs, skip, k0, k, r);
  }

  lemma SkimRest(log: seq<Chunk>, cs: seq<Chunk>, skip: set<nat>, k0: nat, k: nat, r: Rx)
    requires k0 <= k < |cs| && Ordinary(cs[k + 1..]) && LeavesOut(skip, |log|, |cs|, k0, k)
    requires Skim(log + cs[..k], skip, |log| + k) == (r, Skim(log, skip, |log|).1)
    ensures Skim(log + cs, skip, |log + cs|).1 == Skim(log, skip, |log|).1 + Hear(false, r, cs[k + 1..], |log| + k + 1).messages
  {
    hide Skim;
    hide Hear;
    hide Ordinary;
    var l2, l3, rest := log + cs[..k], log + cs[..k + 1], cs[k + 1..];
    SkimOneMore(l2, cs[k], skip);
    hide Interpret;
    assert l2 + [cs[k]] == l3;
    SkimHears(l3, rest, skip);
    assert l3 + rest == log + cs;
  }

  /** The frame of a former epoch has the type and number of a frame of a message. */
  predicate Strikes(f: Frame, log: seq<Chunk>, floor: nat) {
    floor <= f.seqNo < |log| && f.ptype == log[f.seqNo].ptype && (f.ptype == DATA || f.ptype == DATA_FRAG)
  }

  /** Such a frame loses or cuts a message: there is a run, up to that message, in which every operation returns,
      everything queued is read, and what is received is not what it should be. */
  lemma StrikeLoses(sender: Info, receiver: Info, past: Past, ops: seq<Op>, f: Frame) returns (steps: seq<Step>)
    requires EpochStart(sender, receiver) && PastOf(past, sender.txKey) && NoRekeyOps(ops) && |Flatten(ops)| <= MAX_SEQ
    requires f in past.former && Strikes(f, Flatten(ops), Floor(past.seen))
    ensures Legal(Epoch(sender, receiver, past), steps)
    ensures var st := Exec(Epoch(sender, receiver, past), steps);
      && st.s.job == None && st.r.queue == [] && st.s.ops <= ops
      && st.r.got != MessagesFrom(st.s.ops, Floor(past.seen)) && st.r.got != AllMessages(st.s.ops)
  {
    hide Legal;
    hide Exec;
    hide PastOf;
    hide Skim;
    hide Chunks;
    hide Flatten;
    var floor := Floor(past.seen);
    hide Floor;
    var p, k := Locate(ops, f.seqNo);
    var begun := ops[..p + 1];
    var front, op := ops[..p], ops[p];
    assert begun[..|begun| - 1] == front && begun[|begun| - 1] == op;
    FlattenPrefix(begun, ops);
    FlattenLast(begun);
    ChunkKinds(op, k);
    assert op.Send?;
    var log := Flatten(front);
    assert Flatten(begun)[f.seqNo] == Flatten(ops)[f.seqNo];
    steps := RunWithout(sender, receiver, past, begun, f);
    var skip := Skip(Ride(past.seen, sender.txKey, past.former, Some(f), Flatten(begun)));
    hide Skip;
    hide Strikes;
    SkimIsShadow(log, skip, floor, |log|);
    ShadowDelivers(front, floor);
    hide Shadow;
    var k0 := if floor <= |log| then 0 else floor - |log|;
    var ms := SkimWithout(log, op, skip, k0, k);
    OneShort(begun, floor, k0, ms);
  }

  /** A last message that is not what it should be makes the whole list differ. */
  lemma OneShort(ops: seq<Op>, floor: nat, k0: nat, ms: seq<bytes>)
    requires ops != [] && ops[|ops| - 1].Send? && k0 < |Chunks(ops[|ops| - 1])| && |ms| <= 1
    requires var start := |Flatten(ops[..|ops| - 1])|; k0 == if floor <= start then 0 else floor - start
    requires ms != [Tail(ops[|ops| - 1].data, k0)] && ms != [ops[|ops| - 1].data]
    ensures MessagesFrom(ops[..|ops| - 1], floor) + ms != MessagesFrom(ops, floor)
    ensures MessagesFrom(ops[..|ops| - 1], floor) + ms != AllMessages(ops)
  {
    hide Flatten;
    hide Chunks;
    var front, op := ops[..|ops| - 1], ops[|ops| - 1];
    FewerFrom(front, floor);
    assert Chunks(op) != [] && Tail(op.data, 0) == op.data;
    hide Tail;
    SameEnds(MessagesFrom(front, floor), ms, MessagesFrom(front, floor), MessageFrom(op, k0));
    SameEnds(MessagesFrom(front, floor), ms, AllMessages(front), MessageFrom(op, 0));
  }

  /** Whenever a beginning of the operations has been carried out and the queue read, all their messages have
      been received. */
  ghost predicate AllArrive(sender: Info, receiver: Info, past: Past, ops: seq<Op>) {
    forall steps ::
      && Legal(Epoch(sender, receiver, past), steps)
      && Exec(Epoch(sender, receiver, past), steps).s.job == None
      && Exec(Epoch(sender, receiver, past), steps).r.queue == []
      && Exec(Epoch(sender, receiver, past), steps).s.ops <= ops
      ==> Exec(Epoch(sender, receiver, past), steps).r.got == AllMessages(Exec(Epoch(sender, receiver, past), steps).s.ops)
  }

  predicate AllSends(ops: seq<Op>) {
    forall k :: 0 <= k < |ops| ==> ops[k].Send?
  }

  predicate NoStrike(former: set<Frame>, log: seq<Chunk>, floor: nat) {
    forall f :: f in former ==> !Strikes(f, log, floor)
  }

  /** Over all runs of the operations every message arrives, whole, if no message begins below the floor and no
      frame of a former epoch has the type and number of a new one at or above it; and only if no message begins
      below the floor and no such frame strikes a message.  If the operations are all messages the two
      conditions are one. */
  lemma MessagesExactly(sender: Info, receiver: Info, past: Past, ops: seq<Op>)
    requires EpochStart(sender, receiver) && PastOf(past, sender.txKey) && NoRekeyOps(ops) && |Flatten(ops)| <= MAX_SEQ
    ensures Clean(past.former, Flatten(ops), Floor(past.seen)) && NoneBefore(ops, Floor(past.seen))
      ==> AllArrive(sender, receiver, past, ops)
    ensures AllArrive(sender, receiver, past, ops)
      ==> NoStrike(past.former, Flatten(ops), Floor(past.seen)) && NoneBefore(ops, Floor(past.seen))
    ensures AllSends(ops) ==>
      (AllArrive(sender, receiver, past, ops) <==>
         Clean(past.former, Flatten(ops), Floor(past.seen)) && NoneBefore(ops, Floor(past.seen)))
  {
    NoStrikeIsClean(past.former, ops, Floor(past.seen));
    hide Flatten;
    hide NoneBefore;
    hide PastOf;
    hide Floor;
    hide AllArrive;
    hide Clean;
    hide NoStrike;
    hide AllSends;
    var floor := Floor(past.seen);
    if Clean(past.former, Flatten(ops), floor) && NoneBefore(ops, floor) {
      CleanArrives(sender, receiver, past, ops);
    }
    if !NoStrike(past.former, Flatten(ops), floor) {
      StrikeHarms(sender, receiver, past, ops);
    } else if !NoneBefore(ops, floor) {
      BelowLoses(sender, receiver, past, ops);
    }
  }

  lemma StrikeHarms(sender: Info, receiver: Info, past: Past, ops: seq<Op>)
    requires EpochStart(sender, receiver) && PastOf(past, sender.txKey) && NoRekeyOps(ops) && |Flatten(ops)| <= MAX_SEQ
    requires !NoStrike(past.former, Flatten(ops), Floor(past.seen))
    ensures !AllArrive(sender, receiver, past, ops)
  {
    hide Flatten;
    hide PastOf;
    hide Legal;
    hide Exec;
    hide Floor;
    hide Strikes;
    var f :| f in past.former && Strikes(f, Flatten(ops), Floor(past.seen));
    var steps := StrikeLoses(sender, receiver, past, ops, f);
  }

  lemma NoStrikeIsClean(former: set<Frame>, ops: seq<Op>, floor: nat)
    requires NoRekeyOps(ops)
    ensures NoStrike(former, Flatten(ops), floor) && AllSends(ops) ==> Clean(former, Flatten(ops), floor)
  {
    FlattenOps(ops);
    hide Flatten;
    if NoStrike(former, Flatten(ops), floor) && AllSends(ops) {
      forall f | f in former && floor <= f.seqNo < |Flatten(ops)| ensures f.ptype != Flatten(ops)[f.seqNo].ptype {
        assert !Strikes(f, Flatten(ops), floor);
      }
    }
  }

  lemma CleanArrives(sender: Info, receiver: Info, past: Past, ops: seq<Op>)
    requires EpochStart(sender, receiver) && PastOf(past, sender.txKey) && NoRekeyOps(ops)
    requires Clean(past.former, Flatten(ops), Floor(past.seen)) && NoneBefore(ops, Floor(past.seen))
    ensures AllArrive(sender, receiver, past, ops)
  {
    hide Legal;
    hide Exec;
    hide Clean;
    hide PastOf;
    hide Floor;
    forall steps |
      && Legal(Epoch(sender, receiver, past), steps)
      && Exec(Epoch(sender, receiver, past), steps).s.job == None
      && Exec(Epoch(sender, receiver, past), steps).r.queue == []
      && Exec(Epoch(sender, receiver, past), steps).s.ops <= ops
      ensures Exec(Epoch(sender, receiver, past), steps).r.got == AllMessages(Exec(Epoch(sender, receiver, past), steps).s.ops)
    {
      CleanRun(sender, receiver, past, steps, ops);
      RekeyLosesMessages(sender, receiver, past, steps);
      NoneBeforePrefix(Exec(Epoch(sender, receiver, past), steps).s.ops, ops, Floor(past.seen));
    }
  }

  lemma NoneBeforePrefix(ops: seq<Op>, longer: seq<Op>, floor: nat)
    requires ops <= longer && NoneBefore(longer, floor)
    ensures NoneBefore(ops, floor)
  {
    hide Flatten;
    forall p | 0 <= p < |ops| && ops[p].Send? ensures floor <= |Flatten(ops[..p])| {
      assert ops[..p] == longer[..p] && ops[p] == longer[p];
    }
  }

  /** A message that begins below the floor is lost or cut in the run in which nothing else goes wrong. */
  lemma BelowLoses(sender: Info, receiver: Info, past: Past, ops: seq<Op>)
    requires EpochStart(sender, receiver) && PastOf(past, sender.txKey) && NoRekeyOps(ops) && |Flatten(ops)| <= MAX_SEQ
    requires !NoneBefore(ops, Floor(past.seen))
    ensures !AllArrive(sender, receiver, past, ops)
  {
    FlattenOps(ops);
    hide Legal;
    hide Exec;
    hide NoneBefore;
    hide Foreign;
    hide Skim;
    hide Clear;
    hide Chunks;
    hide Flatten;
    var ride := Ride(past.seen, sender.txKey, past.former, None, Flatten(ops));
    var steps := RideOps(sender, receiver, past, ride, ops);
    var st := Exec(Epoch(sender, receiver, past), steps);
    SkimIsShadow(st.log, Skip(ride), Floor(past.seen), |st.log|);
    ShadowDelivers(ops, Floor(past.seen));
    WholeFrom(ops, Floor(past.seen));
    hide Floor;
    hide Skip;
    hide Shadow;
    assert st.r.got == MessagesFrom(ops, Floor(past.seen)) && st.s.ops <= ops;
  }
}
