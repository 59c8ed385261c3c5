/** What every turn of `recv` does, and with what a call ends, told frame by frame; and how calls over UDP follow the
runs of `Reassembly`. */
module RecvTurns {
  import opened Wire
  import opened Crypto
  import opened ReplayWindow
  import opened Session
  import opened Reassembly
  import opened Transfer
  import Interruptions

  // ----- one frame -----

  /** The frame passes for the peer's, whatever its number, and is not stale. */
  predicate Authentic(reliable: bool, i: Info, f: Frame) {
    Genuine(i, f) && (reliable || Admits(i.window, f.seqNo))
  }

  /** The session once the frame's number is booked. */
  function Booked(reliable: bool, i: Info, f: Frame): Info {
    i.(window := if reliable then i.window.(rxSeq := f.seqNo + 1) else Accept(i.window, f.seqNo))
  }

  /** It has the last number, or over TCP is not the very next. */
  predicate Misplaced(reliable: bool, i: Info, f: Frame) {
    f.seqNo == 0xFFFF_FFFF || (reliable && f.seqNo != i.window.rxSeq)
  }

  /** What opening a frame gives, by its kind. */
  lemma OpenExactly(reliable: bool, i: Info, f: Frame)
    ensures Open(reliable, i, f) ==
      if !Authentic(reliable, i, f) then (if reliable then Refused(CryptoError) else Ignored)
      else if Misplaced(reliable, i, f) then Refused(SequenceError)
      else Accepted(Booked(reliable, i, f), f.payload.plaintext)
  {
    hide BuildAad;
    hide Admits;
    hide Accept;
    hide TypeByte;
  }

  /** The charge for a control frame: nine in one second close the connection. */
  predicate Charges(l: Loop, l': Loop, now: real) {
    var b := if now - l.budget.start > 1.0 then Budget(now, 1) else Budget(l.budget.start, l.budget.count + 1);
    l' == if b.count <= 8 then l.(budget := b)
          else l.(rx := Rx(l.rx.info, [], 0, 0), budget := b, outcome := Error(ConnectionClosed))
  }

  /** The loop ends with an error. */
  predicate Fails(l: Loop, l': Loop, i: Info, e: Error) {
    l' == l.(rx := Rx(i, [], 0, 0), outcome := Error(e))
  }

  /** The partial message is dropped and the loop goes on. */
  predicate Forgets(l: Loop, l': Loop, i: Info) {
    l' == l.(rx := Rx(i, [], 0, 0))
  }

  /** The error of a frame that breaks a rule, where it is raised. */
  function RuleError(r: Rx, t: PacketType, seqNo: nat): Error {
    match t
    case PING | PONG | DATA => SequenceError
    case REKEY => if r.assembled != [] then SequenceError else PayloadError
    case DATA_FRAG => if r.count > 0 && seqNo != r.expected then SequenceError else PayloadError
    case _ => ValueError
  }

  /** The frame that answers a PING. */
  predicate IsPong(i: Info, f: Frame) {
    f == Frame(PONG, i.txSeq, Sealed(i.suite, i.txKey, Nonce(i.txSeq, i.sessionId), BuildAad(7, i.txSeq, 28), []))
  }

  /** What an accepted PING does. */
  predicate Answers(reliable: bool, l: Loop, l': Loop, a: Arrival) {
    var i := l.rx.info;
    if i.txSeq == 0xFFFF_FFFF then
      if reliable then Fails(l, l', i, SequenceError) else Forgets(l, l', i)
    else
      && |l'.written| == |l.written| + 1 && l'.written[..|l.written|] == l.written && IsPong(i, l'.written[|l.written|])
      && var l1 := l.(rx := l.rx.(info := i.(txSeq := i.txSeq + 1)), written := l'.written);
         if a.pongWritten then Charges(l1, l', a.now) else Fails(l1, l', l1.rx.info, OsError)
  }

  /** What an accepted frame that breaks no rule does; `l` already has its number booked. */
  predicate Obeys(reliable: bool, l: Loop, l': Loop, f: Frame, a: Arrival)
    requires f.payload.Sealed?
  {
    var i, text := l.rx.info, f.payload.plaintext;
    match f.ptype
    case DATA => l' == l.(rx := Rx(i, [], 0, 0), outcome := Got(l.rx.assembled + text))
    case DATA_FRAG => l' == l.(rx := Rx(i, l.rx.assembled + text, l.rx.count + 1, f.seqNo + 1))
    case PING => Answers(reliable, l, l', a)
    case PONG => Charges(l, l', a.now)
    case REKEY =>
      var (tx, rx) := DeriveRekeyKeys(false, i.txKey, i.rxKey, i.sessionId, text);
      l' == l.(rx := l.rx.(info := i.(txKey := tx, rxKey := rx, txSeq := 0, window := Window(0, 0))))
    case _ => false
  }

  /** What an accepted frame does. */
  predicate Heeds(reliable: bool, l: Loop, l': Loop, f: Frame, a: Arrival)
    requires f.payload.Sealed?
  {
    if f.ptype == BYE then Fails(l, l', l.rx.info, ConnectionClosed)
    else if Breaks(l.rx, f.ptype, f.seqNo, f.payload.plaintext) then
      if reliable then Fails(l, l', l.rx.info, RuleError(l.rx, f.ptype, f.seqNo)) else Forgets(l, l', l.rx.info)
    else Obeys(reliable, l, l', f, a)
  }

  /** What an accepted frame does, told through the loop's own functions. */
  function Verdicted(reliable: bool, l: Loop, f: Frame, a: Arrival): Loop
    requires f.payload.Sealed?
  {
    var (rx, verdict) := Interpret(reliable, l.rx, f.ptype, f.seqNo, f.payload.plaintext);
    match verdict
    case Delivered(m) => l.(rx := rx, outcome := Got(m))
    case Raised(e) => l.(rx := rx, outcome := Error(e))
    case Control(ping) => Respond(reliable, l.(rx := rx), ping, a)
    case _ => l.(rx := rx)
  }

  lemma CountCharges(l: Loop, now: real)
    ensures Charges(l, Count(l, now), now)
  {
  }

  lemma RespondAnswers(reliable: bool, l: Loop, a: Arrival)
    ensures Answers(reliable, l, Respond(reliable, l, true, a), a)
  {
    hide BuildAad;
    hide Nonce;
    hide Count;
    var i := l.rx.info;
    if i.txSeq < MAX_SEQ {
      var f := Seal(i, Chunk(PONG, [])).value.1;
      assert SealRun(i, [Chunk(PONG, [])], _ => a.pongWritten, 0).1 == [f];
      var l1 := l.(rx := l.rx.(info := i.(txSeq := i.txSeq + 1)), written := l.written + [f]);
      CountCharges(l1, a.now);
    } else {
      assert l.written + [] == l.written;
    }
  }

  lemma PongCounts(reliable: bool, l: Loop, a: Arrival)
    ensures Respond(reliable, l, false, a) == Count(l, a.now)
  {
  }

  lemma VerdictHeeds(reliable: bool, l: Loop, f: Frame, a: Arrival)
    requires f.payload.Sealed?
    ensures Heeds(reliable, l, Verdicted(reliable, l, f, a), f, a)
  {
    hide Respond;
    hide Answers;
    hide Charges;
    hide DeriveRekeyKeys;
    if f.ptype == PING && l.rx.assembled == [] {
      RespondAnswers(reliable, l, a);
    } else if f.ptype == PONG && l.rx.assembled == [] {
      assert Respond(reliable, l, false, a) == Count(l, a.now) by { PongCounts(reliable, l, a); }
      CountCharges(l, a.now);
    }
  }

  /** What a turn does. */
  predicate Does(reliable: bool, l: Loop, l': Loop, a: Arrival) {
    var i := l.rx.info;
    match a.frame
    case Err(e) => if reliable || e == OsError || e == ValueError then Fails(l, l', i, e) else l' == l
    case Ok(f) =>
      if !Authentic(reliable, i, f) then if reliable then Fails(l, l', i, CryptoError) else l' == l
      else if Misplaced(reliable, i, f) then Fails(l, l', i, SequenceError)
      else Heeds(reliable, l.(rx := l.rx.(info := Booked(reliable, i, f))), l', f, a)
  }

  /** A turn is one of these, told without the functions the loop is written with. */
  lemma TurnDoes(reliable: bool, l: Loop, a: Arrival)
    ensures Does(reliable, l, Turn(reliable, l, a), a)
  {
    hide Authentic;
    hide Misplaced;
    hide Open;
    hide Booked;
    hide Interpret;
    hide Respond;
    hide Heeds;
    if a.frame.Ok? {
      var f := a.frame.value;
      OpenExactly(reliable, l.rx.info, f);
      if Authentic(reliable, l.rx.info, f) && !Misplaced(reliable, l.rx.info, f) {
        AuthenticSealed(reliable, l.rx.info, f);
        var booked := l.(rx := l.rx.(info := Booked(reliable, l.rx.info, f)));
        VerdictHeeds(reliable, booked, f, a);
        assert Turn(reliable, l, a) == Verdicted(reliable, booked, f, a);
      }
    }
  }

  lemma AuthenticSealed(reliable: bool, i: Info, f: Frame)
    ensures Authentic(reliable, i, f) ==> f.payload.Sealed?
  {
  }

  // ----- how a call ends -----

  /** One control frame more is more than eight in a second. */
  predicate Overspent(b: Budget, now: real) {
    now - b.start <= 1.0 && b.count >= 8
  }

  /** With what an arrival ends the call; `Reading` if it does not. */
  function Ending(reliable: bool, l: Loop, a: Arrival): Outcome {
    var r, i := l.rx, l.rx.info;
    match a.frame
    case Err(e) => if reliable || e == OsError || e == ValueError then Error(e) else Reading
    case Ok(f) =>
      if !Authentic(reliable, i, f) then if reliable then Error(CryptoError) else Reading
      else if Misplaced(reliable, i, f) then Error(SequenceError)
      else if f.ptype == BYE then Error(ConnectionClosed)
      else if Breaks(r, f.ptype, f.seqNo, f.payload.plaintext) then
        if reliable then Error(RuleError(r, f.ptype, f.seqNo)) else Reading
      else if f.ptype == DATA then Got(r.assembled + f.payload.plaintext)
      else if f.ptype == PING && i.txSeq == 0xFFFF_FFFF then if reliable then Error(SequenceError) else Reading
      else if f.ptype == PING && !a.pongWritten then Error(OsError)
      else if (f.ptype == PING || f.ptype == PONG) && Overspent(l.budget, a.now) then Error(ConnectionClosed)
      else Reading
  }

  lemma HeedsEnds(reliable: bool, l: Loop, booked: Loop, l': Loop, f: Frame, a: Arrival)
    requires l.outcome == Reading && a.frame == Ok(f)
    requires Authentic(reliable, l.rx.info, f) && !Misplaced(reliable, l.rx.info, f)
    requires booked == l.(rx := l.rx.(info := Booked(reliable, l.rx.info, f))) && Heeds(reliable, booked, l', f, a)
    ensures l'.outcome == Ending(reliable, l, a)
  {
    hide Authentic;
    hide Misplaced;
    hide DeriveRekeyKeys;
    hide IsPong;
    hide Accept;
  }

  lemma TurnEnds(reliable: bool, l: Loop, a: Arrival)
    requires l.outcome == Reading
    ensures Turn(reliable, l, a).outcome == Ending(reliable, l, a)
  {
    TurnDoes(reliable, l, a);
    hide Turn;
    hide Heeds;
    hide Authentic;
    hide Misplaced;
    hide Booked;
    if a.frame.Ok? && Authentic(reliable, l.rx.info, a.frame.value) && !Misplaced(reliable, l.rx.info, a.frame.value) {
      var f := a.frame.value;
      AuthenticSealed(reliable, l.rx.info, f);
      HeedsEnds(reliable, l, l.(rx := l.rx.(info := Booked(reliable, l.rx.info, f))), Turn(reliable, l, a), f, a);
    }
  }

  /** The states a call goes through, arrival by arrival; each but the last goes on. */
  predicate Course(reliable: bool, states: seq<Loop>, arrivals: seq<Arrival>) {
    && 1 <= |states| <= |arrivals| + 1
    && (forall k :: 0 <= k < |states| - 1 ==>
         Does(reliable, states[k], states[k + 1], arrivals[k]) && states[k + 1].outcome == Ending(reliable, states[k], arrivals[k]))
    && (forall k :: 0 <= k < |states| - 1 ==> states[k].outcome == Reading)
    && (states[|states| - 1].outcome == Reading ==> |states| == |arrivals| + 1)
  }

  /** Over UDP: the arrival is a frame whose number the session books. */
  predicate Books(reliable: bool, l: Loop, a: Arrival) {
    !reliable && a.frame.Ok? && Authentic(false, l.rx.info, a.frame.value) && a.frame.value.seqNo < 0xFFFF_FFFF
  }

  /** `h` is the highest of `lastRx` and the numbers booked. */
  predicate Highest(reliable: bool, states: seq<Loop>, arrivals: seq<Arrival>, lastRx: int, h: int)
    requires |states| <= |arrivals| + 1
  {
    && lastRx <= h
    && (forall k :: 0 <= k < |states| - 1 && Books(reliable, states[k], arrivals[k]) ==> arrivals[k].frame.value.seqNo <= h)
    && (h == lastRx || exists k :: 0 <= k < |states| - 1 && Books(reliable, states[k], arrivals[k]) && arrivals[k].frame.value.seqNo == h)
  }

  /** Over any arrivals the call takes each arrival as told above, up to the first that ends it, and ends with what
      that arrival ends it with; if none does it goes on reading.  The transport is told the highest number booked. */
  lemma {:induction false} CallExactly(reliable: bool, l: Loop, arrivals: seq<Arrival>, lastRx: int) returns (states: seq<Loop>)
    requires l.outcome == Reading
    ensures states != [] && states[0] == l && Course(reliable, states, arrivals)
    ensures RecvRun(reliable, l, arrivals) == (states[|states| - 1], |states| - 1)
    ensures Highest(reliable, states, arrivals, lastRx, ConfirmedRun(reliable, l, arrivals, lastRx))
    decreases |arrivals|
  {
    hide Does;
    hide Ending;
    hide Turn;
    hide Books;
    hide Confirmed;
    if arrivals == [] {
      states := [l];
    } else {
      var l' := Turn(reliable, l, arrivals[0]);
      TurnDoes(reliable, l, arrivals[0]);
      TurnEnds(reliable, l, arrivals[0]);
      ConfirmedIsHigher(reliable, l, arrivals[0], lastRx);
      var lastRx' := Confirmed(reliable, l.rx.info, arrivals[0], lastRx);
      var rest := [l'];
      if l'.outcome == Reading {
        rest := CallExactly(reliable, l', arrivals[1..], lastRx');
      } else {
        RunEnds(reliable, l', arrivals[1..]);
        ConfirmedEnds(reliable, l', arrivals[1..], lastRx');
      }
      states := CourseCons(reliable, l, rest, arrivals);
      HighestCons(reliable, l, rest, arrivals, lastRx, lastRx', ConfirmedRun(reliable, l, arrivals, lastRx));
    }
  }

  lemma ConfirmedIsHigher(reliable: bool, l: Loop, a: Arrival, lastRx: int)
    ensures var h := Confirmed(reliable, l.rx.info, a, lastRx);
      h == if Books(reliable, l, a) && a.frame.value.seqNo > lastRx then a.frame.value.seqNo else lastRx
  {
    if a.frame.Ok? {
      OpenExactly(reliable, l.rx.info, a.frame.value);
    }
    hide Open;
    hide Authentic;
  }

  lemma HighestCons(reliable: bool, l: Loop, rest: seq<Loop>, arrivals: seq<Arrival>, lastRx: int, lastRx': int, h: int)
    requires arrivals != [] && 1 <= |rest| <= |arrivals| && Highest(reliable, rest, arrivals[1..], lastRx', h)
    requires lastRx' == if Books(reliable, l, arrivals[0]) && arrivals[0].frame.value.seqNo > lastRx then arrivals[0].frame.value.seqNo else lastRx
    ensures Highest(reliable, [l] + rest, arrivals, lastRx, h)
  {
    hide Authentic;
    var states := [l] + rest;
    assert states[0] == l;
    forall k | 0 <= k < |states| - 1 && Books(reliable, states[k], arrivals[k]) ensures arrivals[k].frame.value.seqNo <= h {
      if k > 0 {
        assert states[k] == rest[k - 1] && arrivals[k] == arrivals[1..][k - 1];
      }
    }
    if h != lastRx {
      if h == lastRx' {
        assert Books(reliable, states[0], arrivals[0]);
      } else {
        var k :| 0 <= k < |rest| - 1 && Books(reliable, rest[k], arrivals[1..][k]) && arrivals[1..][k].frame.value.seqNo == h;
        assert states[k + 1] == rest[k] && arrivals[k + 1] == arrivals[1..][k];
      }
    }
  }

  lemma CourseCons(reliable: bool, l: Loop, rest: seq<Loop>, arrivals: seq<Arrival>) returns (states: seq<Loop>)
    requires arrivals != [] && l.outcome == Reading && Course(reliable, rest, arrivals[1..])
    requires Does(reliable, l, rest[0], arrivals[0]) && rest[0].outcome == Ending(reliable, l, arrivals[0])
    ensures states == [l] + rest && Course(reliable, states, arrivals)
  {
    hide Does;
    hide Ending;
    states := [l] + rest;
    forall k | 0 <= k < |states| - 1
      ensures Does(reliable, states[k], states[k + 1], arrivals[k])
      ensures states[k + 1].outcome == Ending(reliable, states[k], arrivals[k]) && states[k].outcome == Reading
    {
      if k > 0 {
        assert states[k] == rest[k - 1] && arrivals[k] == arrivals[1..][k - 1];
        assert Does(reliable, rest[k - 1], rest[k], arrivals[1..][k - 1]);
      }
    }
  }

  // ----- calls over UDP follow the runs of reassembly -----

  /** The same but for the sender's own numbers, which reassembly does not look at. */
  predicate Alike(r: Rx, r0: Rx) {
    r == r0.(info := r0.info.(txSeq := r.info.txSeq))
  }

  lemma ReceiveAlike(r: Rx, r0: Rx, f: Frame)
    requires Alike(r, r0)
    ensures Receive(false, r, f).1 == Receive(false, r0, f).1
    ensures Alike(Receive(false, r, f).0, Receive(false, r0, f).0)
    ensures Receive(false, r, f).0.info.txSeq <= r.info.txSeq
  {
    OpenAlike(r.info, r0.info, f);
    hide Open;
    match Open(false, r.info, f)
    case Accepted(info, plaintext) =>
      var info0 := Open(false, r0.info, f).info;
      InterpretAlike(r.(info := info), r0.(info := info0), f.ptype, f.seqNo, plaintext);
      hide Interpret;
    case _ =>
  }

  lemma OpenAlike(i: Info, i0: Info, f: Frame)
    requires i == i0.(txSeq := i.txSeq)
    ensures match Open(false, i, f)
      case Accepted(info, plaintext) =>
        && info.txSeq == i.txSeq && Open(false, i0, f).Accepted? && Open(false, i0, f).plaintext == plaintext
        && info == Open(false, i0, f).info.(txSeq := i.txSeq)
      case o => Open(false, i0, f) == o
  {
    hide Accept;
    hide Decrypt;
    hide Nonce;
    hide Admits;
  }

  lemma InterpretAlike(r: Rx, r0: Rx, t: PacketType, seqNo: nat, plaintext: bytes)
    requires Alike(r, r0)
    ensures Interpret(false, r, t, seqNo, plaintext).1 == Interpret(false, r0, t, seqNo, plaintext).1
    ensures Alike(Interpret(false, r, t, seqNo, plaintext).0, Interpret(false, r0, t, seqNo, plaintext).0)
    ensures Interpret(false, r, t, seqNo, plaintext).0.info.txSeq <= r.info.txSeq
  {
    hide DeriveRekeyKeys;
  }

  /** The frames among the arrivals. */
  function Frames(arrivals: seq<Arrival>): seq<Frame> {
    if arrivals == [] then []
    else if arrivals[0].frame.Ok? then [arrivals[0].frame.value] + Frames(arrivals[1..])
    else Frames(arrivals[1..])
  }

  function Arrived(events: seq<Event>): seq<Frame> {
    if events == [] then []
    else if events[0].Arrives? then [events[0].frame] + Arrived(events[1..])
    else Arrived(events[1..])
  }

  lemma {:induction false} ArrivedConcat(xs: seq<Event>, ys: seq<Event>)
    ensures Arrived(xs + ys) == Arrived(xs) + Arrived(ys)
  {
    if xs == [] {
      assert xs + ys == ys;
    } else {
      assert (xs + ys)[0] == xs[0] && (xs + ys)[1..] == xs[1..] + ys;
      ArrivedConcat(xs[1..], ys);
      var a, b := Arrived(xs[1..]), Arrived(ys);
      assert xs[0].Arrives? ==> [xs[0].frame] + (a + b) == [xs[0].frame] + a + b;
    }
  }

  function MessageOf(o: Outcome): seq<bytes> {
    if o.Got? then [o.message] else []
  }

  predicate NoneGivenUp(events: seq<Event>) {
    forall k :: 0 <= k < |events| ==> events[k].Arrives?
  }

  /** `events` from `r0` is what `frames` from a state like it come to. */
  predicate Follows(l: Loop, r0: Rx, events: seq<Event>, frames: seq<Frame>) {
    var (vs, r) := UdpRun(r0, events);
    && Arrived(events) == frames && Interruptions.Messages(vs) == MessageOf(l.outcome)
    && Alike(Idle(l.rx.info), Idle(r.info)) && (l.outcome == Reading ==> Alike(l.rx, r))
  }

  /** A frame, and a call given up right after it. */
  lemma OneEvent(r0: Rx, f: Frame, r: Rx, v: Verdict)
    requires Receive(false, r0, f) == (r, v)
    ensures UdpRun(r0, [Arrives(f)]) == ([v], r) && UdpRun(r0, [Arrives(f), GivenUp]) == ([v], Idle(r.info))
    ensures Arrived([Arrives(f)]) == [f] && Arrived([Arrives(f), GivenUp]) == [f]
    ensures Interruptions.Messages([v]) == if v.Delivered? then [v.message] else []
  {
    hide Receive;
    assert [Arrives(f), GivenUp][1..] == [GivenUp] && [Arrives(f)][1..] == [];
    assert UdpRun(r, [GivenUp]) == UdpRun(Idle(r.info), []);
    assert Arrived([GivenUp]) == [] && Arrived([]) == [];
    assert [v] + [] == [v] && [f] + [] == [f];
    assert [v][1..] == [];
  }

  lemma TurnFollows(l: Loop, a: Arrival, r0: Rx) returns (events: seq<Event>)
    requires l.outcome == Reading && Alike(l.rx, r0)
    ensures Follows(Turn(false, l, a), r0, events, if a.frame.Ok? then [a.frame.value] else [])
    ensures Turn(false, l, a).rx.info.txSeq <= l.rx.info.txSeq + 1
    ensures l.rx.info.txSeq < MAX_SEQ ==> NoneGivenUp(events)
  {
    hide Receive;
    hide Respond;
    hide UdpRun;
    hide Arrived;
    hide Interruptions.Messages;
    if a.frame.Ok? {
      var f := a.frame.value;
      ReceiveAlike(l.rx, r0, f);
      var (r, v) := Receive(false, l.rx, f);
      OneEvent(r0, f, Receive(false, r0, f).0, v);
      events := [Arrives(f)];
      if v.Control? {
        RespondAlike(l.(rx := r), v.ping, a);
        if v.ping && r.info.txSeq == MAX_SEQ {
          events := [Arrives(f), GivenUp];
        }
      }
    } else {
      events := [];
      assert UdpRun(r0, []) == ([], r0) && Arrived([]) == [] && Interruptions.Messages([]) == [] by { Nothing(r0); }
    }
  }

  lemma Nothing(r0: Rx)
    ensures UdpRun(r0, []) == ([], r0) && Arrived([]) == [] && Interruptions.Messages([]) == []
  {
  }

  /** A PING at the last number is dropped with the partial message; otherwise control frames leave it. */
  lemma RespondAlike(l: Loop, ping: bool, a: Arrival)
    requires l.outcome == Reading
    ensures var l' := Respond(false, l, ping, a);
      && !l'.outcome.Got? && Alike(Idle(l'.rx.info), Idle(l.rx.info)) && l'.rx.info.txSeq <= l.rx.info.txSeq + 1
      && (l'.outcome == Reading ==>
           if ping && l.rx.info.txSeq == MAX_SEQ then l'.rx == Idle(l.rx.info) else Alike(l'.rx, l.rx))
  {
    hide BuildAad;
    hide Nonce;
    if ping {
      RespondAnswers(false, l, a);
    }
  }

  /** One after the other. */
  lemma FollowsThen(l: Loop, l': Loop, r0: Rx, first: seq<Event>, frames: seq<Frame>, r: Rx, rest: seq<Event>, others: seq<Frame>)
    requires Follows(l, r0, first, frames) && l.outcome == Reading && r == UdpRun(r0, first).1 && Follows(l', r, rest, others)
    ensures Follows(l', r0, first + rest, frames + others)
    ensures NoneGivenUp(first) && NoneGivenUp(rest) ==> NoneGivenUp(first + rest)
  {
    Interruptions.RunConcat(r0, first, rest);
    var vs, ws := UdpRun(r0, first).0, UdpRun(r, rest).0;
    Interruptions.MessagesConcat(vs, ws);
    ArrivedConcat(first, rest);
    assert [] + Interruptions.Messages(ws) == Interruptions.Messages(ws);
    hide UdpRun;
    hide Arrived;
    hide Interruptions.Messages;
  }

  /** A call over UDP, up to where it ends or stands, is a run of `Reassembly` on the frames it has read: it returns the
      message that run delivers, if any.  Unless the sender's own numbers run out nothing is given up on the way. */
  lemma {:induction false} CallFollows(l: Loop, arrivals: seq<Arrival>, r0: Rx) returns (events: seq<Event>)
    requires l.outcome == Reading && Alike(l.rx, r0)
    ensures var (last, n) := RecvRun(false, l, arrivals);
      n <= |arrivals| && Follows(last, r0, events, Frames(arrivals[..n]))
    ensures l.rx.info.txSeq + |arrivals| <= 0xFFFF_FFFF ==> NoneGivenUp(events)
    decreases |arrivals|
  {
    hide Turn;
    hide Follows;
    if arrivals == [] {
      events := [];
      FollowsNothing(l, r0);
    } else {
      var a, l' := arrivals[0], Turn(false, l, arrivals[0]);
      var n := RecvRun(false, l', arrivals[1..]).1;
      var first := TurnFollows(l, a, r0);
      var one := if a.frame.Ok? then [a.frame.value] else [];
      if l'.outcome == Reading {
        var r := UdpRun(r0, first).1;
        assert Alike(l'.rx, r) by { StaysAlike(l', r0, first, one); }
        var rest := CallFollows(l', arrivals[1..], r);
        events := first + rest;
        FollowsThen(l', RecvRun(false, l', arrivals[1..]).0, r0, first, one, r, rest, Frames(arrivals[1..][..n]));
      } else {
        events := first;
        RunEnds(false, l', arrivals[1..]);
        assert arrivals[1..][..0] == [] && one + [] == one;
      }
      FramesFirst(arrivals, n);
    }
  }

  lemma StaysAlike(l: Loop, r0: Rx, events: seq<Event>, frames: seq<Frame>)
    requires Follows(l, r0, events, frames) && l.outcome == Reading
    ensures Alike(l.rx, UdpRun(r0, events).1)
  {
  }

  lemma FollowsNothing(l: Loop, r0: Rx)
    requires l.outcome == Reading && Alike(l.rx, r0)
    ensures Follows(l, r0, [], [])
  {
  }

  lemma FramesFirst(arrivals: seq<Arrival>, n: nat)
    requires arrivals != [] && n <= |arrivals| - 1
    ensures Frames(arrivals[..n + 1]) == (if arrivals[0].frame.Ok? then [arrivals[0].frame.value] else []) + Frames(arrivals[1..][..n])
  {
    assert arrivals[..n + 1][1..] == arrivals[1..][..n];
    assert [] + Frames(arrivals[1..][..n]) == Frames(arrivals[1..][..n]);
  }

  /** One `recv` call: when it starts, and the most arrivals it waits for before it is given up. */
  datatype Attempt = Attempt(start: real, patience: nat)

  function Entered(info: Info, start: real): Loop {
    Loop(Idle(info), Budget(start, 0), [], Reading)
  }

  /** The arrivals a call can get. */
  function Within(call: Attempt, arrivals: seq<Arrival>): seq<Arrival> {
    if call.patience <= |arrivals| then arrivals[..call.patience] else arrivals
  }

  lemma {:induction false} UsedWithin(reliable: bool, l: Loop, arrivals: seq<Arrival>)
    ensures RecvRun(reliable, l, arrivals).1 <= |arrivals|
    decreases |arrivals|
  {
    hide Turn;
    if l.outcome == Reading && arrivals != [] {
      UsedWithin(reliable, Turn(reliable, l, arrivals[0]), arrivals[1..]);
    }
  }

  /** How calls one after the other end, each reading on where the one before it stopped. */
  function Outcomes(info: Info, calls: seq<Attempt>, arrivals: seq<Arrival>): seq<Outcome>
    decreases |calls|
  {
    if calls == [] then []
    else
      var (last, n) := RecvRun(false, Entered(info, calls[0].start), Within(calls[0], arrivals));
      UsedWithin(false, Entered(info, calls[0].start), Within(calls[0], arrivals));
      [last.outcome] + Outcomes(last.rx.info, calls[1..], arrivals[n..])
  }

  /** What those calls return. */
  function Returned(outcomes: seq<Outcome>): seq<bytes> {
    if outcomes == [] then [] else MessageOf(outcomes[0]) + Returned(outcomes[1..])
  }

  /** Any calls over UDP, returned, failed or given up, return together exactly what one run of `Reassembly` delivers on
      the frames they have read. */
  lemma {:induction false} CallsFollow(info: Info, calls: seq<Attempt>, arrivals: seq<Arrival>, i0: Info) returns (events: seq<Event>)
    requires info == i0.(txSeq := info.txSeq)
    ensures Returned(Outcomes(info, calls, arrivals)) == Interruptions.Messages(UdpRun(Idle(i0), events).0)
    ensures Arrived(events) <= Frames(arrivals)
    decreases |calls|
  {
    hide UdpRun;
    hide RecvRun;
    if calls == [] {
      events := [];
      Nothing(Idle(i0));
    } else {
      var l := Entered(info, calls[0].start);
      var (last, n) := RecvRun(false, l, Within(calls[0], arrivals));
      var first := CallFollows(l, Within(calls[0], arrivals), Idle(i0));
      var m := UdpRun(Idle(i0), first).1;
      var rest := CallsFollow(last.rx.info, calls[1..], arrivals[n..], m.info);
      events := first + ([GivenUp] + rest);
      var _ := Interruptions.GivenUpRun(Idle(i0), first, rest);
      assert Returned(Outcomes(info, calls, arrivals)) == MessageOf(last.outcome) + Returned(Outcomes(last.rx.info, calls[1..], arrivals[n..]));
      assert Within(calls[0], arrivals)[..n] == arrivals[..n];
      FramesSplit(arrivals, n);
      ArrivedConcat(first, [GivenUp] + rest);
    }
  }

  lemma {:induction false} FramesSplit(arrivals: seq<Arrival>, n: nat)
    requires n <= |arrivals|
    ensures Frames(arrivals) == Frames(arrivals[..n]) + Frames(arrivals[n..])
    decreases n
  {
    if n == 0 {
      assert arrivals[0..] == arrivals;
    } else {
      FramesSplit(arrivals[1..], n - 1);
      FramesFirst(arrivals, n - 1);
      assert arrivals[1..][n - 1..] == arrivals[n..];
      var a, b := Frames(arrivals[1..][..n - 1]), Frames(arrivals[n..]);
      assert arrivals[0].frame.Ok? ==> [arrivals[0].frame.value] + (a + b) == [arrivals[0].frame.value] + a + b;
    }
  }

  /** Every frame among the arrivals is one the network can present. */
  predicate AllFrames(sender: Info, log: seq<Chunk>, rxKey: Key, frames: seq<Frame>)
    requires |log| <= MAX_SEQ
  {
    forall k :: 0 <= k < |frames| ==> Plausible(sender, log, rxKey, frames[k])
  }

  lemma {:induction false} EventsPlausible(sender: Info, log: seq<Chunk>, rxKey: Key, events: seq<Event>, frames: seq<Frame>)
    requires |log| <= MAX_SEQ && Arrived(events) <= frames && AllFrames(sender, log, rxKey, frames)
    ensures AllPlausible(sender, log, rxKey, events)
    decreases |events|
  {
    hide Plausible;
    if events != [] {
      if events[0].Arrives? {
        assert Plausible(sender, log, rxKey, frames[0]);
        EventsPlausible(sender, log, rxKey, events[1..], frames[1..]);
      } else {
        EventsPlausible(sender, log, rxKey, events[1..], frames);
      }
      forall k | 0 <= k < |events| && events[k].Arrives? ensures Plausible(sender, log, rxKey, events[k].frame) {
        if k > 0 {
          assert events[k] == events[1..][k - 1];
        }
      }
    }
  }

  /** From a fresh session, for any operations sent whole, whatever else arrives and however the calls end: all that
      `recv` ever returns over UDP are tails of messages sent. */
  lemma RecvReturnsTails(sender: Info, ops: seq<Op>, i: Info, calls: seq<Attempt>, arrivals: seq<Arrival>)
    requires |Flatten(ops)| <= MAX_SEQ && NoRekey(Flatten(ops)) && Synced(sender, i) && i.window == Window(0, 0)
    requires AllFrames(sender, Flatten(ops), i.rxKey, Frames(arrivals))
    ensures forall m :: m in Returned(Outcomes(i, calls, arrivals)) ==> exists p: nat, j: nat :: IsTail(ops, m, p, j)
  {
    hide Outcomes;
    hide UdpRun;
    hide Flatten;
    hide IsTail;
    hide Plausible;
    var events := CallsFollow(i, calls, arrivals, i);
    EventsPlausible(sender, Flatten(ops), i.rxKey, events, Frames(arrivals));
    UdpDeliversTails(sender, ops, i, events);
    DeliveredMessages(UdpRun(Idle(i), events).0);
  }

  lemma {:induction false} DeliveredMessages(vs: seq<Verdict>)
    ensures forall m :: m in Interruptions.Messages(vs) ==> Delivered(m) in vs
  {
    if vs != [] {
      DeliveredMessages(vs[1..]);
    }
  }
}
