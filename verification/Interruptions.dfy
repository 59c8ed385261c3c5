/** What becomes of messages whose transfer is interrupted: a `send` abandoned part-way, a `recv` given up
part-way, a head the transport filters out.  Reassembly goes by sequence numbers alone and notices none
of them. */
module Interruptions {
  import opened Wire
  import opened Crypto
  import opened Session
  import opened Transfer
  import opened ReplayWindow
  import opened Reassembly

  /** A message up to its j-th frame, and from its k-th frame on. */
  function Head(a: bytes, j: nat): bytes {
    if 452 * j <= |a| then a[..452 * j] else a
  }

  function Tail(b: bytes, k: nat): bytes {
    if 452 * k <= |b| then b[452 * k..] else []
  }

  // ----- reading chunks in order -----

  /** What a reader makes of authenticated chunks with consecutive numbers, up to the first error. */
  datatype Heard = Heard(rx: Rx, messages: seq<bytes>, raised: Option<Error>)

  function Hear(reliable: bool, r: Rx, chunks: seq<Chunk>, seqNo: nat): Heard
    decreases |chunks|
  {
    if chunks == [] then Heard(r, [], None)
    else
      var (r', v) := Interpret(reliable, r, chunks[0].ptype, seqNo, chunks[0].plaintext);
      if v.Raised? then Heard(r', [], Some(v.error))
      else
        var h := Hear(reliable, r', chunks[1..], seqNo + 1);
        h.(messages := Yield(v) + h.messages)
  }

  lemma {:induction false} HearConcat(reliable: bool, r: Rx, xs: seq<Chunk>, ys: seq<Chunk>, seqNo: nat)
    ensures var h := Hear(reliable, r, xs, seqNo);
      var g := Hear(reliable, h.rx, ys, seqNo + |xs|);
      Hear(reliable, r, xs + ys, seqNo) == if h.raised.Some? then h else g.(messages := h.messages + g.messages)
    decreases |xs|
  {
    hide Interpret;
    if xs == [] {
      assert xs + ys == ys;
      var g := Hear(reliable, r, ys, seqNo);
      assert [] + g.messages == g.messages;
    } else {
      assert (xs + ys)[0] == xs[0] && (xs + ys)[1..] == xs[1..] + ys;
      var (r', v) := Interpret(reliable, r, xs[0].ptype, seqNo, xs[0].plaintext);
      if !v.Raised? {
        HearConcat(reliable, r', xs[1..], ys, seqNo + 1);
        var h := Hear(reliable, r', xs[1..], seqNo + 1);
        var g := Hear(reliable, h.rx, ys, seqNo + |xs|);
        assert Yield(v) + (h.messages + g.messages) == Yield(v) + h.messages + g.messages;
      }
    }
  }

  /** The chunk numbered `seqNo` is the next the assembly expects. */
  predicate Expects(r: Rx, seqNo: nat) {
    r.count > 0 ==> r.expected == seqNo
  }

  /** The assembly `r'` holds what `r` held and then the plaintext of `cs`. */
  predicate Held(r': Rx, r: Rx, cs: seq<Chunk>, seqNo: nat) {
    && r'.info == r.info && r'.count == r.count + |cs| && Expects(r', seqNo + |cs|)
    && r'.assembled == r.assembled + Joined(cs)
  }

  lemma HeldCons(r': Rx, r1: Rx, r: Rx, cs: seq<Chunk>, seqNo: nat)
    requires cs != [] && Held(r', r1, cs[1..], seqNo + 1)
    requires r1.info == r.info && r1.count == r.count + 1 && r1.assembled == r.assembled + cs[0].plaintext
    ensures Held(r', r, cs, seqNo)
  {
    assert r.assembled + cs[0].plaintext + Joined(cs[1..]) == r.assembled + (cs[0].plaintext + Joined(cs[1..]));
  }

  lemma HeldNothing(r: Rx, seqNo: nat)
    requires Expects(r, seqNo)
    ensures Held(r, r, [], seqNo)
  {
    assert r.assembled + [] == r.assembled;
  }

  lemma {:induction false} HearFragments(reliable: bool, r: Rx, cs: seq<Chunk>, seqNo: nat)
    requires AllFragments(cs, 0, |cs|) && Expects(r, seqNo) && r.count + |cs| < MAX_FRAMES
    ensures var h := Hear(reliable, r, cs, seqNo); h.messages == [] && h.raised == None && Held(h.rx, r, cs, seqNo)
    decreases |cs|
  {
    hide Interpret;
    hide Held;
    hide Joined;
    HeldNothing(r, seqNo);
    if cs != [] {
      assert cs[0].ptype == DATA_FRAG;
      OneFragment(reliable, r, cs[0].plaintext, seqNo);
      var r1 := Rx(r.info, r.assembled + cs[0].plaintext, r.count + 1, seqNo + 1);
      HearFragments(reliable, r1, cs[1..], seqNo + 1);
      HeldCons(Hear(reliable, r1, cs[1..], seqNo + 1).rx, r1, r, cs, seqNo);
    }
  }

  lemma OneFragment(reliable: bool, r: Rx, plaintext: bytes, seqNo: nat)
    requires Expects(r, seqNo) && r.count + 1 < MAX_FRAMES
    ensures Interpret(reliable, r, DATA_FRAG, seqNo, plaintext)
         == (Rx(r.info, r.assembled + plaintext, r.count + 1, seqNo + 1), Absorbed)
  {
  }

  lemma HearOne(reliable: bool, r: Rx, c: Chunk, seqNo: nat)
    ensures var (end, v) := Interpret(reliable, r, c.ptype, seqNo, c.plaintext);
      Hear(reliable, r, [c], seqNo) == if v.Raised? then Heard(end, [], Some(v.error)) else Heard(end, Yield(v), None)
  {
    hide Interpret;
    var (end, v) := Interpret(reliable, r, c.ptype, seqNo, c.plaintext);
    assert [c][1..] == [] && Hear(reliable, end, [], seqNo + 1) == Heard(end, [], None);
    assert Yield(v) + [] == Yield(v);
  }

  /** The chunks up to the last, and what the last one finds. */
  lemma HearLast(reliable: bool, r: Rx, cs: seq<Chunk>, seqNo: nat) returns (r': Rx)
    requires cs != [] && AllFragments(cs, 0, |cs| - 1) && Expects(r, seqNo) && r.count + |cs| <= MAX_FRAMES
    ensures r'.info == r.info && r'.count == r.count + |cs| - 1 && Expects(r', seqNo + |cs| - 1)
    ensures var last := cs[|cs| - 1];
      && r'.assembled + last.plaintext == r.assembled + Joined(cs)
      && var (end, v) := Interpret(reliable, r', last.ptype, seqNo + |cs| - 1, last.plaintext);
         Hear(reliable, r, cs, seqNo) == if v.Raised? then Heard(end, [], Some(v.error)) else Heard(end, Yield(v), None)
  {
    hide Interpret;
    hide Hear;
    hide Joined;
    var n := |cs| - 1;
    var xs := cs[..n];
    assert AllFragments(xs, 0, n);
    hide AllFragments;
    HearFragments(reliable, r, xs, seqNo);
    r' := Hear(reliable, r, xs, seqNo).rx;
    assert cs == xs + [cs[n]];
    HearConcat(reliable, r, xs, [cs[n]], seqNo);
    HearOne(reliable, r', cs[n], seqNo + n);
    var v := Interpret(reliable, r', cs[n].ptype, seqNo + n, cs[n].plaintext).1;
    assert [] + Yield(v) == Yield(v);
    JoinedAppend(xs, cs[n]);
    assert r.assembled + (Joined(xs) + cs[n].plaintext) == r.assembled + Joined(xs) + cs[n].plaintext;
  }

  /** A whole message on top of what the assembly holds, with room for it. */
  lemma HearMessage(reliable: bool, r: Rx, cs: seq<Chunk>, seqNo: nat)
    requires cs != [] && AllFragments(cs, 0, |cs| - 1) && cs[|cs| - 1].ptype == DATA
    requires Expects(r, seqNo) && r.count + |cs| <= MAX_FRAMES
    ensures Hear(reliable, r, cs, seqNo) == Heard(Idle(r.info), [r.assembled + Joined(cs)], None)
  {
    hide Hear;
    var r' := HearLast(reliable, r, cs, seqNo);
  }

  /** The fourth fragment in a row is refused. */
  lemma HearTooMany(reliable: bool, r: Rx, cs: seq<Chunk>, seqNo: nat)
    requires cs != [] && AllFragments(cs, 0, |cs|) && Expects(r, seqNo) && r.count + |cs| == MAX_FRAMES
    ensures Hear(reliable, r, cs, seqNo) == Heard(Idle(r.info), [], if reliable then Some(PayloadError) else None)
  {
    hide Hear;
    var r' := HearLast(reliable, r, cs, seqNo);
  }

  /** What the fragments of a message look like. */
  lemma MessageChunks(b: bytes)
    requires |b| <= MAX_MESSAGE
    ensures var cs := Fragment(b);
      && cs != [] && |cs| <= MAX_FRAMES && AllFragments(cs, 0, |cs| - 1) && cs[|cs| - 1].ptype == DATA && Joined(cs) == b
  {
    FragmentShape(b);
    LimitsMeet(b);
    hide Fragment;
    hide Joined;
  }

  /** A message that fits on top of what the assembly holds is spliced onto it. */
  lemma HearFits(reliable: bool, r: Rx, b: bytes, seqNo: nat)
    requires |b| <= MAX_MESSAGE && Expects(r, seqNo) && r.count + |Fragment(b)| <= MAX_FRAMES
    ensures var h := Hear(reliable, r, Fragment(b), seqNo); h.messages == [r.assembled + b] && h.raised == None
  {
    hide Fragment;
    hide Hear;
    hide Joined;
    MessageChunks(b);
    HearMessage(reliable, r, Fragment(b), seqNo);
  }

  /** Of one that does not fit, the fourth fragment in the assembly is refused; over UDP what follows it
      is taken for a message of its own. */
  lemma HearOverflow(reliable: bool, r: Rx, b: bytes, seqNo: nat, k: nat)
    requires |b| <= MAX_MESSAGE && Expects(r, seqNo) && 0 < k < |Fragment(b)| && r.count + k == MAX_FRAMES
    ensures var h := Hear(reliable, r, Fragment(b), seqNo);
      if reliable then h.messages == [] && h.raised == Some(PayloadError)
      else h.messages == [Tail(b, k)] && h.raised == None
  {
    hide Fragment;
    hide Hear;
    hide Joined;
    hide AllFragments;
    FragmentTail(b, k);
    MessageChunks(b);
    SplitChunks(Fragment(b), k);
    var xs, ys := Fragment(b)[..k], Fragment(b)[k..];
    HearTooMany(reliable, r, xs, seqNo);
    HearConcat(reliable, r, xs, ys, seqNo);
    HearMessage(reliable, Idle(r.info), ys, seqNo + k);
    assert [] + Joined(ys) == Joined(ys) && [] + [Joined(ys)] == [Joined(ys)];
  }

  lemma SplitChunks(cs: seq<Chunk>, k: nat)
    requires k < |cs| && AllFragments(cs, 0, |cs| - 1) && cs[|cs| - 1].ptype == DATA
    ensures cs == cs[..k] + cs[k..] && AllFragments(cs[..k], 0, k)
    ensures AllFragments(cs[k..], 0, |cs| - k - 1) && cs[k..][|cs| - k - 1].ptype == DATA
  {
  }

  /** What is held after the first `j` frames of a message. */
  lemma HearAbandoned(reliable: bool, i: Info, a: bytes, j: nat, seqNo: nat) returns (r: Rx)
    requires |a| <= MAX_MESSAGE && j < |Fragment(a)|
    ensures 452 * j <= |a| && r.info == i && r.assembled == Head(a, j) && r.count == j && Expects(r, seqNo + j)
    ensures Hear(reliable, Idle(i), Fragment(a)[..j], seqNo) == Heard(r, [], None)
  {
    FragmentHead(a, j);
    hide Fragment;
    hide Hear;
    hide Joined;
    MessageChunks(a);
    var cs := Fragment(a)[..j];
    HearFragments(reliable, Idle(i), cs, seqNo);
    r := Hear(reliable, Idle(i), cs, seqNo).rx;
    assert [] + Joined(cs) == Joined(cs);
  }

  // ----- an abandoned `send` -----

  lemma {:induction false} FragmentHead(data: bytes, j: nat)
    requires j < |Fragment(data)|
    ensures 452 * j <= |data| && Joined(Fragment(data)[..j]) == data[..452 * j]
    decreases j
  {
    if j > 0 {
      var rest := data[MAX_DATA..];
      FragmentHead(rest, j - 1);
      assert Fragment(data)[..j][1..] == Fragment(rest)[..j - 1];
      assert data[..MAX_DATA] + rest[..452 * (j - 1)] == data[..452 * j];
    }
  }

  /** Reading `xs` from number `seqNo` and then, from number `next`, `ys`. */
  function HearGap(reliable: bool, r: Rx, xs: seq<Chunk>, seqNo: nat, ys: seq<Chunk>, next: nat): Heard {
    var g := Hear(reliable, r, xs, seqNo);
    if g.raised.Some? then g
    else
      var h := Hear(reliable, g.rx, ys, next);
      h.(messages := g.messages + h.messages)
  }

  lemma GapAfter(reliable: bool, r: Rx, xs: seq<Chunk>, seqNo: nat, ys: seq<Chunk>, next: nat, r': Rx)
    requires Hear(reliable, r, xs, seqNo) == Heard(r', [], None)
    ensures HearGap(reliable, r, xs, seqNo, ys, next) == Hear(reliable, r', ys, next)
  {
    hide Hear;
    var h := Hear(reliable, r', ys, next);
    assert [] + h.messages == h.messages;
  }

  /** A chunk out of turn is dropped together with the partial message. */
  lemma HearOutOfTurn(r: Rx, cs: seq<Chunk>, seqNo: nat)
    requires cs != [] && (cs[0].ptype == DATA || cs[0].ptype == DATA_FRAG) && r.count > 0 && r.expected != seqNo
    ensures Hear(false, r, cs, seqNo) == Hear(false, Idle(r.info), cs[1..], seqNo + 1)
  {
    var h := Hear(false, Idle(r.info), cs[1..], seqNo + 1);
    assert Interpret(false, r, cs[0].ptype, seqNo, cs[0].plaintext) == (Idle(r.info), Violation(SequenceError));
    hide Interpret;
    assert [] + h.messages == h.messages;
  }

  /** The rest of a message from its k-th chunk on, read from rest, is taken for a message. */
  lemma HearRest(reliable: bool, i: Info, b: bytes, k: nat, seqNo: nat)
    requires |b| <= MAX_MESSAGE && k < |Fragment(b)|
    ensures Hear(reliable, Idle(i), Fragment(b)[k..], seqNo) == Heard(Idle(i), [Tail(b, k)], None)
  {
    hide Fragment;
    hide Hear;
    hide Joined;
    hide AllFragments;
    FragmentTail(b, k);
    MessageChunks(b);
    SplitChunks(Fragment(b), k);
    HearMessage(reliable, Idle(i), Fragment(b)[k..], seqNo);
    assert [] + b[452 * k..] == b[452 * k..];
  }

  /** A message that meets a partial one with a number missing in between loses its first chunk. */
  lemma HearAfterGap(r: Rx, b: bytes, seqNo: nat)
    requires |b| <= MAX_MESSAGE && r.count > 0 && r.expected != seqNo
    ensures var h := Hear(false, r, Fragment(b), seqNo);
      && h.rx == Idle(r.info) && h.raised == None
      && h.messages == if |Fragment(b)| == 1 then [] else [Tail(b, 1)]
  {
    FirstChunk(b);
    hide Fragment;
    var cs := Fragment(b);
    HearOutOfTurn(r, cs, seqNo);
    if |cs| > 1 {
      hide Hear;
      HearRest(false, r.info, b, 1, seqNo + 1);
    }
  }

  lemma FirstChunk(b: bytes)
    ensures Fragment(b)[0].ptype == DATA || Fragment(b)[0].ptype == DATA_FRAG
  {
  }

  /** A `send` is abandoned after sealing `j` frames, of which the first `arrived` arrive: over TCP all, over
      UDP, where each frame waits for the acknowledgement of the one before, all or all but the last.
      - If all arrived and they and the next message make at most four frames, the next message comes with
        them spliced before it; if they make more, TCP ends with an error, and UDP drops the first four
        frames and delivers the rest of the next message.
      - If the last was lost and others had arrived, the next message loses its first frame: it vanishes
        without an error if it had only one.
      The next message is unharmed if and only if nothing had arrived. */
  lemma AbandonedSendSplices(reliable: bool, i: Info, a: bytes, j: nat, arrived: nat, b: bytes, seqNo: nat)
    requires |a| <= MAX_MESSAGE && j < |Fragment(a)| && |b| <= MAX_MESSAGE
    requires arrived == j || (!reliable && arrived + 1 == j)
    ensures j < MAX_FRAMES
    ensures var h := HearGap(reliable, Idle(i), Fragment(a)[..arrived], seqNo, Fragment(b), seqNo + j);
      && (h.messages, h.raised) == AfterAbandoned(reliable, a, j, arrived, b)
      && (h.messages == [b] <==> arrived == 0)
  {
    hide Fragment;
    hide Hear;
    hide HearGap;
    hide AfterAbandoned;
    hide Head;
    FragmentsFit(a);
    var r := HearAbandoned(reliable, i, a, arrived, seqNo);
    var xs := Fragment(a)[..arrived];
    GapAfter(reliable, Idle(i), xs, seqNo, Fragment(b), seqNo + j, r);
    if arrived < j {
      LastLost(r, a, b, j, seqNo + j);
    } else {
      AllArrived(reliable, r, a, b, seqNo + j);
    }
  }

  /** The messages returned and the error raised. */
  function AfterAbandoned(reliable: bool, a: bytes, j: nat, arrived: nat, b: bytes): (seq<bytes>, Option<Error>)
    requires j < MAX_FRAMES
  {
    var n := |Fragment(b)|;
    if arrived == 0 then ([b], None)
    else if arrived < j then (if n == 1 then [] else [Tail(b, 1)], None)
    else if j + n <= MAX_FRAMES then ([Head(a, j) + b], None)
    else if reliable then ([], Some(PayloadError))
    else ([Tail(b, MAX_FRAMES - j)], None)
  }

  lemma FragmentsFit(b: bytes)
    requires |b| <= MAX_MESSAGE
    ensures 1 <= |Fragment(b)| <= MAX_FRAMES
  {
    LimitsMeet(b);
  }

  lemma LastLost(r: Rx, a: bytes, b: bytes, j: nat, seqNo: nat)
    requires |b| <= MAX_MESSAGE && r.count + 1 == j < MAX_FRAMES && r.assembled == Head(a, r.count)
    requires r.count > 0 ==> r.expected + 1 == seqNo
    ensures var h := Hear(false, r, Fragment(b), seqNo);
      (h.messages, h.raised) == AfterAbandoned(false, a, j, r.count, b) && (h.messages == [b] <==> r.count == 0)
  {
    hide Fragment;
    hide Hear;
    FragmentsFit(b);
    if r.count == 0 {
      HearFits(false, r, b, seqNo);
      assert Head(a, 0) == [] && [] + b == b;
    } else {
      HearAfterGap(r, b, seqNo);
      if |Fragment(b)| > 1 {
        FragmentCount(b);
        TailShorter(b, 1);
      }
    }
  }

  lemma AllArrived(reliable: bool, r: Rx, a: bytes, b: bytes, seqNo: nat)
    requires |b| <= MAX_MESSAGE && r.count < MAX_FRAMES && Expects(r, seqNo)
    requires 452 * r.count <= |a| && r.assembled == Head(a, r.count)
    ensures var h := Hear(reliable, r, Fragment(b), seqNo);
      (h.messages, h.raised) == AfterAbandoned(reliable, a, r.count, r.count, b) && (h.messages == [b] <==> r.count == 0)
  {
    hide Fragment;
    hide Hear;
    FragmentsFit(b);
    var j := r.count;
    assert |Head(a, j) + b| == 452 * j + |b| && (j == 0 ==> Head(a, j) + b == b);
    hide Head;
    if j + |Fragment(b)| <= MAX_FRAMES {
      HearFits(reliable, r, b, seqNo);
    } else {
      HearOverflow(reliable, r, b, seqNo, MAX_FRAMES - j);
      FragmentCount(b);
      TailShorter(b, MAX_FRAMES - j);
    }
  }

  lemma TailWhole(b: bytes, k: nat)
    requires k < |Fragment(b)|
    ensures [Tail(b, k)] == [b] <==> k == 0
  {
    FragmentCount(b);
    hide Fragment;
    assert |Tail(b, k)| == |b| - 452 * k && Tail(b, 0) == b;
  }

  lemma TailShorter(b: bytes, k: nat)
    requires 452 * k <= |b| && 0 < k
    ensures |Tail(b, k)| < |b|
  {
  }

  /** What the first `p` chunks of the next message leave behind, after all but the last of `j` sealed
      frames have arrived. */
  lemma HearFirstOf(i: Info, a: bytes, j: nat, b: bytes, p: nat, seqNo: nat) returns (r: Rx)
    requires |a| <= MAX_MESSAGE && 0 < j < |Fragment(a)| && |b| <= MAX_MESSAGE && 0 < p < |Fragment(b)|
    ensures HearGap(false, Idle(i), Fragment(a)[..j - 1], seqNo, Fragment(b)[..p], seqNo + j) == Heard(r, [], None)
    ensures r.info == i && (r.count > 0 ==> r.expected == seqNo + j + p) && (r.count == 0 ==> r == Idle(i))
    ensures r.count == if j == 1 then p else p - 1
  {
    hide Fragment;
    hide Hear;
    hide Joined;
    MessageChunks(b);
    var cs := Fragment(b)[..p];
    assert AllFragments(cs, 0, p) && AllFragments(cs[1..], 0, p - 1) && cs[0].ptype == DATA_FRAG;
    hide AllFragments;
    hide HearGap;
    var r0 := HearAbandoned(false, i, a, j - 1, seqNo);
    GapAfter(false, Idle(i), Fragment(a)[..j - 1], seqNo, cs, seqNo + j, r0);
    if j == 1 {
      HearFragments(false, r0, cs, seqNo + j);
    } else {
      HearOutOfTurn(r0, cs, seqNo + j);
      HearFragments(false, Idle(i), cs[1..], seqNo + j + 1);
      if p == 1 {
        HearNothing(false, Idle(i), seqNo + j + 1);
      }
    }
    r := Hear(false, r0, cs, seqNo + j).rx;
  }

  lemma HearNothing(reliable: bool, r: Rx, seqNo: nat)
    ensures Hear(reliable, r, [], seqNo) == Heard(r, [], None)
  {
  }

  /** What is delivered of the next message when the frame in doubt arrives after `p` of its frames. */
  function AfterLate(j: nat, b: bytes, p: nat): seq<bytes> {
    if j == 1 || p >= 2 then [Tail(b, p)] else if |Fragment(b)| == 2 then [] else [Tail(b, 2)]
  }

  /** The frame in doubt may also arrive late, after the first `p` of the frames of the next message.  It then
      breaks that message in any case: only a proper tail of it is delivered, or nothing. */
  lemma LateFragmentTruncates(i: Info, a: bytes, j: nat, b: bytes, p: nat, seqNo: nat) returns (r: Rx)
    requires |a| <= MAX_MESSAGE && 0 < j < |Fragment(a)| && |b| <= MAX_MESSAGE && 0 < p < |Fragment(b)|
    ensures HearGap(false, Idle(i), Fragment(a)[..j - 1], seqNo, Fragment(b)[..p], seqNo + j) == Heard(r, [], None)
    ensures HearGap(false, r, [Fragment(a)[j - 1]], seqNo + j - 1, Fragment(b)[p..], seqNo + j + p)
         == Heard(Idle(i), AfterLate(j, b, p), None)
    ensures AfterLate(j, b, p) != [b]
  {
    hide Fragment;
    hide Hear;
    hide HearGap;
    hide AfterLate;
    r := HearFirstOf(i, a, j, b, p, seqNo);
    LateKind(a, j);
    var late := Fragment(a)[j - 1];
    if r.count > 0 {
      ClearedByLate(i, r, late, b, j, p, seqNo + j - 1, seqNo + j + p);
    } else {
      StrayFragment(i, late, b, j, p, seqNo + j - 1, seqNo + j + p);
    }
  }

  lemma LateKind(a: bytes, j: nat)
    requires |a| <= MAX_MESSAGE && 0 < j < |Fragment(a)|
    ensures Fragment(a)[j - 1].ptype == DATA_FRAG
  {
    MessageChunks(a);
    hide Fragment;
    hide Joined;
  }

  /** The case of a late frame that meets a partial message and clears it. */
  lemma ClearedByLate(i: Info, r: Rx, late: Chunk, b: bytes, j: nat, p: nat, seqNo: nat, next: nat)
    requires |b| <= MAX_MESSAGE && 0 < p < |Fragment(b)| && late.ptype == DATA_FRAG && (j == 1 || p >= 2)
    requires r.info == i && r.count > 0 && r.expected == next > seqNo
    ensures HearGap(false, r, [late], seqNo, Fragment(b)[p..], next) == Heard(Idle(i), AfterLate(j, b, p), None)
    ensures AfterLate(j, b, p) != [b]
  {
    hide Fragment;
    hide Hear;
    HearOutOfTurn(r, [late], seqNo);
    assert [late][1..] == [];
    HearNothing(false, Idle(i), seqNo + 1);
    HearRest(false, i, b, p, next);
    GapAfter(false, r, [late], seqNo, Fragment(b)[p..], next, Idle(i));
    FragmentCount(b);
    TailShorter(b, p);
  }

  /** The case of a late frame that meets no partial message: it starts one, and the next chunk clears it. */
  lemma StrayFragment(i: Info, late: Chunk, b: bytes, j: nat, p: nat, seqNo: nat, next: nat)
    requires |b| <= MAX_MESSAGE && p == 1 < |Fragment(b)| && late.ptype == DATA_FRAG && next > seqNo + 1 && j != 1
    ensures HearGap(false, Idle(i), [late], seqNo, Fragment(b)[p..], next) == Heard(Idle(i), AfterLate(j, b, p), None)
    ensures AfterLate(j, b, p) != [b]
  {
    hide Fragment;
    hide Joined;
    MessageChunks(b);
    OneFragment(false, Idle(i), late.plaintext, seqNo);
    HearOne(false, Idle(i), late, seqNo);
    hide Interpret;
    hide Hear;
    var r := Rx(i, [] + late.plaintext, 1, seqNo + 1);
    var cs := Fragment(b)[p..];
    assert cs[0].ptype == DATA || cs[0].ptype == DATA_FRAG;
    hide AllFragments;
    GapAfter(false, Idle(i), [late], seqNo, cs, next, r);
    hide HearGap;
    HearOutOfTurn(r, cs, next);
    assert cs[1..] == Fragment(b)[2..];
    if |Fragment(b)| == 2 {
      HearNothing(false, Idle(i), next + 1);
    } else {
      HearRest(false, i, b, 2, next + 1);
      FragmentCount(b);
      TailShorter(b, 2);
    }
  }

  /** If the next operation is a PING or PONG instead: over UDP it clears what is held, and the message after it
      is unharmed whatever had arrived; over TCP it is an error if anything had. */
  lemma ControlBetween(reliable: bool, i: Info, a: bytes, j: nat, arrived: nat, c: Chunk, b: bytes, seqNo: nat)
    requires |a| <= MAX_MESSAGE && j < |Fragment(a)| && |b| <= MAX_MESSAGE && (c.ptype == PING || c.ptype == PONG)
    requires arrived == j || (!reliable && arrived + 1 == j)
    ensures var h := HearGap(reliable, Idle(i), Fragment(a)[..arrived], seqNo, [c] + Fragment(b), seqNo + j);
      (h.messages, h.raised) == if reliable && arrived > 0 then ([], Some(SequenceError)) else ([b], None)
  {
    hide Fragment;
    hide Hear;
    hide HearGap;
    var r := HearAbandoned(reliable, i, a, arrived, seqNo);
    assert arrived > 0 ==> r.assembled != [];
    hide Head;
    var xs, ys := Fragment(a)[..arrived], [c] + Fragment(b);
    GapAfter(reliable, Idle(i), xs, seqNo, ys, seqNo + j, r);
    ControlThen(reliable, r, c, b, seqNo + j);
  }

  lemma ControlThen(reliable: bool, r: Rx, c: Chunk, b: bytes, seqNo: nat)
    requires |b| <= MAX_MESSAGE && (c.ptype == PING || c.ptype == PONG) && (r.assembled == [] <==> r.count == 0)
    ensures var h := Hear(reliable, r, [c] + Fragment(b), seqNo);
      (h.messages, h.raised) == if reliable && r.count > 0 then ([], Some(SequenceError)) else ([b], None)
  {
    hide Fragment;
    hide Hear;
    FragmentsFit(b);
    HearOne(reliable, r, c, seqNo);
    HearConcat(reliable, r, [c], Fragment(b), seqNo);
    if !(reliable && r.count > 0) {
      ControlLeaves(reliable, r, c, seqNo);
      var r' := Interpret(reliable, r, c.ptype, seqNo, c.plaintext).0;
      hide Interpret;
      HearFits(reliable, r', b, seqNo + 1);
      assert [] + b == b && [] + [b] == [b];
    }
  }

  lemma ControlLeaves(reliable: bool, r: Rx, c: Chunk, seqNo: nat)
    requires (c.ptype == PING || c.ptype == PONG) && (r.assembled == [] || !reliable) && (r.assembled == [] ==> r.count == 0)
    ensures var (r', v) := Interpret(reliable, r, c.ptype, seqNo, c.plaintext);
      r'.count == 0 && r'.assembled == [] && !v.Raised? && Yield(v) == []
  {
  }

  /** If the frame in doubt arrives only after the whole next message `b`, it costs the message `m` after that one
      its first frame. */
  lemma LateAfterNext(i: Info, a: bytes, j: nat, b: bytes, m: bytes, seqNo: nat)
    requires |a| <= MAX_MESSAGE && 0 < j < |Fragment(a)| && |b| <= MAX_MESSAGE && |m| <= MAX_MESSAGE
    ensures HearGap(false, Idle(i), Fragment(a)[..j - 1], seqNo, Fragment(b), seqNo + j).rx == Idle(i)
    ensures HearGap(false, Idle(i), [Fragment(a)[j - 1]], seqNo + j - 1, Fragment(m), seqNo + j + |Fragment(b)|)
         == Heard(Idle(i), if |Fragment(m)| == 1 then [] else [Tail(m, 1)], None)
  {
    hide Fragment;
    hide Hear;
    hide HearGap;
    hide Tail;
    LeavesIdle(i, a, j, b, seqNo);
    FragmentsFit(b);
    LateKind(a, j);
    var late, next := Fragment(a)[j - 1], seqNo + j + |Fragment(b)|;
    StrayCosts(i, late, m, seqNo + j - 1, next);
  }

  lemma LeavesIdle(i: Info, a: bytes, j: nat, b: bytes, seqNo: nat)
    requires |a| <= MAX_MESSAGE && 0 < j < |Fragment(a)| && |b| <= MAX_MESSAGE
    ensures HearGap(false, Idle(i), Fragment(a)[..j - 1], seqNo, Fragment(b), seqNo + j).rx == Idle(i)
  {
    hide Fragment;
    hide Hear;
    hide HearGap;
    hide Tail;
    var r := HearAbandoned(false, i, a, j - 1, seqNo);
    var xs := Fragment(a)[..j - 1];
    GapAfter(false, Idle(i), xs, seqNo, Fragment(b), seqNo + j, r);
    if j == 1 {
      HearWhole(r, b, seqNo + j);
    } else {
      HearAfterGap(r, b, seqNo + j);
    }
  }

  lemma HearWhole(r: Rx, b: bytes, seqNo: nat)
    requires |b| <= MAX_MESSAGE && r.count == 0
    ensures Hear(false, r, Fragment(b), seqNo).rx == Idle(r.info)
  {
    hide Fragment;
    hide Hear;
    hide Joined;
    MessageChunks(b);
    HearMessage(false, r, Fragment(b), seqNo);
  }

  lemma StrayCosts(i: Info, late: Chunk, m: bytes, seqNo: nat, next: nat)
    requires |m| <= MAX_MESSAGE && late.ptype == DATA_FRAG && next > seqNo + 1
    ensures HearGap(false, Idle(i), [late], seqNo, Fragment(m), next)
         == Heard(Idle(i), if |Fragment(m)| == 1 then [] else [Tail(m, 1)], None)
  {
    hide Fragment;
    OneFragment(false, Idle(i), late.plaintext, seqNo);
    HearOne(false, Idle(i), late, seqNo);
    hide Interpret;
    hide Hear;
    var r := Rx(i, [] + late.plaintext, 1, seqNo + 1);
    GapAfter(false, Idle(i), [late], seqNo, Fragment(m), next, r);
    hide HearGap;
    HearAfterGap(r, m, next);
  }

  /** The frames of a message from the k-th on are those of the tail as a message of its own. */
  lemma {:induction false} FragmentOfTail(data: bytes, k: nat)
    requires k < |Fragment(data)|
    ensures 452 * k <= |data| && Fragment(data)[k..] == Fragment(Tail(data, k))
    decreases k
  {
    if k == 0 {
      assert Fragment(data)[0..] == Fragment(data) && Tail(data, 0) == data;
    } else {
      var rest := data[MAX_DATA..];
      FragmentOfTail(rest, k - 1);
      assert Fragment(data)[k..] == Fragment(rest)[k - 1..];
      assert Tail(rest, k - 1) == Tail(data, k);
    }
  }

  // ----- a `recv` given up, and a head that is filtered out -----

  predicate AllBelow(accepted: set<nat>, n: nat) {
    forall a :: a in accepted ==> a < n
  }

  /** The window has accepted nothing from `n` on. */
  ghost predicate Clear(w: Window, n: nat) {
    exists accepted: set<nat> :: Represents(w, accepted) && AllBelow(accepted, n)
  }

  lemma ClearAdmits(w: Window, n: nat)
    requires Clear(w, n)
    ensures Admits(w, n) && Clear(Accept(w, n), n + 1)
  {
    var accepted: set<nat> :| Represents(w, accepted) && AllBelow(accepted, n);
    DecidesExactly(w, accepted, n);
    AcceptExtends(w, accepted, n);
    var more := accepted + {n};
    assert AllBelow(more, n + 1);
  }

  /** Frames `start` to `end` of the log arriving in order. */
  function Arrivals(sender: Info, log: seq<Chunk>, start: nat, end: nat): seq<Event>
    requires start <= end <= |log| <= MAX_SEQ
    decreases end - start
  {
    if start == end then [] else [Arrives(LogFrame(sender, log, start))] + Arrivals(sender, log, start + 1, end)
  }

  function Messages(vs: seq<Verdict>): seq<bytes> {
    if vs == [] then [] else Yield(vs[0]) + Messages(vs[1..])
  }

  /** Chunks that neither end the session nor change its keys. */
  predicate Ordinary(log: seq<Chunk>) {
    forall k :: 0 <= k < |log| ==> log[k].ptype != REKEY && log[k].ptype != BYE
  }

  /** One frame of the log, not seen before, is interpreted as its chunk. */
  lemma ArrivalInterpreted(sender: Info, log: seq<Chunk>, r: Rx, r0: Rx, n: nat)
    requires n < |log| <= MAX_SEQ && Ordinary(log) && Synced(sender, r.info) && Clear(r.info.window, n)
    requires r == r0.(info := r.info)
    ensures var (r', v) := Receive(false, r, LogFrame(sender, log, n));
      var (r0', v0) := Interpret(false, r0, log[n].ptype, n, log[n].plaintext);
      && v == v0 && !v.Raised? && r' == r0'.(info := r'.info) && Synced(sender, r'.info) && Clear(r'.info.window, n + 1)
  {
    ClearAdmits(r.info.window, n);
    SealedOpens(false, sender.(txSeq := n), log[n], r.info);
    var i := r.info.(window := Accept(r.info.window, n));
    InterpretAnywhere(r0, i, log[n].ptype, n, log[n].plaintext);
    NeverRaises(r0, log[n].ptype, n, log[n].plaintext);
    hide Interpret;
    hide Open;
    hide Accept;
    hide Admits;
    hide Clear;
    assert r.(info := i) == r0.(info := i);
  }

  lemma NeverRaises(r: Rx, t: PacketType, seqNo: nat, plaintext: bytes)
    requires t != BYE
    ensures !Interpret(false, r, t, seqNo, plaintext).1.Raised?
  {
  }

  /** Frames that arrive in order are read as their chunks. */
  lemma {:induction false} InOrderRun(sender: Info, log: seq<Chunk>, r: Rx, r0: Rx, start: nat, end: nat)
    requires start <= end <= |log| <= MAX_SEQ && Ordinary(log) && Synced(sender, r.info) && Clear(r.info.window, start)
    requires r == r0.(info := r.info)
    ensures var run, h := UdpRun(r, Arrivals(sender, log, start, end)), Hear(false, r0, log[start..end], start);
      && h.raised == None && Messages(run.0) == h.messages && run.1 == h.rx.(info := run.1.info)
      && Synced(sender, run.1.info) && Clear(run.1.info.window, end)
    decreases end - start
  {
    hide Receive;
    hide Interpret;
    hide Clear;
    hide LogFrame;
    if start < end {
      ArrivalInterpreted(sender, log, r, r0, start);
      var (r', v) := Receive(false, r, LogFrame(sender, log, start));
      var r0' := Interpret(false, r0, log[start].ptype, start, log[start].plaintext).0;
      InOrderRun(sender, log, r', r0', start + 1, end);
      assert log[start..end][0] == log[start] && log[start..end][1..] == log[start + 1..end];
      var events := Arrivals(sender, log, start, end);
      assert events[0] == Arrives(LogFrame(sender, log, start)) && events[1..] == Arrivals(sender, log, start + 1, end);
      var (vs, last) := UdpRun(r', events[1..]);
      assert ([v] + vs)[1..] == vs;
    }
  }

  lemma {:induction false} RunConcat(r: Rx, xs: seq<Event>, ys: seq<Event>)
    ensures var (vs, m) := UdpRun(r, xs);
      var (ws, last) := UdpRun(m, ys);
      UdpRun(r, xs + ys) == (vs + ws, last)
    decreases |xs|
  {
    hide Receive;
    if xs == [] {
      assert xs + ys == ys;
      var ws := UdpRun(r, ys).0;
      assert [] + ws == ws;
    } else {
      assert (xs + ys)[0] == xs[0] && (xs + ys)[1..] == xs[1..] + ys;
      match xs[0]
      case GivenUp =>
        RunConcat(Idle(r.info), xs[1..], ys);
      case Arrives(f) =>
        var (r', v) := Receive(false, r, f);
        RunConcat(r', xs[1..], ys);
        var (vs, m) := UdpRun(r', xs[1..]);
        var ws := UdpRun(m, ys).0;
        assert [v] + (vs + ws) == [v] + vs + ws;
    }
  }

  lemma {:induction false} MessagesConcat(vs: seq<Verdict>, ws: seq<Verdict>)
    ensures Messages(vs + ws) == Messages(vs) + Messages(ws)
  {
    if vs == [] {
      assert vs + ws == ws;
    } else {
      assert (vs + ws)[1..] == vs[1..] + ws;
      MessagesConcat(vs[1..], ws);
    }
  }

  /** The frames of one message, wherever they lie in the log. */
  predicate Carries(log: seq<Chunk>, start: nat, data: bytes) {
    && |data| <= MAX_MESSAGE && start + |Fragment(data)| <= |log| <= MAX_SEQ && Ordinary(log)
    && log[start..start + |Fragment(data)|] == Fragment(data)
  }

  /** If the transport keeps the first `k` frames of a message from the session, as its filter does after a
      rekey, `recv` returns the rest as a complete message: the message sent if and only if `k` is zero. */
  lemma LostHeadTruncates(sender: Info, log: seq<Chunk>, i: Info, start: nat, data: bytes, k: nat)
    requires Carries(log, start, data) && k < |Fragment(data)| && Synced(sender, i) && Clear(i.window, start + k)
    ensures var events := Arrivals(sender, log, start + k, start + |Fragment(data)|);
      var got := Messages(UdpRun(Idle(i), events).0);
      got == [Tail(data, k)] && (got == [data] <==> k == 0)
  {
    hide Fragment;
    hide Hear;
    hide UdpRun;
    hide Clear;
    hide Ordinary;
    var n := |Fragment(data)|;
    hide Arrivals;
    hide Tail;
    InOrderRun(sender, log, Idle(i), Idle(i), start + k, start + n);
    assert log[start + k..start + n] == log[start..start + n][k..];
    HearRest(false, i, data, k, start + k);
    TailWhole(data, k);
  }

  /** If a `recv` is given up after `k` of the frames of a message, every one of which arrives in order, the
      next `recv` returns the rest as a complete message: the message sent if and only if `k` is zero. */
  lemma GivenUpTruncates(sender: Info, log: seq<Chunk>, i: Info, start: nat, data: bytes, k: nat)
    requires Carries(log, start, data) && k < |Fragment(data)| && Synced(sender, i) && Clear(i.window, start)
    ensures var n := |Fragment(data)|;
      var events := Arrivals(sender, log, start, start + k) + ([GivenUp] + Arrivals(sender, log, start + k, start + n));
      var got := Messages(UdpRun(Idle(i), events).0);
      got == [Tail(data, k)] && (got == [data] <==> k == 0)
  {
    hide Fragment;
    hide Hear;
    hide Clear;
    hide Ordinary;
    hide UdpRun;
    hide Arrivals;
    hide Tail;
    var n := |Fragment(data)|;
    var xs, ys := Arrivals(sender, log, start, start + k), Arrivals(sender, log, start + k, start + n);
    InOrderRun(sender, log, Idle(i), Idle(i), start, start + k);
    assert log[start..start + k] == log[start..start + n][..k];
    var r := HearAbandoned(false, i, data, k, start);
    var m := GivenUpRun(Idle(i), xs, ys);
    LostHeadTruncates(sender, log, m.info, start, data, k);
    assert [] + [Tail(data, k)] == [Tail(data, k)];
  }

  /** Giving up between two stretches of arrivals loses the assembly and nothing else. */
  lemma GivenUpRun(r: Rx, xs: seq<Event>, ys: seq<Event>) returns (m: Rx)
    ensures m == UdpRun(r, xs).1
    ensures Messages(UdpRun(r, xs + ([GivenUp] + ys)).0) == Messages(UdpRun(r, xs).0) + Messages(UdpRun(Idle(m.info), ys).0)
  {
    m := UdpRun(r, xs).1;
    assert ([GivenUp] + ys)[1..] == ys;
    assert UdpRun(m, [GivenUp] + ys) == UdpRun(Idle(m.info), ys);
    hide UdpRun;
    RunConcat(r, xs, [GivenUp] + ys);
    MessagesConcat(UdpRun(r, xs).0, UdpRun(Idle(m.info), ys).0);
  }
}
