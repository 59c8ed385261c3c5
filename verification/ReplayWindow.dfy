/** The 64-entry sliding replay window of a UDP session, and the transport's copy of half of it. */
module ReplayWindow {
  import opened Bits

  const SPAN := 64

  /** `rx_seq` and `rx_window_bitmap`; a new epoch starts at zero and zero. */
  datatype Window = Window(rxSeq: nat, bitmap: nat)

  const FRESH := Window(0, 0)

  /** The test made before decryption: not too old, and not marked in the bitmap. */
  predicate Admits(w: Window, s: nat) {
    && !(s <= w.rxSeq - SPAN)
    && !(s <= w.rxSeq && And(w.bitmap, Shl(1, w.rxSeq - s)) != 0)
  }

  /** The update made after successful decryption. */
  function Accept(w: Window, s: nat): Window {
    if s > w.rxSeq then
      var shift := s - w.rxSeq;
      if shift < SPAN then
        Window(s, Or(And(Shl(w.bitmap, shift), 0xFFFF_FFFF_FFFF_FFFF), 1))
      else
        Window(s, 1)
    else
      Window(w.rxSeq, Or(w.bitmap, Shl(1, w.rxSeq - s)))
  }

  // ----- the exact set the bitmap stands for -----

  /** The window a full history of accepted numbers calls for. */
  ghost predicate Represents(w: Window, accepted: set<nat>) {
    && w.bitmap < Pow2(SPAN)
    && (if accepted == {} then w.rxSeq == 0 else w.rxSeq in accepted)
    && (forall a :: a in accepted ==> a <= w.rxSeq)
    && (forall i: nat :: Bit(w.bitmap, i) <==> i < SPAN && i <= w.rxSeq && w.rxSeq - i in accepted)
  }

  /** The decision computed from the full history: never accepted before, and within reach of
      everything accepted. */
  predicate Fresh(accepted: set<nat>, s: nat) {
    s !in accepted && forall a :: a in accepted ==> a - SPAN < s
  }

  lemma TestsOneDigit(n: nat, o: nat)
    ensures And(n, Shl(1, o)) != 0 <==> Bit(n, o)
  {
    var m := And(n, Shl(1, o));
    BitOfAnd(n, Shl(1, o), o);
    BitOfShl(1, o, o);
    if Bit(n, o) {
      BitOfZero(o);
    } else {
      forall i: nat ensures Bit(m, i) == Bit(0, i) {
        BitOfAnd(n, Shl(1, o), i);
        BitOfShl(1, o, i);
        BitOfZero(i);
        if i >= o {
          BitOfOne(i - o);
        }
      }
      SameDigits(m, 0);
    }
  }

  /** The bitmap decides exactly as the full history does. */
  lemma DecidesExactly(w: Window, accepted: set<nat>, s: nat)
    requires Represents(w, accepted)
    ensures Admits(w, s) <==> Fresh(accepted, s)
  {
    if s <= w.rxSeq {
      TestsOneDigit(w.bitmap, w.rxSeq - s);
      assert w.rxSeq - (w.rxSeq - s) == s;
    }
    if accepted != {} {
      assert w.rxSeq in accepted;
    }
  }

  lemma FreshRepresents()
    ensures Represents(FRESH, {})
  {
    forall i: nat ensures !Bit(0, i) { BitOfZero(i); }
  }

  /** Accepting a number the window admits moves the bitmap to the larger history. */
  lemma AcceptExtends(w: Window, accepted: set<nat>, s: nat)
    requires Represents(w, accepted) && Admits(w, s)
    ensures Represents(Accept(w, s), accepted + {s})
  {
    DecidesExactly(w, accepted, s);
    var w' := Accept(w, s);
    forall i: nat
      ensures Bit(w'.bitmap, i) <==> i < SPAN && i <= w'.rxSeq && w'.rxSeq - i in accepted + {s}
    {
      DigitAfterAccept(w, accepted, s, i);
    }
    BelowPow2(w'.bitmap, SPAN);
  }

  lemma DigitAfterAccept(w: Window, accepted: set<nat>, s: nat, i: nat)
    requires Represents(w, accepted) && Fresh(accepted, s)
    ensures var w' := Accept(w, s);
      Bit(w'.bitmap, i) <==> i < SPAN && i <= w'.rxSeq && w'.rxSeq - i in accepted + {s}
  {
    BitOfOne(i);
    if s > w.rxSeq {
      var shift: nat := s - w.rxSeq;
      if shift < SPAN {
        var moved := Shl(w.bitmap, shift);
        BitOfOr(And(moved, 0xFFFF_FFFF_FFFF_FFFF), 1, i);
        BitOfAnd(moved, 0xFFFF_FFFF_FFFF_FFFF, i);
        MaskDigits(i);
        BitOfShl(w.bitmap, shift, i);
        if i >= shift {
          var j: nat := i - shift;
          assert Bit(w.bitmap, j) <==> j < SPAN && j <= w.rxSeq && w.rxSeq - j in accepted;
        }
      }
    } else {
      var o: nat := w.rxSeq - s;
      BitOfOr(w.bitmap, Shl(1, o), i);
      BitOfShl(1, o, i);
      if i >= o {
        BitOfOne(i - o);
      }
      if accepted != {} {
        assert w.rxSeq in accepted;
      }
    }
  }

  lemma MaskDigits(i: nat)
    ensures Bit(0xFFFF_FFFF_FFFF_FFFF, i) <==> i < SPAN
  {
    var k: nat := SPAN;
    SpanValues(k);
    BitOfMask(k, i);
  }

  lemma SpanValues(k: nat)
    requires k == SPAN
    ensures Pow2(k) == 0x1_0000_0000_0000_0000
  {
    PowSquared(1, 2);
    PowSquared(2, 4);
    PowSquared(4, 0x10);
    PowSquared(8, 0x100);
    PowSquared(16, 0x1_0000);
    PowSquared(32, 0x1_0000_0000);
    hide Pow2;
  }

  lemma PowSquared(n: nat, v: nat)
    ensures Pow2(n) == v ==> Pow2(n + n) == v * v
  {
    PowAdd(n, n);
    hide Pow2;
  }

  lemma {:induction false} PowAdd(a: nat, b: nat)
    ensures Pow2(a + b) == Pow2(a) * Pow2(b)
  {
    if b > 0 {
      PowAdd(a, b - 1);
      assert Pow2(a + b) == 2 * Pow2(a + (b - 1));
    }
  }

  // ----- whole epochs -----

  /** The decisions and the final window on the authentic frames of an epoch, in arrival order. */
  function Decide(w: Window, arrivals: seq<nat>): (seq<bool>, Window)
    decreases |arrivals|
  {
    if arrivals == [] then ([], w)
    else
      var ok := Admits(w, arrivals[0]);
      var (rest, last) := Decide(if ok then Accept(w, arrivals[0]) else w, arrivals[1..]);
      ([ok] + rest, last)
  }

  /** The same run on the exact set. */
  function DecideExactly(accepted: set<nat>, arrivals: seq<nat>): (seq<bool>, set<nat>)
    decreases |arrivals|
  {
    if arrivals == [] then ([], accepted)
    else
      var ok := Fresh(accepted, arrivals[0]);
      var (rest, last) := DecideExactly(if ok then accepted + {arrivals[0]} else accepted, arrivals[1..]);
      ([ok] + rest, last)
  }

  /** Over any arrivals whatever the bitmap and the exact set make the same decisions, and the
      bitmap stays the set's image, below `2^64`. */
  lemma {:induction false} BitmapRefinesSet(w: Window, accepted: set<nat>, arrivals: seq<nat>)
    requires Represents(w, accepted)
    ensures Decide(w, arrivals).0 == DecideExactly(accepted, arrivals).0
    ensures Represents(Decide(w, arrivals).1, DecideExactly(accepted, arrivals).1)
    decreases |arrivals|
  {
    if arrivals != [] {
      var s := arrivals[0];
      DecidesExactly(w, accepted, s);
      if Admits(w, s) {
        AcceptExtends(w, accepted, s);
        BitmapRefinesSet(Accept(w, s), accepted + {s}, arrivals[1..]);
      } else {
        BitmapRefinesSet(w, accepted, arrivals[1..]);
      }
    }
  }

  /** No sequence number is accepted twice in an epoch. */
  lemma NothingAcceptedTwice(arrivals: seq<nat>, i: nat, j: nat)
    requires i < j < |arrivals| && arrivals[i] == arrivals[j]
    ensures |Decide(FRESH, arrivals).0| == |arrivals|
    ensures !(Decide(FRESH, arrivals).0[i] && Decide(FRESH, arrivals).0[j])
  {
    FreshRepresents();
    BitmapRefinesSet(FRESH, {}, arrivals);
    AcceptedOnce({}, arrivals, i, j);
  }

  lemma {:induction false} AcceptedOnce(accepted: set<nat>, arrivals: seq<nat>, i: nat, j: nat)
    requires i < j < |arrivals| && arrivals[i] == arrivals[j]
    ensures |DecideExactly(accepted, arrivals).0| == |arrivals|
    ensures !(DecideExactly(accepted, arrivals).0[i] && DecideExactly(accepted, arrivals).0[j])
    decreases |arrivals|
  {
    var s := arrivals[0];
    var next := if Fresh(accepted, s) then accepted + {s} else accepted;
    if i > 0 {
      AcceptedOnce(next, arrivals[1..], i - 1, j - 1);
    } else if Fresh(accepted, s) {
      NeverAgain(next, arrivals[1..], j - 1);
    } else {
      DecisionCount(next, arrivals[1..]);
    }
  }

  lemma {:induction false} DecisionCount(accepted: set<nat>, arrivals: seq<nat>)
    ensures |DecideExactly(accepted, arrivals).0| == |arrivals|
    decreases |arrivals|
  {
    if arrivals != [] {
      DecisionCount(if Fresh(accepted, arrivals[0]) then accepted + {arrivals[0]} else accepted, arrivals[1..]);
    }
  }

  lemma {:induction false} NeverAgain(accepted: set<nat>, arrivals: seq<nat>, j: nat)
    requires j < |arrivals| && !Fresh(accepted, arrivals[j])
    ensures |DecideExactly(accepted, arrivals).0| == |arrivals| && !DecideExactly(accepted, arrivals).0[j]
    decreases |arrivals|
  {
    var s := arrivals[0];
    var next := if Fresh(accepted, s) then accepted + {s} else accepted;
    if j > 0 {
      NeverAgain(next, arrivals[1..], j - 1);
    } else {
      DecisionCount(next, arrivals[1..]);
    }
  }

  // ----- the transport's pre-filter -----

  /** `feed_packet` discards a session frame whose number trails `_last_rx_seq` by 64 or more. */
  predicate Stale(lastRx: int, s: nat) {
    lastRx != -1 && s <= lastRx - SPAN
  }

  /** `confirm_authenticated`, called by the session for each frame it accepts. */
  function Confirm(lastRx: int, s: nat): int {
    if s > lastRx then s else lastRx
  }

  function ConfirmAll(w: Window, lastRx: int, arrivals: seq<nat>): int
    decreases |arrivals|
  {
    if arrivals == [] then lastRx
    else if Admits(w, arrivals[0]) then ConfirmAll(Accept(w, arrivals[0]), Confirm(lastRx, arrivals[0]), arrivals[1..])
    else ConfirmAll(w, lastRx, arrivals[1..])
  }

  /** `_last_rx_seq` mirrors the session: -1 before anything is accepted, `rx_seq` from then on. */
  predicate Mirrors(lastRx: int, w: Window, accepted: set<nat>) {
    lastRx == if accepted == {} then -1 else w.rxSeq
  }

  lemma {:induction false} MirrorKept(w: Window, accepted: set<nat>, lastRx: int, arrivals: seq<nat>)
    requires Represents(w, accepted) && Mirrors(lastRx, w, accepted)
    ensures Mirrors(ConfirmAll(w, lastRx, arrivals), Decide(w, arrivals).1, DecideExactly(accepted, arrivals).1)
    decreases |arrivals|
  {
    if arrivals != [] {
      var s := arrivals[0];
      DecidesExactly(w, accepted, s);
      if Admits(w, s) {
        AcceptExtends(w, accepted, s);
        MirrorKept(Accept(w, s), accepted + {s}, Confirm(lastRx, s), arrivals[1..]);
      } else {
        MirrorKept(w, accepted, lastRx, arrivals[1..]);
      }
    }
  }

  /** Within an epoch the pre-filter is invisible: what it discards the session would drop now,
      and after any further arrivals too. */
  lemma PrefilterInvisible(before: seq<nat>, s: nat, after: seq<nat>)
    requires Stale(ConfirmAll(FRESH, -1, before), s)
    ensures !Admits(Decide(FRESH, before).1, s)
    ensures !Admits(Decide(Decide(FRESH, before).1, after).1, s)
  {
    FreshRepresents();
    BitmapRefinesSet(FRESH, {}, before);
    MirrorKept(FRESH, {}, -1, before);
    var w, accepted := Decide(FRESH, before).1, DecideExactly({}, before).1;
    DecidesExactly(w, accepted, s);
    BitmapRefinesSet(w, accepted, after);
    HistoryGrows(accepted, after);
    assert w.rxSeq in accepted;
    DecidesExactly(Decide(w, after).1, DecideExactly(accepted, after).1, s);
  }

  lemma {:induction false} HistoryGrows(accepted: set<nat>, arrivals: seq<nat>)
    ensures accepted <= DecideExactly(accepted, arrivals).1
    decreases |arrivals|
  {
    if arrivals != [] {
      HistoryGrows(if Fresh(accepted, arrivals[0]) then accepted + {arrivals[0]} else accepted, arrivals[1..]);
    }
  }

  /** A rekey resets the session's window but not `_last_rx_seq`.  Some frame of the new epoch is
      then discarded although the session would accept it exactly when `_last_rx_seq` had reached 64. */
  lemma RekeyUnmasksPrefilter(lastRx: int)
    requires -1 <= lastRx
    ensures (exists s: nat :: Stale(lastRx, s) && Admits(FRESH, s)) <==> SPAN <= lastRx
  {
    FreshRepresents();
    DecidesExactly(FRESH, {}, 0);
    if SPAN <= lastRx {
      assert Stale(lastRx, 0) && Admits(FRESH, 0);
    }
  }
}
