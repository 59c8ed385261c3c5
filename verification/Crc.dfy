/** CRC-16/IBM as `_frame.py` computes it, and what it is guaranteed to detect. */
module Crc {
  import opened Bits
  import opened Wire

  const POLY := 0xA001
  const WIDTH := 0x1_0000

  /** One turn of the inner loop. */
  function BitStep(crc: nat): nat {
    if crc % 2 == 1 then Xor(crc / 2, POLY) else crc / 2
  }

  function BitSteps(crc: nat, n: nat): nat {
    if n == 0 then crc else BitStep(BitSteps(crc, n - 1))
  }

  function ByteStep(crc: nat, b: byte): nat {
    BitSteps(Xor(crc, b), 8)
  }

  /** The register after feeding `data` to a register holding `crc`. */
  function Register(crc: nat, data: bytes): nat {
    if data == [] then crc else ByteStep(Register(crc, data[..|data| - 1]), data[|data| - 1])
  }

  function Checksum(data: bytes): nat {
    Register(0xFFFF, data)
  }

  /** The source's nested loop. */
  method Crc16(data: bytes) returns (crc: nat)
    ensures crc == Checksum(data) && crc < WIDTH
  {
    crc := 0xFFFF;
    for i := 0 to |data|
      invariant crc == Register(0xFFFF, data[..i])
    {
      ghost var before := crc;
      crc := Xor(crc, data[i]);
      for j := 0 to 8
        invariant crc == BitSteps(Xor(before, data[i]), j)
      {
        if crc % 2 == 1 {
          crc := Xor(crc / 2, POLY);
        } else {
          crc := crc / 2;
        }
      }
      assert data[..i + 1][..i] == data[..i];
    }
    assert data[..|data|] == data;
    RegisterBelow(0xFFFF, data);
  }

  // ----- the register keeps its width -----

  lemma XorInWidth(a: nat, b: nat)
    requires a < WIDTH && b < WIDTH
    ensures Xor(a, b) < WIDTH
  {
    assert Pow2(16) == WIDTH by {
      assert Pow2(4) == 16;
      assert Pow2(8) == 256;
      assert Pow2(12) == 4096;
    }
    XorBelow(a, b, 16);
  }

  lemma {:induction false} BitStepsBelow(crc: nat, n: nat)
    requires crc < WIDTH
    ensures BitSteps(crc, n) < WIDTH
  {
    if n > 0 {
      BitStepsBelow(crc, n - 1);
      XorInWidth(BitSteps(crc, n - 1) / 2, POLY);
    }
  }

  lemma {:induction false} RegisterBelow(crc: nat, data: bytes)
    requires crc < WIDTH
    ensures Register(crc, data) < WIDTH
  {
    if data != [] {
      var rest := data[..|data| - 1];
      RegisterBelow(crc, rest);
      XorInWidth(Register(crc, rest), data[|data| - 1]);
      BitStepsBelow(Xor(Register(crc, rest), data[|data| - 1]), 8);
    }
  }

  // ----- linearity -----

  lemma XorHalves(a: nat, b: nat)
    ensures Xor(a, b) / 2 == Xor(a / 2, b / 2)
    ensures (Xor(a, b) % 2 == 1) == ((a % 2 == 1) != (b % 2 == 1))
  {
  }

  lemma BitStepLinear(a: nat, b: nat)
    ensures BitStep(Xor(a, b)) == Xor(BitStep(a), BitStep(b))
  {
    XorHalves(a, b);
    var x, y := a / 2, b / 2;
    if a % 2 == 1 {
      XorAssociates(x, POLY, y);
      XorCommutes(POLY, y);
      XorAssociates(x, y, POLY);
      if b % 2 == 1 {
        XorAssociates(Xor(x, POLY), y, POLY);
        XorCancels(Xor(x, y), POLY);
      }
    } else if b % 2 == 1 {
      XorAssociates(x, y, POLY);
    }
  }

  lemma {:induction false} BitStepsLinear(a: nat, b: nat, n: nat)
    ensures BitSteps(Xor(a, b), n) == Xor(BitSteps(a, n), BitSteps(b, n))
  {
    if n > 0 {
      BitStepsLinear(a, b, n - 1);
      BitStepLinear(BitSteps(a, n - 1), BitSteps(b, n - 1));
    }
  }

  /** Two registers fed two bytes differ by a step of the difference alone. */
  lemma ByteStepLinear(c: nat, d: nat, x: byte, y: byte)
    ensures Xor(ByteStep(c, x), ByteStep(d, y)) == BitSteps(Xor(Xor(c, d), Xor(x, y)), 8)
  {
    BitStepsLinear(Xor(c, x), Xor(d, y), 8);
    forall i: nat ensures Bit(Xor(Xor(c, x), Xor(d, y)), i) == Bit(Xor(Xor(c, d), Xor(x, y)), i) {
      BitOfXor(Xor(c, x), Xor(d, y), i);
      BitOfXor(c, x, i);
      BitOfXor(d, y, i);
      BitOfXor(Xor(c, d), Xor(x, y), i);
      BitOfXor(c, d, i);
      BitOfXor(x, y, i);
    }
    SameDigits(Xor(Xor(c, x), Xor(d, y)), Xor(Xor(c, d), Xor(x, y)));
  }

  // ----- bijectivity -----

  /** The step undone: the polynomial's top digit records whether it was added. */
  function UnStep(r: nat): nat {
    if r >= 0x8000 then 2 * Xor(r, POLY) + 1 else 2 * r
  }

  lemma UnStepStep(c: nat)
    requires c < WIDTH
    ensures UnStep(BitStep(c)) == c
  {
    if c % 2 == 1 {
      TopDigitSet(c / 2);
      XorCancels(c / 2, POLY);
    }
  }

  lemma TopDigitSet(x: nat)
    requires x < 0x8000
    ensures 0x8000 <= Xor(x, POLY)
  {
    XorInWidth(x, POLY);
    if Xor(x, POLY) < 0x8000 {
      Pow2Fifteen();
      XorBelow(Xor(x, POLY), x, 15);
      XorCommutes(Xor(x, POLY), x);
      XorAssociates(x, x, POLY);
      XorSelf(x, x);
      XorZero(POLY);
    }
  }

  lemma Pow2Fifteen()
    ensures Pow2(15) == 0x8000
  {
    assert Pow2(4) == 16;
    assert Pow2(8) == 256;
    assert Pow2(12) == 4096;
  }

  lemma {:induction false} BitStepsInjective(c: nat, d: nat, n: nat)
    requires c < WIDTH && d < WIDTH && BitSteps(c, n) == BitSteps(d, n)
    ensures c == d
  {
    if n > 0 {
      BitStepsBelow(c, n - 1);
      BitStepsBelow(d, n - 1);
      UnStepStep(BitSteps(c, n - 1));
      UnStepStep(BitSteps(d, n - 1));
      BitStepsInjective(c, d, n - 1);
    }
  }

  lemma ByteStepInjective(c: nat, d: nat, b: byte)
    requires c < WIDTH && d < WIDTH && ByteStep(c, b) == ByteStep(d, b)
    ensures c == d
  {
    XorInWidth(c, b);
    XorInWidth(d, b);
    BitStepsInjective(Xor(c, b), Xor(d, b), 8);
    XorCancels(c, b);
    XorCancels(d, b);
  }

  /** Each byte step permutes the 16-bit registers: it is onto as well as one-to-one. */
  lemma ByteStepOnto(r: nat, b: byte) returns (c: nat)
    requires r < WIDTH
    ensures c < WIDTH && ByteStep(c, b) == r
  {
    var u := BitStepsOnto(r, 8);
    c := Xor(u, b);
    XorInWidth(u, b);
    XorCancels(u, b);
  }

  lemma {:induction false} BitStepsOnto(r: nat, n: nat) returns (c: nat)
    requires r < WIDTH
    ensures c < WIDTH && BitSteps(c, n) == r
    decreases n
  {
    if n == 0 {
      c := r;
    } else {
      StepUnStep(r);
      c := BitStepsOnto(UnStep(r), n - 1);
    }
  }

  lemma StepUnStep(r: nat)
    requires r < WIDTH
    ensures UnStep(r) < WIDTH && BitStep(UnStep(r)) == r
  {
    if r >= 0x8000 {
      ClearsTopDigit(r);
      XorCancels(r, POLY);
    }
  }

  lemma ClearsTopDigit(r: nat)
    requires 0x8000 <= r < WIDTH
    ensures Xor(r, POLY) < 0x8000
  {
    var x: nat := r - 0x8000;
    Pow2Fifteen();
    XorBelow(x, 0x2001, 15);
    forall i: nat ensures Bit(Xor(r, POLY), i) == Bit(Xor(x, 0x2001), i) {
      AddTopDigit(x, 15, i);
      AddTopDigit(0x2001, 15, i);
      BitOfXor(r, POLY, i);
      BitOfXor(x, 0x2001, i);
    }
    SameDigits(Xor(r, POLY), Xor(x, 0x2001));
  }

  lemma {:induction false} AddTopDigit(x: nat, k: nat, i: nat)
    requires x < Pow2(k)
    ensures Bit(x + Pow2(k), i) == (Bit(x, i) != (i == k))
    decreases k
  {
    if k == 0 {
      BitOfOne(i);
      BitOfZero(i);
    } else if i > 0 {
      assert (x + Pow2(k)) / 2 == x / 2 + Pow2(k - 1);
      AddTopDigit(x / 2, k - 1, i - 1);
    }
  }

  // ----- detection -----

  lemma {:induction false} RegisterInjective(c: nat, d: nat, data: bytes)
    requires c < WIDTH && d < WIDTH && Register(c, data) == Register(d, data)
    ensures c == d
  {
    if data != [] {
      var rest := data[..|data| - 1];
      RegisterBelow(c, rest);
      RegisterBelow(d, rest);
      ByteStepInjective(Register(c, rest), Register(d, rest), data[|data| - 1]);
      RegisterInjective(c, d, rest);
    }
  }

  lemma {:induction false} RegisterConcat(c: nat, a: bytes, b: bytes)
    ensures Register(c, a + b) == Register(Register(c, a), b)
  {
    if b == [] {
      assert a + b == a;
    } else {
      var rest := b[..|b| - 1];
      assert (a + b)[..|a + b| - 1] == a + rest;
      RegisterConcat(c, a, rest);
    }
  }

  lemma {:induction false} PowMonotone(j: nat, k: nat)
    requires j <= k
    ensures Pow2(j) <= Pow2(k)
    decreases k
  {
    if j < k {
      PowMonotone(j, k - 1);
    }
  }

  lemma {:induction false} ShlDouble(x: nat, n: nat)
    ensures Shl(2 * x, n) == 2 * Shl(x, n)
  {
    if n > 0 {
      ShlDouble(x, n - 1);
    }
  }

  /** Running steps backwards from a small value never meets the polynomial: it only shifts left. */
  lemma {:induction false} ShiftBack(d: nat, n: nat, k: nat)
    requires d < WIDTH && n + k <= 8 && BitSteps(d, n) < 256 * Pow2(k)
    ensures d == Shl(BitSteps(d, n), n)
    decreases n
  {
    if n > 0 {
      BitStepsBelow(d, n - 1);
      PowMonotone(k, 7);
      assert Pow2(7) == 128 by { assert Pow2(3) == 8; }
      UnStepStep(BitSteps(d, n - 1));
      ShiftBack(d, n - 1, k + 1);
      ShlDouble(BitSteps(d, n), n - 1);
    }
  }

  lemma XorOfBytes(x: byte, y: byte)
    ensures Xor(x, y) < 256
  {
    assert Pow2(8) == 256 by { assert Pow2(4) == 16; }
    XorBelow(x, y, 8);
  }

  /** Replacing two neighbouring bytes of any data, at any place, by another pair always
      changes the checksum.  A one-byte change is the case where one of the two stays. */
  lemma NeighbourChangeDetected(pre: bytes, x1: byte, x2: byte, y1: byte, y2: byte, post: bytes)
    requires x1 != y1 || x2 != y2
    ensures Checksum(pre + [x1, x2] + post) != Checksum(pre + [y1, y2] + post)
  {
    var c := Register(0xFFFF, pre);
    RegisterBelow(0xFFFF, pre);
    var s, t := ByteStep(ByteStep(c, x1), x2), ByteStep(ByteStep(c, y1), y2);
    PairRegister(pre, x1, x2, post);
    PairRegister(pre, y1, y2, post);
    if Register(s, post) == Register(t, post) {
      RegisterInjective(s, t, post);
      PairCollides(c, x1, x2, y1, y2);
    }
  }

  lemma PairRegister(pre: bytes, x1: byte, x2: byte, post: bytes)
    ensures var s := ByteStep(ByteStep(Register(0xFFFF, pre), x1), x2);
      s < WIDTH && Checksum(pre + [x1, x2] + post) == Register(s, post)
  {
    RegisterConcat(0xFFFF, pre + [x1, x2], post);
    RegisterBelow(0xFFFF, pre + [x1, x2]);
    assert (pre + [x1, x2])[..|pre| + 1] == pre + [x1];
    assert (pre + [x1])[..|pre|] == pre;
  }

  lemma PairCollides(c: nat, x1: byte, x2: byte, y1: byte, y2: byte)
    requires c < WIDTH && ByteStep(ByteStep(c, x1), x2) == ByteStep(ByteStep(c, y1), y2)
    ensures x1 == y1 && x2 == y2
  {
    var s, t := ByteStep(c, x1), ByteStep(c, y1);
    var e1, e2 := Xor(x1, y1), Xor(x2, y2);
    XorOfBytes(x1, y1);
    XorOfBytes(x2, y2);
    ByteStepLinear(c, c, x1, y1);
    XorSelf(c, c);
    XorZero(e1);
    assert Xor(s, t) == BitSteps(e1, 8);
    BitStepsBelow(e1, 8);
    ByteStepLinear(s, t, x2, y2);
    XorSelf(ByteStep(s, x2), ByteStep(t, y2));
    XorInWidth(BitSteps(e1, 8), e2);
    ZeroSteps(8);
    BitStepsInjective(Xor(Xor(s, t), e2), 0, 8);
    XorSelf(Xor(s, t), e2);
    ShiftBack(e1, 8, 0);
    ShiftEight(e2);
    XorSelf(x1, y1);
    XorSelf(x2, y2);
  }

  lemma {:induction false} ZeroSteps(n: nat)
    ensures BitSteps(0, n) == 0
  {
    if n > 0 {
      ZeroSteps(n - 1);
    }
  }

  lemma ShiftEight(x: nat)
    ensures Shl(x, 8) == 256 * x
  {
    assert Shl(x, 1) == 2 * x;
    assert Shl(x, 2) == 4 * x;
    assert Shl(x, 4) == 16 * x;
    assert Shl(x, 6) == 64 * x;
  }
}
