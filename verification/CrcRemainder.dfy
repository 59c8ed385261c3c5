/** The checksum is a remainder: of the message, as a polynomial over the two-element field, modulo
x^16 + x^15 + x^2 + 1.  A polynomial is the number whose digit `i` is the coefficient of x^i, so addition is exclusive
or; the register holds its remainder with the digits in reverse, and takes each byte low digit first. */
module CrcRemainder {
  import opened Bits
  import opened Wire
  import opened Crc

  /** x^16 + x^15 + x^2 + 1. */
  const GENERATOR := 0x1_8005

  /** The product of two polynomials. */
  function Product(q: nat, g: nat): nat {
    if q == 0 then 0 else Xor(2 * Product(q / 2, g), if q % 2 == 1 then g else 0)
  }

  /** The low `n` digits of a number in reverse. */
  function Reverse(c: nat, n: nat): nat {
    if n == 0 then 0 else 2 * Reverse(c, n - 1) + Digit(Bit(c, n - 1))
  }

  /** The bytes as coefficients, the first byte highest, each with its low digit first. */
  function Message(data: bytes): nat {
    if data == [] then 0 else Xor(Shl(Message(data[..|data| - 1]), 8), Reverse(data[|data| - 1], 8))
  }

  /** What is divided: the message moved up by sixteen, and the sixteen ones the register starts with. */
  function Dividend(data: bytes): nat {
    Xor(Shl(Message(data), 16), Shl(0xFFFF, 8 * |data|))
  }

  // ----- digits -----

  lemma BitOfAppended(h: nat, d: bool, i: nat)
    ensures Bit(2 * h + Digit(d), i) == if i == 0 then d else Bit(h, i - 1)
  {
  }

  lemma {:induction false} BitOfReverse(c: nat, n: nat, i: nat)
    ensures Bit(Reverse(c, n), i) == (i < n && Bit(c, n - 1 - i))
    decreases n
  {
    hide Bit;
    if n == 0 {
      BitOfZero(i);
    } else {
      BitOfAppended(Reverse(c, n - 1), Bit(c, n - 1), i);
      if i > 0 {
        BitOfReverse(c, n - 1, i - 1);
      }
    }
  }

  lemma BitOfGenerator(i: nat)
    ensures Bit(GENERATOR, i) == (i == 0 || i == 2 || i == 15 || i == 16)
  {
    Powers();
    BitOfOne(i);
    AddTopDigit(1, 2, i);
    AddTopDigit(5, 15, i);
    AddTopDigit(0x8005, 16, i);
  }

  lemma BitOfPoly(i: nat)
    ensures Bit(POLY, i) == (i == 0 || i == 13 || i == 15)
  {
    Powers();
    BitOfOne(i);
    AddTopDigit(1, 13, i);
    AddTopDigit(0x2001, 15, i);
  }

  lemma Powers()
    ensures Pow2(2) == 4 && Pow2(8) == 0x100 && Pow2(13) == 0x2000 && Pow2(15) == 0x8000 && Pow2(16) == 0x1_0000
  {
    assert Pow2(2) == 4;
    assert Pow2(5) == 32;
    assert Pow2(8) == 256;
    assert Pow2(11) == 2048;
    assert Pow2(13) == 0x2000;
  }

  lemma {:induction false} NoBitAbove(n: nat, k: nat, i: nat)
    requires n < Pow2(k) && k <= i
    ensures !Bit(n, i)
    decreases i
  {
    if k == 0 {
      BitOfZero(i);
    } else {
      NoBitAbove(n / 2, k - 1, i - 1);
    }
  }

  // ----- one step divides by one digit -----

  lemma StepReversed(c: nat)
    requires c < WIDTH
    ensures 2 * Reverse(c, 16) == Xor(Reverse(BitStep(c), 16), if c % 2 == 1 then GENERATOR else 0)
  {
    hide Bit;
    hide Xor;
    hide Reverse;
    hide BitStep;
    var r, r', g := Reverse(c, 16), Reverse(BitStep(c), 16), if c % 2 == 1 then GENERATOR else 0;
    forall i: nat ensures Bit(2 * r, i) == Bit(Xor(r', g), i) {
      BitOfXor(r', g, i);
      BitOfReverse(BitStep(c), 16, i);
      StepDigit(c, i);
    }
    SameDigits(2 * r, Xor(r', g));
  }

  lemma StepDigit(c: nat, i: nat)
    requires c < WIDTH
    ensures Bit(2 * Reverse(c, 16), i) ==
      ((i < 16 && Bit(BitStep(c), 15 - i)) != Bit(if c % 2 == 1 then GENERATOR else 0, i))
  {
    BitOfGenerator(i);
    BitOfZero(i);
    if i > 0 {
      BitOfReverse(c, 16, i - 1);
    }
    if i < 16 {
      BitOfPoly(15 - i);
      BitOfXor(c / 2, POLY, 15 - i);
      if i == 0 {
        Powers();
        NoBitAbove(c, 16, 16);
      }
    }
  }

  lemma {:induction false} XorDouble(a: nat, b: nat)
    ensures Xor(2 * a, 2 * b) == 2 * Xor(a, b)
  {
  }

  lemma XorSwap(a: nat, b: nat, c: nat)
    ensures Xor(Xor(a, b), c) == Xor(Xor(a, c), b)
  {
    XorAssociates(a, b, c);
    XorCommutes(b, c);
    XorAssociates(a, c, b);
  }

  /** `p` divided by the generator leaves `r`, with quotient `q`. */
  predicate Divides(p: nat, q: nat, r: nat) {
    p == Xor(Product(q, GENERATOR), r)
  }

  lemma ProductStep(q: nat, odd: bool, g: nat)
    ensures Product(2 * q + Digit(odd), g) == Xor(2 * Product(q, g), if odd then g else 0)
  {
    if q == 0 && !odd {
      XorZero(0);
    }
  }

  lemma StepDivides(p: nat, q: nat, c: nat) returns (q': nat)
    requires c < WIDTH && Divides(p, q, Reverse(c, 16))
    ensures Divides(2 * p, q', Reverse(BitStep(c), 16))
  {
    hide Xor;
    hide Reverse;
    hide BitStep;
    hide Product;
    var d, g, r' := Product(q, GENERATOR), if c % 2 == 1 then GENERATOR else 0, Reverse(BitStep(c), 16);
    q' := 2 * q + Digit(c % 2 == 1);
    ProductStep(q, c % 2 == 1, GENERATOR);
    XorDouble(d, Reverse(c, 16));
    StepReversed(c);
    XorAssociates(2 * d, g, r');
    XorCommutes(g, r');
  }

  lemma {:induction false} StepsDivide(p: nat, q: nat, c: nat, n: nat) returns (q': nat)
    requires c < WIDTH && Divides(p, q, Reverse(c, 16))
    ensures Divides(Shl(p, n), q', Reverse(BitSteps(c, n), 16))
    decreases n
  {
    if n == 0 {
      q' := q;
    } else {
      var q1 := StepsDivide(p, q, c, n - 1);
      BitStepsBelow(c, n - 1);
      q' := StepDivides(Shl(p, n - 1), q1, BitSteps(c, n - 1));
    }
  }

  lemma ReverseXor(a: nat, b: nat, n: nat)
    ensures Reverse(Xor(a, b), n) == Xor(Reverse(a, n), Reverse(b, n))
  {
    var x, y := Reverse(Xor(a, b), n), Xor(Reverse(a, n), Reverse(b, n));
    forall i: nat ensures Bit(x, i) == Bit(y, i) {
      BitOfReverse(Xor(a, b), n, i);
      BitOfXor(Reverse(a, n), Reverse(b, n), i);
      BitOfReverse(a, n, i);
      BitOfReverse(b, n, i);
      if i < n {
        BitOfXor(a, b, n - 1 - i);
      }
    }
    SameDigits(x, y);
  }

  /** One byte more: the dividend grows as the register does. */
  lemma DividendByte(data: bytes, b: byte)
    ensures Dividend(data + [b]) == Shl(Xor(Dividend(data), Reverse(b, 16)), 8)
  {
    var more := data + [b];
    assert more[..|more| - 1] == data;
    var m := Message(data);
    assert Message(more) == Xor(Shl(m, 8), Reverse(b, 8));
    hide Message;
    hide Xor;
    hide Shl;
    hide Reverse;
    hide Bit;
    var x, y := Dividend(more), Shl(Xor(Dividend(data), Reverse(b, 16)), 8);
    forall i: nat ensures Bit(x, i) == Bit(y, i) {
      GrownDigit(m, |data|, b, i);
      MovedDigit(m, |data|, b, i);
    }
    SameDigits(x, y);
  }

  lemma GrownDigit(m: nat, n: nat, b: byte, i: nat)
    ensures Bit(Xor(Shl(Xor(Shl(m, 8), Reverse(b, 8)), 16), Shl(0xFFFF, 8 * (n + 1))), i) ==
      ((i >= 16 && ((i >= 24 && Bit(m, i - 24)) != Bit(Reverse(b, 8), i - 16))) != (i >= 8 * n + 8 && Bit(0xFFFF, i - 8 * n - 8)))
  {
    hide Xor;
    hide Shl;
    hide Reverse;
    hide Bit;
    var grown := Xor(Shl(m, 8), Reverse(b, 8));
    BitOfXor(Shl(grown, 16), Shl(0xFFFF, 8 * (n + 1)), i);
    BitOfShl(grown, 16, i);
    BitOfShl(0xFFFF, 8 * (n + 1), i);
    if i >= 16 {
      BitOfXor(Shl(m, 8), Reverse(b, 8), i - 16);
      BitOfShl(m, 8, i - 16);
    }
  }

  lemma MovedDigit(m: nat, n: nat, b: byte, i: nat)
    ensures Bit(Shl(Xor(Xor(Shl(m, 16), Shl(0xFFFF, 8 * n)), Reverse(b, 16)), 8), i) ==
      ((i >= 16 && ((i >= 24 && Bit(m, i - 24)) != Bit(Reverse(b, 8), i - 16))) != (i >= 8 * n + 8 && Bit(0xFFFF, i - 8 * n - 8)))
  {
    hide Xor;
    hide Shl;
    hide Reverse;
    hide Bit;
    var d := Xor(Shl(m, 16), Shl(0xFFFF, 8 * n));
    BitOfShl(Xor(d, Reverse(b, 16)), 8, i);
    if i >= 8 {
      BitOfXor(d, Reverse(b, 16), i - 8);
      BitOfXor(Shl(m, 16), Shl(0xFFFF, 8 * n), i - 8);
      BitOfShl(m, 16, i - 8);
      BitOfShl(0xFFFF, 8 * n, i - 8);
      ByteReversed(b, i - 8);
    }
  }

  lemma ByteReversed(b: byte, i: nat)
    ensures Bit(Reverse(b, 16), i) == (i >= 8 && Bit(Reverse(b, 8), i - 8))
  {
    BitOfReverse(b, 16, i);
    Powers();
    if i >= 8 {
      BitOfReverse(b, 8, i - 8);
    } else {
      NoBitAbove(b, 8, 15 - i);
    }
  }

  lemma {:induction false} RegisterDivides(data: bytes) returns (q: nat)
    ensures Divides(Dividend(data), q, Reverse(Checksum(data), 16))
    decreases |data|
  {
    if data == [] {
      q := 0;
      NothingDivides(0xFFFF, 16);
    } else {
      var rest, b := data[..|data| - 1], data[|data| - 1];
      var q1 := RegisterDivides(rest);
      assert data == rest + [b];
      DividendByte(rest, b);
      var c := Checksum(rest);
      RegisterBelow(0xFFFF, rest);
      XorInWidth(c, b);
      ReverseXor(c, b, 16);
      XorAssociates(Product(q1, GENERATOR), Reverse(c, 16), Reverse(b, 16));
      q := StepsDivide(Xor(Dividend(rest), Reverse(b, 16)), q1, Xor(c, b), 8);
    }
  }

  /** The register starts with sixteen ones. */
  lemma Start(ones: nat, n: nat)
    requires ones == 0xFFFF && n == 16
    ensures Xor(Shl(Message([]), n), Shl(ones, 0)) == Reverse(ones, n)
  {
    hide Xor;
    hide Reverse;
    hide Bit;
    assert Message([]) == 0 && Shl(ones, 0) == ones;
    hide Shl;
    forall i: nat ensures Bit(Xor(Shl(0, n), ones), i) == Bit(Reverse(ones, n), i) {
      BitOfXor(Shl(0, n), ones, i);
      BitOfShl(0, n, i);
      BitOfReverse(ones, n, i);
      OnesDigit(i);
      if i >= n {
        BitOfZero(i - n);
      } else {
        OnesDigit(15 - i);
      }
    }
    SameDigits(Xor(Shl(0, n), ones), Reverse(ones, n));
  }

  lemma NothingDivides(ones: nat, n: nat)
    requires ones == 0xFFFF && n == 16
    ensures Divides(Dividend([]), 0, Reverse(ones, n))
  {
    Start(ones, n);
    XorZero(Reverse(ones, n));
    hide Reverse;
    hide Shl;
    hide Xor;
  }

  lemma OnesDigit(i: nat)
    ensures Bit(0xFFFF, i) == (i < 16)
  {
    Powers();
    BitOfMask(16, i);
  }

  // ----- there is no other remainder -----

  /** A product with the generator reaches degree sixteen. */
  lemma {:induction false} TopOfProduct(q: nat) returns (t: nat)
    requires q > 0
    ensures t >= 16 && Bit(Product(q, GENERATOR), t) && forall i: nat :: i > t ==> !Bit(Product(q, GENERATOR), i)
    decreases q
  {
    var d, g := Product(q / 2, GENERATOR), if q % 2 == 1 then GENERATOR else 0;
    if q == 1 {
      t := 16;
      XorZero(g);
    } else {
      t := TopOfProduct(q / 2);
      t := t + 1;
    }
    forall i: nat | i >= t ensures Bit(Product(q, GENERATOR), i) == (i == t) {
      BitOfXor(2 * d, g, i);
      BitOfGenerator(i);
      BitOfZero(i);
    }
  }

  lemma {:induction false} ProductXor(a: nat, b: nat, g: nat)
    ensures Product(Xor(a, b), g) == Xor(Product(a, g), Product(b, g))
    decreases a + b
  {
    if a == 0 {
      XorZero(b);
      XorZero(Product(b, g));
    } else if b == 0 {
      XorZero(a);
      XorZero(Product(a, g));
    } else {
      ProductXor(a / 2, b / 2, g);
      var x, y := Product(a / 2, g), Product(b / 2, g);
      XorDouble(x, y);
      var ga, gb := if a % 2 == 1 then g else 0, if b % 2 == 1 then g else 0;
      var gx := if Xor(a, b) % 2 == 1 then g else 0;
      forall i: nat ensures Bit(Xor(Xor(2 * x, 2 * y), gx), i) == Bit(Xor(Xor(2 * x, ga), Xor(2 * y, gb)), i) {
        BitOfXor(Xor(2 * x, 2 * y), gx, i);
        BitOfXor(2 * x, 2 * y, i);
        BitOfXor(Xor(2 * x, ga), Xor(2 * y, gb), i);
        BitOfXor(2 * x, ga, i);
        BitOfXor(2 * y, gb, i);
        BitOfZero(i);
      }
      SameDigits(Xor(Xor(2 * x, 2 * y), gx), Xor(Xor(2 * x, ga), Xor(2 * y, gb)));
      if Xor(a, b) == 0 {
        XorZero(0);
      }
    }
  }

  lemma OneRemainder(p: nat, q: nat, r: nat, q': nat, r': nat)
    requires r < 0x1_0000 && r' < 0x1_0000 && Divides(p, q, r) && Divides(p, q', r')
    ensures q == q' && r == r'
  {
    var d, d', x := Product(q, GENERATOR), Product(q', GENERATOR), Xor(q, q');
    ProductXor(q, q', GENERATOR);
    forall i: nat ensures Bit(Xor(d, d'), i) == Bit(Xor(r, r'), i) {
      BitOfXor(d, r, i);
      BitOfXor(d', r', i);
      BitOfXor(d, d', i);
      BitOfXor(r, r', i);
    }
    SameDigits(Xor(d, d'), Xor(r, r'));
    XorInWidth(r, r');
    if x > 0 {
      var t := TopOfProduct(x);
      Powers();
      NoBitAbove(Xor(r, r'), 16, t);
      assert false;
    }
    XorSelf(q, q');
    XorSelf(r, r');
  }

  /** A polynomial of degree below sixteen is what is left of the message modulo x^16 + x^15 + x^2 + 1 if and only if
      it is the checksum, read backwards. */
  lemma ChecksumIsRemainder(data: bytes, r: nat)
    requires r < 0x1_0000
    ensures (exists q: nat :: Dividend(data) == Xor(Product(q, 0x1_8005), r)) <==> r == Reverse(Checksum(data), 16)
  {
    var q := RegisterDivides(data);
    var s := Reverse(Checksum(data), 16);
    ReverseBelow(Checksum(data), 16);
    Powers();
    hide Xor;
    hide Product;
    hide Reverse;
    hide Dividend;
    assert Dividend(data) == Xor(Product(q, 0x1_8005), s);
    if q' :| Dividend(data) == Xor(Product(q', 0x1_8005), r) {
      OneRemainder(Dividend(data), q, s, q', r);
    }
  }

  lemma {:induction false} ReverseBelow(c: nat, n: nat)
    ensures Reverse(c, n) < Pow2(n)
    decreases n
  {
    if n > 0 {
      ReverseBelow(c, n - 1);
    }
  }
}
