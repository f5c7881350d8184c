/** Bitwise operations on natural numbers of any size. */
module Bits {
  import opened Core
  import Numerals

  datatype Gate = AND | OR | XOR | ANDNOT

  predicate Eval(g: Gate, a: bool, b: bool) {
    match g
    case AND => a && b
    case OR => a || b
    case XOR => a != b
    case ANDNOT => !a && b
  }

  function Bit(b: bool): nat {
    if b then 1 else 0
  }

  /** A gate applied to every pair of bits. */
  function Op(g: Gate, x: nat, y: nat): nat
    decreases x + y
  {
    if x == 0 && y == 0 then 0
    else 2 * Op(g, x / 2, y / 2) + Bit(Eval(g, x % 2 == 1, y % 2 == 1))
  }

  function And(x: nat, y: nat): nat {
    Op(AND, x, y)
  }

  function Or(x: nat, y: nat): nat {
    Op(OR, x, y)
  }

  function Xor(x: nat, y: nat): nat {
    Op(XOR, x, y)
  }

  /** The bits of y that are not in x. */
  function AndNot(x: nat, y: nat): nat {
    Op(ANDNOT, x, y)
  }

  function Shl(x: nat, n: nat): nat {
    x * Pow(2, n)
  }

  /** Last bit and the other bits of a result. */
  lemma OpHalf(g: Gate, x: nat, y: nat)
    ensures Op(g, x, y) / 2 == Op(g, x / 2, y / 2)
    ensures Op(g, x, y) % 2 == Bit(Eval(g, x % 2 == 1, y % 2 == 1))
  {
  }

  lemma SameHalves(x: nat, y: nat)
    requires x / 2 == y / 2 && x % 2 == y % 2
    ensures x == y
  {
  }

  /** The remainder modulo a power of two keeps the last bits. */
  lemma LowHalf(x: nat, p: nat)
    requires p > 0
    ensures x % (2 * p) / 2 == x / 2 % p && x % (2 * p) % 2 == x % 2
  {
    var q, r := x / (2 * p), x % (2 * p);
    Numerals.DivMod(x, 2 * p);
    assert x == 2 * (q * p) + r by {
      assert q * (2 * p) == 2 * (q * p);
    }
    assert x / 2 == q * p + r / 2;
    Numerals.DivModUnique(q * p + r / 2, p, q, r / 2);
  }

  /** The low bits of a result depend on the low bits of the operands alone. */
  lemma {:induction false} LowOp(g: Gate, x: nat, y: nat, k: nat)
    ensures Pow(2, k) > 0
    ensures Op(g, x, y) % Pow(2, k) == Op(g, x % Pow(2, k), y % Pow(2, k))
    decreases k
  {
    PowPositive(2, k);
    if k > 0 {
      var p := Pow(2, k - 1);
      PowPositive(2, k - 1);
      LowOp(g, x / 2, y / 2, k - 1);
      hide Op, Pow;
      LowHalf(x, p);
      LowHalf(y, p);
      LowHalf(Op(g, x, y), p);
      OpHalf(g, x, y);
      OpHalf(g, x % (2 * p), y % (2 * p));
      assert Pow(2, k) == 2 * p by { PowStep(k); }
      SameHalves(Op(g, x, y) % (2 * p), Op(g, x % (2 * p), y % (2 * p)));
    } else {
      assert Op(g, 0, 0) == 0;
    }
  }

  lemma PowStep(k: nat)
    requires k > 0
    ensures Pow(2, k) == 2 * Pow(2, k - 1)
  {
  }

  lemma MaskStep(x: nat, p: nat)
    requires p > 0 && And(x / 2, p - 1) == x / 2 % p
    ensures And(x, 2 * p - 1) == x % (2 * p)
  {
    hide Op;
    OpHalf(AND, x, 2 * p - 1);
    assert (2 * p - 1) / 2 == p - 1 && (2 * p - 1) % 2 == 1;
    LowHalf(x, p);
    SameHalves(And(x, 2 * p - 1), x % (2 * p));
  }

  lemma {:induction false} MaskIsLow(x: nat, k: nat)
    ensures Pow(2, k) > 0
    ensures And(x, Pow(2, k) - 1) == x % Pow(2, k)
    decreases k
  {
    hide And;
    PowPositive(2, k);
    if k == 0 {
      AndZero(x);
    } else {
      PowPositive(2, k - 1);
      MaskIsLow(x / 2, k - 1);
      PowStep(k);
      hide Pow;
      MaskStep(x, Pow(2, k - 1));
    }
  }

  lemma {:induction false} AndZero(x: nat)
    ensures And(x, 0) == 0
    decreases x
  {
    if x > 0 {
      AndZero(x / 2);
    }
  }

  /** The two ways to write the choice function. */
  lemma {:induction false} ChoiceForms(x: nat, y: nat, z: nat)
    ensures Xor(z, And(x, Xor(y, z))) == Xor(And(x, y), AndNot(x, z))
    decreases x + y + z
  {
    if x + y + z > 0 {
      ChoiceForms(x / 2, y / 2, z / 2);
      hide Op;
      OpHalf(XOR, y, z);
      OpHalf(AND, x, Xor(y, z));
      OpHalf(XOR, z, And(x, Xor(y, z)));
      OpHalf(AND, x, y);
      OpHalf(ANDNOT, x, z);
      OpHalf(XOR, And(x, y), AndNot(x, z));
      SameHalves(Xor(z, And(x, Xor(y, z))), Xor(And(x, y), AndNot(x, z)));
    }
  }

  /** The two ways to write the majority function. */
  lemma {:induction false} MajorityForms(x: nat, y: nat, z: nat)
    ensures Or(And(x, y), And(z, Or(x, y))) == Xor(Xor(And(x, y), And(x, z)), And(y, z))
    decreases x + y + z
  {
    if x + y + z > 0 {
      MajorityForms(x / 2, y / 2, z / 2);
      hide Op;
      OpHalf(AND, x, y);
      OpHalf(OR, x, y);
      OpHalf(AND, z, Or(x, y));
      OpHalf(OR, And(x, y), And(z, Or(x, y)));
      OpHalf(AND, x, z);
      OpHalf(AND, y, z);
      OpHalf(XOR, And(x, y), And(x, z));
      OpHalf(XOR, Xor(And(x, y), And(x, z)), And(y, z));
      SameHalves(Or(And(x, y), And(z, Or(x, y))), Xor(Xor(And(x, y), And(x, z)), And(y, z)));
    }
  }

  lemma {:induction false} XorCommutes(x: nat, y: nat)
    ensures Xor(x, y) == Xor(y, x)
    decreases x + y
  {
    if x + y > 0 {
      XorCommutes(x / 2, y / 2);
      hide Op;
      OpHalf(XOR, x, y);
      OpHalf(XOR, y, x);
      SameHalves(Xor(x, y), Xor(y, x));
    }
  }

  lemma {:induction false} XorAssociates(x: nat, y: nat, z: nat)
    ensures Xor(Xor(x, y), z) == Xor(x, Xor(y, z))
    decreases x + y + z
  {
    if x + y + z > 0 {
      XorAssociates(x / 2, y / 2, z / 2);
      hide Op;
      OpHalf(XOR, x, y);
      OpHalf(XOR, y, z);
      OpHalf(XOR, Xor(x, y), z);
      OpHalf(XOR, x, Xor(y, z));
      SameHalves(Xor(Xor(x, y), z), Xor(x, Xor(y, z)));
    }
  }

  lemma {:induction false} XorSelf(x: nat)
    ensures Xor(x, x) == 0 && Xor(x, 0) == x && Xor(0, x) == x
  {
    if x > 0 {
      XorSelf(x / 2);
    }
  }

  lemma XorSwap(a: nat, b: nat, c: nat, d: nat)
    ensures Xor(Xor(a, b), Xor(c, d)) == Xor(Xor(a, c), Xor(b, d))
  {
    hide Xor;
    XorAssociates(a, b, Xor(c, d));
    XorAssociates(b, c, d);
    XorCommutes(b, c);
    XorAssociates(c, b, d);
    XorAssociates(a, c, Xor(b, d));
  }

  /** Adding y twice by exclusive or changes nothing. */
  lemma XorUndo(x: nat, y: nat)
    ensures Xor(Xor(x, y), y) == x
  {
    hide Xor;
    XorAssociates(x, y, y);
    XorSelf(y);
    XorSelf(x);
  }

  lemma XorZero(x: nat, y: nat)
    ensures Xor(x, y) == 0 <==> x == y
  {
    hide Xor;
    XorSelf(x);
    XorSelf(y);
    XorUndo(x, y);
  }

  /** The high bits of a result depend on the high bits of the operands alone. */
  lemma {:induction false} HighOp(g: Gate, x: nat, y: nat, k: nat)
    ensures Pow(2, k) > 0
    ensures Op(g, x, y) / Pow(2, k) == Op(g, x / Pow(2, k), y / Pow(2, k))
    decreases k
  {
    hide Op;
    PowPositive(2, k);
    if k > 0 {
      PowPositive(2, k - 1);
      HighOp(g, x / 2, y / 2, k - 1);
      OpHalf(g, x, y);
      PowStep(k);
      hide Pow;
      DivTwice(x, Pow(2, k - 1));
      DivTwice(y, Pow(2, k - 1));
      DivTwice(Op(g, x, y), Pow(2, k - 1));
    }
  }

  lemma DivTwice(x: nat, p: nat)
    requires p > 0
    ensures x / 2 / p == x / (2 * p)
  {
    Numerals.DivDiv(x, 2, p);
  }

  lemma Doubling(x: nat, p: nat)
    ensures x * (2 * p) == 2 * (x * p)
  {
  }

  lemma {:induction false} ShiftXor(x: nat, y: nat, k: nat)
    ensures Xor(x * Pow(2, k), y * Pow(2, k)) == Xor(x, y) * Pow(2, k)
  {
    hide Xor;
    if k > 0 {
      var p := Pow(2, k - 1);
      ShiftXor(x, y, k - 1);
      PowStep(k);
      hide Pow;
      Doubling(x, p);
      Doubling(y, p);
      Doubling(Xor(x, y), p);
      DoubleXor(x * p, y * p);
    }
  }

  lemma DoubleXor(x: nat, y: nat)
    ensures Xor(2 * x, 2 * y) == 2 * Xor(x, y)
  {
    OpHalf(XOR, 2 * x, 2 * y);
  }

  lemma DisjointStep(g: Gate, y: nat, v: nat)
    requires g == OR || g == XOR
    requires Op(g, y, v / 2) == y + v / 2
    ensures Op(g, 2 * y, v) == 2 * y + v
  {
    OpHalf(g, 2 * y, v);
    hide Op;
    SameHalves(Op(g, 2 * y, v), 2 * y + v);
  }

  /** Bits side by side: or and exclusive or both add. */
  lemma {:induction false} Disjoint(x: nat, v: nat, k: nat)
    requires v < Pow(2, k)
    ensures Or(x * Pow(2, k), v) == x * Pow(2, k) + v && Xor(x * Pow(2, k), v) == x * Pow(2, k) + v
    decreases k
  {
    hide Op;
    if k == 0 {
      XorSelf(x);
      OrZero(x);
    } else {
      var p := Pow(2, k - 1);
      PowStep(k);
      Disjoint(x, v / 2, k - 1);
      hide Pow;
      Doubling(x, p);
      DisjointStep(OR, x * p, v);
      DisjointStep(XOR, x * p, v);
    }
  }

  lemma {:induction false} OrZero(x: nat)
    ensures Or(x, 0) == x
  {
    if x > 0 {
      OrZero(x / 2);
    }
  }

  /** A result is no longer than its operands. */
  lemma OpBound(g: Gate, x: nat, y: nat, k: nat)
    requires x < Pow(2, k) && y < Pow(2, k)
    ensures Op(g, x, y) < Pow(2, k)
  {
    HighOp(g, x, y, k);
    assert Op(g, 0, 0) == 0;
    hide Op;
    SmallQuotient(x, Pow(2, k));
    SmallQuotient(y, Pow(2, k));
    SmallQuotient(Op(g, x, y), Pow(2, k));
  }

  lemma SmallQuotient(x: nat, p: nat)
    requires p > 0
    ensures x < p <==> x / p == 0
  {
  }
}
