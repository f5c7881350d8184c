/** The checksum of Bech32 and Bech32m strings (bitcointx/segwit_addr.py). */
module Bech32 {
  import opened Core
  import opened Numerals
  import opened Bits

  const BECH32_CONST := 1
  const BECH32M_CONST := 0x2bc8_30a3

  datatype Encoding = BECH32 | BECH32M
  {
    function Const(): nat {
      if BECH32? then BECH32_CONST else BECH32M_CONST
    }
  }

  /** The generators that the bits of the shifted-out symbol select. */
  function Generator(i: nat): nat
    requires i < 5
  {
    if i == 0 then 0x3b6a_57b2 else if i == 1 then 0x2650_8e6d else if i == 2 then 0x1ea1_19fa else if i == 3 then 0x3d42_33dd else 0x2a14_62b3
  }

  /** Doubling in the field of 32 elements, where x^5 is x^3 + 1: the bit shifted out comes back in the places of 8 and 1. */
  function Twice(a: nat): nat {
    if a < 16 then 2 * a
    else if a < 20 || 24 <= a < 28 then 2 * a - 32 + 9
    else if a < 32 then 2 * a - 32 - 7
    else 0
  }

  /** The lower coefficients of the generator polynomial of BIP173, doubled n times; the polynomial is x^6 and these. */
  function Coefficients(n: nat): (s: seq<nat>)
    ensures |s| == 6
  {
    if n == 0 then [29, 22, 20, 21, 29, 18] else Doubled(Coefficients(n - 1))
  }

  function Doubled(s: seq<nat>): (r: seq<nat>)
    ensures |r| == |s|
  {
    seq(|s|, i requires 0 <= i < |s| => Twice(s[i]))
  }

  lemma FourDoublings()
    ensures Coefficients(1) == [19, 5, 1, 3, 19, 13] && Coefficients(2) == [15, 10, 2, 6, 15, 26]
    ensures Coefficients(3) == [30, 20, 4, 12, 30, 29] && Coefficients(4) == [21, 1, 8, 24, 21, 19]
  {
    assert Doubled([29, 22, 20, 21, 29, 18]) == [19, 5, 1, 3, 19, 13];
    assert Doubled([19, 5, 1, 3, 19, 13]) == [15, 10, 2, 6, 15, 26];
    assert Doubled([15, 10, 2, 6, 15, 26]) == [30, 20, 4, 12, 30, 29];
    assert Doubled([30, 20, 4, 12, 30, 29]) == [21, 1, 8, 24, 21, 19];
  }

  /** Each generator is what a bit shifted out stands for: the coefficients times that bit. */
  lemma GeneratorsArePolynomial(i: nat)
    requires i < 5
    ensures Generator(i) == Value(32, Coefficients(i))
  {
    FourDoublings();
    hide Value;
    SixValue(Coefficients(i));
  }

  lemma XorNine(b: nat)
    ensures Xor(b, 9) == b + (if b % 2 == 0 then 1 else -1) + (if b / 8 % 2 == 0 then 8 else -8)
  {
    OpHalf(XOR, b, 9);
    OpHalf(XOR, b / 2, 4);
    OpHalf(XOR, b / 2 / 2, 2);
    OpHalf(XOR, b / 2 / 2 / 2, 1);
    XorSelf(b / 2 / 2 / 2 / 2);
    hide Op;
    var z, w := Xor(b / 2 / 2 / 2, 1), b / 2 / 2 / 2;
    assert z == w + if w % 2 == 0 then 1 else -1;
    assert Xor(b / 2 / 2, 2) == 2 * z + b / 2 / 2 % 2;
    assert w == b / 8;
  }

  /** Twice is doubling with the bits of x^3 + 1 put in for x^5. */
  lemma TwiceReduces(a: nat)
    requires a < 32
    ensures Twice(a) == if a < 16 then 2 * a else Xor(2 * a - 32, 9)
  {
    if a >= 16 {
      XorNine(2 * a - 32);
    }
    hide Xor;
  }

  lemma SixValue(s: seq<nat>)
    requires |s| == 6
    ensures Value(32, s) == 0x200_0000 * s[0] + 0x10_0000 * s[1] + 0x8000 * s[2] + 0x400 * s[3] + 32 * s[4] + s[5]
  {
    var a, b, c, d, e := s[..5], s[..4], s[..3], s[..2], s[..1];
    assert a[..4] == b && b[..3] == c && c[..2] == d && d[..1] == e && e[..0] == [];
    assert Value(32, e) == s[0];
    assert Value(32, d) == 32 * s[0] + s[1];
    assert Value(32, c) == 32 * Value(32, d) + s[2];
    assert Value(32, b) == 32 * Value(32, c) + s[3];
    assert Value(32, a) == 32 * Value(32, b) + s[4];
  }

  function BitAt(top: nat, i: nat): nat {
    Shr(top, i) % 2
  }

  function Selected(top: nat, i: nat): nat
    requires i < 5
  {
    if BitAt(top, i) == 1 then Generator(i) else 0
  }

  /** The selected generators from the first n, combined. */
  function Feedback(top: nat, n: nat): nat
    requires n <= 5
  {
    if n == 0 then 0 else Xor(Feedback(top, n - 1), Selected(top, n - 1))
  }

  function Step(chk: nat, value: nat): nat {
    Xor(Xor(Shl(And(chk, 0x1ff_ffff), 5), value), Feedback(Shr(chk, 25), 5))
  }

  /** The state after the values, from any state. */
  function Poly(chk: nat, values: seq<nat>): nat {
    if values == [] then chk else Step(Poly(chk, values[..|values| - 1]), values[|values| - 1])
  }

  method Polymod(values: seq<nat>) returns (chk: nat)
    ensures chk == Poly(1, values)
  {
    hide Shr, Shl, And, Xor;
    chk := 1;
    for j := 0 to |values|
      invariant chk == Poly(1, values[..j])
    {
      assert values[..j + 1][..j] == values[..j];
      ghost var before := chk;
      var top := Shr(chk, 25);
      chk := Xor(Shl(And(chk, 0x1ff_ffff), 5), values[j]);
      ghost var shifted := chk;
      XorSelf(chk);
      for i := 0 to 5
        invariant chk == Xor(shifted, Feedback(top, i))
      {
        XorAssociates(shifted, Feedback(top, i), Selected(top, i));
        XorSelf(chk);
        chk := Xor(chk, if BitAt(top, i) == 1 then Generator(i) else 0);
      }
      assert chk == Step(before, values[j]);
      hide Step;
    }
    assert values[..|values|] == values;
  }

  /** Two sequences combined place by place. */
  function Combine(a: seq<nat>, b: seq<nat>): (r: seq<nat>)
    requires |a| == |b|
    ensures |r| == |a| && forall i :: 0 <= i < |r| ==> r[i] == Xor(a[i], b[i])
  {
    seq(|a|, i requires 0 <= i < |a| => Xor(a[i], b[i]))
  }

  lemma BitLinear(s: nat, t: nat, i: nat)
    ensures BitAt(Xor(s, t), i) == (BitAt(s, i) + BitAt(t, i)) % 2
  {
    hide Op, Pow;
    HighOp(XOR, s, t, i);
    OpHalf(XOR, s / Pow(2, i), t / Pow(2, i));
  }

  lemma SelectedLinear(s: nat, t: nat, i: nat)
    requires i < 5
    ensures Selected(Xor(s, t), i) == Xor(Selected(s, i), Selected(t, i))
  {
    BitLinear(s, t, i);
    XorSelf(Generator(i));
    XorSelf(0);
    hide Xor, Generator, BitAt;
  }

  lemma {:induction false} FeedbackLinear(s: nat, t: nat, n: nat)
    requires n <= 5
    ensures Feedback(Xor(s, t), n) == Xor(Feedback(s, n), Feedback(t, n))
  {
    hide Xor, Selected;
    if n == 0 {
      XorSelf(0);
    } else {
      FeedbackLinear(s, t, n - 1);
      SelectedLinear(s, t, n - 1);
      XorSwap(Feedback(s, n - 1), Feedback(t, n - 1), Selected(s, n - 1), Selected(t, n - 1));
    }
  }

  lemma LowBits(chk: nat)
    ensures And(chk, 0x1ff_ffff) == chk % 0x200_0000 && 0x200_0000 == Pow(2, 25)
  {
    Pow25();
    hide And, Pow;
    MaskIsLow(chk, 25);
  }

  lemma Pow25()
    ensures Pow(2, 5) == 32 && Pow(2, 25) == 0x200_0000 && Pow(2, 30) == 0x4000_0000
  {
    assert Pow(2, 5) == 32;
    PowAdd(2, 5, 5);
    PowAdd(2, 10, 5);
    PowAdd(2, 15, 10);
    PowAdd(2, 25, 5);
    hide Pow;
  }

  lemma ShiftLinear(s: nat, t: nat)
    ensures Shl(And(Xor(s, t), 0x1ff_ffff), 5) == Xor(Shl(And(s, 0x1ff_ffff), 5), Shl(And(t, 0x1ff_ffff), 5))
    ensures Shr(Xor(s, t), 25) == Xor(Shr(s, 25), Shr(t, 25))
  {
    hide Op, Pow, And;
    LowBits(s);
    LowBits(t);
    LowBits(Xor(s, t));
    LowOp(XOR, s, t, 25);
    HighOp(XOR, s, t, 25);
    ShiftXor(s % 0x200_0000, t % 0x200_0000, 5);
  }

  lemma StepLinear(s: nat, t: nat, v: nat, w: nat)
    ensures Step(Xor(s, t), Xor(v, w)) == Xor(Step(s, v), Step(t, w))
  {
    hide Xor, Shl, Shr, And, Feedback;
    ShiftLinear(s, t);
    FeedbackLinear(Shr(s, 25), Shr(t, 25), 5);
    var a, b := Shl(And(s, 0x1ff_ffff), 5), Shl(And(t, 0x1ff_ffff), 5);
    var f, g := Feedback(Shr(s, 25), 5), Feedback(Shr(t, 25), 5);
    XorSwap(a, b, v, w);
    XorSwap(Xor(a, v), Xor(b, w), f, g);
  }

  /** The checksum is linear over exclusive or. */
  lemma {:induction false} PolyLinear(s: nat, t: nat, a: seq<nat>, b: seq<nat>)
    requires |a| == |b|
    ensures Poly(Xor(s, t), Combine(a, b)) == Xor(Poly(s, a), Poly(t, b))
    decreases |a|
  {
    hide Xor, Step;
    if a != [] {
      var n := |a| - 1;
      PolyLinear(s, t, a[..n], b[..n]);
      assert Combine(a, b)[..n] == Combine(a[..n], b[..n]);
      StepLinear(Poly(s, a[..n]), Poly(t, b[..n]), a[n], b[n]);
    }
  }

  lemma {:induction false} PolyAppend(chk: nat, a: seq<nat>, b: seq<nat>)
    ensures Poly(chk, a + b) == Poly(Poly(chk, a), b)
  {
    hide Step;
    if b == [] {
      assert a + b == a;
    } else {
      var n := |b| - 1;
      PolyAppend(chk, a, b[..n]);
      assert (a + b)[..|a + b| - 1] == a + b[..n];
    }
  }

  lemma FeedbackZero()
    ensures Feedback(0, 5) == 0
  {
    XorSelf(0);
    forall i | 0 <= i < 5
      ensures Selected(0, i) == 0
    {
      PowPositive(2, i);
    }
    hide Selected, Xor;
    assert Feedback(0, 0) == 0;
    assert Feedback(0, 1) == 0;
    assert Feedback(0, 2) == 0;
    assert Feedback(0, 3) == 0;
    assert Feedback(0, 4) == 0;
  }

  /** While nothing is shifted out, a step appends the symbol. */
  lemma SmallStep(chk: nat, value: nat)
    requires chk < 0x200_0000 && value < 32
    ensures Step(chk, value) == chk * 32 + value
  {
    hide Xor, And, Feedback, Pow;
    LowBits(chk);
    Pow25();
    assert Shl(And(chk, 0x1ff_ffff), 5) == chk * 32;
    assert Shr(chk, 25) == 0;
    FeedbackZero();
    Disjoint(chk, value, 5);
    XorSelf(chk * 32 + value);
  }

  /** Up to six symbols from the zero state are just their number. */
  lemma {:induction false} PolyOfSix(s: seq<nat>)
    requires |s| <= 6 && IsNumeral(32, s)
    ensures Poly(0, s) == Value(32, s)
  {
    hide Step;
    if s != [] {
      var n := |s| - 1;
      PolyOfSix(s[..n]);
      ValueBound(32, s[..n]);
      SixFit(n);
      SmallStep(Poly(0, s[..n]), s[n]);
    }
  }

  lemma SixFit(n: nat)
    requires n <= 5
    ensures Pow(32, n) <= 0x200_0000
  {
    assert Pow(32, 5) == 0x200_0000;
    assert Pow(32, 4) == 0x10_0000;
    assert Pow(32, 3) == 0x8000;
    assert Pow(32, 2) == 0x400;
    assert Pow(32, 1) == 32;
  }

  /** Six symbols after any state: the state after six zeros, with their number added in. */
  lemma PolySixAfter(chk: nat, s: seq<nat>)
    requires |s| == 6 && IsNumeral(32, s)
    ensures Poly(chk, s) == Xor(Poly(chk, Zeros(6)), Value(32, s))
  {
    hide Xor, Poly, Value;
    PolyLinear(chk, 0, Zeros(6), s);
    PolyOfSix(s);
    XorSelf(chk);
    forall i | 0 <= i < 6
      ensures Xor(0, s[i]) == s[i]
    {
      XorSelf(s[i]);
    }
    assert Combine(Zeros(6), s) == s;
  }

  /** The low five bits of the generators. */
  function Low(i: nat): nat
    requires i < 5
  {
    if i == 0 then 18 else if i == 1 then 13 else if i == 2 then 26 else if i == 3 then 29 else 19
  }

  function Pick(b: bool, v: nat): nat {
    if b then v else 0
  }

  lemma FeedbackLow(top: nat)
    ensures Feedback(top, 5) % 32 ==
            Xor(Xor(Xor(Xor(Pick(BitAt(top, 0) == 1, 18), Pick(BitAt(top, 1) == 1, 13)), Pick(BitAt(top, 2) == 1, 26)), Pick(BitAt(top, 3) == 1, 29)), Pick(BitAt(top, 4) == 1, 19))
  {
    hide Xor, BitAt, Pow;
    Pow25();
    forall n: nat | n < 5
      ensures Feedback(top, n + 1) % 32 == Xor(Feedback(top, n) % 32, Pick(BitAt(top, n) == 1, Low(n)))
    {
      LowXor(Feedback(top, n), Selected(top, n));
    }
    XorSelf(Pick(BitAt(top, 0) == 1, 18));
    assert Feedback(top, 0) == 0;
    hide Feedback;
    assert Feedback(top, 0 + 1) % 32 == Pick(BitAt(top, 0) == 1, Low(0));
    assert Feedback(top, 1 + 1) % 32 == Xor(Feedback(top, 1) % 32, Pick(BitAt(top, 1) == 1, Low(1)));
    assert Feedback(top, 2 + 1) % 32 == Xor(Feedback(top, 2) % 32, Pick(BitAt(top, 2) == 1, Low(2)));
    assert Feedback(top, 3 + 1) % 32 == Xor(Feedback(top, 3) % 32, Pick(BitAt(top, 3) == 1, Low(3)));
    assert Feedback(top, 4 + 1) % 32 == Xor(Feedback(top, 4) % 32, Pick(BitAt(top, 4) == 1, Low(4)));
  }

  lemma LowXor(x: nat, y: nat)
    ensures Xor(x, y) % 32 == Xor(x % 32, y % 32)
  {
    hide Op, Pow;
    Pow25();
    LowOp(XOR, x, y, 5);
  }

  function Xor5(a: nat, b: nat, c: nat, d: nat, e: nat): nat {
    Xor(Xor(Xor(Xor(a, b), c), d), e)
  }

  lemma Xor5Half(a: nat, b: nat, c: nat, d: nat, e: nat)
    ensures Xor5(a, b, c, d, e) / 2 == Xor5(a / 2, b / 2, c / 2, d / 2, e / 2)
    ensures Xor5(a, b, c, d, e) % 2 == (a % 2 + b % 2 + c % 2 + d % 2 + e % 2) % 2
  {
    hide Op;
    OpHalf(XOR, a, b);
    OpHalf(XOR, Xor(a, b), c);
    OpHalf(XOR, Xor(Xor(a, b), c), d);
    OpHalf(XOR, Xor(Xor(Xor(a, b), c), d), e);
  }

  predicate Odd(b: bool, v: nat) {
    b && v % 2 == 1
  }

  lemma PickHalf(b: bool, v: nat)
    ensures Pick(b, v) / 2 == Pick(b, v / 2) && Pick(b, v) % 2 == (if Odd(b, v) then 1 else 0)
  {
  }

  lemma PickedHalf(b0: bool, b1: bool, b2: bool, b3: bool, b4: bool, v: nat, w: nat, x: nat, y: nat, z: nat)
    requires Xor5(Pick(b0, v), Pick(b1, w), Pick(b2, x), Pick(b3, y), Pick(b4, z)) == 0
    ensures Xor5(Pick(b0, v / 2), Pick(b1, w / 2), Pick(b2, x / 2), Pick(b3, y / 2), Pick(b4, z / 2)) == 0
    ensures !((((Odd(b0, v) != Odd(b1, w)) != Odd(b2, x)) != Odd(b3, y)) != Odd(b4, z))
  {
    hide Xor5, Pick, Odd;
    Xor5Half(Pick(b0, v), Pick(b1, w), Pick(b2, x), Pick(b3, y), Pick(b4, z));
    PickHalf(b0, v);
    PickHalf(b1, w);
    PickHalf(b2, x);
    PickHalf(b3, y);
    PickHalf(b4, z);
  }

  /** The low parts of the generators are independent: bit by bit, their sum vanishes only if none is picked. */
  lemma Independent(b0: bool, b1: bool, b2: bool, b3: bool, b4: bool)
    requires Xor(Xor(Xor(Xor(Pick(b0, 18), Pick(b1, 13)), Pick(b2, 26)), Pick(b3, 29)), Pick(b4, 19)) == 0
    ensures !b0 && !b1 && !b2 && !b3 && !b4
  {
    hide Xor;
    assert Xor5(Pick(b0, 18), Pick(b1, 13), Pick(b2, 26), Pick(b3, 29), Pick(b4, 19)) == 0;
    hide Xor5, Pick;
    PickedHalf(b0, b1, b2, b3, b4, 18, 13, 26, 29, 19);
    PickedHalf(b0, b1, b2, b3, b4, 9, 6, 13, 14, 9);
    PickedHalf(b0, b1, b2, b3, b4, 4, 3, 6, 7, 4);
    PickedHalf(b0, b1, b2, b3, b4, 2, 1, 3, 3, 2);
    PickedHalf(b0, b1, b2, b3, b4, 1, 0, 1, 1, 1);
  }

  lemma NoBits(top: nat)
    requires top < 32 && forall i :: 0 <= i < 5 ==> BitAt(top, i) == 0
    ensures top == 0
  {
    assert Pow(2, 0) == 1 && Pow(2, 1) == 2 && Pow(2, 2) == 4 && Pow(2, 3) == 8 && Pow(2, 4) == 16;
    hide Pow;
    assert BitAt(top, 0) == top % 2 && BitAt(top, 1) == top / 2 % 2 && BitAt(top, 2) == top / 4 % 2 && BitAt(top, 3) == top / 8 % 2 && BitAt(top, 4) == top / 16 % 2;
  }

  /** A step without a symbol loses nothing: only the zero state goes to zero. */
  lemma StepInjective(chk: nat)
    requires chk < 0x4000_0000 && Step(chk, 0) == 0
    ensures chk == 0
  {
    hide Xor, And, Feedback, BitAt, Pow;
    LowBits(chk);
    Pow25();
    var low, top := chk % 0x200_0000, chk / 0x200_0000;
    assert top < 32 && Shr(chk, 25) == top && Shl(And(chk, 0x1ff_ffff), 5) == low * 32;
    XorSelf(low * 32);
    XorZero(low * 32, Feedback(top, 5));
    assert low * 32 == Feedback(top, 5);
    FeedbackLow(top);
    Independent(BitAt(top, 0) == 1, BitAt(top, 1) == 1, BitAt(top, 2) == 1, BitAt(top, 3) == 1, BitAt(top, 4) == 1);
    BitRange(top);
    NoBits(top);
    FeedbackZero();
  }

  lemma BitRange(top: nat)
    ensures forall i :: 0 <= i < 5 ==> BitAt(top, i) == 0 || BitAt(top, i) == 1
  {
    hide Shr;
  }

  lemma FeedbackBound(top: nat, n: nat)
    requires n <= 5
    ensures Feedback(top, n) < 0x4000_0000
  {
    hide Xor, BitAt, Pow;
    Pow25();
    if n > 0 {
      FeedbackBound(top, n - 1);
      OpBound(XOR, Feedback(top, n - 1), Selected(top, n - 1), 30);
      assert Xor(Feedback(top, n - 1), Selected(top, n - 1)) < Pow(2, 30) by {
        XorIsOp(Feedback(top, n - 1), Selected(top, n - 1));
      }
    }
  }

  lemma XorIsOp(x: nat, y: nat)
    ensures Xor(x, y) == Op(XOR, x, y)
  {
  }

  /** After a symbol the state has 30 bits. */
  lemma StepBound(chk: nat, value: nat)
    requires value < 32
    ensures Step(chk, value) < 0x4000_0000
  {
    hide Op, And, Feedback, Pow;
    LowBits(chk);
    Pow25();
    FeedbackBound(Shr(chk, 25), 5);
    hide Shr;
    var s := Shl(And(chk, 0x1ff_ffff), 5);
    assert s < 0x4000_0000;
    OpBound(XOR, s, value, 30);
    OpBound(XOR, Xor(s, value), Feedback(Shr(chk, 25), 5), 30);
  }

  lemma PolyBound(chk: nat, values: seq<nat>)
    requires if values == [] then chk < 0x4000_0000 else values[|values| - 1] < 32
    ensures Poly(chk, values) < 0x4000_0000
  {
    hide Step;
    if values != [] {
      StepBound(Poly(chk, values[..|values| - 1]), values[|values| - 1]);
    }
  }

  lemma {:induction false} ZerosInjective(chk: nat, n: nat)
    requires chk < 0x4000_0000
    ensures Poly(chk, Zeros(n)) == 0 ==> chk == 0
  {
    hide Step;
    if n > 0 {
      var z := Zeros(n);
      assert z[..n - 1] == Zeros(n - 1);
      ZerosInjective(chk, n - 1);
      PolyBound(chk, Zeros(n - 1));
      if Poly(chk, z) == 0 {
        StepInjective(Poly(chk, Zeros(n - 1)));
      }
    }
  }

  /** The two sequences agree outside six places from i on. */
  predicate DifferWithin(v: seq<nat>, w: seq<nat>, i: nat) {
    |v| == |w| && forall j :: 0 <= j < |v| && !(i <= j < i + 6) ==> v[j] == w[j]
  }

  lemma CombineSelf(a: seq<nat>)
    ensures Combine(a, a) == Zeros(|a|)
  {
    forall i | 0 <= i < |a|
      ensures Xor(a[i], a[i]) == 0
    {
      XorSelf(a[i]);
    }
  }

  /** Changing symbols within any six adjacent places always changes the checksum. */
  lemma BurstChanges(chk: nat, v: seq<nat>, w: seq<nat>, i: nat)
    requires DifferWithin(v, w, i) && i + 6 <= |v| && v != w
    requires IsNumeral(32, v[i..i + 6]) && IsNumeral(32, w[i..i + 6])
    ensures Poly(chk, v) != Poly(chk, w)
  {
    hide Xor, Poly, Step, Value;
    var a, b, c := v[..i], v[i..i + 6], v[i + 6..];
    var d := w[i..i + 6];
    assert v == a + b + c && w[..i] == a && w[i + 6..] == c && w == a + d + c;
    var e := Combine(b, d);
    PolyAppend(chk, a, b);
    PolyAppend(chk, a, d);
    PolyAppend(chk, a + b, c);
    PolyAppend(chk, a + d, c);
    var s := Poly(chk, a);
    PolyLinear(s, s, b, d);
    XorSelf(s);
    PolyLinear(Poly(s, b), Poly(s, d), c, c);
    CombineSelf(c);
    XorZero(Poly(chk, v), Poly(chk, w));
    assert Xor(Poly(chk, v), Poly(chk, w)) == Poly(Poly(0, e), Zeros(|c|));
    CombineSmall(b, d);
    PolyOfSix(e);
    CombineNonzero(b, d);
    PolyBoundSix(e);
    ZerosInjective(Poly(0, e), |c|);
  }

  lemma CombineSmall(b: seq<nat>, d: seq<nat>)
    requires |b| == |d| && IsNumeral(32, b) && IsNumeral(32, d)
    ensures IsNumeral(32, Combine(b, d))
  {
    hide Pow, Op;
    Pow25();
    forall i | 0 <= i < |b|
      ensures Combine(b, d)[i] < 32
    {
      OpBound(XOR, b[i], d[i], 5);
    }
  }

  lemma CombineNonzero(b: seq<nat>, d: seq<nat>)
    requires |b| == |d|
    ensures Value(32, Combine(b, d)) == 0 ==> b == d
  {
    hide Xor, Value;
    ValueIsZero(32, Combine(b, d));
    forall i | 0 <= i < |b|
      ensures Combine(b, d)[i] == 0 <==> b[i] == d[i]
    {
      XorZero(b[i], d[i]);
    }
  }

  lemma PolyBoundSix(e: seq<nat>)
    requires |e| == 6 && IsNumeral(32, e)
    ensures Poly(0, e) < 0x4000_0000
  {
    hide Poly;
    PolyBound(0, e);
  }

  /** The six checksum symbols, from the most significant. */
  function Symbols(n: nat): (s: seq<nat>)
    ensures |s| == 6 && IsNumeral(32, s)
  {
    seq(6, i requires 0 <= i < 6 => Shr(n, 5 * (5 - i)) % 32)
  }

  lemma {:induction false} SymbolsOf(n: nat, s: seq<nat>)
    requires n < 0x4000_0000 && |s| == 6 && IsNumeral(32, s)
    ensures s == Symbols(n) <==> Value(32, s) == n
  {
    SymbolsValue(n);
    if Value(32, s) == n {
      hide Symbols, Value;
      ValueInjective(32, s, Symbols(n));
    }
  }

  lemma TakeDigit(n: nat, a: nat)
    requires a > 0
    ensures n / a == n / (a * 32) * 32 + n / a % 32
  {
    DivDiv(n, a, 32);
    DivMod(n / a, 32);
  }

  lemma SymbolsValue(n: nat)
    requires n < 0x4000_0000
    ensures Value(32, Symbols(n)) == n
  {
    var s := Symbols(n);
    ShiftValues();
    assert s[0] == n / 0x200_0000 % 32 && s[1] == n / 0x10_0000 % 32 && s[2] == n / 0x8000 % 32 by { hide Pow; }
    assert s[3] == n / 0x400 % 32 && s[4] == n / 0x20 % 32 && s[5] == n % 32 by { hide Pow; }
    hide Symbols, Pow, Value;
    TakeDigit(n, 0x10_0000);
    TakeDigit(n, 0x8000);
    TakeDigit(n, 0x400);
    TakeDigit(n, 0x20);
    TakeDigit(n, 1);
    assert n / 0x200_0000 < 32;
    SixDigits(s, n / 0x200_0000, n / 0x10_0000, n / 0x8000, n / 0x400, n / 0x20, n);
  }

  lemma SixDigits(s: seq<nat>, a: nat, b: nat, c: nat, d: nat, e: nat, f: nat)
    requires |s| == 6 && a == s[0] && b == a * 32 + s[1] && c == b * 32 + s[2] && d == c * 32 + s[3] && e == d * 32 + s[4] && f == e * 32 + s[5]
    ensures Value(32, s) == f
  {
    ValueStep(s, 0);
    ValueStep(s, 1);
    ValueStep(s, 2);
    ValueStep(s, 3);
    ValueStep(s, 4);
    ValueStep(s, 5);
    assert s[..6] == s;
    assert Value(32, s[..0]) == 0;
    hide Value;
  }

  lemma ValueStep(s: seq<nat>, i: nat)
    requires i < |s|
    ensures Value(32, s[..i + 1]) == Value(32, s[..i]) * 32 + s[i]
  {
    assert s[..i + 1][..i] == s[..i];
  }

  lemma ShiftValues()
    ensures Pow(2, 0) == 1 && Pow(2, 5) == 0x20 && Pow(2, 10) == 0x400 && Pow(2, 15) == 0x8000 && Pow(2, 20) == 0x10_0000 && Pow(2, 25) == 0x200_0000
  {
    assert Pow(2, 5) == 32;
    PowAdd(2, 5, 5);
    PowAdd(2, 10, 5);
    PowAdd(2, 15, 5);
    PowAdd(2, 20, 5);
    hide Pow;
  }

  /** ord(x) >> 5, then a zero, then ord(x) & 31. */
  function Expand(hrp: string): seq<nat> {
    seq(|hrp|, i requires 0 <= i < |hrp| => Shr(hrp[i] as nat, 5)) + [0] + seq(|hrp|, i requires 0 <= i < |hrp| => And(hrp[i] as nat, 31))
  }

  /** The high bits of the characters, a zero and their low five bits. */
  lemma ExpandMeans(hrp: string, i: nat)
    requires i < |hrp|
    ensures var n, s := |hrp|, Expand(hrp);
            |s| == 2 * n + 1 && s[i] == hrp[i] as nat / 32 && s[n] == 0 && s[n + 1 + i] == hrp[i] as nat % 32
  {
    Pow25();
    MaskIsLow(hrp[i] as nat, 5);
    hide And, Pow;
  }

  method VerifyChecksum(hrp: string, data: seq<nat>) returns (r: Option<Encoding>)
    ensures r == Checked(hrp, data)
  {
    var check := Polymod(Expand(hrp) + data);
    return if check == BECH32_CONST then Some(BECH32) else if check == BECH32M_CONST then Some(BECH32M) else None;
  }

  function Checked(hrp: string, data: seq<nat>): Option<Encoding> {
    var check := Poly(1, Expand(hrp) + data);
    if check == BECH32_CONST then Some(BECH32) else if check == BECH32M_CONST then Some(BECH32M) else None
  }

  function Checksum(encoding: Encoding, hrp: string, data: seq<nat>): (s: seq<nat>)
    ensures |s| == 6 && IsNumeral(32, s)
  {
    Symbols(Xor(Poly(1, Expand(hrp) + data + Zeros(6)), encoding.Const()))
  }

  method CreateChecksum(encoding: Encoding, hrp: string, data: seq<nat>) returns (s: seq<nat>)
    ensures s == Checksum(encoding, hrp, data)
  {
    var polymod := Polymod(Expand(hrp) + data + Zeros(6));
    s := Symbols(Xor(polymod, encoding.Const()));
  }

  /** For every prefix and data the created symbols are the only six that verify under that encoding. */
  lemma ChecksumUnique(encoding: Encoding, hrp: string, data: seq<nat>, s: seq<nat>)
    requires |s| == 6 && IsNumeral(32, s)
    ensures Checked(hrp, data + s) == Some(encoding) <==> s == Checksum(encoding, hrp, data)
  {
    hide Xor, Poly, Expand, Symbols, Value;
    var v := Expand(hrp) + data;
    var p := Poly(1, v + Zeros(6));
    assert Expand(hrp) + (data + s) == v + s;
    PolyAppend(1, v, s);
    PolyAppend(1, v, Zeros(6));
    PolySixAfter(Poly(1, v), s);
    assert Poly(1, v + s) == Xor(p, Value(32, s));
    PolyBound(1, v + Zeros(6));
    ConstBound(p, encoding);
    SymbolsOf(Xor(p, encoding.Const()), s);
    XorSolve(p, Value(32, s), encoding.Const());
  }

  lemma ConstBound(p: nat, encoding: Encoding)
    requires p < 0x4000_0000
    ensures Xor(p, encoding.Const()) < 0x4000_0000
  {
    hide Op, Pow;
    Pow25();
    OpBound(XOR, p, encoding.Const(), 30);
  }

  lemma XorSolve(p: nat, x: nat, c: nat)
    ensures Xor(p, x) == c <==> x == Xor(p, c)
  {
    hide Xor;
    XorCommutes(p, x);
    XorCommutes(p, c);
    XorUndo(x, p);
    XorUndo(c, p);
  }

  /** A change of symbols within any six adjacent places never verifies under the same encoding. */
  lemma BurstNeverVerifies(hrp: string, data: seq<nat>, other: seq<nat>, i: nat, encoding: Encoding)
    requires DifferWithin(data, other, i) && i + 6 <= |data| && data != other
    requires IsNumeral(32, data) && IsNumeral(32, other)
    requires Checked(hrp, data) == Some(encoding)
    ensures Checked(hrp, other) != Some(encoding)
  {
    hide Poly, Expand;
    var e := Expand(hrp);
    var v, w := e + data, e + other;
    assert v[|e|..] == data && w[|e|..] == other;
    assert v[|e| + i..|e| + i + 6] == data[i..i + 6] && w[|e| + i..|e| + i + 6] == other[i..i + 6];
    BurstChanges(1, v, w, |e| + i);
  }
}
