/** What the functions of SHA-256 mean bit by bit, and what single steps give on given numbers. */
module Sha256Laws {
  import opened Core
  import opened Bits
  import opened Numerals
  import opened Sha256

  /** The bit of weight 2^i. */
  function At(x: nat, i: nat): nat {
    Shr(x, i) % 2
  }

  lemma AtStep(x: nat, i: nat)
    ensures At(x, 0) == x % 2 && At(x, i + 1) == At(x / 2, i)
  {
    PowPositive(2, i);
    DivDiv(x, 2, Pow(2, i));
  }

  lemma OpAt(g: Gate, x: nat, y: nat, i: nat)
    ensures At(Op(g, x, y), i) == Bit(Eval(g, At(x, i) == 1, At(y, i) == 1))
  {
    hide Op, Pow;
    HighOp(g, x, y, i);
    OpHalf(g, x / Pow(2, i), y / Pow(2, i));
  }

  lemma XorAt(x: nat, y: nat, i: nat)
    ensures At(Xor(x, y), i) == (At(x, i) + At(y, i)) % 2
  {
    OpAt(XOR, x, y, i);
    hide Op;
  }

  lemma {:induction false} ShrAt(x: nat, n: nat, i: nat)
    ensures At(Shr(x, n), i) == At(x, n + i)
  {
    PowPositive(2, n);
    PowPositive(2, i);
    PowAdd(2, n, i);
    DivDiv(x, Pow(2, n), Pow(2, i));
  }

  lemma {:induction false} ShlAt(x: nat, n: nat, i: nat)
    ensures At(Shl(x, n), i) == if i < n then 0 else At(x, i - n)
    decreases n
  {
    if n > 0 {
      var y := x * Pow(2, n - 1);
      assert Shl(x, n) == 2 * y by {
        Doubling(x, Pow(2, n - 1));
      }
      if i > 0 {
        ShlAt(x, n - 1, i - 1);
        AtStep(2 * y, i - 1);
      } else {
        AtStep(2 * y, 0);
      }
    }
  }

  lemma {:induction false} LowAt(x: nat, n: nat, i: nat)
    ensures Pow(2, n) > 0 && At(x % Pow(2, n), i) == if i < n then At(x, i) else 0
    decreases n
  {
    PowPositive(2, n);
    if n == 0 {
      ZeroAt(i);
    } else {
      var p := Pow(2, n - 1);
      PowPositive(2, n - 1);
      LowHalf(x, p);
      if i > 0 {
        LowAt(x / 2, n - 1, i - 1);
        AtStep(x, i - 1);
        AtStep(x % (2 * p), i - 1);
      } else {
        AtStep(x, 0);
        AtStep(x % (2 * p), 0);
      }
    }
  }

  lemma ZeroAt(i: nat)
    ensures At(0, i) == 0
  {
    PowPositive(2, i);
  }

  lemma WordPower()
    ensures WORD == Pow(2, 32)
  {
    assert Pow(2, 8) == 0x100;
    PowAdd(2, 8, 8);
    PowAdd(2, 16, 16);
    hide Pow;
  }

  lemma AboveWord(x: nat, i: nat)
    requires x < WORD
    ensures i >= 32 ==> At(x, i) == 0
  {
    WordPower();
    LowAt(x, 32, i);
    hide Pow;
  }

  /** Every bit moves n places down, around the end of the word. */
  lemma RotRAt(x: nat, n: nat, i: nat)
    requires x < WORD && 0 < n < 32 && i < 32
    ensures At(RotR(x, n), i) == At(x, (i + n) % 32)
  {
    hide At, Op, Pow, Shr, Shl;
    WordPower();
    OpAt(OR, Shr(x, n), Shl(x, 32 - n) % WORD, i);
    ShrAt(x, n, i);
    AboveWord(x, n + i);
    LowAt(Shl(x, 32 - n), 32, i);
    ShlAt(x, 32 - n, i);
    AtIsBit(x, (i + n) % 32);
  }

  lemma AtIsBit(x: nat, i: nat)
    ensures At(x, i) < 2
  {
    hide Shr;
  }

  lemma Xor3At(x: nat, y: nat, z: nat, i: nat)
    ensures At(Xor3(x, y, z), i) == (At(x, i) + At(y, i) + At(z, i)) % 2
  {
    hide At, Xor;
    XorAt(x, y, i);
    XorAt(Xor(x, y), z, i);
  }

  /** The four functions of section 4.1.2, bit by bit. */
  lemma BigSigma0At(x: nat, i: nat)
    requires x < WORD && i < 32
    ensures At(BigSigma0(x), i) == (At(x, (i + 2) % 32) + At(x, (i + 13) % 32) + At(x, (i + 22) % 32)) % 2
  {
    hide At, RotR, Xor3, Shr;
    Xor3At(RotR(x, 2), RotR(x, 13), RotR(x, 22), i);
    RotRAt(x, 2, i);
    RotRAt(x, 13, i);
    RotRAt(x, 22, i);
  }

  lemma BigSigma1At(x: nat, i: nat)
    requires x < WORD && i < 32
    ensures At(BigSigma1(x), i) == (At(x, (i + 6) % 32) + At(x, (i + 11) % 32) + At(x, (i + 25) % 32)) % 2
  {
    hide At, RotR, Xor3, Shr;
    Xor3At(RotR(x, 6), RotR(x, 11), RotR(x, 25), i);
    RotRAt(x, 6, i);
    RotRAt(x, 11, i);
    RotRAt(x, 25, i);
  }

  lemma SmallSigma0At(x: nat, i: nat)
    requires x < WORD && i < 32
    ensures At(SmallSigma0(x), i) == (At(x, (i + 7) % 32) + At(x, (i + 18) % 32) + if i + 3 < 32 then At(x, i + 3) else 0) % 2
  {
    hide At, RotR, Xor3, Shr;
    Xor3At(RotR(x, 7), RotR(x, 18), Shr(x, 3), i);
    RotRAt(x, 7, i);
    RotRAt(x, 18, i);
    ShrAt(x, 3, i);
    AboveWord(x, i + 3);
  }

  lemma SmallSigma1At(x: nat, i: nat)
    requires x < WORD && i < 32
    ensures At(SmallSigma1(x), i) == (At(x, (i + 17) % 32) + At(x, (i + 19) % 32) + if i + 10 < 32 then At(x, i + 10) else 0) % 2
  {
    hide At, RotR, Xor3, Shr;
    Xor3At(RotR(x, 17), RotR(x, 19), Shr(x, 10), i);
    RotRAt(x, 17, i);
    RotRAt(x, 19, i);
    ShrAt(x, 10, i);
    AboveWord(x, i + 10);
  }

  /** The first operand chooses between the bits of the others; the majority wins. */
  lemma ChooseAt(x: nat, y: nat, z: nat, i: nat)
    ensures At(Choose(x, y, z), i) == if At(x, i) == 1 then At(y, i) else At(z, i)
    ensures At(Majority(x, y, z), i) == if At(x, i) + At(y, i) + At(z, i) >= 2 then 1 else 0
  {
    OpAt(AND, x, y, i);
    OpAt(ANDNOT, x, z, i);
    OpAt(AND, x, z, i);
    OpAt(AND, y, z, i);
    XorAt(And(x, y), AndNot(x, z), i);
    XorAt(And(x, y), And(x, z), i);
    XorAt(Xor(And(x, y), And(x, z)), And(y, z), i);
    AtIsBit(x, i);
    AtIsBit(y, i);
    AtIsBit(z, i);
    hide At, Op;
  }

  lemma {:induction false} BitsDecide(x: nat, y: nat, n: nat)
    requires x < Pow(2, n) && y < Pow(2, n) && forall i :: 0 <= i < n ==> At(x, i) == At(y, i)
    ensures x == y
    decreases n
  {
    if n > 0 {
      AtStep(x, 0);
      AtStep(y, 0);
      forall i | 0 <= i < n - 1
        ensures At(x / 2, i) == At(y / 2, i)
      {
        AtStep(x, i);
        AtStep(y, i);
        assert At(x, i + 1) == At(y, i + 1);
      }
      hide At;
      BitsDecide(x / 2, y / 2, n - 1);
    }
  }

  /** Words are their bits, so the laws above leave no freedom. */
  lemma WordsAreBits(x: nat, y: nat)
    requires x < WORD && y < WORD && forall i :: 0 <= i < 32 ==> At(x, i) == At(y, i)
    ensures x == y
  {
    WordPower();
    hide Pow;
    BitsDecide(x, y, 32);
  }

  lemma SigmaBounds(x: nat)
    requires x < WORD
    ensures BigSigma0(x) < WORD && BigSigma1(x) < WORD && SmallSigma0(x) < WORD && SmallSigma1(x) < WORD
  {
    forall n | 0 < n < 32
      ensures RotR(x, n) < WORD && Shr(x, n) < WORD
    {
      RotRBound(x, n);
    }
    hide RotR, Shr;
    forall a: nat, b: nat | a < WORD && b < WORD
      ensures Xor(a, b) < WORD
    {
      XorBound(a, b);
    }
    hide Xor;
  }

  lemma XorBound(a: nat, b: nat)
    requires a < WORD && b < WORD
    ensures Xor(a, b) < WORD
  {
    WordPower();
    OpBound(XOR, a, b, 32);
    hide Op, Pow;
  }

  lemma RotRBound(x: nat, n: nat)
    requires x < WORD && 0 < n < 32
    ensures RotR(x, n) < WORD && Shr(x, n) < WORD
  {
    hide Op;
    PowPositive(2, n);
    DivMod(x, Pow(2, n));
    MulLe(1, Pow(2, n), x / Pow(2, n));
    WordPower();
    hide Pow;
    OpBound(OR, Shr(x, n), Shl(x, 32 - n) % WORD, 32);
  }

  lemma OneTurned(n: nat)
    requires 0 < n < 32
    ensures RotR(1, n) == Pow(2, 32 - n) && Shr(1, n) == 0
  {
    WordPower();
    PowAdd(2, n, 32 - n);
    PowPositive(2, 32 - n);
    PowPositive(2, n - 1);
    PowStep(n);
    hide Pow, Op;
    PartOfWord(Pow(2, n), Pow(2, 32 - n));
    ZeroOr(Pow(2, 32 - n));
  }

  lemma PartOfWord(p: nat, q: nat)
    requires p >= 2 && q > 0 && p * q == WORD
    ensures q < WORD && 1 / p == 0 && 1 * q % WORD == q
  {
    MulLe(2, p, q);
  }

  lemma ZeroOr(y: nat)
    requires y < WORD
    ensures Or(0, y) == y
  {
    WordPower();
    Disjoint(0, y, 32);
    hide Pow, Op;
  }

  lemma XorAdds(x: nat, k: nat, p: nat, v: nat)
    requires Pow(2, k) == p && v < p
    ensures Xor(x * p, v) == x * p + v
  {
    Disjoint(x, v, k);
    hide Op, Pow;
  }

  lemma Powers()
    ensures Pow(2, 7) == 0x80 && Pow(2, 10) == 0x400 && Pow(2, 13) == 0x2000 && Pow(2, 14) == 0x4000 && Pow(2, 15) == 0x8000
    ensures Pow(2, 19) == 0x8_0000 && Pow(2, 21) == 0x20_0000 && Pow(2, 25) == 0x200_0000 && Pow(2, 26) == 0x400_0000 && Pow(2, 30) == 0x4000_0000
  {
    assert Pow(2, 5) == 32 && Pow(2, 7) == 0x80 && Pow(2, 1) == 2;
    PowAdd(2, 5, 5);
    PowAdd(2, 7, 7);
    PowAdd(2, 7, 1);
    PowAdd(2, 8, 5);
    PowAdd(2, 14, 1);
    PowAdd(2, 14, 5);
    PowAdd(2, 14, 7);
    PowAdd(2, 15, 10);
    PowAdd(2, 25, 1);
    PowAdd(2, 25, 5);
    hide Pow;
  }

  /** On the word one. */
  lemma SigmasOfOne()
    ensures BigSigma0(1) == 0x4008_0400 && BigSigma1(1) == 0x0420_0080
    ensures SmallSigma0(1) == 0x0200_4000 && SmallSigma1(1) == 0x0000_a000
  {
    hide RotR, Shr, Pow, Xor;
    Powers();
    OneTurned(2);
    OneTurned(13);
    OneTurned(22);
    XorAdds(1, 30, 0x4000_0000, 0x8_0000);
    XorAdds(0x801, 19, 0x8_0000, 0x400);
    OneTurned(6);
    OneTurned(11);
    OneTurned(25);
    XorAdds(1, 26, 0x400_0000, 0x20_0000);
    XorAdds(0x21, 21, 0x20_0000, 0x80);
    OneTurned(7);
    OneTurned(18);
    OneTurned(3);
    XorAdds(1, 25, 0x200_0000, 0x4000);
    XorAdds(0x801, 14, 0x4000, 0);
    OneTurned(17);
    OneTurned(19);
    OneTurned(10);
    XorAdds(1, 15, 0x8000, 0x2000);
    XorAdds(5, 13, 0x2000, 0);
  }

  lemma SmallGates()
    ensures Choose(1, 3, 66) == 67 && Majority(1, 1, 4) == 1
  {
    assert And(1, 3) == 1 && And(1, 1) == 1 && And(1, 4) == 0;
    assert AndNot(1, 66) == 66;
    hide And, AndNot;
    assert Pow(2, 1) == 2;
    XorAdds(33, 1, 2, 1);
    XorCommutes(1, 66);
    XorSelf(1);
    XorSelf(0);
    hide Xor;
  }

  /** How the sums of a round go together, reduced only at the end. */
  lemma StepAdds(r: Registers, k: nat, w: nat, t1: nat, t2: nat)
    requires t1 == r.h + BigSigma1(r.e) + Choose(r.e, r.f, r.g) + k + w && t2 == BigSigma0(r.a) + Majority(r.a, r.b, r.c)
    ensures Step(r, k, w) == Registers((t1 + t2) % WORD, r.a, r.b, r.c, (r.d + t1) % WORD, r.e, r.f, r.g)
  {
    hide BigSigma0, BigSigma1, Choose, Majority;
  }

  /** One round on given registers, a constant and a word; d is the highest word, so that its sum wraps around. */
  lemma StepOnNumbers(r: Registers)
    requires r == Registers(1, 1, 4, 0xffff_ffff, 1, 3, 66, 128)
    ensures Step(r, 256, 512) == Registers(0x4428_0844, 1, 1, 4, 0x0420_0442, 1, 3, 66)
  {
    hide BigSigma0, BigSigma1, SmallSigma0, SmallSigma1, Choose, Majority, Step;
    SigmasOfOne();
    SmallGates();
    StepAdds(r, 256, 512, 0x0420_0443, 0x4008_0401);
  }

  lemma WordStep(m: seq<nat>)
    requires |m| == 16
    ensures W(m, 16) == (SmallSigma1(m[14]) + m[9] + SmallSigma0(m[1]) + m[0]) % WORD
  {
    hide SmallSigma0, SmallSigma1;
  }

  /** The first word beyond the block, from the four words it is made of. */
  lemma WordOnNumbers(m: seq<nat>)
    requires |m| == 16 && m[0] == 0xffff_ffff && m[1] == 1 && m[9] == 0x10 && m[14] == 1
    ensures W(m, 16) == 0x0200_e00f
  {
    hide BigSigma0, BigSigma1, SmallSigma0, SmallSigma1, W;
    SigmasOfOne();
    WordStep(m);
  }

  /** Blocks are big-endian words. */
  lemma WordsAreBigEndian(block: Bytes, i: nat)
    requires |block| == 64 && i < 16
    ensures var a: nat, b: nat, c: nat, d: nat := block[4 * i], block[4 * i + 1], block[4 * i + 2], block[4 * i + 3];
            Words(block)[i] == 0x100_0000 * a + 0x1_0000 * b + 0x100 * c + d
  {
    FourDigits(block[4 * i], block[4 * i + 1], block[4 * i + 2], block[4 * i + 3]);
    hide Value;
    assert block[4 * i..4 * i + 4] == [block[4 * i], block[4 * i + 1], block[4 * i + 2], block[4 * i + 3]];
  }

  lemma FourDigits(a: nat, b: nat, c: nat, d: nat)
    ensures Value(256, [a, b, c, d]) == 0x100_0000 * a + 0x1_0000 * b + 0x100 * c + d
  {
    assert [a, b, c, d][..3] == [a, b, c] && [a, b, c][..2] == [a, b] && [a, b][..1] == [a] && [a][..0] == [];
    assert Value(256, [a]) == a;
    assert Value(256, [a, b]) == 256 * a + b;
    assert Value(256, [a, b, c]) == 256 * Value(256, [a, b]) + c;
  }

  /** A block adds the registers after the rounds to those before, word by word. */
  lemma CompressAdds(r: Registers, block: Bytes)
    requires |block| == 64
    ensures var n, x := Compress(r, block), Rounds(r, Words(block), 64);
            && (n.a - r.a - x.a) % WORD == 0 && (n.b - r.b - x.b) % WORD == 0 && (n.c - r.c - x.c) % WORD == 0 && (n.d - r.d - x.d) % WORD == 0
            && (n.e - r.e - x.e) % WORD == 0 && (n.f - r.f - x.f) % WORD == 0 && (n.g - r.g - x.g) % WORD == 0 && (n.h - r.h - x.h) % WORD == 0
            && n.a < WORD && n.b < WORD && n.c < WORD && n.d < WORD && n.e < WORD && n.f < WORD && n.g < WORD && n.h < WORD
  {
    hide Rounds, Words;
  }

  /** The padded message: the message, the byte 0x80, zeros and the number of bits, in the fewest whole blocks. */
  lemma PaddingIsCanonical(message: Bytes)
    requires 8 * |message| < Pow(256, 8)
    ensures var s, n := Pad(message), |message|;
            && |s| % 64 == 0 && n + 9 <= |s| < n + 9 + 64
            && s[..n] == message && s[n] == 0x80 && (forall i :: n < i < |s| - 8 ==> s[i] == 0)
            && Value(256, s[|s| - 8..]) == 8 * n
  {
    ValuePackBE(8 * |message|, 8);
    hide Value, PackBE, Pow;
    var s := Pad(message);
    assert s[|s| - 8..] == PackBE(8 * |message|, 8);
  }

  lemma FourParts(a: Bytes, b: Bytes, c: Bytes, d: Bytes)
    requires |a| == |b| == |c| == |d| == 4
    ensures var s := a + b + c + d; |s| == 16 && s[..4] == a && s[4..8] == b && s[8..12] == c && s[12..] == d
  {
  }

  /** The digest is the eight registers as big-endian words, in order. */
  lemma DigestIsBigEndian(r: Registers)
    requires r.a < WORD && r.b < WORD && r.c < WORD && r.d < WORD && r.e < WORD && r.f < WORD && r.g < WORD && r.h < WORD
    ensures var d := Digest(r); var left, right := d[..16], d[16..];
            && |d| == 32
            && Value(256, left[..4]) == r.a && Value(256, left[4..8]) == r.b && Value(256, left[8..12]) == r.c && Value(256, left[12..]) == r.d
            && Value(256, right[..4]) == r.e && Value(256, right[4..8]) == r.f && Value(256, right[8..12]) == r.g && Value(256, right[12..]) == r.h
  {
    assert Pow(256, 4) == WORD;
    forall x: nat | x < WORD
      ensures Value(256, PackBE(x, 4)) == x
    {
      ValuePackBE(x, 4);
    }
    hide Value, PackBE, Pow;
    FourParts(PackBE(r.a, 4), PackBE(r.b, 4), PackBE(r.c, 4), PackBE(r.d, 4));
    FourParts(PackBE(r.e, 4), PackBE(r.f, 4), PackBE(r.g, 4), PackBE(r.h, 4));
    var left := PackBE(r.a, 4) + PackBE(r.b, 4) + PackBE(r.c, 4) + PackBE(r.d, 4);
    var right := PackBE(r.e, 4) + PackBE(r.f, 4) + PackBE(r.g, 4) + PackBE(r.h, 4);
    assert Digest(r) == left + right;
  }
}
