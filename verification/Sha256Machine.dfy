/** The word functions and CSHA256 of bitcointx/core/sha256.py: the transform unrolled over rotating indices, and the buffer. */
module Sha256Machine {
  import opened Core
  import opened Bits
  import opened Numerals
  import opened Sha256

  const SHA256_MAX := 0x1fff_ffff_ffff_ffff

  function Ch(x: nat, y: nat, z: nat): nat {
    Xor(z, And(x, Xor(y, z)))
  }

  function Maj(x: nat, y: nat, z: nat): nat {
    Or(And(x, y), And(z, Or(x, y)))
  }

  function Turn(x: nat, right: nat, left: nat): nat {
    Or(Shr(x, right), Shl(x, left))
  }

  function Sigma0(x: nat): nat {
    Xor(Xor(Turn(x, 2, 30), Turn(x, 13, 19)), Turn(x, 22, 10))
  }

  function Sigma1(x: nat): nat {
    Xor(Xor(Turn(x, 6, 26), Turn(x, 11, 21)), Turn(x, 25, 7))
  }

  function LittleSigma0(x: nat): nat {
    Xor(Xor(Turn(x, 7, 25), Turn(x, 18, 14)), Shr(x, 3))
  }

  function LittleSigma1(x: nat): nat {
    Xor(Xor(Turn(x, 17, 15), Turn(x, 19, 13)), Shr(x, 10))
  }

  function Uint32(x: nat): nat {
    And(x, 0xffff_ffff)
  }

  lemma WordIsPower()
    ensures WORD == Pow(2, 32)
  {
    assert Pow(2, 8) == 0x100;
    PowAdd(2, 8, 8);
    PowAdd(2, 16, 16);
    hide Pow;
  }

  lemma LowOf(g: Gate, x: nat, y: nat)
    ensures Op(g, x, y) % WORD == Op(g, x % WORD, y % WORD)
  {
    hide Op, Pow;
    WordIsPower();
    LowOp(g, x, y, 32);
  }

  lemma Uint32IsLow(x: nat)
    ensures Uint32(x) == x % WORD
  {
    hide And, Pow;
    WordIsPower();
    MaskIsLow(x, 32);
  }

  lemma ShrSmaller(x: nat, n: nat)
    ensures Shr(x, n) <= x
  {
    var p := Pow(2, n);
    PowPositive(2, n);
    assert x / p <= x by {
      DivMod(x, p);
      MulLe(1, p, x / p);
    }
  }

  /** Shifting without masking and then masking is rotating. */
  lemma LowTurn(x: nat, n: nat)
    requires x < WORD && n <= 32
    ensures Turn(x, n, 32 - n) % WORD == RotR(x, n)
  {
    hide Op, Shl, Shr;
    LowOf(OR, Shr(x, n), Shl(x, 32 - n));
    ShrSmaller(x, n);
  }

  lemma LowXor3(x: nat, y: nat, z: nat)
    ensures Xor(Xor(x, y), z) % WORD == Xor3(x % WORD, y % WORD, z % WORD)
  {
    hide Op;
    LowOf(XOR, x, y);
    LowOf(XOR, Xor(x, y), z);
  }

  lemma LowBigSigmas(x: nat)
    requires x < WORD
    ensures Sigma0(x) % WORD == BigSigma0(x) && Sigma1(x) % WORD == BigSigma1(x)
  {
    hide Xor, Xor3, RotR, Turn;
    LowTurn(x, 2);
    LowTurn(x, 13);
    LowTurn(x, 22);
    LowXor3(Turn(x, 2, 30), Turn(x, 13, 19), Turn(x, 22, 10));
    LowTurn(x, 6);
    LowTurn(x, 11);
    LowTurn(x, 25);
    LowXor3(Turn(x, 6, 26), Turn(x, 11, 21), Turn(x, 25, 7));
  }

  lemma LowSmallSigmas(x: nat)
    requires x < WORD
    ensures LittleSigma0(x) % WORD == SmallSigma0(x) && LittleSigma1(x) % WORD == SmallSigma1(x)
  {
    hide Xor, Xor3, RotR, Turn, Shr;
    LowTurn(x, 7);
    LowTurn(x, 18);
    ShrSmaller(x, 3);
    LowXor3(Turn(x, 7, 25), Turn(x, 18, 14), Shr(x, 3));
    LowTurn(x, 17);
    LowTurn(x, 19);
    ShrSmaller(x, 10);
    LowXor3(Turn(x, 17, 15), Turn(x, 19, 13), Shr(x, 10));
  }

  function Next(i: nat): nat {
    if i == 7 then 0 else i + 1
  }

  predicate Circle(a: nat, b: nat, c: nat, d: nat, e: nat, f: nat, g: nat, h: nat) {
    a < 8 && b == Next(a) && c == Next(b) && d == Next(c) && e == Next(d) && f == Next(e) && g == Next(f) && h == Next(g)
  }

  /** Eight words that are the registers, at the indices of the circle that starts at a. */
  predicate Holds(x: seq<nat>, a: nat, r: Registers) {
    && |x| == 8 && a < 8 && (forall j :: 0 <= j < 8 ==> x[j] < WORD)
    && var b := Next(a); var c := Next(b); var d := Next(c); var e := Next(d); var f := Next(e); var g := Next(f);
       r == Registers(x[a], x[b], x[c], x[d], x[e], x[f], x[g], x[Next(g)])
  }

  /** A sum may be masked term by term or as a whole. */
  lemma SumLow(rest: nat, x: nat)
    ensures (rest + x) % WORD == (rest + x % WORD) % WORD
  {
  }

  lemma RoundSums(a: nat, b: nat, c: nat, d: nat, e: nat, f: nat, g: nat, h: nat, k: nat, w: nat)
    requires a < WORD && e < WORD
    ensures var t1 := Uint32(h + Sigma1(e) + Ch(e, f, g) + k + w);
            var t2 := Uint32(Sigma0(a) + Maj(a, b, c));
            && Uint32(d + t1) < WORD && Uint32(t1 + t2) < WORD
            && Step(Registers(a, b, c, d, e, f, g, h), k, w % WORD) == Registers(Uint32(t1 + t2), a, b, c, Uint32(d + t1), e, f, g)
  {
    hide Op, Sigma0, Sigma1, BigSigma0, BigSigma1, Uint32;
    LowBigSigmas(e);
    LowBigSigmas(a);
    ChoiceForms(e, f, g);
    MajorityForms(a, b, c);
    assert Ch(e, f, g) == Choose(e, f, g) && Maj(a, b, c) == Majority(a, b, c);
    hide Ch, Maj, Choose, Majority;
    SumLow(h + Ch(e, f, g) + k + w, Sigma1(e));
    SumLow(h + BigSigma1(e) + Ch(e, f, g) + k, w);
    SumLow(Maj(a, b, c), Sigma0(a));
    var t1, t2 := Uint32(h + Sigma1(e) + Ch(e, f, g) + k + w), Uint32(Sigma0(a) + Maj(a, b, c));
    Uint32IsLow(h + Sigma1(e) + Ch(e, f, g) + k + w);
    Uint32IsLow(Sigma0(a) + Maj(a, b, c));
    Uint32IsLow(d + t1);
    Uint32IsLow(t1 + t2);
  }

  lemma CircleTurns(a: nat, b: nat, c: nat, d: nat, e: nat, f: nat, g: nat, h: nat)
    requires Circle(a, b, c, d, e, f, g, h)
    ensures Circle(h, a, b, c, d, e, f, g) && h < 8 && d < 8
    ensures d !in {a, b, c, e, f, g, h} && h !in {a, b, c, d, e, f, g}
  {
  }

  /** Two of the words change, and the circle starts one index earlier. */
  lemma Turned(x: seq<nat>, a: nat, b: nat, c: nat, d: nat, e: nat, f: nat, g: nat, h: nat, r: Registers, u: nat, v: nat)
    requires Circle(a, b, c, d, e, f, g, h) && Holds(x, a, r) && u < WORD && v < WORD
    ensures Holds(x[d := v][h := u], h, Registers(u, r.a, r.b, r.c, v, r.e, r.f, r.g))
  {
    CircleTurns(a, b, c, d, e, f, g, h);
    assert r == Registers(x[a], x[b], x[c], x[d], x[e], x[f], x[g], x[h]);
    hide Next;
  }

  /** One round in place; afterwards the circle starts one index earlier. */
  method Round(a: nat, b: nat, c: nat, d: nat, e: nat, f: nat, g: nat, h: nat, k: nat, w: nat, x: array<nat>,
               ghost r: Registers, ghost m: seq<nat>, ghost t: nat)
    requires Circle(a, b, c, d, e, f, g, h) && |m| == 16 && t < 64
    requires k == K(t) && w % WORD == W(m, t)
    requires Holds(x[..], a, Rounds(r, m, t))
    modifies x
    ensures Holds(x[..], h, Rounds(r, m, t + 1))
  {
    hide Ch, Maj, Sigma0, Sigma1, Uint32, Step, W, K;
    ghost var before := Rounds(r, m, t);
    assert Rounds(r, m, t + 1) == Step(before, k, w % WORD);
    hide Rounds;
    ghost var s := x[..];
    RoundSums(x[a], x[b], x[c], x[d], x[e], x[f], x[g], x[h], k, w);
    var t1 := Uint32(x[h] + Sigma1(x[e]) + Ch(x[e], x[f], x[g]) + k + w);
    var t2 := Uint32(Sigma0(x[a]) + Maj(x[a], x[b], x[c]));
    Turned(s, a, b, c, d, e, f, g, h, before, Uint32(t1 + t2), Uint32(x[d] + t1));
    x[d] := Uint32(x[d] + t1);
    x[h] := Uint32(t1 + t2);
    assert x[..] == s[d := Uint32(s[d] + t1)][h := Uint32(t1 + t2)];
    hide Holds;
  }

  /** A word of the schedule. */
  predicate AtStep(m: seq<nat>, t: nat, w: nat)
    requires |m| == 16
  {
    w < WORD && w == W(m, t)
  }

  lemma ScheduleSum(w16: nat, w2: nat, w7: nat, w15: nat, m: seq<nat>, t: nat)
    requires |m| == 16 && 16 <= t
    requires AtStep(m, t - 16, w16) && AtStep(m, t - 2, w2) && AtStep(m, t - 7, w7) && AtStep(m, t - 15, w15)
    ensures (w16 + LittleSigma1(w2) + w7 + LittleSigma0(w15)) % WORD == W(m, t)
    ensures AtStep(m, t, Uint32(w16 + LittleSigma1(w2) + w7 + LittleSigma0(w15)))
  {
    hide LittleSigma0, LittleSigma1, SmallSigma0, SmallSigma1, Uint32;
    LowSmallSigmas(w2);
    LowSmallSigmas(w15);
    SumLow(w16 + w7 + LittleSigma0(w15), LittleSigma1(w2));
    SumLow(w16 + w7 + SmallSigma1(w2), LittleSigma0(w15));
    Uint32IsLow(w16 + LittleSigma1(w2) + w7 + LittleSigma0(w15));
  }

  method Extend(w16: nat, w2: nat, w7: nat, w15: nat, ghost m: seq<nat>, ghost t: nat) returns (w: nat)
    requires |m| == 16 && 16 <= t
    requires AtStep(m, t - 16, w16) && AtStep(m, t - 2, w2) && AtStep(m, t - 7, w7) && AtStep(m, t - 15, w15)
    ensures AtStep(m, t, w) && w % WORD == W(m, t)
  {
    hide LittleSigma0, LittleSigma1, Uint32, W;
    ScheduleSum(w16, w2, w7, w15, m, t);
    w := Uint32(w16 + LittleSigma1(w2) + w7 + LittleSigma0(w15));
  }

  /** Big-endian word of the first four bytes. */
  function ReadBE32(b: Bytes): nat
    requires |b| >= 4
  {
    Value(256, b[..4])
  }

  lemma ReadsWord(chunk: Bytes, t: nat)
    requires |chunk| >= 64 && t < 16
    ensures AtStep(Words(chunk[..64]), t, ReadBE32(chunk[4 * t..]))
    ensures ReadBE32(chunk[4 * t..]) % WORD == W(Words(chunk[..64]), t)
  {
    hide Value, Pow;
    assert chunk[4 * t..][..4] == chunk[..64][4 * t..4 * t + 4];
    ValueBound(256, chunk[4 * t..][..4]);
    assert Pow(256, 4) == WORD by {
      FourBytes();
    }
  }

  lemma FourBytes()
    ensures Pow(256, 4) == WORD
  {
  }

  /** Rounds 0 to 7, on words of the block itself. */
  method Rounds0(chunk: Bytes, x: array<nat>, ghost r: Registers, ghost m: seq<nat>)
    returns (w0: nat, w1: nat, w2: nat, w3: nat, w4: nat, w5: nat, w6: nat, w7: nat)
    requires |chunk| >= 64 && m == Words(chunk[..64]) && Holds(x[..], 0, Rounds(r, m, 0))
    modifies x
    ensures Holds(x[..], 0, Rounds(r, m, 8))
    ensures AtStep(m, 0, w0) && AtStep(m, 1, w1) && AtStep(m, 2, w2) && AtStep(m, 3, w3)
    ensures AtStep(m, 4, w4) && AtStep(m, 5, w5) && AtStep(m, 6, w6) && AtStep(m, 7, w7)
  {
    hide Holds, W, Rounds, ReadBE32, Words, AtStep;
    ReadsWord(chunk, 0);
    w0 := ReadBE32(chunk[0..]);
    Round(0, 1, 2, 3, 4, 5, 6, 7, 0x428a_2f98, w0, x, r, m, 0);
    ReadsWord(chunk, 1);
    w1 := ReadBE32(chunk[4..]);
    Round(7, 0, 1, 2, 3, 4, 5, 6, 0x7137_4491, w1, x, r, m, 1);
    ReadsWord(chunk, 2);
    w2 := ReadBE32(chunk[8..]);
    Round(6, 7, 0, 1, 2, 3, 4, 5, 0xb5c0_fbcf, w2, x, r, m, 2);
    ReadsWord(chunk, 3);
    w3 := ReadBE32(chunk[12..]);
    Round(5, 6, 7, 0, 1, 2, 3, 4, 0xe9b5_dba5, w3, x, r, m, 3);
    ReadsWord(chunk, 4);
    w4 := ReadBE32(chunk[16..]);
    Round(4, 5, 6, 7, 0, 1, 2, 3, 0x3956_c25b, w4, x, r, m, 4);
    ReadsWord(chunk, 5);
    w5 := ReadBE32(chunk[20..]);
    Round(3, 4, 5, 6, 7, 0, 1, 2, 0x59f1_11f1, w5, x, r, m, 5);
    ReadsWord(chunk, 6);
    w6 := ReadBE32(chunk[24..]);
    Round(2, 3, 4, 5, 6, 7, 0, 1, 0x923f_82a4, w6, x, r, m, 6);
    ReadsWord(chunk, 7);
    w7 := ReadBE32(chunk[28..]);
    Round(1, 2, 3, 4, 5, 6, 7, 0, 0xab1c_5ed5, w7, x, r, m, 7);
  }

  /** Rounds 8 to 15, on words of the block itself. */
  method Rounds8(chunk: Bytes, x: array<nat>, ghost r: Registers, ghost m: seq<nat>)
    returns (w8: nat, w9: nat, w10: nat, w11: nat, w12: nat, w13: nat, w14: nat, w15: nat)
    requires |chunk| >= 64 && m == Words(chunk[..64]) && Holds(x[..], 0, Rounds(r, m, 8))
    modifies x
    ensures Holds(x[..], 0, Rounds(r, m, 16))
    ensures AtStep(m, 8, w8) && AtStep(m, 9, w9) && AtStep(m, 10, w10) && AtStep(m, 11, w11)
    ensures AtStep(m, 12, w12) && AtStep(m, 13, w13) && AtStep(m, 14, w14) && AtStep(m, 15, w15)
  {
    hide Holds, W, Rounds, ReadBE32, Words, AtStep;
    ReadsWord(chunk, 8);
    w8 := ReadBE32(chunk[32..]);
    Round(0, 1, 2, 3, 4, 5, 6, 7, 0xd807_aa98, w8, x, r, m, 8);
    ReadsWord(chunk, 9);
    w9 := ReadBE32(chunk[36..]);
    Round(7, 0, 1, 2, 3, 4, 5, 6, 0x1283_5b01, w9, x, r, m, 9);
    ReadsWord(chunk, 10);
    w10 := ReadBE32(chunk[40..]);
    Round(6, 7, 0, 1, 2, 3, 4, 5, 0x2431_85be, w10, x, r, m, 10);
    ReadsWord(chunk, 11);
    w11 := ReadBE32(chunk[44..]);
    Round(5, 6, 7, 0, 1, 2, 3, 4, 0x550c_7dc3, w11, x, r, m, 11);
    ReadsWord(chunk, 12);
    w12 := ReadBE32(chunk[48..]);
    Round(4, 5, 6, 7, 0, 1, 2, 3, 0x72be_5d74, w12, x, r, m, 12);
    ReadsWord(chunk, 13);
    w13 := ReadBE32(chunk[52..]);
    Round(3, 4, 5, 6, 7, 0, 1, 2, 0x80de_b1fe, w13, x, r, m, 13);
    ReadsWord(chunk, 14);
    w14 := ReadBE32(chunk[56..]);
    Round(2, 3, 4, 5, 6, 7, 0, 1, 0x9bdc_06a7, w14, x, r, m, 14);
    ReadsWord(chunk, 15);
    w15 := ReadBE32(chunk[60..]);
    Round(1, 2, 3, 4, 5, 6, 7, 0, 0xc19b_f174, w15, x, r, m, 15);
  }

  /** Rounds 16 to 23, each on a word computed from four of the last sixteen. */
  method Rounds16(w0: nat, w1: nat, w2: nat, w3: nat, w4: nat, w5: nat, w6: nat, w7: nat, w8: nat, w9: nat, w10: nat, w11: nat, w12: nat, w13: nat, w14: nat, w15: nat,
                  x: array<nat>, ghost r: Registers, ghost m: seq<nat>)
    returns (v0: nat, v1: nat, v2: nat, v3: nat, v4: nat, v5: nat, v6: nat, v7: nat)
    requires |m| == 16 && Holds(x[..], 0, Rounds(r, m, 16))
    requires AtStep(m, 0, w0) && AtStep(m, 1, w1) && AtStep(m, 2, w2) && AtStep(m, 3, w3)
    requires AtStep(m, 4, w4) && AtStep(m, 5, w5) && AtStep(m, 6, w6) && AtStep(m, 7, w7)
    requires AtStep(m, 8, w8) && AtStep(m, 9, w9) && AtStep(m, 10, w10) && AtStep(m, 11, w11)
    requires AtStep(m, 12, w12) && AtStep(m, 13, w13) && AtStep(m, 14, w14) && AtStep(m, 15, w15)
    modifies x
    ensures Holds(x[..], 0, Rounds(r, m, 24))
    ensures AtStep(m, 16, v0) && AtStep(m, 17, v1) && AtStep(m, 18, v2) && AtStep(m, 19, v3)
    ensures AtStep(m, 20, v4) && AtStep(m, 21, v5) && AtStep(m, 22, v6) && AtStep(m, 23, v7)
  {
    hide Holds, W, Rounds, AtStep, LittleSigma0, LittleSigma1;
    v0 := Extend(w0, w14, w9, w1, m, 16);
    Round(0, 1, 2, 3, 4, 5, 6, 7, 0xe49b_69c1, v0, x, r, m, 16);
    v1 := Extend(w1, w15, w10, w2, m, 17);
    Round(7, 0, 1, 2, 3, 4, 5, 6, 0xefbe_4786, v1, x, r, m, 17);
    v2 := Extend(w2, v0, w11, w3, m, 18);
    Round(6, 7, 0, 1, 2, 3, 4, 5, 0x0fc1_9dc6, v2, x, r, m, 18);
    v3 := Extend(w3, v1, w12, w4, m, 19);
    Round(5, 6, 7, 0, 1, 2, 3, 4, 0x240c_a1cc, v3, x, r, m, 19);
    v4 := Extend(w4, v2, w13, w5, m, 20);
    Round(4, 5, 6, 7, 0, 1, 2, 3, 0x2de9_2c6f, v4, x, r, m, 20);
    v5 := Extend(w5, v3, w14, w6, m, 21);
    Round(3, 4, 5, 6, 7, 0, 1, 2, 0x4a74_84aa, v5, x, r, m, 21);
    v6 := Extend(w6, v4, w15, w7, m, 22);
    Round(2, 3, 4, 5, 6, 7, 0, 1, 0x5cb0_a9dc, v6, x, r, m, 22);
    v7 := Extend(w7, v5, v0, w8, m, 23);
    Round(1, 2, 3, 4, 5, 6, 7, 0, 0x76f9_88da, v7, x, r, m, 23);
  }

  /** Rounds 24 to 31, each on a word computed from four of the last sixteen. */
  method Rounds24(w0: nat, w1: nat, w2: nat, w3: nat, w4: nat, w5: nat, w6: nat, w7: nat, w8: nat, w9: nat, w10: nat, w11: nat, w12: nat, w13: nat, w14: nat, w15: nat,
                  x: array<nat>, ghost r: Registers, ghost m: seq<nat>)
    returns (v8: nat, v9: nat, v10: nat, v11: nat, v12: nat, v13: nat, v14: nat, v15: nat)
    requires |m| == 16 && Holds(x[..], 0, Rounds(r, m, 24))
    requires AtStep(m, 16, w0) && AtStep(m, 17, w1) && AtStep(m, 18, w2) && AtStep(m, 19, w3)
    requires AtStep(m, 20, w4) && AtStep(m, 21, w5) && AtStep(m, 22, w6) && AtStep(m, 23, w7)
    requires AtStep(m, 8, w8) && AtStep(m, 9, w9) && AtStep(m, 10, w10) && AtStep(m, 11, w11)
    requires AtStep(m, 12, w12) && AtStep(m, 13, w13) && AtStep(m, 14, w14) && AtStep(m, 15, w15)
    modifies x
    ensures Holds(x[..], 0, Rounds(r, m, 32))
    ensures AtStep(m, 24, v8) && AtStep(m, 25, v9) && AtStep(m, 26, v10) && AtStep(m, 27, v11)
    ensures AtStep(m, 28, v12) && AtStep(m, 29, v13) && AtStep(m, 30, v14) && AtStep(m, 31, v15)
  {
    hide Holds, W, Rounds, AtStep, LittleSigma0, LittleSigma1;
    v8 := Extend(w8, w6, w1, w9, m, 24);
    Round(0, 1, 2, 3, 4, 5, 6, 7, 0x983e_5152, v8, x, r, m, 24);
    v9 := Extend(w9, w7, w2, w10, m, 25);
    Round(7, 0, 1, 2, 3, 4, 5, 6, 0xa831_c66d, v9, x, r, m, 25);
    v10 := Extend(w10, v8, w3, w11, m, 26);
    Round(6, 7, 0, 1, 2, 3, 4, 5, 0xb003_27c8, v10, x, r, m, 26);
    v11 := Extend(w11, v9, w4, w12, m, 27);
    Round(5, 6, 7, 0, 1, 2, 3, 4, 0xbf59_7fc7, v11, x, r, m, 27);
    v12 := Extend(w12, v10, w5, w13, m, 28);
    Round(4, 5, 6, 7, 0, 1, 2, 3, 0xc6e0_0bf3, v12, x, r, m, 28);
    v13 := Extend(w13, v11, w6, w14, m, 29);
    Round(3, 4, 5, 6, 7, 0, 1, 2, 0xd5a7_9147, v13, x, r, m, 29);
    v14 := Extend(w14, v12, w7, w15, m, 30);
    Round(2, 3, 4, 5, 6, 7, 0, 1, 0x06ca_6351, v14, x, r, m, 30);
    v15 := Extend(w15, v13, v8, w0, m, 31);
    Round(1, 2, 3, 4, 5, 6, 7, 0, 0x1429_2967, v15, x, r, m, 31);
  }

  /** Rounds 32 to 39, each on a word computed from four of the last sixteen. */
  method Rounds32(w0: nat, w1: nat, w2: nat, w3: nat, w4: nat, w5: nat, w6: nat, w7: nat, w8: nat, w9: nat, w10: nat, w11: nat, w12: nat, w13: nat, w14: nat, w15: nat,
                  x: array<nat>, ghost r: Registers, ghost m: seq<nat>)
    returns (v0: nat, v1: nat, v2: nat, v3: nat, v4: nat, v5: nat, v6: nat, v7: nat)
    requires |m| == 16 && Holds(x[..], 0, Rounds(r, m, 32))
    requires AtStep(m, 16, w0) && AtStep(m, 17, w1) && AtStep(m, 18, w2) && AtStep(m, 19, w3)
    requires AtStep(m, 20, w4) && AtStep(m, 21, w5) && AtStep(m, 22, w6) && AtStep(m, 23, w7)
    requires AtStep(m, 24, w8) && AtStep(m, 25, w9) && AtStep(m, 26, w10) && AtStep(m, 27, w11)
    requires AtStep(m, 28, w12) && AtStep(m, 29, w13) && AtStep(m, 30, w14) && AtStep(m, 31, w15)
    modifies x
    ensures Holds(x[..], 0, Rounds(r, m, 40))
    ensures AtStep(m, 32, v0) && AtStep(m, 33, v1) && AtStep(m, 34, v2) && AtStep(m, 35, v3)
    ensures AtStep(m, 36, v4) && AtStep(m, 37, v5) && AtStep(m, 38, v6) && AtStep(m, 39, v7)
  {
    hide Holds, W, Rounds, AtStep, LittleSigma0, LittleSigma1;
    v0 := Extend(w0, w14, w9, w1, m, 32);
    Round(0, 1, 2, 3, 4, 5, 6, 7, 0x27b7_0a85, v0, x, r, m, 32);
    v1 := Extend(w1, w15, w10, w2, m, 33);
    Round(7, 0, 1, 2, 3, 4, 5, 6, 0x2e1b_2138, v1, x, r, m, 33);
    v2 := Extend(w2, v0, w11, w3, m, 34);
    Round(6, 7, 0, 1, 2, 3, 4, 5, 0x4d2c_6dfc, v2, x, r, m, 34);
    v3 := Extend(w3, v1, w12, w4, m, 35);
    Round(5, 6, 7, 0, 1, 2, 3, 4, 0x5338_0d13, v3, x, r, m, 35);
    v4 := Extend(w4, v2, w13, w5, m, 36);
    Round(4, 5, 6, 7, 0, 1, 2, 3, 0x650a_7354, v4, x, r, m, 36);
    v5 := Extend(w5, v3, w14, w6, m, 37);
    Round(3, 4, 5, 6, 7, 0, 1, 2, 0x766a_0abb, v5, x, r, m, 37);
    v6 := Extend(w6, v4, w15, w7, m, 38);
    Round(2, 3, 4, 5, 6, 7, 0, 1, 0x81c2_c92e, v6, x, r, m, 38);
    v7 := Extend(w7, v5, v0, w8, m, 39);
    Round(1, 2, 3, 4, 5, 6, 7, 0, 0x9272_2c85, v7, x, r, m, 39);
  }

  /** Rounds 40 to 47, each on a word computed from four of the last sixteen. */
  method Rounds40(w0: nat, w1: nat, w2: nat, w3: nat, w4: nat, w5: nat, w6: nat, w7: nat, w8: nat, w9: nat, w10: nat, w11: nat, w12: nat, w13: nat, w14: nat, w15: nat,
                  x: array<nat>, ghost r: Registers, ghost m: seq<nat>)
    returns (v8: nat, v9: nat, v10: nat, v11: nat, v12: nat, v13: nat, v14: nat, v15: nat)
    requires |m| == 16 && Holds(x[..], 0, Rounds(r, m, 40))
    requires AtStep(m, 32, w0) && AtStep(m, 33, w1) && AtStep(m, 34, w2) && AtStep(m, 35, w3)
    requires AtStep(m, 36, w4) && AtStep(m, 37, w5) && AtStep(m, 38, w6) && AtStep(m, 39, w7)
    requires AtStep(m, 24, w8) && AtStep(m, 25, w9) && AtStep(m, 26, w10) && AtStep(m, 27, w11)
    requires AtStep(m, 28, w12) && AtStep(m, 29, w13) && AtStep(m, 30, w14) && AtStep(m, 31, w15)
    modifies x
    ensures Holds(x[..], 0, Rounds(r, m, 48))
    ensures AtStep(m, 40, v8) && AtStep(m, 41, v9) && AtStep(m, 42, v10) && AtStep(m, 43, v11)
    ensures AtStep(m, 44, v12) && AtStep(m, 45, v13) && AtStep(m, 46, v14) && AtStep(m, 47, v15)
  {
    hide Holds, W, Rounds, AtStep, LittleSigma0, LittleSigma1;
    v8 := Extend(w8, w6, w1, w9, m, 40);
    Round(0, 1, 2, 3, 4, 5, 6, 7, 0xa2bf_e8a1, v8, x, r, m, 40);
    v9 := Extend(w9, w7, w2, w10, m, 41);
    Round(7, 0, 1, 2, 3, 4, 5, 6, 0xa81a_664b, v9, x, r, m, 41);
    v10 := Extend(w10, v8, w3, w11, m, 42);
    Round(6, 7, 0, 1, 2, 3, 4, 5, 0xc24b_8b70, v10, x, r, m, 42);
    v11 := Extend(w11, v9, w4, w12, m, 43);
    Round(5, 6, 7, 0, 1, 2, 3, 4, 0xc76c_51a3, v11, x, r, m, 43);
    v12 := Extend(w12, v10, w5, w13, m, 44);
    Round(4, 5, 6, 7, 0, 1, 2, 3, 0xd192_e819, v12, x, r, m, 44);
    v13 := Extend(w13, v11, w6, w14, m, 45);
    Round(3, 4, 5, 6, 7, 0, 1, 2, 0xd699_0624, v13, x, r, m, 45);
    v14 := Extend(w14, v12, w7, w15, m, 46);
    Round(2, 3, 4, 5, 6, 7, 0, 1, 0xf40e_3585, v14, x, r, m, 46);
    v15 := Extend(w15, v13, v8, w0, m, 47);
    Round(1, 2, 3, 4, 5, 6, 7, 0, 0x106a_a070, v15, x, r, m, 47);
  }

  /** Rounds 48 to 55, each on a word computed from four of the last sixteen. */
  method Rounds48(w0: nat, w1: nat, w2: nat, w3: nat, w4: nat, w5: nat, w6: nat, w7: nat, w8: nat, w9: nat, w10: nat, w11: nat, w12: nat, w13: nat, w14: nat, w15: nat,
                  x: array<nat>, ghost r: Registers, ghost m: seq<nat>)
    returns (v0: nat, v1: nat, v2: nat, v3: nat, v4: nat, v5: nat, v6: nat, v7: nat)
    requires |m| == 16 && Holds(x[..], 0, Rounds(r, m, 48))
    requires AtStep(m, 32, w0) && AtStep(m, 33, w1) && AtStep(m, 34, w2) && AtStep(m, 35, w3)
    requires AtStep(m, 36, w4) && AtStep(m, 37, w5) && AtStep(m, 38, w6) && AtStep(m, 39, w7)
    requires AtStep(m, 40, w8) && AtStep(m, 41, w9) && AtStep(m, 42, w10) && AtStep(m, 43, w11)
    requires AtStep(m, 44, w12) && AtStep(m, 45, w13) && AtStep(m, 46, w14) && AtStep(m, 47, w15)
    modifies x
    ensures Holds(x[..], 0, Rounds(r, m, 56))
    ensures AtStep(m, 48, v0) && AtStep(m, 49, v1) && AtStep(m, 50, v2) && AtStep(m, 51, v3)
    ensures AtStep(m, 52, v4) && AtStep(m, 53, v5) && AtStep(m, 54, v6) && AtStep(m, 55, v7)
  {
    hide Holds, W, Rounds, AtStep, LittleSigma0, LittleSigma1;
    v0 := Extend(w0, w14, w9, w1, m, 48);
    Round(0, 1, 2, 3, 4, 5, 6, 7, 0x19a4_c116, v0, x, r, m, 48);
    v1 := Extend(w1, w15, w10, w2, m, 49);
    Round(7, 0, 1, 2, 3, 4, 5, 6, 0x1e37_6c08, v1, x, r, m, 49);
    v2 := Extend(w2, v0, w11, w3, m, 50);
    Round(6, 7, 0, 1, 2, 3, 4, 5, 0x2748_774c, v2, x, r, m, 50);
    v3 := Extend(w3, v1, w12, w4, m, 51);
    Round(5, 6, 7, 0, 1, 2, 3, 4, 0x34b0_bcb5, v3, x, r, m, 51);
    v4 := Extend(w4, v2, w13, w5, m, 52);
    Round(4, 5, 6, 7, 0, 1, 2, 3, 0x391c_0cb3, v4, x, r, m, 52);
    v5 := Extend(w5, v3, w14, w6, m, 53);
    Round(3, 4, 5, 6, 7, 0, 1, 2, 0x4ed8_aa4a, v5, x, r, m, 53);
    v6 := Extend(w6, v4, w15, w7, m, 54);
    Round(2, 3, 4, 5, 6, 7, 0, 1, 0x5b9c_ca4f, v6, x, r, m, 54);
    v7 := Extend(w7, v5, v0, w8, m, 55);
    Round(1, 2, 3, 4, 5, 6, 7, 0, 0x682e_6ff3, v7, x, r, m, 55);
  }

  /** Rounds 56 to 63, each on a word computed from four of the last sixteen. */
  method Rounds56(w0: nat, w1: nat, w2: nat, w3: nat, w4: nat, w5: nat, w6: nat, w7: nat, w8: nat, w9: nat, w10: nat, w11: nat, w12: nat, w13: nat, w14: nat, w15: nat,
                  x: array<nat>, ghost r: Registers, ghost m: seq<nat>)
    requires |m| == 16 && Holds(x[..], 0, Rounds(r, m, 56))
    requires AtStep(m, 48, w0) && AtStep(m, 49, w1) && AtStep(m, 50, w2) && AtStep(m, 51, w3)
    requires AtStep(m, 52, w4) && AtStep(m, 53, w5) && AtStep(m, 54, w6) && AtStep(m, 55, w7)
    requires AtStep(m, 40, w8) && AtStep(m, 41, w9) && AtStep(m, 42, w10) && AtStep(m, 43, w11)
    requires AtStep(m, 44, w12) && AtStep(m, 45, w13) && AtStep(m, 46, w14) && AtStep(m, 47, w15)
    modifies x
    ensures Holds(x[..], 0, Rounds(r, m, 64))
  {
    hide Holds, W, Rounds, AtStep, LittleSigma0, LittleSigma1;
    var v8: nat, v9: nat, v10: nat, v11: nat, v12: nat, v13: nat;
    v8 := Extend(w8, w6, w1, w9, m, 56);
    Round(0, 1, 2, 3, 4, 5, 6, 7, 0x748f_82ee, v8, x, r, m, 56);
    v9 := Extend(w9, w7, w2, w10, m, 57);
    Round(7, 0, 1, 2, 3, 4, 5, 6, 0x78a5_636f, v9, x, r, m, 57);
    v10 := Extend(w10, v8, w3, w11, m, 58);
    Round(6, 7, 0, 1, 2, 3, 4, 5, 0x84c8_7814, v10, x, r, m, 58);
    v11 := Extend(w11, v9, w4, w12, m, 59);
    Round(5, 6, 7, 0, 1, 2, 3, 4, 0x8cc7_0208, v11, x, r, m, 59);
    v12 := Extend(w12, v10, w5, w13, m, 60);
    Round(4, 5, 6, 7, 0, 1, 2, 3, 0x90be_fffa, v12, x, r, m, 60);
    v13 := Extend(w13, v11, w6, w14, m, 61);
    Round(3, 4, 5, 6, 7, 0, 1, 2, 0xa450_6ceb, v13, x, r, m, 61);
    ScheduleSum(w14, v12, w7, w15, m, 62);
    Round(2, 3, 4, 5, 6, 7, 0, 1, 0xbef9_a3f7, w14 + LittleSigma1(v12) + w7 + LittleSigma0(w15), x, r, m, 62);
    ScheduleSum(w15, v13, v8, w0, m, 63);
    Round(1, 2, 3, 4, 5, 6, 7, 0, 0xc671_78f2, w15 + LittleSigma1(v13) + v8 + LittleSigma0(w0), x, r, m, 63);
  }

  lemma AddWords(s: nat, x: nat)
    ensures Uint32(s + x) == (s + x) % WORD < WORD
  {
    hide Uint32;
    Uint32IsLow(s + x);
  }

  function Added(s: seq<nat>, x: seq<nat>): (r: seq<nat>)
    requires |s| == |x| == 8
    ensures |r| == 8 && forall i :: 0 <= i < 8 ==> r[i] == Uint32(s[i] + x[i])
  {
    seq(8, i requires 0 <= i < 8 => Uint32(s[i] + x[i]))
  }

  /** One block: 64 rounds on a copy of the state, added to the state. */
  method TransformBlock(s: seq<nat>, chunk: Bytes, ghost r: Registers) returns (after: seq<nat>)
    requires |chunk| >= 64 && Holds(s, 0, r)
    ensures Holds(after, 0, Compress(r, chunk[..64]))
  {
    hide AtStep, W, Uint32, And, Added, Step;
    ghost var m := Words(chunk[..64]);
    var x := new nat[8](i requires 0 <= i < 8 => s[i]);
    assert x[..] == s;
    hide Words;
    assert Rounds(r, m, 0) == r;
    hide Rounds;
    Transform64(chunk, x, r, m);
    AddState(s, x[..], r, Rounds(r, m, 64));
    after := Added(s, x[..]);
    hide Holds;
  }

  lemma AddState(s: seq<nat>, x: seq<nat>, r: Registers, q: Registers)
    requires Holds(s, 0, r) && Holds(x, 0, q)
    ensures Holds(Added(s, x), 0, AddAll(r, q))
  {
    hide Uint32, And;
    forall i | 0 <= i < 8
      ensures Added(s, x)[i] == (s[i] + x[i]) % WORD < WORD
    {
      AddWords(s[i], x[i]);
    }
  }

  method Transform64(chunk: Bytes, x: array<nat>, ghost r: Registers, ghost m: seq<nat>)
    requires |chunk| >= 64 && m == Words(chunk[..64]) && Holds(x[..], 0, Rounds(r, m, 0))
    modifies x
    ensures Holds(x[..], 0, Rounds(r, m, 64))
  {
    hide AtStep, W, Holds, Rounds, Words;
    var w0, w1, w2, w3, w4, w5, w6, w7 := Rounds0(chunk, x, r, m);
    var w8, w9, w10, w11, w12, w13, w14, w15 := Rounds8(chunk, x, r, m);
    w0, w1, w2, w3, w4, w5, w6, w7 := Rounds16(w0, w1, w2, w3, w4, w5, w6, w7, w8, w9, w10, w11, w12, w13, w14, w15, x, r, m);
    w8, w9, w10, w11, w12, w13, w14, w15 := Rounds24(w0, w1, w2, w3, w4, w5, w6, w7, w8, w9, w10, w11, w12, w13, w14, w15, x, r, m);
    w0, w1, w2, w3, w4, w5, w6, w7 := Rounds32(w0, w1, w2, w3, w4, w5, w6, w7, w8, w9, w10, w11, w12, w13, w14, w15, x, r, m);
    w8, w9, w10, w11, w12, w13, w14, w15 := Rounds40(w0, w1, w2, w3, w4, w5, w6, w7, w8, w9, w10, w11, w12, w13, w14, w15, x, r, m);
    w0, w1, w2, w3, w4, w5, w6, w7 := Rounds48(w0, w1, w2, w3, w4, w5, w6, w7, w8, w9, w10, w11, w12, w13, w14, w15, x, r, m);
    Rounds56(w0, w1, w2, w3, w4, w5, w6, w7, w8, w9, w10, w11, w12, w13, w14, w15, x, r, m);
  }

  /** CSHA256: the state after the whole blocks written, and what remains in the buffer. */
  class CSHA256 {
    var s: seq<nat>
    var buf: Bytes
    var bytesCount: nat

    constructor ()
      ensures Absorbed([])
    {
      new;
      Reset();
    }

    /** The object has taken in exactly this message, whatever the chunks it came in. */
    ghost predicate Absorbed(message: Bytes)
      reads this
    {
      var whole := |message| / 64 * 64;
      && bytesCount == |message| && buf == message[whole..]
      && Holds(s, 0, Fold(INITIAL, message[..whole]))
    }

    method Reset()
      modifies this
      ensures Absorbed([])
    {
      buf, bytesCount := [], 0;
      s := [0x6a09_e667, 0xbb67_ae85, 0x3c6e_f372, 0xa54f_f53a, 0x510e_527f, 0x9b05_688c, 0x1f83_d9ab, 0x5be0_cd19];
    }

    method Transform(chunk: Bytes, blocks: nat, ghost r: Registers)
      requires 64 * blocks <= |chunk| && Holds(s, 0, r)
      modifies this`s
      ensures Holds(s, 0, Fold(r, chunk[..64 * blocks]))
    {
      hide Holds, Compress;
      var rest, left := chunk, blocks;
      ghost var done := 0;
      assert chunk[..0] == [];
      while left > 0
        invariant done == 64 * (blocks - left) && rest == chunk[done..]
        invariant Holds(s, 0, Fold(r, chunk[..done]))
      {
        left := left - 1;
        s := TransformBlock(s, rest, Fold(r, chunk[..done]));
        FoldBlock(r, chunk, done);
        done := done + 64;
        rest := rest[64..];
      }
    }

    /** The first step of a write: a buffer that the data fill up is processed. */
    method FillBuffer(data: Bytes, ghost message: Bytes) returns (rest: Bytes)
      requires Absorbed(message)
      modifies this
      ensures |rest| <= |data| && rest == data[|data| - |rest|..]
      ensures Absorbed(message + data[..|data| - |rest|])
      ensures |rest| >= 64 ==> |message + data[..|data| - |rest|]| % 64 == 0
      ensures |message + data[..|data| - |rest|]| % 64 + |rest| < 64 || |message + data[..|data| - |rest|]| % 64 == 0
    {
      hide Holds, Compress, Fold;
      var bufSize := bytesCount % 64;
      if bufSize == 0 || bufSize + |data| < 64 {
        assert message + data[..0] == message;
        return data;
      }
      var remainder := 64 - bufSize;
      FillsBlock(message, data[..remainder]);
      var full := buf + data[..remainder];
      bytesCount := bytesCount + remainder;
      Transform(full, 1, Fold(INITIAL, message[..|message| / 64 * 64]));
      assert full[..64 * 1] == full;
      buf := [];
      rest := data[remainder..];
    }

    /** The second step: whole blocks are processed without the buffer. */
    method TakeBlocks(data: Bytes, ghost message: Bytes) returns (rest: Bytes)
      requires Absorbed(message) && |message| % 64 == 0 && |data| >= 64
      modifies this
      ensures |rest| <= |data| && rest == data[|data| - |rest|..] && |rest| < 64
      ensures Absorbed(message + data[..|data| - |rest|]) && |message + data[..|data| - |rest|]| % 64 == 0
    {
      hide Holds, Compress, Fold;
      var blocks := |data| / 64;
      WholeBlocks(message, data[..64 * blocks]);
      Transform(data, blocks, Fold(INITIAL, message));
      bytesCount := bytesCount + 64 * blocks;
      rest := data[64 * blocks..];
    }

    /** False, and nothing changed, if the total would be too long. */
    method Write(data: Bytes, ghost message: Bytes) returns (ok: bool)
      requires Absorbed(message)
      modifies this
      ensures ok <==> |message| + |data| <= SHA256_MAX
      ensures Absorbed(if ok then message + data else message)
    {
      hide Holds, Compress, Fold;
      if bytesCount + |data| > SHA256_MAX {
        return false;
      }
      var rest := FillBuffer(data, message);
      ghost var taken := message + data[..|data| - |rest|];
      assert taken + rest == message + data;
      if |rest| >= 64 {
        ghost var before := rest;
        rest := TakeBlocks(rest, taken);
        assert taken + before[..|before| - |rest|] + rest == taken + before;
        taken := taken + before[..|before| - |rest|];
      }
      Buffered(taken, rest);
      buf := buf + rest;
      bytesCount := bytesCount + |rest|;
      return true;
    }

    method Midstate() returns (r: Bytes)
      requires |s| == 8
      ensures forall q :: Holds(s, 0, q) ==> r == Digest(q)
    {
      r := PackBE(s[0], 4) + PackBE(s[1], 4) + PackBE(s[2], 4) + PackBE(s[3], 4)
        + PackBE(s[4], 4) + PackBE(s[5], 4) + PackBE(s[6], 4) + PackBE(s[7], 4);
    }

    /** The hash of everything written; None, and nothing changed, if the length in bits does not fit eight signed bytes. */
    method Finalize(ghost message: Bytes) returns (r: Option<Bytes>)
      requires Absorbed(message)
      modifies this
      ensures r.Some? <==> |message| < 0x1000_0000_0000_0000
      ensures r.Some? ==> r.value == Hash(message)
      ensures r.None? ==> Absorbed(message)
    {
      hide Absorbed, PackBE, PaddingZeros, Fold, Digest, Zeros, Pad;
      CountOf(this, message);
      if 8 * bytesCount >= 0x8000_0000_0000_0000 {
        return None;
      }
      var pad := [0x80] + Zeros(63);
      var sizeDesc := PackBE(8 * bytesCount, 8);
      PadParts(message);
      var padding := pad[..1 + (119 - bytesCount % 64) % 64];
      var ok := Write(padding, message);
      ok := Write(sizeDesc, message + padding);
      StateOf(this, Pad(message));
      var digest := Midstate();
      r := Some(digest);
    }
  }

  lemma CountOf(o: CSHA256, message: Bytes)
    requires o.Absorbed(message)
    ensures o.bytesCount == |message|
  {
  }

  /** What Finalize writes is the padding. */
  lemma PadParts(message: Bytes)
    ensures var n := |message|; var count := 1 + (119 - n % 64) % 64;
            1 <= count <= 64 && message + ([0x80] + Zeros(63))[..count] + PackBE(8 * n, 8) == Pad(message)
  {
    hide PaddingZeros, PackBE;
    PaddingLength(|message|);
    assert ([0x80] + Zeros(63))[..1 + PaddingZeros(|message|)] == [0x80] + Zeros(PaddingZeros(|message|));
  }

  lemma StateOf(o: CSHA256, message: Bytes)
    requires o.Absorbed(message) && |message| % 64 == 0
    ensures Holds(o.s, 0, Fold(INITIAL, message)) && |o.s| == 8
  {
    hide Fold;
    assert message[..|message| / 64 * 64] == message;
  }

  /** The code's formula for the length of the padding. */
  lemma PaddingLength(n: nat)
    ensures (119 - n % 64) % 64 == PaddingZeros(n)
  {
  }

  lemma BlockCount(n: nat, k: nat)
    requires n % 64 + k == 64
    ensures (n + k) / 64 * 64 == n + k == n / 64 * 64 + 64
  {
  }

  /** A chunk that fills the buffer completes a block. */
  lemma FillsBlock(message: Bytes, chunk: Bytes)
    requires |message| % 64 + |chunk| == 64
    ensures var whole := |message| / 64 * 64; var full := message[whole..] + chunk; var more := message + chunk;
            && whole % 64 == 0 && |full| == 64 && |more| / 64 * 64 == |more| && |more| % 64 == 0 && more[..|more|] == more && more[|more|..] == []
            && Fold(INITIAL, more) == Fold(Fold(INITIAL, message[..whole]), full)
  {
    hide Fold;
    BlockCount(|message|, |chunk|);
    var whole := |message| / 64 * 64;
    var full := message[whole..] + chunk;
    assert message + chunk == message[..whole] + full;
    FoldAppend(INITIAL, message[..whole], full);
  }

  lemma BothWhole(n: nat, k: nat)
    requires n % 64 == 0 && k % 64 == 0
    ensures (n + k) % 64 == 0 && n / 64 * 64 == n && (n + k) / 64 * 64 == n + k
  {
  }

  lemma WholeBlocks(message: Bytes, blocks: Bytes)
    requires |message| % 64 == 0 && |blocks| % 64 == 0
    ensures var more := message + blocks;
            && |message| / 64 * 64 == |message| && message[..|message|] == message && message[|message|..] == []
            && |more| % 64 == 0 && |more| / 64 * 64 == |more| && more[..|more|] == more && more[|more|..] == []
            && Fold(INITIAL, more) == Fold(Fold(INITIAL, message), blocks)
  {
    hide Fold;
    BothWhole(|message|, |blocks|);
    FoldAppend(INITIAL, message, blocks);
  }

  /** Less than a block more: only the buffer grows. */
  lemma Buffered(message: Bytes, rest: Bytes)
    requires |message| % 64 + |rest| < 64
    ensures var whole := |message| / 64 * 64; var more := message + rest;
            && |more| / 64 * 64 == whole && more[..whole] == message[..whole] && more[whole..] == message[whole..] + rest
  {
    SameBlocks(|message|, |rest|);
  }

  lemma SameBlocks(n: nat, k: nat)
    requires n % 64 + k < 64
    ensures (n + k) / 64 * 64 == n / 64 * 64
  {
  }

  lemma FoldBlock(r: Registers, chunk: Bytes, done: nat)
    requires done % 64 == 0 && done + 64 <= |chunk|
    ensures (done + 64) % 64 == 0
    ensures Fold(r, chunk[..done + 64]) == Compress(Fold(r, chunk[..done]), chunk[done..][..64])
  {
    hide Compress;
    var block := chunk[done..][..64];
    assert chunk[..done + 64] == chunk[..done] + block;
    FoldAppend(r, chunk[..done], block);
    assert block[..64] == block && block[64..] == [];
  }
}
