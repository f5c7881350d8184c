/** The hash of FIPS 180-4, sections 4 to 6, written plainly over 32-bit words. */
module Sha256 {
  import opened Core
  import opened Bits
  import opened Numerals

  const WORD := 0x1_0000_0000

  datatype Registers = Registers(a: nat, b: nat, c: nat, d: nat, e: nat, f: nat, g: nat, h: nat)

  /** Rotation to the right: what is shifted out on one side comes in on the other. */
  function RotR(x: nat, n: nat): nat
    requires n <= 32
  {
    Or(Shr(x, n), Shl(x, 32 - n) % WORD)
  }

  function Xor3(x: nat, y: nat, z: nat): nat {
    Xor(Xor(x, y), z)
  }

  function Choose(x: nat, y: nat, z: nat): nat {
    Xor(And(x, y), AndNot(x, z))
  }

  function Majority(x: nat, y: nat, z: nat): nat {
    Xor3(And(x, y), And(x, z), And(y, z))
  }

  function BigSigma0(x: nat): nat {
    Xor3(RotR(x, 2), RotR(x, 13), RotR(x, 22))
  }

  function BigSigma1(x: nat): nat {
    Xor3(RotR(x, 6), RotR(x, 11), RotR(x, 25))
  }

  function SmallSigma0(x: nat): nat {
    Xor3(RotR(x, 7), RotR(x, 18), Shr(x, 3))
  }

  function SmallSigma1(x: nat): nat {
    Xor3(RotR(x, 17), RotR(x, 19), Shr(x, 10))
  }

  /** The round constants, eight to a row. */
  function Row(i: nat): (r: seq<nat>)
    requires i < 8
    ensures |r| == 8
  {
    if i == 0 then [0x428a_2f98, 0x7137_4491, 0xb5c0_fbcf, 0xe9b5_dba5, 0x3956_c25b, 0x59f1_11f1, 0x923f_82a4, 0xab1c_5ed5]
    else if i == 1 then [0xd807_aa98, 0x1283_5b01, 0x2431_85be, 0x550c_7dc3, 0x72be_5d74, 0x80de_b1fe, 0x9bdc_06a7, 0xc19b_f174]
    else if i == 2 then [0xe49b_69c1, 0xefbe_4786, 0x0fc1_9dc6, 0x240c_a1cc, 0x2de9_2c6f, 0x4a74_84aa, 0x5cb0_a9dc, 0x76f9_88da]
    else if i == 3 then [0x983e_5152, 0xa831_c66d, 0xb003_27c8, 0xbf59_7fc7, 0xc6e0_0bf3, 0xd5a7_9147, 0x06ca_6351, 0x1429_2967]
    else if i == 4 then [0x27b7_0a85, 0x2e1b_2138, 0x4d2c_6dfc, 0x5338_0d13, 0x650a_7354, 0x766a_0abb, 0x81c2_c92e, 0x9272_2c85]
    else if i == 5 then [0xa2bf_e8a1, 0xa81a_664b, 0xc24b_8b70, 0xc76c_51a3, 0xd192_e819, 0xd699_0624, 0xf40e_3585, 0x106a_a070]
    else if i == 6 then [0x19a4_c116, 0x1e37_6c08, 0x2748_774c, 0x34b0_bcb5, 0x391c_0cb3, 0x4ed8_aa4a, 0x5b9c_ca4f, 0x682e_6ff3]
    else [0x748f_82ee, 0x78a5_636f, 0x84c8_7814, 0x8cc7_0208, 0x90be_fffa, 0xa450_6ceb, 0xbef9_a3f7, 0xc671_78f2]
  }

  function K(t: nat): nat
    requires t < 64
  {
    Row(t / 8)[t % 8]
  }

  /** The first 64 primes, eight to a row. */
  function Primes(i: nat): (r: seq<nat>)
    requires i < 8
    ensures |r| == 8
  {
    if i == 0 then [2, 3, 5, 7, 11, 13, 17, 19]
    else if i == 1 then [23, 29, 31, 37, 41, 43, 47, 53]
    else if i == 2 then [59, 61, 67, 71, 73, 79, 83, 89]
    else if i == 3 then [97, 101, 103, 107, 109, 113, 127, 131]
    else if i == 4 then [137, 139, 149, 151, 157, 163, 167, 173]
    else if i == 5 then [179, 181, 191, 193, 197, 199, 211, 223]
    else if i == 6 then [227, 229, 233, 239, 241, 251, 257, 263]
    else [269, 271, 277, 281, 283, 293, 307, 311]
  }

  const INITIAL: Registers := Registers(0x6a09_e667, 0xbb67_ae85, 0x3c6e_f372, 0xa54f_f53a, 0x510e_527f, 0x9b05_688c, 0x1f83_d9ab, 0x5be0_cd19)

  /** k is the first 32 bits of the fractional part of the cube root of p, whose whole part is i. */
  predicate IsCubeRootFraction(k: nat, p: nat, i: nat) {
    var n := i * WORD + k;
    k < WORD && n * n * n <= p * WORD * WORD * WORD < (n + 1) * (n + 1) * (n + 1)
  }

  predicate IsSquareRootFraction(k: nat, p: nat, i: nat) {
    var n := i * WORD + k;
    k < WORD && n * n <= p * WORD * WORD < (n + 1) * (n + 1)
  }

  function WholeCubeRoot(t: nat): nat {
    if t < 4 then 1 else if t < 9 then 2 else if t < 18 then 3 else if t < 30 then 4 else if t < 47 then 5 else 6
  }

  /** The message schedule of a block of sixteen words. */
  function W(m: seq<nat>, t: nat): nat
    requires |m| == 16
  {
    if t < 16 then m[t]
    else (SmallSigma1(W(m, t - 2)) + W(m, t - 7) + SmallSigma0(W(m, t - 15)) + W(m, t - 16)) % WORD
  }

  function Step(r: Registers, k: nat, w: nat): Registers {
    var t1 := (r.h + BigSigma1(r.e) + Choose(r.e, r.f, r.g) + k + w) % WORD;
    var t2 := (BigSigma0(r.a) + Majority(r.a, r.b, r.c)) % WORD;
    Registers((t1 + t2) % WORD, r.a, r.b, r.c, (r.d + t1) % WORD, r.e, r.f, r.g)
  }

  function Rounds(r: Registers, m: seq<nat>, t: nat): Registers
    requires |m| == 16 && t <= 64
  {
    if t == 0 then r else Step(Rounds(r, m, t - 1), K(t - 1), W(m, t - 1))
  }

  function AddAll(r: Registers, x: Registers): Registers {
    Registers((r.a + x.a) % WORD, (r.b + x.b) % WORD, (r.c + x.c) % WORD, (r.d + x.d) % WORD,
      (r.e + x.e) % WORD, (r.f + x.f) % WORD, (r.g + x.g) % WORD, (r.h + x.h) % WORD)
  }

  function Words(block: Bytes): (m: seq<nat>)
    requires |block| == 64
    ensures |m| == 16
  {
    seq(16, i requires 0 <= i < 16 => Value(256, block[4 * i..4 * i + 4]))
  }

  function Compress(r: Registers, block: Bytes): Registers
    requires |block| == 64
  {
    AddAll(r, Rounds(r, Words(block), 64))
  }

  /** The state after whole blocks. */
  function Fold(r: Registers, s: Bytes): Registers
    requires |s| % 64 == 0
    decreases |s|
  {
    if s == [] then r else
      BlockRemoved(|s|);
      Fold(Compress(r, s[..64]), s[64..])
  }

  lemma BlockRemoved(n: nat)
    requires n > 0 && n % 64 == 0
    ensures n >= 64 && (n - 64) % 64 == 0
  {
  }

  lemma {:induction false} FoldAppend(r: Registers, a: Bytes, b: Bytes)
    requires |a| % 64 == 0 && |b| % 64 == 0
    ensures Fold(r, a + b) == Fold(Fold(r, a), b)
    decreases |a|
  {
    hide Compress;
    if a == [] {
      assert a + b == b;
    } else {
      assert (a + b)[..64] == a[..64] && (a + b)[64..] == a[64..] + b;
      FoldAppend(Compress(r, a[..64]), a[64..], b);
    }
  }

  /** The fewest zero bytes that leave room for the length at the end of a block. */
  function PaddingZeros(n: nat): (k: nat)
    ensures k < 64 && (n + 1 + k) % 64 == 56
  {
    (55 - n as int) % 64
  }

  lemma PaddedLength(n: nat)
    ensures (n + 1 + PaddingZeros(n) + 8) % 64 == 0
  {
    var m := n + 1 + PaddingZeros(n);
    assert m % 64 == 56 && (m + 8) % 64 == 0;
  }

  /** The message, a one bit, zeros, and the length in bits. */
  function Pad(message: Bytes): (s: Bytes)
    ensures |s| == |message| + 1 + PaddingZeros(|message|) + 8 && |s| % 64 == 0
  {
    PaddedLength(|message|);
    message + [0x80] + Zeros(PaddingZeros(|message|)) + PackBE(8 * |message|, 8)
  }

  function Digest(r: Registers): Bytes {
    PackBE(r.a, 4) + PackBE(r.b, 4) + PackBE(r.c, 4) + PackBE(r.d, 4)
    + PackBE(r.e, 4) + PackBE(r.f, 4) + PackBE(r.g, 4) + PackBE(r.h, 4)
  }

  function Hash(message: Bytes): Bytes {
    Digest(Fold(INITIAL, Pad(message)))
  }

  /** The round constants are what section 4.2.2 says they are. */
  lemma RoundConstants(t: nat)
    requires t < 64
    ensures IsCubeRootFraction(K(t), Primes(t / 8)[t % 8], WholeCubeRoot(t))
  {
    hide IsCubeRootFraction, Row, Primes, WholeCubeRoot;
    RowIsRoots(t / 8, t % 8);
  }

  lemma RowIsRoots(i: nat, j: nat)
    requires i < 8 && j < 8
    ensures IsCubeRootFraction(Row(i)[j], Primes(i)[j], WholeCubeRoot(8 * i + j))
  {
    hide IsCubeRootFraction, Row, Primes, WholeCubeRoot;
    if i == 0 {
      Row0(j);
    } else if i == 1 {
      Row1(j);
    } else if i == 2 {
      Row2(j);
    } else if i == 3 {
      Row3(j);
    } else if i == 4 {
      Row4(j);
    } else if i == 5 {
      Row5(j);
    } else if i == 6 {
      Row6(j);
    } else {
      Row7(j);
    }
  }

  lemma Row0(j: nat)
    requires j < 8
    ensures IsCubeRootFraction(Row(0)[j], Primes(0)[j], WholeCubeRoot(0 + j))
  {
    assert IsCubeRootFraction(0x428a_2f98, 2, 1);
    assert IsCubeRootFraction(0x7137_4491, 3, 1);
    assert IsCubeRootFraction(0xb5c0_fbcf, 5, 1);
    assert IsCubeRootFraction(0xe9b5_dba5, 7, 1);
    assert IsCubeRootFraction(0x3956_c25b, 11, 2);
    assert IsCubeRootFraction(0x59f1_11f1, 13, 2);
    assert IsCubeRootFraction(0x923f_82a4, 17, 2);
    assert IsCubeRootFraction(0xab1c_5ed5, 19, 2);
    hide IsCubeRootFraction;
  }

  lemma Row1(j: nat)
    requires j < 8
    ensures IsCubeRootFraction(Row(1)[j], Primes(1)[j], WholeCubeRoot(8 + j))
  {
    assert IsCubeRootFraction(0xd807_aa98, 23, 2);
    assert IsCubeRootFraction(0x1283_5b01, 29, 3);
    assert IsCubeRootFraction(0x2431_85be, 31, 3);
    assert IsCubeRootFraction(0x550c_7dc3, 37, 3);
    assert IsCubeRootFraction(0x72be_5d74, 41, 3);
    assert IsCubeRootFraction(0x80de_b1fe, 43, 3);
    assert IsCubeRootFraction(0x9bdc_06a7, 47, 3);
    assert IsCubeRootFraction(0xc19b_f174, 53, 3);
    hide IsCubeRootFraction;
  }

  lemma Row2(j: nat)
    requires j < 8
    ensures IsCubeRootFraction(Row(2)[j], Primes(2)[j], WholeCubeRoot(16 + j))
  {
    assert IsCubeRootFraction(0xe49b_69c1, 59, 3);
    assert IsCubeRootFraction(0xefbe_4786, 61, 3);
    assert IsCubeRootFraction(0x0fc1_9dc6, 67, 4);
    assert IsCubeRootFraction(0x240c_a1cc, 71, 4);
    assert IsCubeRootFraction(0x2de9_2c6f, 73, 4);
    assert IsCubeRootFraction(0x4a74_84aa, 79, 4);
    assert IsCubeRootFraction(0x5cb0_a9dc, 83, 4);
    assert IsCubeRootFraction(0x76f9_88da, 89, 4);
    hide IsCubeRootFraction;
  }

  lemma Row3(j: nat)
    requires j < 8
    ensures IsCubeRootFraction(Row(3)[j], Primes(3)[j], WholeCubeRoot(24 + j))
  {
    assert IsCubeRootFraction(0x983e_5152, 97, 4);
    assert IsCubeRootFraction(0xa831_c66d, 101, 4);
    assert IsCubeRootFraction(0xb003_27c8, 103, 4);
    assert IsCubeRootFraction(0xbf59_7fc7, 107, 4);
    assert IsCubeRootFraction(0xc6e0_0bf3, 109, 4);
    assert IsCubeRootFraction(0xd5a7_9147, 113, 4);
    assert IsCubeRootFraction(0x06ca_6351, 127, 5);
    assert IsCubeRootFraction(0x1429_2967, 131, 5);
    hide IsCubeRootFraction;
  }

  lemma Row4(j: nat)
    requires j < 8
    ensures IsCubeRootFraction(Row(4)[j], Primes(4)[j], WholeCubeRoot(32 + j))
  {
    assert IsCubeRootFraction(0x27b7_0a85, 137, 5);
    assert IsCubeRootFraction(0x2e1b_2138, 139, 5);
    assert IsCubeRootFraction(0x4d2c_6dfc, 149, 5);
    assert IsCubeRootFraction(0x5338_0d13, 151, 5);
    assert IsCubeRootFraction(0x650a_7354, 157, 5);
    assert IsCubeRootFraction(0x766a_0abb, 163, 5);
    assert IsCubeRootFraction(0x81c2_c92e, 167, 5);
    assert IsCubeRootFraction(0x9272_2c85, 173, 5);
    hide IsCubeRootFraction;
  }

  lemma Row5(j: nat)
    requires j < 8
    ensures IsCubeRootFraction(Row(5)[j], Primes(5)[j], WholeCubeRoot(40 + j))
  {
    assert IsCubeRootFraction(0xa2bf_e8a1, 179, 5);
    assert IsCubeRootFraction(0xa81a_664b, 181, 5);
    assert IsCubeRootFraction(0xc24b_8b70, 191, 5);
    assert IsCubeRootFraction(0xc76c_51a3, 193, 5);
    assert IsCubeRootFraction(0xd192_e819, 197, 5);
    assert IsCubeRootFraction(0xd699_0624, 199, 5);
    assert IsCubeRootFraction(0xf40e_3585, 211, 5);
    assert IsCubeRootFraction(0x106a_a070, 223, 6);
    hide IsCubeRootFraction;
  }

  lemma Row6(j: nat)
    requires j < 8
    ensures IsCubeRootFraction(Row(6)[j], Primes(6)[j], WholeCubeRoot(48 + j))
  {
    assert IsCubeRootFraction(0x19a4_c116, 227, 6);
    assert IsCubeRootFraction(0x1e37_6c08, 229, 6);
    assert IsCubeRootFraction(0x2748_774c, 233, 6);
    assert IsCubeRootFraction(0x34b0_bcb5, 239, 6);
    assert IsCubeRootFraction(0x391c_0cb3, 241, 6);
    assert IsCubeRootFraction(0x4ed8_aa4a, 251, 6);
    assert IsCubeRootFraction(0x5b9c_ca4f, 257, 6);
    assert IsCubeRootFraction(0x682e_6ff3, 263, 6);
    hide IsCubeRootFraction;
  }

  lemma Row7(j: nat)
    requires j < 8
    ensures IsCubeRootFraction(Row(7)[j], Primes(7)[j], WholeCubeRoot(56 + j))
  {
    assert IsCubeRootFraction(0x748f_82ee, 269, 6);
    assert IsCubeRootFraction(0x78a5_636f, 271, 6);
    assert IsCubeRootFraction(0x84c8_7814, 277, 6);
    assert IsCubeRootFraction(0x8cc7_0208, 281, 6);
    assert IsCubeRootFraction(0x90be_fffa, 283, 6);
    assert IsCubeRootFraction(0xa450_6ceb, 293, 6);
    assert IsCubeRootFraction(0xbef9_a3f7, 307, 6);
    assert IsCubeRootFraction(0xc671_78f2, 311, 6);
    hide IsCubeRootFraction;
  }

  /** The initial state is what section 5.3.3 says it is. */
  lemma InitialState()
    ensures IsSquareRootFraction(INITIAL.a, 2, 1) && IsSquareRootFraction(INITIAL.b, 3, 1)
    ensures IsSquareRootFraction(INITIAL.c, 5, 2) && IsSquareRootFraction(INITIAL.d, 7, 2)
    ensures IsSquareRootFraction(INITIAL.e, 11, 3) && IsSquareRootFraction(INITIAL.f, 13, 3)
    ensures IsSquareRootFraction(INITIAL.g, 17, 4) && IsSquareRootFraction(INITIAL.h, 19, 4)
  {
  }
}
