/** Script numbers: MPI and little-endian sign-magnitude encodings (bitcointx/core/_bignum.py). */
module ScriptNum {
  import opened Core
  import opened Numerals

  /** Python's int.bit_length of a magnitude. */
  function BitLength(n: nat): nat {
    |Digits(2, n)|
  }

  function BnBytes(v: int, haveExt: bool): nat {
    (BitLength(Abs(v)) + 7) / 8 + if haveExt then 1 else 0
  }

  lemma {:induction false} BitsVersusBytes(n: nat)
    ensures |Digits(256, n)| == (BitLength(n) + 7) / 8
    ensures n > 0 ==> (BitLength(n) % 8 == 0 <==> Digits(256, n)[0] >= 128)
    decreases n
  {
    if n == 0 {
    } else if n < 256 {
      assert Digits(256, n) == [n];
      SmallBitLength(n);
    } else {
      BitLengthShift(n);
      BitsVersusBytes(n / 256);
    }
  }

  lemma SmallBitLength(n: nat)
    requires 0 < n < 256
    ensures 1 <= BitLength(n) <= 8
    ensures BitLength(n) == 8 <==> n >= 128
  {
    var n2 := n / 2;
    var n4, n8, n16 := n2 / 2, n2 / 2 / 2, n2 / 2 / 2 / 2;
    var n32, n64, n128 := n16 / 2, n16 / 2 / 2, n16 / 2 / 2 / 2;
    assert BitLength(n) == 1 + BitLength(n2);
    assert n2 > 0 ==> BitLength(n2) == 1 + BitLength(n4);
    assert n4 > 0 ==> BitLength(n4) == 1 + BitLength(n8);
    assert n8 > 0 ==> BitLength(n8) == 1 + BitLength(n16);
    assert n16 > 0 ==> BitLength(n16) == 1 + BitLength(n32);
    assert n32 > 0 ==> BitLength(n32) == 1 + BitLength(n64);
    assert n64 > 0 ==> BitLength(n64) == 1 + BitLength(n128);
    assert n128 > 0 ==> BitLength(n128) == 1 + BitLength(n128 / 2);
  }

  lemma BitLengthShift(n: nat)
    requires n >= 256
    ensures BitLength(n) == 8 + BitLength(n / 256)
  {
    BitLengthNibble(n);
    BitLengthNibble(n / 16);
    assert n / 16 / 16 == n / 256;
  }

  lemma BitLengthNibble(n: nat)
    requires n >= 16
    ensures BitLength(n) == 4 + BitLength(n / 16)
  {
    var n2, n4, n8 := n / 2, n / 4, n / 8;
    assert BitLength(n) == 1 + BitLength(n2);
    assert n4 == n2 / 2 && BitLength(n2) == 1 + BitLength(n4);
    assert n8 == n4 / 2 && BitLength(n4) == 1 + BitLength(n8);
    assert n / 16 == n8 / 2 && BitLength(n8) == 1 + BitLength(n / 16);
  }

  lemma {:induction false} PowBits(k: nat)
    ensures Pow(2, 8 * k) == Pow(256, k)
  {
    if k > 0 {
      PowBits(k - 1);
      PowAdd(2, 8, 8 * k - 8);
      assert Pow(2, 8) == 256;
    }
  }

  /** The byte-by-byte shift loop produces the shortest big-endian numeral. */
  method Bn2Bin(v: nat) returns (s: Bytes)
    ensures s == Digits(256, v)
  {
    BitsVersusBytes(v);
    ghost var d := Digits(256, v);
    s := [];
    var i := BnBytes(v, false);
    while i > 0
      invariant 0 <= i <= |d|
      invariant s == d[..|d| - i]
    {
      DigitAt(256, v, i - 1);
      PowBits(i - 1);
      s := s + [Shr(v, (i - 1) * 8) % 256];
      i := i - 1;
    }
  }

  method Bin2Bn(s: Bytes) returns (res: nat)
    ensures res == Value(256, s)
  {
    res := 0;
    for i := 0 to |s|
      invariant res == Value(256, s[..i])
    {
      assert s[..i + 1][..i] == s[..i];
      res := res * 256 + s[i];
    }
    assert s[..|s|] == s;
  }

  /** Big-endian sign-magnitude bytes: an extra byte carries the sign when the top bit of the magnitude is taken. */
  function SignMagnitude(v: int): Bytes {
    var d: Bytes := Digits(256, Abs(v));
    var sign := if v < 0 then 128 else 0;
    if d == [] then []
    else if d[0] >= 128 then [sign] + d
    else [d[0] + sign] + d[1..]
  }

  /** The bytes with the sign bit cleared. */
  function Magnitude(s: Bytes): (m: Bytes)
    ensures |m| == |s|
    ensures forall i :: 0 < i < |s| ==> m[i] == s[i]
    ensures s != [] ==> m[0] == s[0] % 128
  {
    if s == [] then [] else s[0 := s[0] % 128]
  }

  /** The integer that big-endian sign-magnitude bytes denote. */
  function SignedValue(s: Bytes): int {
    var m: int := Value(256, Magnitude(s));
    if s != [] && s[0] >= 128 then -m else m
  }

  /** None where packing the length overflows 32 bits. */
  method Bn2Mpi(v: int) returns (r: Option<Bytes>)
    ensures r == if |SignMagnitude(v)| < 0x1_0000_0000 then Some(PackBE(|SignMagnitude(v)|, 4) + SignMagnitude(v)) else None
  {
    hide Digits, PackBE, Value;
    var m := Abs(v);
    BitsVersusBytes(m);
    var haveExt := m > 0 && BitLength(m) % 8 == 0;
    var neg := v < 0;
    var n := BnBytes(m, haveExt);
    if n >= 0x1_0000_0000 {
      return None;
    }
    var s := PackBE(n, 4);
    var ext: Bytes := if haveExt then [0] else [];
    var bin := Bn2Bin(m);
    if neg {
      if haveExt {
        ext := ext[0 := ext[0] + 0x80];
      } else {
        bin := bin[0 := bin[0] + 0x80];
      }
    }
    assert ext + bin == SignMagnitude(v);
    r := Some(s + (ext + bin));
  }

  method Mpi2Bn(s: Bytes) returns (r: Option<int>)
    ensures r == if |s| < 4 || |s| != Value(256, s[..4]) + 4 then None else Some(SignedValue(s[4..]))
  {
    if |s| < 4 {
      return None;
    }
    var len := Bin2Bn(s[..4]);
    if |s| != len + 4 {
      return None;
    }
    if len == 0 {
      return Some(0);
    }
    var str := s[4..];
    var neg := false;
    if str[0] >= 0x80 {
      neg := true;
      str := str[0 := str[0] - 0x80];
    }
    assert str == Magnitude(s[4..]);
    var v: int := Bin2Bn(str);
    r := Some(if neg then -v else v);
  }

  /** The script encoding: the sign-magnitude bytes with the least significant first. */
  function EncodeNum(v: int): Bytes {
    Reverse(SignMagnitude(v))
  }

  function DecodeNum(b: Bytes): int {
    SignedValue(Reverse(b))
  }

  method Bn2Vch(v: int) returns (r: Option<Bytes>)
    ensures r == if |EncodeNum(v)| < 0x1_0000_0000 then Some(EncodeNum(v)) else None
  {
    var mpi := Bn2Mpi(v);
    if mpi.None? {
      return None;
    }
    assert mpi.value[4..] == SignMagnitude(v);
    r := Some(Reverse(mpi.value[4..]));
  }

  /** None where packing the length overflows 32 bits. */
  method Vch2Bn(b: Bytes) returns (r: Option<int>)
    ensures r == if |b| < 0x1_0000_0000 then Some(DecodeNum(b)) else None
  {
    if |b| >= 0x1_0000_0000 {
      return None;
    }
    var mpi := PackBE(|b|, 4) + Reverse(b);
    assert mpi[..4] == PackBE(|b|, 4) && mpi[4..] == Reverse(b);
    assert Pow(256, 4) == 0x1_0000_0000;
    ValuePackBE(|b|, 4);
    r := Mpi2Bn(mpi);
  }

  lemma MagnitudeOfSigned(v: int)
    ensures var d := Digits(256, Abs(v));
            Magnitude(SignMagnitude(v)) == if d != [] && d[0] >= 128 then [0] + d else d
    ensures v != 0 ==> SignMagnitude(v) != [] && (SignMagnitude(v)[0] >= 128 <==> v < 0)
  {
  }

  lemma SignedValueOfSigned(v: int)
    ensures SignedValue(SignMagnitude(v)) == v
  {
    MagnitudeOfSigned(v);
    ValueDigits(256, Abs(v));
    ValueZeroFirst(256, Digits(256, Abs(v)));
  }

  lemma DecodeEncode(v: int)
    ensures DecodeNum(EncodeNum(v)) == v
  {
    ReverseReverse(SignMagnitude(v));
    SignedValueOfSigned(v);
  }

  /** The last byte holds the sign and seven bits; a byte put in front counts once, the rest 256 times as much. */
  lemma NumberByByte(low: byte, b: Bytes)
    ensures DecodeNum([]) == 0
    ensures DecodeNum([low]) == if low < 128 then low else 128 - low
    ensures b != [] ==> DecodeNum([low] + b) == 256 * DecodeNum(b) + if b[|b| - 1] < 128 then low else 0 - low
  {
    var t, r := Magnitude([low]), Reverse([low] + b);
    assert Reverse([low]) == [low] && t[..0] == [];
    if b != [] {
      var m, n := Magnitude(Reverse(b)), Magnitude(r);
      assert r == Reverse(b) + [low] && n[..|n| - 1] == m && n[|n| - 1] == low;
    }
  }

  /** No shorter byte string denotes v, and an equally short one is the same. */
  lemma EncodeIsShortest(v: int, b: Bytes)
    requires DecodeNum(b) == v
    ensures |EncodeNum(v)| <= |b|
    ensures |EncodeNum(v)| == |b| ==> EncodeNum(v) == b
  {
    ReverseReverse(b);
    SignMagnitudeIsShortest(v, Reverse(b));
  }

  lemma SignMagnitudeIsShortest(v: int, r: Bytes)
    requires SignedValue(r) == v
    ensures |SignMagnitude(v)| <= |r|
    ensures |SignMagnitude(v)| == |r| ==> SignMagnitude(v) == r
  {
    ShortestOf(256, Magnitude(r), Digits(256, Abs(v)));
    MagnitudeOfSigned(v);
    if |SignMagnitude(v)| == |r| && v != 0 {
      assert Magnitude(SignMagnitude(v)) == Magnitude(r);
      SameMagnitude(SignMagnitude(v), r);
    }
  }

  lemma SameMagnitude(a: Bytes, b: Bytes)
    requires a != [] && Magnitude(a) == Magnitude(b)
    requires a[0] >= 128 <==> b[0] >= 128
    ensures a == b
  {
    assert |a| == |b|;
    assert forall i :: 0 <= i < |a| ==> Magnitude(a)[i] == Magnitude(b)[i];
  }

  /** A script value is true if some byte is set, a final sign bit apart. */
  predicate CastToBool(b: Bytes) {
    exists i :: 0 <= i < |b| && b[i] != 0 && !(i == |b| - 1 && b[i] == 0x80)
  }

  method TestBool(b: Bytes) returns (r: bool)
    ensures r == CastToBool(b)
  {
    for i := 0 to |b|
      invariant forall j :: 0 <= j < i ==> b[j] == 0
    {
      var bv := b[i];
      if bv != 0 {
        if i == |b| - 1 && bv == 0x80 {
          return false;
        }
        return true;
      }
    }
    return false;
  }

  lemma CastToBoolIsNonzero(b: Bytes)
    ensures CastToBool(b) <==> DecodeNum(b) != 0
  {
    var t, n := Magnitude(Reverse(b)), |b|;
    ValueIsZero(256, t);
    hide Value, Magnitude;
    if i :| 0 <= i < n && t[i] != 0 {
      assert b[n - 1 - i] != 0;
    }
    if CastToBool(b) {
      var i :| 0 <= i < n && b[i] != 0 && !(i == n - 1 && b[i] == 0x80);
      assert t[n - 1 - i] != 0;
    }
  }

  /** Four-byte operands stay within five bytes under the arithmetic of the script machine. */
  lemma EncodeSize(v: int, width: nat)
    requires width > 0 && -0x80 * Pow(256, width - 1) < v < 0x80 * Pow(256, width - 1)
    ensures |EncodeNum(v)| <= width
  {
    var d := Digits(256, Abs(v));
    ValueDigits(256, Abs(v));
    if d != [] {
      LeadingDigit(256, d);
      PowMonotone(width, |d| - 1);
      MulLe(1, d[0], Pow(256, |d| - 1));
      MulLe(0x80, d[0], Pow(256, |d| - 1));
    }
  }

  lemma LeadingDigit(base: nat, s: seq<nat>)
    requires s != []
    ensures Value(base, s) == s[0] * Pow(base, |s| - 1) + Value(base, s[1..])
  {
    ValueAppend(base, [s[0]], s[1..]);
    assert [s[0]] + s[1..] == s;
    assert Value(base, [s[0]]) == s[0];
  }

  lemma {:induction false} PowMonotone(m: nat, n: nat)
    ensures m <= n ==> Pow(256, m) <= Pow(256, n)
    decreases n
  {
    PowPositive(256, n);
    if m < n {
      PowPositive(256, n - 1);
      PowMonotone(m, n - 1);
    }
  }

  lemma DecodeSize(b: Bytes, width: nat)
    requires width > 0 && |b| <= width
    ensures -0x80 * Pow(256, width - 1) < DecodeNum(b) < 0x80 * Pow(256, width - 1)
  {
    PowPositive(256, width - 1);
    if b != [] {
      var t := Magnitude(Reverse(b));
      LeadingDigit(256, t);
      ValueBound(256, t[1..]);
      MulLe(t[0], 0x7f, Pow(256, |t| - 1));
      PowMonotone(|t| - 1, width - 1);
    }
  }
}
