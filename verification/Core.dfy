/** Shared vocabulary: results, bytes and positional numerals. */
module Core {
  datatype Option<+T> = None | Some(value: T)

  datatype Result<+T, +E> = Ok(value: T) | Err(error: E)

  type byte = x: int | 0 <= x < 256

  type Bytes = seq<byte>

  function Min(a: int, b: int): int {
    if a < b then a else b
  }

  function Abs(v: int): nat {
    if v < 0 then -v else v
  }

  function Pow(b: nat, n: nat): nat {
    if n == 0 then 1 else b * Pow(b, n - 1)
  }

  lemma {:induction false} PowAdd(b: nat, m: nat, n: nat)
    ensures Pow(b, m + n) == Pow(b, m) * Pow(b, n)
  {
    if m > 0 {
      PowAdd(b, m - 1, n);
      MulAssociates(b, Pow(b, m - 1), Pow(b, n));
    }
  }

  lemma MulAssociates(a: int, b: int, c: int)
    ensures a * (b * c) == a * b * c
  {
  }

  lemma {:induction false} PowPositive(b: nat, n: nat)
    requires b > 0
    ensures Pow(b, n) > 0
  {
    if n > 0 {
      PowPositive(b, n - 1);
    }
  }

  /** x >> n */
  function Shr(x: nat, n: nat): nat {
    PowPositive(2, n);
    x / Pow(2, n)
  }

  function Zeros(n: nat): (s: Bytes)
    ensures |s| == n && forall i :: 0 <= i < n ==> s[i] == 0
  {
    seq(n, _ => 0)
  }

  function Reverse<T>(s: seq<T>): (r: seq<T>)
    ensures |r| == |s|
    ensures forall i :: 0 <= i < |s| ==> r[i] == s[|s| - 1 - i]
  {
    seq(|s|, i requires 0 <= i < |s| => s[|s| - 1 - i])
  }

  lemma ReverseReverse<T>(s: seq<T>)
    ensures Reverse(Reverse(s)) == s
  {
    assert |Reverse(Reverse(s))| == |s|;
  }
}

/** Big-endian numerals in a base, the meaning shared by script numbers, DER integers, base58 and bit regrouping. */
module Numerals {
  import opened Core

  predicate IsNumeral(base: nat, s: seq<nat>) {
    forall i :: 0 <= i < |s| ==> s[i] < base
  }

  function Value(base: nat, s: seq<nat>): nat {
    if s == [] then 0 else Value(base, s[..|s| - 1]) * base + s[|s| - 1]
  }

  /** The shortest numeral of n. */
  function Digits(base: nat, n: nat): (s: seq<nat>)
    requires base > 1
    ensures IsNumeral(base, s)
    ensures n == 0 <==> s == []
    ensures s != [] ==> s[0] != 0
    decreases n
  {
    if n == 0 then [] else
      assert n / base < n by { DivShrinks(n, base); }
      Digits(base, n / base) + [n % base]
  }

  lemma MulLe(a: int, b: int, c: nat)
    ensures a <= b ==> a * c <= b * c
    ensures (a + 1) * c == a * c + c
  {
  }

  lemma DivMod(n: nat, base: nat)
    requires base > 0
    ensures n == n / base * base + n % base
  {
  }

  lemma MulRearrange(a: nat, p: nat, b: nat, c: nat)
    ensures (a * p + b) * c == a * (c * p) + b * c
  {
    assert (a * p) * c == a * (p * c);
  }

  lemma DivShrinks(n: nat, base: nat)
    requires n > 0 && base > 1
    ensures n / base < n
  {
    MulLe(n, n / base, base);
    MulLe(2, base, n);
  }

  lemma {:induction false} ValueDigits(base: nat, n: nat)
    requires base > 1
    ensures Value(base, Digits(base, n)) == n
    decreases n
  {
    if n > 0 {
      DivShrinks(n, base);
      var d, q, r := Digits(base, n), n / base, n % base;
      ValueDigits(base, q);
      assert d == Digits(base, q) + [r];
      hide Digits;
      assert d[..|d| - 1] == Digits(base, q) && d[|d| - 1] == r;
      DivMod(n, base);
    }
  }

  lemma {:induction false} ValueAppend(base: nat, a: seq<nat>, b: seq<nat>)
    ensures Value(base, a + b) == Value(base, a) * Pow(base, |b|) + Value(base, b)
  {
    if b == [] {
      assert a + b == a;
    } else {
      var b', x := b[..|b| - 1], b[|b| - 1];
      ValueAppend(base, a, b');
      var va, vb, p := Value(base, a), Value(base, b'), Pow(base, |b'|);
      calc {
        Value(base, a + b);
        { assert (a + b)[..|a + b| - 1] == a + b'; }
        Value(base, a + b') * base + x;
        (va * p + vb) * base + x;
        { MulRearrange(va, p, vb, base); }
        va * (base * p) + (vb * base + x);
        va * Pow(base, |b|) + Value(base, b);
      }
    }
  }

  lemma {:induction false} ValueBound(base: nat, s: seq<nat>)
    requires IsNumeral(base, s)
    ensures Value(base, s) < Pow(base, |s|)
  {
    if s != [] {
      ValueBound(base, s[..|s| - 1]);
      HornerBound(Value(base, s[..|s| - 1]), Pow(base, |s| - 1), base, s[|s| - 1]);
    }
  }

  lemma HornerBound(v: nat, p: nat, base: nat, d: nat)
    requires v < p && d < base
    ensures v * base + d < base * p
  {
    MulLe(v + 1, p, base);
    MulLe(v, p, base);
  }

  lemma {:induction false} ValueZeros(base: nat, n: nat, s: seq<nat>)
    ensures Value(base, seq(n, _ => 0) + s) == Value(base, s)
    decreases n + |s|
  {
    var z := seq(n, _ => 0);
    if s != [] {
      assert (z + s)[..|z + s| - 1] == z + s[..|s| - 1];
      ValueZeros(base, n, s[..|s| - 1]);
    } else if n > 0 {
      assert (z + s)[..|z + s| - 1] == seq(n - 1, _ => 0) + [];
      ValueZeros(base, n - 1, []);
    }
  }

  lemma ValueZeroFirst(base: nat, s: seq<nat>)
    ensures Value(base, [0] + s) == Value(base, s)
  {
    assert seq(1, _ => 0) + s == [0] + s;
    ValueZeros(base, 1, s);
  }

  /** Equally long numerals with the same value are the same. */
  lemma {:induction false} ValueInjective(base: nat, s: seq<nat>, t: seq<nat>)
    requires IsNumeral(base, s) && IsNumeral(base, t) && |s| == |t|
    requires Value(base, s) == Value(base, t)
    ensures s == t
  {
    if s != [] {
      var s', t' := s[..|s| - 1], t[..|t| - 1];
      LastDigit(base, s);
      LastDigit(base, t);
      ValueInjective(base, s', t');
      assert s == s' + [s[|s| - 1]] && t == t' + [t[|t| - 1]];
    }
  }

  lemma LastDigit(base: nat, s: seq<nat>)
    requires IsNumeral(base, s) && s != []
    ensures base > 0
    ensures Value(base, s) % base == s[|s| - 1]
    ensures Value(base, s) / base == Value(base, s[..|s| - 1])
  {
    DivModUnique(Value(base, s), base, Value(base, s[..|s| - 1]), s[|s| - 1]);
  }

  lemma DivModUnique(n: nat, base: nat, q: nat, r: nat)
    requires r < base && n == q * base + r
    ensures n / base == q && n % base == r
  {
    var q' := n / base;
    MulLe(q + 1, q', base);
    MulLe(q' + 1, q, base);
  }

  /** A numeral without leading zeros is the shortest one. */
  lemma {:induction false} DigitsValue(base: nat, s: seq<nat>)
    requires base > 1 && IsNumeral(base, s)
    requires s != [] ==> s[0] != 0
    ensures Digits(base, Value(base, s)) == s
  {
    if s != [] {
      var s' := s[..|s| - 1];
      DigitsValue(base, s');
      LastDigit(base, s);
      if |s| > 1 {
        assert Value(base, s') != 0 by {
          assert Digits(base, Value(base, s')) == s' != [];
        }
        assert Value(base, s') * base > 0;
      }
      assert s == s' + [s[|s| - 1]];
    }
  }

  /** Any numeral is its leading zeros followed by the shortest numeral of its value. */
  function LeadingZeros(s: seq<nat>): (n: nat)
    ensures n <= |s| && (n < |s| ==> s[n] != 0)
    ensures forall i :: 0 <= i < n ==> s[i] == 0
  {
    if s == [] || s[0] != 0 then 0 else 1 + LeadingZeros(s[1..])
  }

  lemma SplitZeros(base: nat, s: seq<nat>)
    requires base > 1 && IsNumeral(base, s)
    ensures s == seq(LeadingZeros(s), _ => 0) + Digits(base, Value(base, s))
  {
    var n := LeadingZeros(s);
    var t := s[n..];
    assert s == seq(n, _ => 0) + t;
    ValueZeros(base, n, t);
    DigitsValue(base, t);
  }

  /** With at most one leading zero removed, the shortest numeral d is what remains. */
  lemma ShortestOf(base: nat, s: seq<nat>, d: seq<nat>)
    requires base > 1 && IsNumeral(base, s) && d == Digits(base, Value(base, s))
    ensures |d| <= |s| && (|d| == |s| ==> d == s) && (|d| + 1 == |s| ==> [0] + d == s)
  {
    hide *;
    SplitZeros(base, s);
    if |d| + 1 == |s| {
      assert seq(1, _ => 0) + d == [0] + d;
    } else if |d| == |s| {
      assert seq(0, _ => 0) + d == d;
    }
  }

  lemma {:induction false} LeadingZerosOf(n: nat, t: seq<nat>)
    requires t != [] ==> t[0] != 0
    ensures LeadingZeros(seq(n, _ => 0) + t) == n
  {
    var s := seq(n, _ => 0) + t;
    if n > 0 {
      assert s[1..] == seq(n - 1, _ => 0) + t;
      LeadingZerosOf(n - 1, t);
    }
  }

  /** The j-th digit from the right. */
  lemma {:induction false} DigitAt(base: nat, n: nat, j: nat)
    requires base > 1 && j < |Digits(base, n)|
    ensures Pow(base, j) > 0
    ensures Digits(base, n)[|Digits(base, n)| - 1 - j] == n / Pow(base, j) % base
    decreases j
  {
    PowPositive(base, j);
    if j > 0 {
      DivShrinks(n, base);
      DigitAt(base, n / base, j - 1);
      DivDiv(n, base, Pow(base, j - 1));
    }
  }

  lemma DivDiv(n: nat, a: nat, b: nat)
    requires a > 0 && b > 0
    ensures a * b > 0 && n / a / b == n / (a * b)
  {
    DivMod(n, a);
    DivMod(n / a, b);
    NestedDivision(n / a / b, n / a % b, n % a, a, b);
    DivModUnique(n, a * b, n / a / b, n / a % b * a + n % a);
  }

  lemma NestedDivision(q: nat, r: nat, t: nat, a: nat, b: nat)
    requires t < a && r < b
    ensures a * b > 0
    ensures (q * b + r) * a + t == q * (a * b) + (r * a + t)
    ensures r * a + t < a * b
  {
    MulRearrange(q, b, r, a);
    HornerBound(r, b, a, t);
  }

  lemma {:induction false} ValueIsZero(base: nat, s: seq<nat>)
    requires base > 0
    ensures Value(base, s) == 0 <==> forall i :: 0 <= i < |s| ==> s[i] == 0
  {
    if s != [] {
      var s' := s[..|s| - 1];
      ValueIsZero(base, s');
      MulLe(1, Value(base, s'), base);
      assert forall i :: 0 <= i < |s'| ==> s'[i] == s[i];
    }
  }

  /** A fixed-width big-endian field, as struct.pack(">I") writes it. */
  function PackBE(n: nat, width: nat): (s: Bytes)
    ensures |s| == width
  {
    if width == 0 then [] else PackBE(n / 256, width - 1) + [n % 256]
  }

  lemma {:induction false} ValuePackBE(n: nat, width: nat)
    requires n < Pow(256, width)
    ensures Value(256, PackBE(n, width)) == n
  {
    if width > 0 {
      ValuePackBE(n / 256, width - 1);
      var s := PackBE(n, width);
      assert s[..|s| - 1] == PackBE(n / 256, width - 1);
    }
  }
}
