/** Regrouping bits from one symbol width to another (bitcointx/segwit_addr.py). */
module ConvertBits {
  import opened Core
  import opened Numerals
  import opened Bits

  /** The numeral of n with exactly so many digits. */
  function Fixed(base: nat, n: nat, width: nat): (s: seq<nat>)
    requires base > 0
    ensures |s| == width && IsNumeral(base, s)
    decreases width
  {
    if width == 0 then [] else
      assert n / base >= 0 by { QuotientSign(n, base); }
      Fixed(base, n / base, width - 1) + [n % base]
  }

  lemma QuotientSign(n: nat, base: nat)
    requires base > 0
    ensures n / base >= 0
  {
    DivMod(n, base);
    MulLe(n / base + 1, 0, base);
  }

  lemma FixedStep(base: nat, n: nat, width: nat)
    requires base > 0 && width > 0
    ensures n / base >= 0
    ensures Value(base, Fixed(base, n, width)) == Value(base, Fixed(base, n / base, width - 1)) * base + n % base
  {
    QuotientSign(n, base);
    var s, q := Fixed(base, n, width), n / base;
    assert s == Fixed(base, q, width - 1) + [n % base];
    hide Fixed;
    assert s[..width - 1] == Fixed(base, q, width - 1) && s[width - 1] == n % base;
  }

  lemma {:induction false} FixedValue(base: nat, n: nat, width: nat)
    requires base > 0 && n < Pow(base, width)
    ensures Value(base, Fixed(base, n, width)) == n
    decreases width
  {
    if width > 0 {
      FixedStep(base, n, width);
      QuotientBound(n, base, Pow(base, width - 1));
      FixedValue(base, n / base, width - 1);
      hide Fixed, Value, Pow;
      DivMod(n, base);
    }
  }

  lemma QuotientBound(n: nat, base: nat, p: nat)
    requires base > 0 && n < base * p
    ensures n / base < p
  {
    DivMod(n, base);
    MulLe(p, n / base, base);
  }

  /** A numeral is the fixed-width numeral of its value. */
  lemma FixedIs(base: nat, s: seq<nat>)
    requires base > 0 && IsNumeral(base, s)
    ensures s == Fixed(base, Value(base, s), |s|)
  {
    ValueBound(base, s);
    FixedValue(base, Value(base, s), |s|);
    ValueInjective(base, s, Fixed(base, Value(base, s), |s|));
  }

  predicate InRange(data: seq<int>, bits: nat) {
    forall i :: 0 <= i < |data| ==> 0 <= data[i] < Pow(2, bits)
  }

  function Nats(data: seq<int>): (r: seq<nat>)
    requires forall i :: 0 <= i < |data| ==> 0 <= data[i]
    ensures r == data
  {
    seq(|data|, i requires 0 <= i < |data| => data[i])
  }

  /** The same bits in groups of another size, filled up with zeros, or with the zeros that fill a group taken off. */
  function Regroup(data: seq<int>, from: nat, to: nat, pad: bool): (r: Option<seq<nat>>)
    requires from > 0 && to > 0
    ensures r.Some? ==> IsNumeral(Pow(2, to), r.value)
  {
    PowPositive(2, to);
    var total := |data| * from;
    var left := total % to;
    PowPositive(2, left);
    if !InRange(data, from) then None
    else
      var v := Value(Pow(2, from), Nats(data));
      if left == 0 then Some(Fixed(Pow(2, to), v, total / to))
      else if pad then Some(Fixed(Pow(2, to), v * Pow(2, to - left), total / to + 1))
      else if left >= from || v % Pow(2, left) != 0 then None
      else Some(Fixed(Pow(2, to), v / Pow(2, left), total / to))
  }

  lemma MulMod(x: nat, v: nat, p: nat, q: nat)
    requires v < p && q > 0
    ensures p * q > 0
    ensures (x * p + v) % (p * q) == x % q * p + v
  {
    DivMod(x, q);
    var a, b := x / q, x % q;
    assert x * p + v == a * (p * q) + (b * p + v) by {
      assert x == a * q + b;
      MulRearrange(a, q, b, p);
    }
    HornerBound(b, q, p, v);
    DivModUnique(a * (p * q) + (b * p + v), p * q, a, b * p + v);
  }

  lemma ModSplit(x: nat, p: nat, q: nat)
    requires p > 0 && q > 0
    ensures p * q > 0
    ensures x % (p * q) == x / p % q * p + x % p
  {
    DivMod(x, p);
    MulMod(x / p, x % p, p, q);
  }

  lemma ModMod(x: nat, p: nat, q: nat)
    requires p > 0 && q > 0
    ensures p * q > 0
    ensures x % (p * q) % p == x % p
  {
    ModSplit(x, p, q);
    DivModUnique(x / p % q * p + x % p, p, x / p % q, x % p);
  }

  /** The bits not yet written out. */
  function Pending(acc: nat, bits: nat): nat {
    PowPositive(2, bits);
    acc % Pow(2, bits)
  }

  /** What has been written and what is pending are all the bits read so far. */
  predicate Holds(base: nat, ret: seq<nat>, acc: nat, bits: nat, v: nat) {
    IsNumeral(base, ret) && Value(base, ret) * Pow(2, bits) + Pending(acc, bits) == v
  }

  lemma TakeIn(acc: nat, bits: nat, from: nat, to: nat, value: nat)
    requires bits < to && value < Pow(2, from) && from > 0
    ensures Pow(2, from + to - 1) > 0
    ensures var next := And(Or(Shl(acc, from), value), Pow(2, from + to - 1) - 1);
            Pending(next, bits + from) == Pending(acc, bits) * Pow(2, from) + value
  {
    hide Op;
    Disjoint(acc, value, from);
    var a := acc * Pow(2, from) + value;
    PowPositive(2, from + to - 1);
    MaskIsLow(a, from + to - 1);
    var p, q, r := Pow(2, bits + from), Pow(2, bits), Pow(2, to - 1 - bits);
    PowPositive(2, bits + from);
    PowPositive(2, bits);
    PowPositive(2, to - 1 - bits);
    PowAdd(2, bits + from, to - 1 - bits);
    PowAdd(2, from, bits);
    hide Pow, And, Or;
    ModMod(a, p, r);
    MulMod(acc, value, Pow(2, from), q);
  }

  lemma ReadIn(base: nat, ret: seq<nat>, acc: nat, bits: nat, v: nat, from: nat, value: nat, next: nat)
    requires Holds(base, ret, acc, bits, v)
    requires Pending(next, bits + from) == Pending(acc, bits) * Pow(2, from) + value
    ensures Holds(base, ret, next, bits + from, v * Pow(2, from) + value)
  {
    PowAdd(2, from, bits);
    hide Pow, Pending, Value, IsNumeral;
    var w, p, f := Value(base, ret), Pow(2, bits), Pow(2, from);
    MulRearrange(w, p, Pending(acc, bits), f);
    assert Pow(2, bits + from) == f * p;
  }

  lemma WriteOut(to: nat, ret: seq<nat>, acc: nat, bits: nat, v: nat)
    requires Holds(Pow(2, to), ret, acc, bits + to, v) && Pow(2, to) > 0
    ensures var digit := And(Shr(acc, bits), Pow(2, to) - 1);
            Holds(Pow(2, to), ret + [digit], acc, bits, v)
  {
    hide Op;
    PowPositive(2, bits);
    PowAdd(2, to, bits);
    MaskIsLow(Shr(acc, bits), to);
    var digit := And(Shr(acc, bits), Pow(2, to) - 1);
    var p, q := Pow(2, bits), Pow(2, to);
    assert Pow(2, bits + to) == q * p;
    hide Pow, And;
    ModSplit(acc, p, q);
    var w := Value(q, ret);
    assert (ret + [digit])[..|ret|] == ret;
    assert digit == acc / p % q;
    hide Value;
    MulRearrange(w, q, digit, p);
  }

  lemma ValueOfPrefix(base: nat, s: seq<nat>, i: nat)
    requires i < |s|
    ensures Value(base, s[..i + 1]) == Value(base, s[..i]) * base + s[i]
  {
    assert s[..i + 1][..i] == s[..i];
  }

  lemma MulAdds(n: nat, w: nat)
    ensures (n + 1) * w == n * w + w
  {
  }

  /** The number of whole groups and of bits left over. */
  lemma GroupsAndRest(groups: nat, to: nat, bits: nat, total: nat)
    requires bits < to && groups * to + bits == total
    ensures total / to == groups && total % to == bits
  {
    DivModUnique(total, to, groups, bits);
  }

  method Convert(data: seq<int>, frombits: nat, tobits: nat, pad: bool) returns (r: Option<seq<nat>>)
    requires frombits > 0 && tobits > 0
    ensures r == Regroup(data, frombits, tobits, pad)
  {
    PowPositive(2, tobits);
    PowPositive(2, frombits);
    PowPositive(2, frombits + tobits - 1);
    var acc, bits: nat := 0, 0;
    var ret: seq<nat> := [];
    var maxv := Pow(2, tobits) - 1;
    var maxAcc := Pow(2, frombits + tobits - 1) - 1;
    Beginning(Pow(2, tobits));
    for i := 0 to |data|
      invariant bits < tobits && |ret| * tobits + bits == i * frombits
      invariant InRange(data[..i], frombits)
      invariant Holds(Pow(2, tobits), ret, acc, bits, Value(Pow(2, frombits), Nats(data[..i])))
    {
      hide Pow, And, Or, Shl, Shr, Holds, Value, Regroup, Pending, Nats;
      var value := data[i];
      if value < 0 || value >= Pow(2, frombits) {
        OutOfRange(data, frombits, tobits, pad, i);
        return None;
      }
      ghost var v := Value(Pow(2, frombits), Nats(data[..i]));
      TakeIn(acc, bits, frombits, tobits, value);
      ReadIn(Pow(2, tobits), ret, acc, bits, v, frombits, value, And(Or(Shl(acc, frombits), value), maxAcc));
      acc := And(Or(Shl(acc, frombits), value), maxAcc);
      bits := bits + frombits;
      NextValue(data, frombits, i);
      MulAdds(i, frombits);
      while bits >= tobits
        invariant |ret| * tobits + bits == (i + 1) * frombits
        invariant Holds(Pow(2, tobits), ret, acc, bits, Value(Pow(2, frombits), Nats(data[..i + 1])))
      {
        bits := bits - tobits;
        WriteOut(tobits, ret, acc, bits, Value(Pow(2, frombits), Nats(data[..i + 1])));
        MulAdds(|ret|, tobits);
        ret := ret + [And(Shr(acc, bits), maxv)];
      }
    }
    assert data[..|data|] == data;
    hide Pow, And, Shl, Holds, Regroup, Fixed, Value;
    GroupsAndRest(|ret|, tobits, bits, |data| * frombits);
    Finish(data, frombits, tobits, pad, ret, acc, bits);
    if pad {
      if bits > 0 {
        ret := ret + [And(Shl(acc, tobits - bits), maxv)];
      }
    } else if bits >= frombits || And(Shl(acc, tobits - bits), maxv) != 0 {
      return None;
    }
    r := Some(ret);
  }

  lemma Beginning(base: nat)
    ensures Holds(base, [], 0, 0, 0)
  {
  }

  lemma OutOfRange(data: seq<int>, from: nat, to: nat, pad: bool, i: nat)
    requires from > 0 && to > 0 && i < |data| && !(0 <= data[i] < Pow(2, from))
    ensures Regroup(data, from, to, pad) == None
  {
    hide Pow;
  }

  lemma NextValue(data: seq<int>, from: nat, i: nat)
    requires i < |data| && InRange(data[..i], from) && 0 <= data[i] < Pow(2, from)
    ensures InRange(data[..i + 1], from)
    ensures Value(Pow(2, from), Nats(data[..i + 1])) == Value(Pow(2, from), Nats(data[..i])) * Pow(2, from) + data[i]
  {
    hide Pow;
    assert forall j :: 0 <= j < i ==> data[..i + 1][j] == data[..i][j];
    var s := Nats(data[..i + 1]);
    assert s[..i] == Nats(data[..i]);
    ValueOfPrefix(Pow(2, from), s, i);
    assert s[..i + 1] == s;
  }

  /** The last group, shifted up; its zero bits are the ones shifted in. */
  lemma LastGroup(acc: nat, bits: nat, to: nat)
    requires bits < to && Pow(2, to) > 0
    ensures And(Shl(acc, to - bits), Pow(2, to) - 1) == Pending(acc, bits) * Pow(2, to - bits)
  {
    hide Op;
    MaskIsLow(Shl(acc, to - bits), to);
    PowPositive(2, bits);
    PowPositive(2, to - bits);
    PowAdd(2, to - bits, bits);
    MulMod(acc, 0, Pow(2, to - bits), Pow(2, bits));
    hide Pow, And;
  }

  /** What has been written and what is left over, as quotient and remainder. */
  lemma Quotients(data: seq<int>, from: nat, to: nat, ret: seq<nat>, acc: nat, bits: nat, v: nat)
    requires bits < to && Pow(2, to) > 0 && Holds(Pow(2, to), ret, acc, bits, v)
    ensures Pow(2, bits) > 0 && Pow(2, to - bits) > 0
    ensures v / Pow(2, bits) == Value(Pow(2, to), ret) && v % Pow(2, bits) == Pending(acc, bits)
    ensures And(Shl(acc, to - bits), Pow(2, to) - 1) == Pending(acc, bits) * Pow(2, to - bits)
    ensures And(Shl(acc, to - bits), Pow(2, to) - 1) == 0 <==> Pending(acc, bits) == 0
    ensures ret == Fixed(Pow(2, to), Value(Pow(2, to), ret), |ret|)
  {
    hide Op, Fixed;
    PowPositive(2, bits);
    PowPositive(2, to - bits);
    LastGroup(acc, bits, to);
    FixedIs(Pow(2, to), ret);
    hide Pow, And, Shl, Value;
    MulZero(Pending(acc, bits), Pow(2, to - bits));
    DivModUnique(v, Pow(2, bits), Value(Pow(2, to), ret), Pending(acc, bits));
  }

  /** What the loop has collected is the regrouping, but for the last group. */
  lemma Finish(data: seq<int>, from: nat, to: nat, pad: bool, ret: seq<nat>, acc: nat, bits: nat)
    requires from > 0 && bits < to && InRange(data, from) && Pow(2, to) > 0
    requires |data| * from / to == |ret| && |data| * from % to == bits
    requires Holds(Pow(2, to), ret, acc, bits, Value(Pow(2, from), Nats(data)))
    ensures var last := And(Shl(acc, to - bits), Pow(2, to) - 1);
            Regroup(data, from, to, pad) ==
              if pad then Some(if bits > 0 then ret + [last] else ret)
              else if bits >= from || last != 0 then None
              else Some(ret)
  {
    hide And, Shl, Value, Fixed, Pending, Holds, Regroup, Pow, InRange, Nats;
    Quotients(data, from, to, ret, acc, bits, Value(Pow(2, from), Nats(data)));
    if bits == 0 {
      FinishExact(data, from, to, pad, ret, acc);
    } else if pad {
      FinishPadded(to, ret, acc, bits, Value(Pow(2, from), Nats(data)));
      RegroupPadded(data, from, to, bits);
    } else {
      RegroupDropped(data, from, to, bits);
    }
  }

  lemma FinishExact(data: seq<int>, from: nat, to: nat, pad: bool, ret: seq<nat>, acc: nat)
    requires from > 0 && to > 0 && InRange(data, from) && Pow(2, to) > 0
    requires |data| * from / to == |ret| && |data| * from % to == 0
    requires Holds(Pow(2, to), ret, acc, 0, Value(Pow(2, from), Nats(data)))
    ensures Regroup(data, from, to, pad) == Some(ret) && Pending(acc, 0) == 0
  {
    FixedIs(Pow(2, to), ret);
    assert Pow(2, 0) == 1 && Pending(acc, 0) == 0;
    hide Pow, Value, Fixed, Pending;
  }

  lemma RegroupPadded(data: seq<int>, from: nat, to: nat, left: nat)
    requires from > 0 && to > 0 && InRange(data, from) && |data| * from % to == left > 0 && Pow(2, to) > 0
    ensures Regroup(data, from, to, true) == Some(Fixed(Pow(2, to), Value(Pow(2, from), Nats(data)) * Pow(2, to - left), |data| * from / to + 1))
  {
    hide Pow, Value, Fixed;
  }

  lemma RegroupDropped(data: seq<int>, from: nat, to: nat, left: nat)
    requires from > 0 && to > 0 && InRange(data, from) && |data| * from % to == left > 0 && Pow(2, to) > 0 && Pow(2, left) > 0
    ensures var v := Value(Pow(2, from), Nats(data));
            Regroup(data, from, to, false) ==
              if left >= from || v % Pow(2, left) != 0 then None
              else Some(Fixed(Pow(2, to), v / Pow(2, left), |data| * from / to))
  {
    hide Pow, Value, Fixed;
  }

  lemma FinishPadded(to: nat, ret: seq<nat>, acc: nat, bits: nat, v: nat)
    requires 0 < bits < to && Pow(2, to) > 0 && Holds(Pow(2, to), ret, acc, bits, v)
    ensures ret + [Pending(acc, bits) * Pow(2, to - bits)] == Fixed(Pow(2, to), v * Pow(2, to - bits), |ret| + 1)
  {
    hide Pow, Value, Fixed;
    var p, q, pending := Pow(2, bits), Pow(2, to - bits), Pending(acc, bits);
    PowPositive(2, bits);
    PadFits(Pow(2, to), ret, Value(Pow(2, to), ret), pending, p, q, v, to, bits);
    FixedIs(Pow(2, to), ret + [pending * q]);
  }

  lemma MulZero(a: nat, b: nat)
    requires b > 0
    ensures a * b == 0 <==> a == 0
  {
    MulLe(1, a, b);
  }

  lemma PadFits(base: nat, ret: seq<nat>, w: nat, pending: nat, p: nat, q: nat, v: nat, to: nat, bits: nat)
    requires 0 < bits < to && base == Pow(2, to) && p == Pow(2, bits) && q == Pow(2, to - bits)
    requires IsNumeral(base, ret) && w == Value(base, ret) && pending < p && v == w * p + pending
    ensures pending * q < base && IsNumeral(base, ret + [pending * q])
    ensures Value(base, ret + [pending * q]) == v * q
  {
    PowPositive(2, to - bits);
    PowAdd(2, to - bits, bits);
    assert (ret + [pending * q])[..|ret|] == ret;
    assert Value(base, ret + [pending * q]) == w * base + pending * q;
    hide Pow, Value;
    assert base == q * p;
    HornerBound(pending, p, q, 0);
    MulRearrange(w, p, pending, q);
  }

  lemma {:induction false} PowPow(k: nat, n: nat)
    ensures Pow(Pow(2, k), n) == Pow(2, n * k)
  {
    if n > 0 {
      PowPow(k, n - 1);
      MulAdds(n - 1, k);
      PowAdd(2, k, (n - 1) * k);
    }
  }

  lemma Bases()
    ensures Pow(2, 8) == 256 && Pow(2, 5) == 32
  {
    assert Pow(2, 5) == 32;
    assert Pow(2, 3) == 8;
    PowAdd(2, 5, 3);
    hide Pow;
  }

  lemma Scaled(v: nat, p: nat)
    requires p > 0
    ensures v * p % p == 0 && v * p / p == v
  {
    DivModUnique(v * p, p, v, 0);
  }

  /** Eight to five and back: the filling zeros are recognised and taken off. */
  lemma FiveBack(a: seq<nat>, b: seq<nat>)
    requires IsNumeral(256, a) && Regroup(a, 8, 5, true) == Some(b)
    ensures IsNumeral(32, b) && Regroup(b, 5, 8, false) == Some(a)
  {
    Bases();
    hide Pow, Value, Fixed;
    var total, v := |a| * 8, Value(256, a);
    var left := total % 5;
    var z := if left == 0 then 0 else 5 - left;
    assert Nats(a) == a && b == Fixed(32, v * Pow(2, z), |b|) && |b| * 5 == total + z by {
      PowZero();
    }
    FitsFive(a, z, |b|);
    FixedValue(32, v * Pow(2, z), |b|);
    PowPositive(2, z);
    Scaled(v, Pow(2, z));
    FixedIs(256, a);
    assert Nats(b) == b && |b| * 5 / 8 == |a| && |b| * 5 % 8 == z;
    PowZero();
  }

  lemma PowZero()
    ensures Pow(2, 0) == 1
  {
  }

  lemma FitsFive(a: seq<nat>, z: nat, n: nat)
    requires IsNumeral(256, a) && n * 5 == |a| * 8 + z
    ensures Value(256, a) * Pow(2, z) < Pow(32, n)
  {
    Bases();
    ValueBound(256, a);
    PowPow(8, |a|);
    PowPow(5, n);
    PowAdd(2, |a| * 8, z);
    PowPositive(2, z);
    hide Pow, Value;
    HornerBound(Value(256, a), Pow(256, |a|), Pow(2, z), 0);
  }

  /** Five to eight and back: the zeros taken off are filled up again. */
  lemma EightBack(b: seq<nat>, a: seq<nat>)
    requires IsNumeral(32, b) && Regroup(b, 5, 8, false) == Some(a)
    ensures IsNumeral(256, a) && Regroup(a, 8, 5, true) == Some(b)
  {
    Bases();
    hide Pow, Value, Fixed;
    var total, v := |b| * 5, Value(32, b);
    var left := total % 8;
    PowPositive(2, left);
    assert Nats(b) == b && left < 5 && v % Pow(2, left) == 0 && a == Fixed(256, v / Pow(2, left), |a|) && |a| * 8 == total - left by {
      PowZero();
    }
    DivMod(v, Pow(2, left));
    var w := v / Pow(2, left);
    FitsEight(b, left, |a|, w);
    FixedValue(256, w, |a|);
    FixedIs(32, b);
    assert Nats(a) == a;
    PowZero();
    if left > 0 {
      assert |a| * 8 / 5 == |b| - 1 && |a| * 8 % 5 == 5 - left;
    }
  }

  lemma FitsEight(b: seq<nat>, left: nat, n: nat, w: nat)
    requires IsNumeral(32, b) && |b| * 5 == n * 8 + left && w * Pow(2, left) == Value(32, b)
    ensures w < Pow(256, n)
  {
    Bases();
    ValueBound(32, b);
    PowPow(5, |b|);
    PowPow(8, n);
    PowAdd(2, n * 8, left);
    PowPositive(2, left);
    hide Pow, Value;
    MulLe(Pow(256, n), w, Pow(2, left));
  }
}
