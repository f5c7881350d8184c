/** Binary codecs whose decoders accept exactly what their encoders produce (bitcointx/core/serialize.py). */
module Serialize {
  import opened Core
  import opened Script
  import Numerals

  const MAX_SIZE := 0x0200_0000

  datatype Failure = TooLarge | Truncated | NonCanonical | SuperfluousWitness | UnknownFlags | TooManyEntries | DuplicateKey | PathTooLong

  /** A decoded value and the bytes after it. */
  type Decoded<+T> = Result<(T, Bytes), Failure>

  datatype Codec<!T> = Codec(ok: T -> bool, enc: T -> Bytes, dec: Bytes -> Decoded<T>)

  predicate RoundTrips<T(==)>(c: Codec<T>, x: T, t: Bytes) {
    c.ok(x) ==> c.dec(c.enc(x) + t) == Ok((x, t))
  }

  predicate Reencodes<T>(c: Codec<T>, s: Bytes) {
    c.dec(s).Ok? ==> var (x, t) := c.dec(s).value; c.ok(x) && s == c.enc(x) + t
  }

  /** The decoder is the inverse of the encoder, whatever follows, and accepts nothing else. */
  ghost predicate Lawful<T(!new)>(c: Codec<T>) {
    && (forall x, t :: RoundTrips(c, x, t))
    && (forall s :: Reencodes(c, s))
  }

  lemma DecodesBack<T(!new)>(c: Codec<T>, x: T, t: Bytes)
    requires Lawful(c) && c.ok(x)
    ensures c.dec(c.enc(x) + t) == Ok((x, t))
  {
    assert RoundTrips(c, x, t);
  }

  lemma CameFrom<T(!new)>(c: Codec<T>, s: Bytes)
    requires Lawful(c) && c.dec(s).Ok?
    ensures var (x, t) := c.dec(s).value; c.ok(x) && s == c.enc(x) + t
  {
    assert Reencodes(c, s);
  }

  /** ser_read: n bytes, unless that is too many or more than there are. */
  function Take(s: Bytes, n: nat): (r: Decoded<Bytes>)
    ensures r.Ok? ==> |r.value.0| == n && s == r.value.0 + r.value.1
  {
    if n > MAX_SIZE then Err(TooLarge) else if |s| < n then Err(Truncated) else Ok((s[..n], s[n..]))
  }

  lemma TakeAll(b: Bytes, t: Bytes)
    requires |b| <= MAX_SIZE
    ensures Take(b + t, |b|) == Ok((b, t))
  {
    assert (b + t)[..|b|] == b && (b + t)[|b|..] == t;
  }

  /** A number of so many bytes, least significant first. */
  function DecodeLE(s: Bytes, width: nat): Decoded<nat> {
    match Take(s, width)
    case Err(e) => Err(e)
    case Ok((b, t)) => Ok((LE(b), t))
  }

  function Unsigned(width: nat): Codec<nat> {
    Codec((n: nat) => n < Pow(256, width), (n: nat) => ToLE(n, width), (s: Bytes) => DecodeLE(s, width))
  }

  lemma UnsignedLawful(width: nat)
    requires width <= 8
    ensures Lawful(Unsigned(width))
  {
    hide LE, ToLE;
    var c := Unsigned(width);
    forall x: nat, t | c.ok(x)
      ensures RoundTrips(c, x, t)
    {
      LEOfToLE(x, width);
      TakeAll(ToLE(x, width), t);
    }
    forall s | c.dec(s).Ok?
      ensures Reencodes(c, s)
    {
      ToLEOfLE(s[..width]);
    }
  }

  /** Two's complement. */
  function ToUnsigned(v: int, width: nat): nat
    requires 0 <= v + Pow(256, width)
  {
    if v < 0 then v + Pow(256, width) else v
  }

  function ToSigned(n: nat, width: nat): int {
    if 2 * n < Pow(256, width) then n else n - Pow(256, width)
  }

  function Signed(width: nat): Codec<int> {
    Codec(
      (v: int) => 0 <= 2 * v + Pow(256, width) < 2 * Pow(256, width),
      (v: int) => if 0 <= v + Pow(256, width) then ToLE(ToUnsigned(v, width), width) else [],
      (s: Bytes) => match DecodeLE(s, width) case Err(e) => Err(e) case Ok((n, t)) => Ok((ToSigned(n, width), t)))
  }

  lemma SignedValues(p: nat, v: int, n: nat, width: nat)
    requires p == Pow(256, width) && p % 2 == 0
    ensures 0 <= 2 * v + p < 2 * p ==> 0 <= v + p && ToUnsigned(v, width) < p && ToSigned(ToUnsigned(v, width), width) == v
    ensures n < p ==> 0 <= 2 * ToSigned(n, width) + p < 2 * p && ToUnsigned(ToSigned(n, width), width) == n
  {
    hide Pow;
  }

  lemma SignedRoundTrips(width: nat, x: int, t: Bytes)
    requires 0 < width <= 8
    ensures RoundTrips(Signed(width), x, t)
  {
    assert Pow(256, width) % 2 == 0;
    hide LE, ToLE, Pow, Take;
    if Signed(width).ok(x) {
      SignedValues(Pow(256, width), x, 0, width);
      hide ToSigned;
      UnsignedLawful(width);
      assert RoundTrips(Unsigned(width), ToUnsigned(x, width), t);
    }
  }

  lemma SignedReencodes(width: nat, s: Bytes)
    requires 0 < width <= 8
    ensures Reencodes(Signed(width), s)
  {
    assert Pow(256, width) % 2 == 0;
    hide LE, ToLE, Pow, Take;
    if Signed(width).dec(s).Ok? {
      UnsignedLawful(width);
      assert Reencodes(Unsigned(width), s);
      SignedValues(Pow(256, width), 0, DecodeLE(s, width).value.0, width);
      hide ToSigned, ToUnsigned;
    }
  }

  lemma SignedLawful(width: nat)
    requires 0 < width <= 8
    ensures Lawful(Signed(width))
  {
    hide RoundTrips, Reencodes, Signed;
    forall x: int, t
      ensures RoundTrips(Signed(width), x, t)
    {
      SignedRoundTrips(width, x, t);
    }
    forall s
      ensures Reencodes(Signed(width), s)
    {
      SignedReencodes(width, s);
    }
  }

  /** A variable length integer in its shortest form. */
  function CompactSize(n: nat): Bytes {
    if n < 0xfd then [n]
    else if n <= 0xffff then [0xfd] + ToLE(n, 2)
    else if n <= 0xffff_ffff then [0xfe] + ToLE(n, 4)
    else [0xff] + ToLE(n, 8)
  }

  /** A length spelled out: one byte, or a marker and two, four or eight bytes from the lowest. */
  function LengthPrefix(n: nat): Bytes {
    if n < 253 then [n]
    else if n < 0x1_0000 then [253, n % 256, n / 256]
    else if n < 0x1_0000_0000 then [254, n % 256, n / 0x100 % 256, n / 0x1_0000 % 256, n / 0x100_0000]
    else [255, n % 256, n / 0x100 % 256, n / 0x1_0000 % 256, n / 0x100_0000 % 256,
      n / 0x1_0000_0000 % 256, n / 0x100_0000_0000 % 256, n / 0x1_0000_0000_0000 % 256, n / 0x100_0000_0000_0000 % 256]
  }

  /** The length form, byte by byte. */
  lemma CompactSizeIsPrefix(n: nat)
    ensures CompactSize(n) == LengthPrefix(n)
  {
    LowBytes(n);
    hide ToLE;
    assert n < 0x1_0000 ==> n / 0x100 % 256 == n / 0x100;
    assert n < 0x1_0000_0000 ==> n / 0x100_0000 % 256 == n / 0x100_0000;
  }

  lemma LowBytes(n: nat)
    ensures ToLE(n, 2) == [n % 256, n / 0x100 % 256]
    ensures ToLE(n, 4) == [n % 256, n / 0x100 % 256, n / 0x1_0000 % 256, n / 0x100_0000 % 256]
    ensures ToLE(n, 8) == ToLE(n, 4) + [n / 0x1_0000_0000 % 256, n / 0x100_0000_0000 % 256, n / 0x1_0000_0000_0000 % 256, n / 0x100_0000_0000_0000 % 256]
  {
    FourLowBytes(n);
    FourLowBytes(n / 0x1_0000_0000);
    LESplit(n, 4, 4);
    assert Pow(256, 4) == 0x1_0000_0000;
    assert ToLE(n, 2) == [n % 256] + ToLE(n / 256, 1);
    assert ToLE(n / 256, 1) == [n / 256 % 256];
    hide ToLE, Pow;
    Quotients(n);
  }

  lemma Quotients(n: nat)
    ensures n / 0x1_0000_0000 / 0x100 == n / 0x100_0000_0000
    ensures n / 0x1_0000_0000 / 0x1_0000 == n / 0x1_0000_0000_0000
    ensures n / 0x1_0000_0000 / 0x100_0000 == n / 0x100_0000_0000_0000
  {
  }

  lemma FourLowBytes(n: nat)
    ensures ToLE(n, 4) == [n % 256, n / 0x100 % 256, n / 0x1_0000 % 256, n / 0x100_0000 % 256]
  {
    var a, b, c := n / 256, n / 256 / 256, n / 256 / 256 / 256;
    assert b == n / 0x1_0000 && c == n / 0x100_0000;
    assert ToLE(c, 1) == [c % 256];
    assert ToLE(b, 2) == [b % 256] + ToLE(c, 1) == [b % 256, c % 256];
    assert ToLE(a, 3) == [a % 256] + ToLE(b, 2) == [a % 256, b % 256, c % 256];
    assert ToLE(n, 4) == [n % 256] + ToLE(a, 3);
  }

  lemma {:induction false} LESplit(n: nat, k: nat, m: nat)
    ensures Pow(256, k) > 0 && ToLE(n, k + m) == ToLE(n, k) + ToLE(n / Pow(256, k), m)
    decreases k
  {
    PowPositive(256, k);
    if k > 0 {
      PowPositive(256, k - 1);
      LESplit(n / 256, k - 1, m);
      Numerals.DivDiv(n, 256, Pow(256, k - 1));
    }
  }

  /** The wide forms refuse values that fit a narrower one; only the full range goes beyond MAX_SIZE. */
  function DecodeWide(s: Bytes, width: nat, lower: nat, fullRange: bool): Decoded<nat> {
    match DecodeLE(s, width)
    case Err(e) => Err(e)
    case Ok((v, t)) =>
      if v < lower then Err(NonCanonical)
      else if !fullRange && v > MAX_SIZE then Err(NonCanonical)
      else Ok((v, t))
  }

  function DecodeSize(s: Bytes, fullRange: bool): Decoded<nat> {
    match Take(s, 1)
    case Err(e) => Err(e)
    case Ok((b, t)) =>
      if b[0] < 0xfd then Ok((b[0], t))
      else if b[0] == 0xfd then DecodeWide(t, 2, 0xfd, fullRange)
      else if b[0] == 0xfe then DecodeWide(t, 4, 0x1_0000, fullRange)
      else DecodeWide(t, 8, 0x1_0000_0000, fullRange)
  }

  function SizeLimit(fullRange: bool): nat {
    if fullRange then 0xffff_ffff_ffff_ffff else MAX_SIZE
  }

  function VarInt(fullRange: bool): Codec<nat> {
    Codec((n: nat) => n <= SizeLimit(fullRange), CompactSize, (s: Bytes) => DecodeSize(s, fullRange))
  }

  lemma WideRoundTrips(n: nat, width: nat, lower: nat, fullRange: bool, t: Bytes)
    requires width <= 8 && lower <= n < Pow(256, width) && n <= SizeLimit(fullRange)
    ensures DecodeWide(ToLE(n, width) + t, width, lower, fullRange) == Ok((n, t))
  {
    UnsignedLawful(width);
    assert RoundTrips(Unsigned(width), n, t);
    hide ToLE, LE;
  }

  lemma WideReencodes(s: Bytes, width: nat, lower: nat, fullRange: bool)
    requires width <= 8 && DecodeWide(s, width, lower, fullRange).Ok?
    ensures var (n, t) := DecodeWide(s, width, lower, fullRange).value;
            lower <= n < Pow(256, width) && (!fullRange ==> n <= MAX_SIZE) && s == ToLE(n, width) + t
  {
    UnsignedLawful(width);
    assert Reencodes(Unsigned(width), s);
    hide ToLE, LE;
  }

  lemma Pow256Values()
    ensures Pow(256, 1) == 0x100 && Pow(256, 2) == 0x1_0000 && Pow(256, 4) == 0x1_0000_0000 && Pow(256, 8) == 0x1_0000_0000_0000_0000
  {
    PowAdd(256, 4, 4);
  }

  lemma FirstByte(b: byte, s: Bytes, t: Bytes)
    ensures Take([b] + s + t, 1) == Ok(([b], s + t))
  {
    assert [b] + s + t == [b] + (s + t);
    TakeAll([b], s + t);
  }

  lemma VarIntLawful(fullRange: bool)
    ensures Lawful(VarInt(fullRange))
  {
    hide ToLE, LE, Pow, DecodeWide, Take;
    Pow256Values();
    var c := VarInt(fullRange);
    forall n: nat, t | c.ok(n)
      ensures RoundTrips(c, n, t)
    {
      if n < 0xfd {
        FirstByte(n, [], t);
        assert [n] + [] == [n] && [] + t == t;
      } else if n <= 0xffff {
        FirstByte(0xfd, ToLE(n, 2), t);
        WideRoundTrips(n, 2, 0xfd, fullRange, t);
      } else if n <= 0xffff_ffff {
        FirstByte(0xfe, ToLE(n, 4), t);
        WideRoundTrips(n, 4, 0x1_0000, fullRange, t);
      } else {
        FirstByte(0xff, ToLE(n, 8), t);
        WideRoundTrips(n, 8, 0x1_0000_0000, fullRange, t);
      }
    }
    forall s | c.dec(s).Ok?
      ensures Reencodes(c, s)
    {
      SizeReencodes(s, fullRange);
    }
  }

  lemma SizeReencodes(s: Bytes, fullRange: bool)
    requires DecodeSize(s, fullRange).Ok?
    ensures var (n, t) := DecodeSize(s, fullRange).value; n <= SizeLimit(fullRange) && s == CompactSize(n) + t
  {
    hide ToLE, LE, Pow, DecodeWide;
    Pow256Values();
    var (b, u) := Take(s, 1).value;
    assert b == [b[0]];
    if b[0] == 0xfd {
      WideReencodes(u, 2, 0xfd, fullRange);
    } else if b[0] == 0xfe {
      WideReencodes(u, 4, 0x1_0000, fullRange);
    } else if b[0] == 0xff {
      WideReencodes(u, 8, 0x1_0000_0000, fullRange);
    }
  }

  function DecodeBytes(s: Bytes): Decoded<Bytes> {
    match DecodeSize(s, false)
    case Err(e) => Err(e)
    case Ok((n, t)) => Take(t, n)
  }

  function EncodeBytes(b: Bytes): Bytes {
    CompactSize(|b|) + b
  }

  function VarBytes(): Codec<Bytes> {
    Codec((b: Bytes) => |b| <= MAX_SIZE, EncodeBytes, DecodeBytes)
  }

  lemma VarBytesLawful()
    ensures Lawful(VarBytes())
  {
    hide CompactSize, DecodeSize;
    VarIntLawful(false);
    var c, sizes := VarBytes(), VarInt(false);
    forall b: Bytes, t | c.ok(b)
      ensures RoundTrips(c, b, t)
    {
      assert RoundTrips(sizes, |b|, b + t);
      assert EncodeBytes(b) + t == CompactSize(|b|) + (b + t);
      TakeAll(b, t);
    }
    forall s | c.dec(s).Ok?
      ensures Reencodes(c, s)
    {
      assert Reencodes(sizes, s);
      var (b, t) := c.dec(s).value;
      assert CompactSize(|b|) + (b + t) == EncodeBytes(b) + t;
    }
  }

  /** Exactly n bytes. */
  function Block(n: nat): Codec<Bytes> {
    Codec((b: Bytes) => |b| == n, (b: Bytes) => b, (s: Bytes) => Take(s, n))
  }

  lemma BlockLawful(n: nat)
    requires n <= MAX_SIZE
    ensures Lawful(Block(n))
  {
    var c := Block(n);
    forall b: Bytes, t | c.ok(b)
      ensures RoundTrips(c, b, t)
    {
      TakeAll(b, t);
    }
    assert forall s :: Reencodes(c, s);
  }

  function DecodeBoth<A, B>(a: Codec<A>, b: Codec<B>, s: Bytes): Decoded<(A, B)> {
    match a.dec(s)
    case Err(e) => Err(e)
    case Ok((x, t)) =>
      match b.dec(t)
      case Err(e) => Err(e)
      case Ok((y, u)) => Ok(((x, y), u))
  }

  /** One value after the other. */
  function Both<A, B>(a: Codec<A>, b: Codec<B>): Codec<(A, B)> {
    Codec(
      (p: (A, B)) => a.ok(p.0) && b.ok(p.1),
      (p: (A, B)) => a.enc(p.0) + b.enc(p.1),
      (s: Bytes) => DecodeBoth(a, b, s))
  }

  lemma BothLawful<A(!new), B(!new)>(a: Codec<A>, b: Codec<B>)
    requires Lawful(a) && Lawful(b)
    ensures Lawful(Both(a, b))
  {
    var c := Both(a, b);
    forall p: (A, B), t | c.ok(p)
      ensures RoundTrips(c, p, t)
    {
      assert RoundTrips(a, p.0, b.enc(p.1) + t) && RoundTrips(b, p.1, t);
      assert c.enc(p) + t == a.enc(p.0) + (b.enc(p.1) + t);
    }
    forall s | c.dec(s).Ok?
      ensures Reencodes(c, s)
    {
      assert Reencodes(a, s);
      var (x, t) := a.dec(s).value;
      assert Reencodes(b, t);
      var (y, u) := b.dec(t).value;
      assert a.enc(x) + (b.enc(y) + u) == c.enc((x, y)) + u;
    }
  }

  /** The same bytes for values of another type. */
  function As<A, B>(c: Codec<A>, to: A -> B, back: B -> A): Codec<B> {
    Codec(
      (y: B) => c.ok(back(y)),
      (y: B) => c.enc(back(y)),
      (s: Bytes) => match c.dec(s) case Err(e) => Err(e) case Ok((x, t)) => Ok((to(x), t)))
  }

  lemma AsLawful<A(!new), B(!new)>(c: Codec<A>, to: A -> B, back: B -> A)
    requires Lawful(c) && (forall x :: back(to(x)) == x) && (forall y :: to(back(y)) == y)
    ensures Lawful(As(c, to, back))
  {
    var d := As(c, to, back);
    forall y: B, t | d.ok(y)
      ensures RoundTrips(d, y, t)
    {
      assert RoundTrips(c, back(y), t);
    }
    forall s | d.dec(s).Ok?
      ensures Reencodes(d, s)
    {
      assert Reencodes(c, s);
    }
  }

  function EncodeAll<T>(c: Codec<T>, xs: seq<T>): Bytes {
    if xs == [] then [] else c.enc(xs[0]) + EncodeAll(c, xs[1..])
  }

  function DecodeCount<T>(c: Codec<T>, n: nat, s: Bytes): (r: Decoded<seq<T>>)
    ensures r.Ok? ==> |r.value.0| == n
  {
    if n == 0 then Ok(([], s))
    else match c.dec(s)
      case Err(e) => Err(e)
      case Ok((x, t)) =>
        match DecodeCount(c, n - 1, t)
        case Err(e) => Err(e)
        case Ok((xs, u)) => Ok(([x] + xs, u))
  }

  predicate AllOk<T>(c: Codec<T>, xs: seq<T>) {
    forall i :: 0 <= i < |xs| ==> c.ok(xs[i])
  }

  lemma {:induction false} CountRoundTrips<T(!new)>(c: Codec<T>, xs: seq<T>, t: Bytes)
    requires Lawful(c) && AllOk(c, xs)
    ensures DecodeCount(c, |xs|, EncodeAll(c, xs) + t) == Ok((xs, t))
  {
    if xs == [] {
      assert EncodeAll(c, xs) + t == t;
    } else {
      CountRoundTrips(c, xs[1..], t);
      assert RoundTrips(c, xs[0], EncodeAll(c, xs[1..]) + t);
      assert EncodeAll(c, xs) + t == c.enc(xs[0]) + (EncodeAll(c, xs[1..]) + t);
      assert [xs[0]] + xs[1..] == xs;
    }
  }

  lemma {:induction false} CountReencodes<T(!new)>(c: Codec<T>, n: nat, s: Bytes)
    requires Lawful(c) && DecodeCount(c, n, s).Ok?
    ensures var (xs, t) := DecodeCount(c, n, s).value; AllOk(c, xs) && s == EncodeAll(c, xs) + t
  {
    if n == 0 {
      assert EncodeAll(c, []) + s == s;
    } else {
      assert Reencodes(c, s);
      var (x, t) := c.dec(s).value;
      CountReencodes(c, n - 1, t);
      var (xs, u) := DecodeCount(c, n - 1, t).value;
      assert ([x] + xs)[1..] == xs;
      assert c.enc(x) + (EncodeAll(c, xs) + u) == EncodeAll(c, [x] + xs) + u;
    }
  }

  function DecodeVector<T>(c: Codec<T>, s: Bytes): Decoded<seq<T>> {
    match DecodeSize(s, false)
    case Err(e) => Err(e)
    case Ok((n, t)) => DecodeCount(c, n, t)
  }

  function EncodeVector<T>(c: Codec<T>, xs: seq<T>): Bytes {
    CompactSize(|xs|) + EncodeAll(c, xs)
  }

  /** The number of elements, then the elements. */
  function Vector<T>(c: Codec<T>): Codec<seq<T>> {
    Codec((xs: seq<T>) => |xs| <= MAX_SIZE && AllOk(c, xs), (xs: seq<T>) => EncodeVector(c, xs), (s: Bytes) => DecodeVector(c, s))
  }

  lemma VectorLawful<T(!new)>(c: Codec<T>)
    requires Lawful(c)
    ensures Lawful(Vector(c))
  {
    hide CompactSize, DecodeSize, EncodeAll, DecodeCount;
    VarIntLawful(false);
    var v, sizes := Vector(c), VarInt(false);
    forall xs: seq<T>, t | v.ok(xs)
      ensures RoundTrips(v, xs, t)
    {
      hide Lawful;
      assert RoundTrips(sizes, |xs|, EncodeAll(c, xs) + t) by {
        assert Lawful(sizes) ==> RoundTrips(sizes, |xs|, EncodeAll(c, xs) + t);
      }
      CountRoundTrips(c, xs, t);
      assert EncodeVector(c, xs) + t == CompactSize(|xs|) + (EncodeAll(c, xs) + t);
    }
    forall s | v.dec(s).Ok?
      ensures Reencodes(v, s)
    {
      assert Reencodes(sizes, s);
      var (n, t) := DecodeSize(s, false).value;
      CountReencodes(c, n, t);
      var (xs, u) := DecodeCount(c, n, t).value;
      assert CompactSize(n) + (EncodeAll(c, xs) + u) == EncodeVector(c, xs) + u;
    }
  }
}
