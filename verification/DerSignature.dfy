/** DER signatures: the strict check, the lax parser and the low-S test, all read as two integers R and S. */
module DerSignature {
  import opened Core
  import opened Numerals
  import opened ScriptNum

  /** _IsValidSignatureEncoding: strict DER followed by a hash-type byte. */
  predicate IsValidSignatureEncoding(sig: Bytes) {
    && 9 <= |sig| <= 73
    && sig[0] == 0x30
    && sig[1] == |sig| - 3
    && var lenR: int := sig[3];
    && 5 + lenR < |sig|
    && var lenS: int := sig[5 + lenR];
    && lenR + lenS + 7 == |sig|
    && sig[2] == 0x02
    && lenR != 0
    && sig[4] < 0x80
    && !(lenR > 1 && sig[4] == 0 && sig[5] < 0x80)
    && sig[lenR + 4] == 0x02
    && lenS != 0
    && sig[lenR + 6] < 0x80
    && !(lenS > 1 && sig[lenR + 6] == 0 && sig[lenR + 7] < 0x80)
  }

  /** The shortest form of a positive integer. */
  predicate IsInteger(s: Bytes) {
    s != [] && s[0] < 0x80 && (|s| > 1 && s[0] == 0 ==> s[1] >= 0x80)
  }

  function Signature(r: Bytes, s: Bytes, hashType: byte): Bytes
    requires |r| + |s| <= 66
  {
    [0x30, |r| + |s| + 4, 2, |r|] + r + [2, |s|] + s + [hashType]
  }

  /** Strictly encoded signatures are two integers in their shortest forms under their headers, and a hash type, in at most 73 bytes. */
  lemma StrictIsSignature(sig: Bytes)
    ensures IsValidSignatureEncoding(sig) ==>
              var r, s := RBytes(sig), SBytes(sig); IsInteger(r) && IsInteger(s) && |r| + |s| <= 66 && sig == Signature(r, s, sig[|sig| - 1])
  {
    if IsValidSignatureEncoding(sig) {
      var n: int := sig[3];
      var m: int := sig[5 + n];
      assert sig == sig[..4] + sig[4..4 + n] + sig[4 + n..6 + n] + sig[6 + n..6 + n + m] + sig[6 + n + m..];
      assert sig[..4] == [0x30, n + m + 4, 2, n] && sig[4 + n..6 + n] == [2, m] && sig[6 + n + m..] == [sig[|sig| - 1]];
    }
  }

  lemma SignatureIsStrict(r: Bytes, s: Bytes, hashType: byte)
    requires |r| + |s| <= 66 && IsInteger(r) && IsInteger(s)
    ensures var sig := Signature(r, s, hashType); IsValidSignatureEncoding(sig) && RBytes(sig) == r && SBytes(sig) == s
  {
    var sig, n := Signature(r, s, hashType), |r|;
    assert sig[3] == n && sig[2] == 2 && sig[1] == |sig| - 3;
    assert sig[4..4 + n] == r && sig[4 + n] == 2 && sig[5 + n] == |s|;
    assert sig[6 + n..6 + n + |s|] == s;
    assert sig[4] == r[0] && (n > 1 ==> sig[5] == r[1]) && sig[6 + n] == s[0] && (|s| > 1 ==> sig[7 + n] == s[1]);
  }

  /** The bounds IsLowDERSignature indexes within. */
  predicate HasIntegers(sig: Bytes) {
    && |sig| > 3
    && var lenR: int := sig[3];
    && |sig| > 5 + lenR
    && var lenS: int := sig[5 + lenR];
    && |sig| >= 6 + lenR + lenS
  }

  function RBytes(sig: Bytes): Bytes
    requires HasIntegers(sig)
  {
    var lenR: int := sig[3];
    sig[4..4 + lenR]
  }

  function SBytes(sig: Bytes): Bytes
    requires HasIntegers(sig)
  {
    var lenR: int := sig[3];
    var lenS: int := sig[5 + lenR];
    sig[6 + lenR..6 + lenR + lenS]
  }

  /** A length descriptor at pos: the length and the position after it. */
  function LaxLength(input: Bytes, pos: nat): (r: Option<(nat, nat)>)
    requires pos <= |input|
    ensures r.Some? ==> r.value.0 <= |input| - r.value.1
  {
    if pos == |input| then None
    else
      var b: int := input[pos];
      if b < 0x80 then (if b > |input| - pos - 1 then None else Some((b, pos + 1)))
      else
        var n := b - 0x80;
        if n > |input| - pos - 1 then None
        else
          var len := Value(256, input[pos + 1..pos + 1 + n]);
          if len >= 0x100_0000 || len > |input| - pos - 1 - n then None else Some((len, pos + 1 + n))
  }

  /** An integer element at pos: the length of its bytes and their position. */
  function LaxInteger(input: Bytes, pos: nat): (r: Option<(nat, nat)>)
    requires pos <= |input|
    ensures r.Some? ==> r.value.0 <= |input| - r.value.1
  {
    if pos == |input| || input[pos] != 0x02 then None else LaxLength(input, pos + 1)
  }

  /** The sequence header: the position after it. */
  function LaxHeader(input: Bytes): (r: Option<nat>)
    ensures r.Some? ==> r.value <= |input|
  {
    if |input| < 2 || input[0] != 0x30 then None
    else
      var b: int := input[1];
      if b < 0x80 then Some(2)
      else if b - 0x80 > |input| - 2 then None
      else Some(2 + b - 0x80)
  }

  /** The two integers found, both unsigned, with anything after them ignored. */
  function LaxIntegers(input: Bytes): Option<(Bytes, Bytes)> {
    match LaxHeader(input)
    case None => None
    case Some(pos) =>
      match LaxInteger(input, pos)
      case None => None
      case Some((rlen, rpos)) =>
        match LaxInteger(input, rpos + rlen)
        case None => None
        case Some((slen, spos)) => Some((input[rpos..rpos + rlen], input[spos..spos + slen]))
  }

  /** A sequence tag and a length, short or long, whose value does not matter. */
  predicate IsHeader(h: Bytes) {
    |h| >= 2 && h[0] == 0x30 && |h| == 2 + if h[1] < 0x80 then 0 else h[1] as int - 0x80
  }

  /** A length of n: one byte below 0x80, or 0x80 and a count of big-endian bytes, leading zeros included, for less than 2^24. */
  predicate IsLength(l: Bytes, n: nat) {
    l != []
    && if l[0] < 0x80 then |l| == 1 && l[0] == n
       else |l| == 1 + l[0] as int - 0x80 && Value(256, l[1..]) == n < 0x100_0000
  }

  /** A header, two integers under tags and lengths, and anything after them. */
  datatype Lax = Lax(h: Bytes, lr: Bytes, r: Bytes, ls: Bytes, s: Bytes, tail: Bytes)
  {
    predicate Formed(input: Bytes) {
      IsHeader(h) && IsLength(lr, |r|) && IsLength(ls, |s|) && input == h + ([2] + lr + r) + ([2] + ls + s) + tail
    }
  }

  lemma LengthRead(before: Bytes, l: Bytes, n: nat, after: Bytes)
    requires IsLength(l, n) && n <= |after|
    ensures LaxLength(before + l + after, |before|) == Some((n, |before| + |l|))
  {
    var input, pos := before + l + after, |before|;
    assert input[pos] == l[0] && input[pos + 1..pos + |l|] == l[1..];
    hide Value;
  }

  lemma HeaderRead(h: Bytes, rest: Bytes)
    requires IsHeader(h)
    ensures LaxHeader(h + rest) == Some(|h|)
  {
  }

  lemma IntegerRead(before: Bytes, l: Bytes, x: Bytes, after: Bytes)
    requires IsLength(l, |x|)
    ensures var input, at := before + ([2] + l + x) + after, |before| + 1 + |l|;
            LaxInteger(input, |before|) == Some((|x|, at)) && input[at..at + |x|] == x
  {
    hide IsLength, LaxLength;
    var input := before + ([2] + l + x) + after;
    assert input == (before + [2]) + l + (x + after) && input[|before|] == 2;
    LengthRead(before + [2], l, |x|, x + after);
  }

  lemma Associate(a: Bytes, b: Bytes, c: Bytes, d: Bytes)
    ensures a + b + c + d == a + (b + c + d) == a + b + (c + d)
  {
  }

  lemma LaxFound(input: Bytes, pos: nat, rlen: nat, rpos: nat, slen: nat, spos: nat)
    requires LaxHeader(input) == Some(pos) && LaxInteger(input, pos) == Some((rlen, rpos)) && LaxInteger(input, rpos + rlen) == Some((slen, spos))
    ensures LaxIntegers(input) == Some((input[rpos..rpos + rlen], input[spos..spos + slen]))
  {
    hide LaxHeader, LaxInteger;
  }

  lemma LaxParses(h: Bytes, lr: Bytes, r: Bytes, ls: Bytes, s: Bytes, tail: Bytes)
    requires IsHeader(h) && IsLength(lr, |r|) && IsLength(ls, |s|)
    ensures LaxIntegers(h + ([2] + lr + r) + ([2] + ls + s) + tail) == Some((r, s))
  {
    var first, second := [2] + lr + r, [2] + ls + s;
    hide IsLength, IsHeader, LaxInteger, LaxHeader, LaxIntegers;
    Associate(h, first, second, tail);
    HeaderRead(h, first + second + tail);
    IntegerRead(h, lr, r, second + tail);
    IntegerRead(h + first, ls, s, tail);
    var input := h + first + second + tail;
    LaxFound(input, |h|, |r|, |h| + 1 + |lr|, |s|, |h + first| + 1 + |ls|);
  }

  lemma LengthFound(input: Bytes, pos: nat)
    requires pos <= |input| && LaxLength(input, pos).Some?
    ensures var (n, at) := LaxLength(input, pos).value; pos < at && n <= |input| - at && IsLength(input[pos..at], n)
  {
    var (n, at) := LaxLength(input, pos).value;
    assert input[pos..at][1..] == input[pos + 1..at];
    hide Value;
  }

  lemma Parts(input: Bytes, a: nat, b: nat, c: nat, d: nat, e: nat)
    requires a < b <= c < d <= e <= |input| && input[a] == 2 && input[c] == 2
    ensures input == input[..a] + ([2] + input[a + 1..b] + input[b..c]) + ([2] + input[c + 1..d] + input[d..e]) + input[e..]
  {
  }

  lemma LaxDecomposes(input: Bytes) returns (x: Lax)
    requires LaxIntegers(input).Some?
    ensures x.Formed(input) && LaxIntegers(input) == Some((x.r, x.s))
  {
    hide IsLength, LaxLength;
    var pos := LaxHeader(input).value;
    var (rlen, rpos) := LaxInteger(input, pos).value;
    var (slen, spos) := LaxInteger(input, rpos + rlen).value;
    LengthFound(input, pos + 1);
    LengthFound(input, rpos + rlen + 1);
    Parts(input, pos, rpos, rpos + rlen, spos, spos + slen);
    x := Lax(input[..pos], input[pos + 1..rpos], input[rpos..rpos + rlen], input[rpos + rlen + 1..spos], input[spos..spos + slen], input[spos + slen..]);
  }

  /** The lax parser finds two integers exactly where the bytes have the form, and finds those. */
  lemma LaxIsExact(input: Bytes, r: Bytes, s: Bytes)
    ensures LaxIntegers(input) == Some((r, s)) <==> exists x: Lax :: x.Formed(input) && x.r == r && x.s == s
  {
    hide LaxIntegers, IsLength, IsHeader;
    if LaxIntegers(input).Some? {
      var x := LaxDecomposes(input);
      assert x.Formed(input);
    }
    if x: Lax :| x.Formed(input) && x.r == r && x.s == s {
      LaxParses(x.h, x.lr, x.r, x.ls, x.s, x.tail);
    }
  }

  const TWO_256: nat := 0x1_0000000000000000_0000000000000000_0000000000000000_0000000000000000

  /** The compact form: R and S as 32 big-endian bytes each, or zeros when either needs more than 256 bits. */
  function Compact(r: nat, s: nat): Bytes {
    if r < TWO_256 && s < TWO_256 then PackBE(r, 32) + PackBE(s, 32) else Zeros(64)
  }

  method ReadLength(input: Bytes, start: nat) returns (res: Option<(nat, nat)>)
    requires start <= |input|
    ensures res == LaxLength(input, start)
  {
    var pos := start;
    if pos == |input| {
      return None;
    }
    var lenbyte: int := input[pos];
    pos := pos + 1;
    var len: nat := lenbyte;
    if lenbyte >= 0x80 {
      lenbyte := lenbyte - 0x80;
      if lenbyte > |input| - pos {
        return None;
      }
      var long := ReadLongLength(input, pos, lenbyte);
      if long.None? {
        return None;
      }
      len := long.value;
      pos := pos + lenbyte;
    }
    if len > |input| - pos {
      return None;
    }
    return Some((len, pos));
  }

  /** A length field of count bytes: leading zeros are skipped, and at most three bytes may remain. */
  method ReadLongLength(input: Bytes, start: nat, count: nat) returns (res: Option<nat>)
    requires start + count <= |input|
    ensures var len := Value(256, input[start..start + count]);
            res == if len >= 0x100_0000 then None else Some(len)
  {
    var pos, lenbyte := start, count;
    ghost var end := start + count;
    while lenbyte > 0 && input[pos] == 0
      invariant 0 <= lenbyte && pos + lenbyte == end
      invariant Value(256, input[start..end]) == Value(256, input[pos..end])
    {
      DropZero(input, pos, end);
      pos := pos + 1;
      lenbyte := lenbyte - 1;
    }
    LeadingByteBound(input[pos..end]);
    if lenbyte >= 4 {
      return None;
    }
    var len: nat := 0;
    ghost var first := pos;
    while lenbyte > 0
      invariant 0 <= lenbyte && first <= pos && pos + lenbyte == end
      invariant len == Value(256, input[first..pos])
    {
      assert input[first..pos + 1][..pos - first] == input[first..pos];
      len := len * 256 + input[pos];
      pos := pos + 1;
      lenbyte := lenbyte - 1;
    }
    return Some(len);
  }

  lemma DropZero(s: Bytes, i: nat, j: nat)
    requires i < j <= |s| && s[i] == 0
    ensures Value(256, s[i..j]) == Value(256, s[i + 1..j])
  {
    ValueZeroFirst(256, s[i + 1..j]);
    hide Value;
    assert s[i..j] == [0] + s[i + 1..j];
  }

  /** Without a leading zero, a field is under 2^24 exactly when it has fewer than four bytes. */
  lemma LeadingByteBound(s: Bytes)
    requires s != [] ==> s[0] != 0
    ensures |s| >= 4 <==> Value(256, s) >= 0x100_0000
  {
    assert Pow(256, 3) == 0x100_0000;
    if |s| >= 4 {
      LeadingDigit(256, s);
      PowMonotone(3, |s| - 1);
      MulLe(1, s[0], Pow(256, |s| - 1));
    } else {
      ValueBound(256, s);
      PowMonotone(|s|, 3);
    }
  }

  /** Copies an integer without its leading zeros so that it ends at offset end of the buffer. */
  method CopyInteger(input: Bytes, start: nat, length: nat, buffer: array<byte>, end: nat) returns (fits: bool)
    requires start + length <= |input| && 32 <= end <= buffer.Length
    requires forall k :: end - 32 <= k < end ==> buffer[k] == 0
    modifies buffer
    ensures fits <==> Value(256, input[start..start + length]) < TWO_256
    ensures fits ==> buffer[end - 32..end] == PackBE(Value(256, input[start..start + length]), 32)
    ensures forall k :: 0 <= k < buffer.Length && !(end - 32 <= k < end) ==> buffer[k] == old(buffer[k])
  {
    var pos, len := start, length;
    ghost var stop, v := start + length, Value(256, input[start..start + length]);
    while len > 0 && input[pos] == 0
      invariant 0 <= len && pos + len == stop && unchanged(buffer)
      invariant v == Value(256, input[pos..stop])
    {
      DropZero(input, pos, stop);
      pos := pos + 1;
      len := len - 1;
    }
    ghost var digits := input[pos..stop];
    StrippedSize(digits);
    if len > 32 {
      return false;
    }
    forall k | end - len <= k < end {
      buffer[k] := input[pos + (k - (end - len))];
    }
    assert buffer[end - 32..end] == Zeros(32 - len) + digits;
    PaddedIsPacked(digits);
    return true;
  }

  lemma StrippedSize(s: Bytes)
    requires s != [] ==> s[0] != 0
    ensures |s| <= 32 <==> Value(256, s) < TWO_256
  {
    Pow32();
    if |s| > 32 {
      LeadingDigit(256, s);
      PowMonotone(32, |s| - 1);
      MulLe(1, s[0], Pow(256, |s| - 1));
    } else {
      ValueBound(256, s);
      PowMonotone(|s|, 32);
    }
  }

  lemma Pow32()
    ensures Pow(256, 32) == TWO_256
  {
    PowAdd(256, 16, 16);
    PowAdd(256, 8, 8);
    PowAdd(256, 4, 4);
    assert Pow(256, 4) == 0x1_0000_0000;
  }

  lemma IsNumeralBytes(s: Bytes)
    ensures IsNumeral(256, s)
  {
  }

  lemma PaddedIsPacked(s: Bytes)
    requires |s| <= 32
    ensures Zeros(32 - |s|) + s == PackBE(Value(256, s), 32)
  {
    hide *;
    var z := Zeros(32 - |s|) + s;
    assert z == seq(32 - |s|, _ => 0) + s;
    ValueZeros(256, 32 - |s|, s);
    IsNumeralBytes(z);
    ValueBound(256, z);
    ValuePackBE(Value(256, s), 32);
    IsNumeralBytes(PackBE(Value(256, s), 32));
    ValueInjective(256, z, PackBE(Value(256, s), 32));
  }

  /** ecdsa_signature_parse_der_lax up to the filled compact buffer; every read is within the input. */
  method ParseDerLax(input: Bytes) returns (res: Option<Bytes>)
    ensures res == match LaxIntegers(input)
                   case None => None
                   case Some((r, s)) => Some(Compact(Value(256, r), Value(256, s)))
  {
    hide LaxHeader, LaxInteger, Value, Compact, LaxLength;
    var tmpsig := new byte[64](_ => 0);
    var header := ReadHeader(input);
    if header.None? {
      return None;
    }
    var integerR := ReadInteger(input, header.value);
    if integerR.None? {
      return None;
    }
    var (rlen, rpos) := integerR.value;
    var integerS := ReadInteger(input, rpos + rlen);
    if integerS.None? {
      return None;
    }
    var (slen, spos) := integerS.value;
    ghost var r, s := input[rpos..rpos + rlen], input[spos..spos + slen];
    assert LaxIntegers(input) == Some((r, s));
    hide *;
    var fitsR := CopyInteger(input, rpos, rlen, tmpsig, 32);
    ghost var left := tmpsig[..32];
    var fitsS := CopyInteger(input, spos, slen, tmpsig, 64);
    assert tmpsig[..32] == left;
    var overflow := !fitsR || !fitsS;
    if overflow {
      tmpsig := new byte[64](_ => 0);
    }
    res := Some(tmpsig[..]);
    FilledCompact(tmpsig[..], Value(256, r), Value(256, s));
  }

  lemma FilledCompact(buffer: Bytes, r: nat, s: nat)
    requires |buffer| == 64
    requires r < TWO_256 && s < TWO_256 ==> buffer[..32] == PackBE(r, 32) && buffer[32..64] == PackBE(s, 32)
    requires !(r < TWO_256 && s < TWO_256) ==> forall i :: 0 <= i < 64 ==> buffer[i] == 0
    ensures buffer == Compact(r, s)
  {
    assert buffer == buffer[..32] + buffer[32..64];
  }

  method ReadHeader(input: Bytes) returns (res: Option<nat>)
    ensures res == LaxHeader(input)
  {
    var pos := 0;
    if pos == |input| || input[pos] != 0x30 {
      return None;
    }
    pos := pos + 1;
    if pos == |input| {
      return None;
    }
    var lenbyte: int := input[pos];
    pos := pos + 1;
    if lenbyte >= 0x80 {
      lenbyte := lenbyte - 0x80;
      if lenbyte > |input| - pos {
        return None;
      }
      pos := pos + lenbyte;
    }
    return Some(pos);
  }

  method ReadInteger(input: Bytes, pos: nat) returns (res: Option<(nat, nat)>)
    requires pos <= |input|
    ensures res == LaxInteger(input, pos)
  {
    if pos == |input| || input[pos] != 0x02 {
      return None;
    }
    res := ReadLength(input, pos + 1);
  }

  /** The strict and the lax reading of a strictly encoded signature agree on R and S. */
  lemma StrictAgreesWithLax(sig: Bytes)
    requires IsValidSignatureEncoding(sig)
    ensures HasIntegers(sig)
    ensures LaxIntegers(sig[..|sig| - 1]) == Some((RBytes(sig), SBytes(sig)))
    ensures RBytes(sig) != [] && SBytes(sig) != []
  {
    var input := sig[..|sig| - 1];
    var lenR: int := sig[3];
    var lenS: int := sig[5 + lenR];
    assert LaxHeader(input) == Some(2);
    assert LaxLength(input, 3) == Some((lenR, 4));
    assert input[4..4 + lenR] == RBytes(sig);
    assert LaxLength(input, 5 + lenR) == Some((lenS, 6 + lenR));
    assert input[6 + lenR..6 + lenR + lenS] == SBytes(sig);
  }

  const ORDER: nat := 0xffffffff_ffffffff_ffffffff_fffffffe_baaedce6_af48a03b_bfd25e8c_d0364141
  const HALF_ORDER: nat := 0x7fffffff_ffffffff_ffffffff_ffffffff_5d576e73_57a4501d_dfe92f46_681b20a0

  const MAX_MOD_HALF_ORDER: Bytes := [
    0x7f, 0xff, 0xff, 0xff, 0xff, 0xff, 0xff, 0xff,
    0xff, 0xff, 0xff, 0xff, 0xff, 0xff, 0xff, 0xff,
    0x5d, 0x57, 0x6e, 0x73, 0x57, 0xa4, 0x50, 0x1d,
    0xdf, 0xe9, 0x2f, 0x46, 0x68, 0x1b, 0x20, 0xa0]

  function WordAt(s: Bytes, i: nat): nat
    requires i + 4 <= |s|
  {
    var hi: int := s[i];
    ((hi * 0x100 + s[i + 1]) * 0x100 + s[i + 2]) * 0x100 + s[i + 3]
  }

  /** The value of a prefix, one 32-bit word at a time. */
  lemma PrefixWord(s: Bytes, n: nat)
    requires 4 <= n <= |s|
    ensures Value(256, s[..n]) == Value(256, s[..n - 4]) * 0x1_0000_0000 + WordAt(s, n - 4)
  {
    assert s[..n][..n - 1] == s[..n - 1] && s[..n - 1][..n - 2] == s[..n - 2];
    assert s[..n - 2][..n - 3] == s[..n - 3] && s[..n - 3][..n - 4] == s[..n - 4];
    var v1, v2, v3 := Value(256, s[..n - 1]), Value(256, s[..n - 2]), Value(256, s[..n - 3]);
    assert v3 == Value(256, s[..n - 4]) * 256 + s[n - 4];
    assert v2 == v3 * 256 + s[n - 3];
    assert v1 == v2 * 256 + s[n - 2];
  }

  lemma HalfOrderWords()
    ensures var w := MAX_MOD_HALF_ORDER;
            WordAt(w, 0) == 0x7fffffff && WordAt(w, 4) == 0xffffffff && WordAt(w, 8) == 0xffffffff && WordAt(w, 12) == 0xffffffff
  {
  }

  lemma HalfOrderLowWords()
    ensures var w := MAX_MOD_HALF_ORDER;
            WordAt(w, 16) == 0x5d576e73 && WordAt(w, 20) == 0x57a4501d && WordAt(w, 24) == 0xdfe92f46 && WordAt(w, 28) == 0x681b20a0
  {
  }

  lemma ValueByWords(s: Bytes)
    requires |s| == 32
    ensures Value(256, s[..16]) == ((WordAt(s, 0) * 0x1_0000_0000 + WordAt(s, 4)) * 0x1_0000_0000 + WordAt(s, 8)) * 0x1_0000_0000 + WordAt(s, 12)
    ensures Value(256, s) == (((Value(256, s[..16]) * 0x1_0000_0000 + WordAt(s, 16)) * 0x1_0000_0000 + WordAt(s, 20)) * 0x1_0000_0000 + WordAt(s, 24)) * 0x1_0000_0000 + WordAt(s, 28)
  {
    assert Value(256, s[..0]) == 0 && s[..32] == s;
    hide Value, WordAt;
    PrefixWord(s, 4);
    PrefixWord(s, 8);
    PrefixWord(s, 12);
    PrefixWord(s, 16);
    PrefixWord(s, 20);
    PrefixWord(s, 24);
    PrefixWord(s, 28);
    PrefixWord(s, 32);
  }

  lemma HalfOrderValue()
    ensures Value(256, MAX_MOD_HALF_ORDER) == HALF_ORDER
    ensures 2 * HALF_ORDER + 1 == ORDER
  {
    hide Value, WordAt;
    ValueByWords(MAX_MOD_HALF_ORDER);
    HalfOrderWords();
    HalfOrderLowWords();
  }

  /** The sign of the result orders the two byte strings as numbers, whatever their lengths. */
  method CompareBigEndian(x: Bytes, y: Bytes) returns (order: int)
    ensures order > 0 <==> Value(256, x) > Value(256, y)
    ensures order == 0 <==> Value(256, x) == Value(256, y)
  {
    var c1, c2 := x, y;
    while |c1| > |c2|
      invariant |c2| == |y| && c2 == y
      invariant Value(256, c1) == Value(256, x)
    {
      var head := c1[0];
      if head > 0 {
        LongerIsGreater(c1, c2);
        return 1;
      }
      LeadingDigit(256, c1);
      c1 := c1[1..];
    }
    while |c2| > |c1|
      invariant |c1| <= |c2|
      invariant Value(256, c1) == Value(256, x) && Value(256, c2) == Value(256, y)
    {
      var head := c2[0];
      if head > 0 {
        LongerIsGreater(c2, c1);
        return -1;
      }
      LeadingDigit(256, c2);
      c2 := c2[1..];
    }
    while |c1| > 0
      invariant |c1| == |c2|
      invariant Value(256, c1) - Value(256, c2) == Value(256, x) - Value(256, y)
    {
      var diff: int := c1[0] as int - c2[0] as int;
      FirstDifference(c1, c2);
      if diff != 0 {
        return diff;
      }
      c1, c2 := c1[1..], c2[1..];
    }
    return 0;
  }

  lemma FirstDifference(s: Bytes, t: Bytes)
    requires |s| == |t| > 0
    ensures s[0] > t[0] ==> Value(256, s) > Value(256, t)
    ensures s[0] < t[0] ==> Value(256, s) < Value(256, t)
    ensures s[0] == t[0] ==> Value(256, s) - Value(256, t) == Value(256, s[1..]) - Value(256, t[1..])
  {
    LeadingDigit(256, s);
    LeadingDigit(256, t);
    ValueBound(256, s[1..]);
    ValueBound(256, t[1..]);
    hide *;
    CompareLeading(s[0], t[0], Pow(256, |s| - 1), Value(256, s[1..]), Value(256, t[1..]));
    CompareLeading(t[0], s[0], Pow(256, |s| - 1), Value(256, t[1..]), Value(256, s[1..]));
  }

  lemma CompareLeading(a: nat, b: nat, p: nat, x: nat, y: nat)
    requires x < p && y < p
    ensures a > b ==> a * p + x > b * p + y
  {
    MulLe(b + 1, a, p);
    MulLe(b, a, p);
  }

  lemma LongerIsGreater(s: Bytes, t: Bytes)
    requires |s| > |t| && s[0] > 0
    ensures Value(256, s) > Value(256, t)
  {
    LeadingDigit(256, s);
    ValueBound(256, t);
    PowMonotone(|t|, |s| - 1);
    MulLe(1, s[0], Pow(256, |s| - 1));
  }

  /** 0 < S <= half the group order. */
  predicate IsLowS(sig: Bytes)
    requires HasIntegers(sig)
  {
    0 < Value(256, SBytes(sig)) <= HALF_ORDER
  }

  method IsLowDERSignature(sig: Bytes) returns (r: bool)
    requires HasIntegers(sig)
    ensures r == IsLowS(sig)
  {
    var lengthR: int := sig[3];
    var lengthS: int := sig[5 + lengthR];
    var s := sig[6 + lengthR..6 + lengthR + lengthS];
    var positive := CompareBigEndian(s, [0]);
    assert Value(256, [0]) == 0;
    if positive <= 0 {
      return false;
    }
    HalfOrderValue();
    var atMost := CompareBigEndian(s, MAX_MOD_HALF_ORDER);
    return atMost <= 0;
  }
}
