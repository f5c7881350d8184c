/** Base58 strings (bitcointx/base58.py). */
module Base58 {
  import opened Core
  import opened Numerals

  const B58_DIGITS: string := "123456789" + "ABCDEFGH" + "JKLMN" + "PQRSTUVWXYZ" + "abcdefghijk" + "mnopqrstuvwxyz"
  const MAX_BASE58_STRING_LENGTH := 128

  datatype Error = TooLong | InvalidCharacter | TooShort | BadChecksum

  /** The place of a character in the alphabet, or its end. */
  function IndexFrom(c: char, i: nat): (k: nat)
    requires i <= 58
    ensures i <= k <= 58 && (k < 58 ==> |B58_DIGITS| == 58 && B58_DIGITS[k] == c)
    ensures forall j :: i <= j < k && j < |B58_DIGITS| ==> B58_DIGITS[j] != c
    decreases 58 - i
  {
    if i == 58 || B58_DIGITS[i] == c then i else IndexFrom(c, i + 1)
  }

  function Index(c: char): (k: nat)
    ensures k <= 58
  {
    IndexFrom(c, 0)
  }

  lemma {:induction false} IndexAt(k: nat, i: nat)
    requires i <= k < 58
    ensures |B58_DIGITS| == 58 && IndexFrom(B58_DIGITS[k], i) == k
    decreases 58 - i
  {
    if B58_DIGITS[i] == B58_DIGITS[k] {
      AlphabetDistinct(i, k);
    } else {
      IndexAt(k, i + 1);
    }
  }

  /** The alphabet as ranges of character codes. */
  function Code(k: nat): int {
    if k < 9 then 49 + k
    else if k < 17 then 56 + k
    else if k < 22 then 57 + k
    else if k < 33 then 58 + k
    else if k < 44 then 64 + k
    else 65 + k
  }

  predicate IsRange(s: string, first: int) {
    forall i :: 0 <= i < |s| ==> s[i] as int == first + i
  }

  lemma Ranges()
    ensures IsRange("123456789", 49) && IsRange("ABCDEFGH", 65) && IsRange("JKLMN", 74)
    ensures IsRange("PQRSTUVWXYZ", 80) && IsRange("abcdefghijk", 97) && IsRange("mnopqrstuvwxyz", 109)
  {
  }

  lemma AlphabetCode(k: nat)
    requires k < 58
    ensures |B58_DIGITS| == 58 && B58_DIGITS[k] as int == Code(k)
  {
    Ranges();
  }

  lemma AlphabetDistinct(i: nat, k: nat)
    requires i <= k < 58 && |B58_DIGITS| == 58 && B58_DIGITS[i] == B58_DIGITS[k]
    ensures i == k
  {
    AlphabetCode(i);
    AlphabetCode(k);
  }

  function DigitsOf(s: string): (d: seq<nat>)
    ensures |d| == |s| && forall i :: 0 <= i < |s| ==> d[i] == Index(s[i])
  {
    seq(|s|, i requires 0 <= i < |s| => Index(s[i]))
  }

  function StringOf(d: seq<nat>): (s: string)
    requires IsNumeral(58, d)
    ensures |s| == |d| && |B58_DIGITS| == 58 && forall i :: 0 <= i < |d| ==> s[i] == B58_DIGITS[d[i]]
  {
    AlphabetSize();
    seq(|d|, i requires 0 <= i < |d| => B58_DIGITS[d[i]])
  }

  lemma AlphabetSize()
    ensures |B58_DIGITS| == 58
  {
  }

  lemma StringsAreDigits(s: string)
    requires IsNumeral(58, DigitsOf(s))
    ensures StringOf(DigitsOf(s)) == s
  {
  }

  lemma DigitsAreStrings(d: seq<nat>)
    requires IsNumeral(58, d)
    ensures DigitsOf(StringOf(d)) == d
  {
    forall i | 0 <= i < |d|
      ensures Index(B58_DIGITS[d[i]]) == d[i]
    {
      IndexAt(d[i], 0);
    }
  }

  /** A leading zero byte for every leading zero digit, then the shortest numeral of the value in the other base. */
  function Rebase(from: nat, to: nat, d: seq<nat>): (r: seq<nat>)
    requires to > 1
    ensures IsNumeral(to, r)
  {
    seq(LeadingZeros(d), _ => 0) + Digits(to, Value(from, d))
  }

  /** Changing the base and back is the identity. */
  lemma RebaseBack(from: nat, to: nat, d: seq<nat>)
    requires from > 1 && to > 1 && IsNumeral(from, d)
    ensures Rebase(to, from, Rebase(from, to, d)) == d
  {
    hide Digits, Value, LeadingZeros;
    var n, v := LeadingZeros(d), Value(from, d);
    var t := Digits(to, v);
    LeadingZerosOf(n, t);
    ValueZeros(to, n, t);
    ValueDigits(to, v);
    SplitZeros(from, d);
  }

  function Encode(b: Bytes): (s: string) {
    StringOf(Rebase(256, 58, b))
  }

  function Decode(s: string): Result<Bytes, Error> {
    if |s| > MAX_BASE58_STRING_LENGTH then Err(TooLong)
    else if !IsNumeral(58, DigitsOf(s)) then Err(InvalidCharacter)
    else Ok(Rebase(58, 256, DigitsOf(s)))
  }

  /** Exactly the encodings of at most 128 characters are accepted, and each decodes to what it encodes. */
  lemma DecodeInvertsEncode(s: string, b: Bytes)
    ensures Decode(s) == Ok(b) <==> s == Encode(b) && |s| <= MAX_BASE58_STRING_LENGTH
  {
    hide Rebase, Index, StringOf, DigitsOf;
    if Decode(s) == Ok(b) {
      RebaseBack(58, 256, DigitsOf(s));
      StringsAreDigits(s);
    }
    if s == Encode(b) {
      RebaseBack(256, 58, b);
      DigitsAreStrings(Rebase(256, 58, b));
    }
  }

  /** Leading zero bytes and leading ones correspond one to one. */
  lemma LeadingOnes(b: Bytes, i: nat)
    requires i <= LeadingZeros(b)
    ensures |Encode(b)| >= i && Encode(b)[..i] == seq(i, _ => '1')
    ensures i == LeadingZeros(b) < |Encode(b)| ==> Encode(b)[i] != '1'
  {
    hide Digits, Value, LeadingZeros;
    var d := Rebase(256, 58, b);
    AlphabetCode(0);
    if i == LeadingZeros(b) < |d| {
      AlphabetCode(d[i]);
    }
  }

  method RunEncode(b: Bytes) returns (s: string)
    ensures s == Encode(b)
  {
    hide Value, LeadingZeros;
    var n := Value(256, b);
    var res: seq<nat> := [];
    ghost var goal := Digits(58, n);
    while n > 0
      invariant IsNumeral(58, res) && goal == Digits(58, n) + Reverse(res)
      decreases n
    {
      DivShrinks(n, 58);
      var r := n % 58;
      ghost var tail := Reverse(res);
      assert Digits(58, n) + tail == Digits(58, n / 58) + ([r] + tail);
      assert Reverse(res + [r]) == [r] + tail;
      n := n / 58;
      res := res + [r];
    }
    var pad := 0;
    LeadingFrom(b, 0);
    while pad < |b| && b[pad] == 0
      invariant pad <= |b| && LeadingZeros(b) == pad + LeadingZeros(b[pad..])
      decreases |b| - pad
    {
      LeadingFrom(b, pad);
      pad := pad + 1;
    }
    LeadingFrom(b, pad);
    s := StringOf(seq(pad, _ => 0) + Reverse(res));
  }

  /** How the count of leading zeros goes on from an index. */
  lemma LeadingFrom(s: seq<nat>, i: nat)
    requires i <= |s|
    ensures s[0..] == s
    ensures i < |s| && s[i] == 0 ==> LeadingZeros(s[i..]) == 1 + LeadingZeros(s[i + 1..])
    ensures i == |s| || s[i] != 0 ==> LeadingZeros(s[i..]) == 0
  {
    if i < |s| {
      assert s[i..][1..] == s[i + 1..];
    }
  }

  /** The bytes of the hexadecimal digits, an even number of them. */
  function Unhexlify(h: seq<nat>): (b: seq<nat>)
    requires IsNumeral(16, h) && |h| % 2 == 0
    ensures IsNumeral(256, b) && |b| == |h| / 2
  {
    seq(|h| / 2, i requires 0 <= i < |h| / 2 => 16 * h[2 * i] + h[2 * i + 1])
  }

  lemma {:induction false} UnhexlifyValue(h: seq<nat>)
    requires IsNumeral(16, h) && |h| % 2 == 0
    ensures Value(256, Unhexlify(h)) == Value(16, h)
  {
    if h != [] {
      var n := |h|;
      var h', b := h[..n - 2], Unhexlify(h);
      assert n >= 2;
      UnhexlifyValue(h');
      assert b[..|b| - 1] == Unhexlify(h');
      assert h[..n - 1][..n - 2] == h' && h[..n - 1][n - 2] == h[n - 2];
      assert Value(16, h[..n - 1]) == Value(16, h') * 16 + h[n - 2];
    }
  }

  /** '%x' % n, with a zero in front if that makes the length even. */
  function EvenHex(n: nat): (h: seq<nat>)
    ensures IsNumeral(16, h) && |h| % 2 == 0 && h != []
  {
    var d := Digits(16, n);
    if n == 0 then [0, 0] else if |d| % 2 == 1 then [0] + d else d
  }

  lemma EvenHexValue(n: nat)
    ensures Value(16, EvenHex(n)) == n
    ensures n > 0 ==> EvenHex(n)[0] != 0 || EvenHex(n)[1] != 0
  {
    var d := Digits(16, n);
    ValueDigits(16, n);
    ValueZeroFirst(16, d);
    if n == 0 {
      assert [0, 0][..1] == [0] && [0][..0] == [];
      assert Value(16, [0]) == 0;
    } else {
      hide Digits, Value;
    }
  }

  function HexBytes(n: nat): (b: seq<nat>)
    ensures IsNumeral(256, b)
  {
    Unhexlify(EvenHex(n))
  }

  lemma HexBytesAreDigits(n: nat)
    ensures HexBytes(n) == if n == 0 then [0] else Digits(256, n)
  {
    if n > 0 {
      hide Digits, Value, EvenHex;
      EvenHexValue(n);
      UnhexlifyValue(EvenHex(n));
      DigitsValue(256, HexBytes(n));
    }
  }

  /** The padding loop leaves out the last character, which the bytes of a zero value make up for. */
  lemma PadAndHex(d: seq<nat>, pad: nat)
    requires d != [] && IsNumeral(58, d) && pad < |d|
    requires forall i :: 0 <= i < pad ==> d[i] == 0
    requires pad == |d| - 1 || d[pad] != 0
    ensures seq(pad, _ => 0) + HexBytes(Value(58, d)) == Rebase(58, 256, d)
  {
    HexBytesAreDigits(Value(58, d));
    ValueIsZero(58, d);
    var n := LeadingZeros(d);
    assert n == if Value(58, d) == 0 then |d| else pad;
    hide HexBytes, Value;
    if Value(58, d) == 0 {
      assert seq(pad, _ => 0) + [0] == seq(pad + 1, _ => 0) + [];
    }
  }

  method RunDecode(s: string) returns (r: Result<Bytes, Error>)
    ensures r == Decode(s)
  {
    hide Index, Rebase, HexBytes;
    if |s| == 0 {
      EmptyRebase();
      return Ok([]);
    }
    if |s| > MAX_BASE58_STRING_LENGTH {
      return Err(TooLong);
    }
    var n := 0;
    for i := 0 to |s|
      invariant IsNumeral(58, DigitsOf(s[..i])) && n == Value(58, DigitsOf(s[..i]))
    {
      n := n * 58;
      var digit := Index(s[i]);
      if digit == 58 {
        assert DigitsOf(s)[i] == 58;
        return Err(InvalidCharacter);
      }
      assert DigitsOf(s[..i + 1])[..i] == DigitsOf(s[..i]);
      n := n + digit;
    }
    assert s[..|s|] == s;
    var res := HexBytes(n);
    var pad := 0;
    while pad < |s| - 1 && s[pad] == '1'
      invariant pad <= |s| - 1 && forall i :: 0 <= i < pad ==> s[i] == '1'
      decreases |s| - pad
    {
      pad := pad + 1;
    }
    OneIsZero();
    PadAndHex(DigitsOf(s), pad);
    r := Ok(seq(pad, _ => 0) + res);
  }

  lemma EmptyRebase()
    ensures Rebase(58, 256, DigitsOf("")) == []
  {
  }

  lemma OneIsZero()
    ensures forall c :: c == '1' <==> Index(c) == 0
  {
    AlphabetCode(0);
    IndexAt(0, 0);
  }

  /** The string of a payload with its four-byte checksum. */
  function EncodeCheck(hash: Bytes -> Bytes, data: Bytes): string
    requires |hash(data)| >= 4
  {
    Encode(data + hash(data)[..4])
  }

  function DecodeCheck(hash: Bytes -> Bytes, s: string): Result<Bytes, Error> {
    match Decode(s)
    case Err(e) => Err(e)
    case Ok(k) =>
      if |k| < 4 then Err(TooShort)
      else
        var data, check := k[..|k| - 4], k[|k| - 4..];
        if |hash(data)| >= 4 && check == hash(data)[..4] then Ok(data) else Err(BadChecksum)
  }

  lemma CheckInverts(hash: Bytes -> Bytes, s: string, data: Bytes)
    requires forall b :: |hash(b)| == 32
    ensures DecodeCheck(hash, s) == Ok(data) <==> s == EncodeCheck(hash, data) && |s| <= MAX_BASE58_STRING_LENGTH
    ensures Decode(s) == Ok(data + hash(data)[..4]) <==> DecodeCheck(hash, s) == Ok(data)
  {
    hide Decode, Encode;
    DecodeInvertsEncode(s, data + hash(data)[..4]);
    if DecodeCheck(hash, s) == Ok(data) {
      var k := Decode(s).value;
      assert k == data + hash(data)[..4];
    }
  }
}
