/** Segwit addresses (bitcointx/segwit_addr.py). */
module SegwitAddr {
  import opened Core
  import opened Numerals
  import opened Bech32
  import opened ConvertBits

  const CHARSET: string := "qpzry9x8" + "gf2tvdw0" + "s3jn54kh" + "ce6mua7l"

  /** The value of a character, 32 for one outside the alphabet. */
  function Find(c: char): (k: nat)
    ensures k <= 32
  {
    match c
    case 'q' => 0 case 'p' => 1 case 'z' => 2 case 'r' => 3 case 'y' => 4 case '9' => 5 case 'x' => 6 case '8' => 7
    case 'g' => 8 case 'f' => 9 case '2' => 10 case 't' => 11 case 'v' => 12 case 'd' => 13 case 'w' => 14 case '0' => 15
    case 's' => 16 case '3' => 17 case 'j' => 18 case 'n' => 19 case '5' => 20 case '4' => 21 case 'k' => 22 case 'h' => 23
    case 'c' => 24 case 'e' => 25 case '6' => 26 case 'm' => 27 case 'u' => 28 case 'a' => 29 case '7' => 30 case 'l' => 31
    case _ => 32
  }

  /** The alphabet is lower case, has no separator, and Find inverts it. */
  lemma Alphabet(k: nat)
    requires k < 32
    ensures |CHARSET| == 32
    ensures Find(CHARSET[k]) == k && CHARSET[k] != '1' && IsPrintable(CHARSET[k]) && Lower(CHARSET[k]) == CHARSET[k]
  {
    if k < 8 {
      Row("qpzry9x8", 0);
    } else if k < 16 {
      Row("gf2tvdw0", 8);
    } else if k < 24 {
      Row("s3jn54kh", 16);
    } else {
      Row("ce6mua7l", 24);
    }
  }

  lemma Row(row: string, first: nat)
    requires (row, first) in {("qpzry9x8", 0), ("gf2tvdw0", 8), ("s3jn54kh", 16), ("ce6mua7l", 24)}
    ensures |row| == 8
    ensures forall i :: 0 <= i < 8 ==> Find(row[i]) == first + i && row[i] != '1' && IsPrintable(row[i]) && Lower(row[i]) == row[i]
  {
  }

  lemma FindInverts(c: char)
    requires Find(c) < 32
    ensures |CHARSET| == 32 && CHARSET[Find(c)] == c
  {
  }

  predicate IsPrintable(c: char) {
    33 <= c as int <= 126
  }

  predicate IsUpper(c: char) {
    'A' <= c <= 'Z'
  }

  predicate IsLower(c: char) {
    'a' <= c <= 'z'
  }

  function Lower(c: char): char {
    if IsUpper(c) then (c as int + 32) as char else c
  }

  function ToLower(s: string): (r: string)
    ensures |r| == |s| && forall i :: 0 <= i < |s| ==> r[i] == Lower(s[i])
  {
    seq(|s|, i requires 0 <= i < |s| => Lower(s[i]))
  }

  /** Printable characters, not of both cases. */
  predicate WellCased(s: string) {
    && (forall i :: 0 <= i < |s| ==> IsPrintable(s[i]))
    && !((exists i :: 0 <= i < |s| && IsUpper(s[i])) && (exists i :: 0 <= i < |s| && IsLower(s[i])))
  }

  function Finds(s: string): (d: seq<nat>)
    ensures |d| == |s| && forall i :: 0 <= i < |s| ==> d[i] == Find(s[i])
  {
    seq(|s|, i requires 0 <= i < |s| => Find(s[i]))
  }

  function Chars(d: seq<nat>): (s: string)
    requires IsNumeral(32, d)
    ensures |s| == |d| && |CHARSET| == 32 && forall i :: 0 <= i < |s| ==> s[i] == CHARSET[d[i]]
  {
    Alphabet(0);
    seq(|d|, i requires 0 <= i < |d| => CHARSET[d[i]])
  }

  lemma CharsOf(d: seq<nat>)
    requires IsNumeral(32, d)
    ensures Finds(Chars(d)) == d && ToLower(Chars(d)) == Chars(d)
    ensures forall i :: 0 <= i < |d| ==> Chars(d)[i] != '1' && IsPrintable(Chars(d)[i]) && !IsUpper(Chars(d)[i])
  {
    forall i | 0 <= i < |d|
      ensures Find(Chars(d)[i]) == d[i] && Chars(d)[i] != '1' && IsPrintable(Chars(d)[i]) && Lower(Chars(d)[i]) == Chars(d)[i]
    {
      Alphabet(d[i]);
    }
    hide Find;
  }

  lemma FindsOf(s: string)
    requires IsNumeral(32, Finds(s))
    ensures Chars(Finds(s)) == s
  {
    forall i | 0 <= i < |s|
      ensures CHARSET[Finds(s)[i]] == s[i]
    {
      FindInverts(s[i]);
    }
  }

  /** Python's rfind of the separator. */
  function LastOne(s: string): (k: int)
    ensures -1 <= k < |s|
    ensures k >= 0 ==> s[k] == '1'
    ensures forall j :: k < j < |s| ==> s[j] != '1'
  {
    if s == "" then -1
    else if s[|s| - 1] == '1' then |s| - 1
    else LastOne(s[..|s| - 1])
  }

  type Decoded = Option<(Encoding, string, seq<nat>)>

  function DecodeBech(bech: string): Decoded {
    if !WellCased(bech) then None
    else
      var b := ToLower(bech);
      var pos := LastOne(b);
      if pos < 1 || pos + 7 > |b| || |b| > 90 then None
      else
        var d := Finds(b[pos + 1..]);
        if !IsNumeral(32, d) then None
        else match Checked(b[..pos], d)
          case None => None
          case Some(e) => Some((e, b[..pos], d[..|d| - 6]))
  }

  function EncodeBech(encoding: Encoding, hrp: string, data: seq<nat>): string
    requires IsNumeral(32, data)
  {
    hrp + "1" + Chars(data + Checksum(encoding, hrp, data))
  }

  lemma LowerTwice(s: string)
    ensures ToLower(ToLower(s)) == ToLower(s)
    ensures WellCased(s) ==> WellCased(ToLower(s))
  {
  }

  /** The parts of an encoded string. */
  lemma EncodedParts(encoding: Encoding, hrp: string, data: seq<nat>)
    requires IsNumeral(32, data)
    ensures var b := EncodeBech(encoding, hrp, data); var sums := Checksum(encoding, hrp, data);
            && |b| == |hrp| + 7 + |data| && LastOne(b) == |hrp| && b[..|hrp|] == hrp
            && Finds(b[|hrp| + 1..]) == data + sums && Checked(hrp, data + sums) == Some(encoding)
  {
    hide Find, LastOne;
    var sums := Checksum(encoding, hrp, data);
    var b := EncodeBech(encoding, hrp, data);
    ChecksumUnique(encoding, hrp, data, sums);
    CharsOf(data + sums);
    assert b[..|hrp|] == hrp && b[|hrp| + 1..] == Chars(data + sums);
    assert forall j :: |hrp| < j < |b| ==> b[j] == Chars(data + sums)[j - |hrp| - 1];
    assert b[|hrp|] == '1';
  }

  /** Exactly the well-cased strings are accepted whose lower case is the encoding of what they decode to. */
  lemma BechIsBijective(s: string, encoding: Encoding, hrp: string, data: seq<nat>)
    requires IsNumeral(32, data)
    ensures DecodeBech(s) == Some((encoding, hrp, data)) <==>
            WellCased(s) && |s| <= 90 && hrp != "" && ToLower(s) == EncodeBech(encoding, hrp, data)
  {
    hide Find, LastOne, WellCased, Checked, Checksum, EncodeBech;
    EncodedParts(encoding, hrp, data);
    if DecodeBech(s) == Some((encoding, hrp, data)) {
      DecodedIsEncoded(s, encoding, hrp, data);
    }
    if WellCased(s) && |s| <= 90 && hrp != "" && ToLower(s) == EncodeBech(encoding, hrp, data) {
      var sums := Checksum(encoding, hrp, data);
      assert (data + sums)[..|data|] == data;
    }
  }

  lemma DecodedIsEncoded(s: string, encoding: Encoding, hrp: string, data: seq<nat>)
    requires IsNumeral(32, data) && DecodeBech(s) == Some((encoding, hrp, data))
    ensures ToLower(s) == EncodeBech(encoding, hrp, data)
  {
    hide Find, LastOne, WellCased, Checked, Checksum;
    var b := ToLower(s);
    var pos := LastOne(b);
    var d := Finds(b[pos + 1..]);
    var sums := d[|d| - 6..];
    assert d == data + sums;
    FindsOf(b[pos + 1..]);
    ChecksumUnique(encoding, hrp, data, sums);
    assert b == b[..pos] + "1" + b[pos + 1..];
  }

  lemma DecodedNumeral(s: string)
    requires DecodeBech(s).Some?
    ensures IsNumeral(32, DecodeBech(s).value.2)
  {
    hide Find, LastOne, WellCased, Checked, Checksum;
  }

  function DecodeProgram(encoding: Encoding, data: seq<nat>): Option<(nat, Bytes)> {
    match Regroup(if data == [] then [] else data[1..], 5, 8, false)
    case None => None
    case Some(program) =>
      if |program| < 2 || |program| > 40 || data == [] || data[0] > 16 then None
      else if data[0] == 0 && |program| != 20 && |program| != 32 then None
      else if encoding != (if data[0] == 0 then BECH32 else BECH32M) then None
      else
        Bases();
        Some((data[0], program))
  }

  function DecodeAddress(hrp: string, addr: string): Option<(nat, Bytes)> {
    match DecodeBech(addr)
    case None => None
    case Some((encoding, got, data)) => if got != hrp then None else DecodeProgram(encoding, data)
  }

  /** What a decoded address says: the prefix, a one, the version, the program regrouped, and a checksum whose final state is that of the version. */
  lemma AddressMeans(hrp: string, addr: string, version: nat, program: Bytes)
    requires DecodeAddress(hrp, addr) == Some((version, program))
    ensures var s := ToLower(addr);
            && |addr| <= 90 && |hrp| < |s| && s[..|hrp|] == hrp && s[|hrp|] == '1'
            && var d := Finds(s[|hrp| + 1..]);
               && |d| >= 7 && d[0] == version <= 16 && Regroup(d[1..|d| - 6], 5, 8, false) == Some(program)
               && Poly(1, Expand(hrp) + d) == (if version == 0 then 1 else 0x2bc8_30a3)
    ensures 2 <= |program| <= 40 && (version == 0 ==> |program| in {20, 32})
  {
    hide Find, WellCased, Poly, Expand, Regroup, ToLower;
    var (encoding, got, data) := DecodeBech(addr).value;
    var d := Finds(ToLower(addr)[|hrp| + 1..]);
    assert data == d[..|d| - 6] && data[1..] == d[1..|d| - 6];
  }

  /** The address, a refusal, or an exception for a version outside the alphabet. */
  datatype Encoded = Raised | Refused | Address(addr: string)

  function EncodingOf(version: nat): Encoding {
    if version == 0 then BECH32 else BECH32M
  }

  function EncodeAddress(hrp: string, version: nat, program: Bytes): Encoded {
    match Regroup(program, 8, 5, true)
    case None => Refused
    case Some(d) =>
      if version >= 32 then Raised
      else
        Bases();
        var r := EncodeBech(EncodingOf(version), hrp, [version] + d);
        if DecodeAddress(hrp, r).None? then Refused else Address(r)
  }

  /** What an address can be made of. */
  predicate CanEncode(hrp: string, version: nat, program: Bytes) {
    && hrp != "" && (forall i :: 0 <= i < |hrp| ==> IsPrintable(hrp[i]) && !IsUpper(hrp[i]))
    && version <= 16 && 2 <= |program| <= 40 && (version == 0 ==> |program| == 20 || |program| == 32)
    && |hrp| + 8 + (8 * |program| + 4) / 5 <= 90
  }

  /** The symbols of a program. */
  lemma ProgramSymbols(program: Bytes)
    ensures var d := Regroup(program, 8, 5, true);
            d.Some? && IsNumeral(32, d.value) && |d.value| == (8 * |program| + 4) / 5 && Regroup(d.value, 5, 8, false) == Some(program)
  {
    Bases();
    var p: seq<nat> := program;
    assert InRange(program, 8);
    hide Pow, Value, Fixed;
    FiveBack(p, Regroup(p, 8, 5, true).value);
  }

  lemma SymbolsProgram(d: seq<nat>, program: seq<nat>)
    requires IsNumeral(32, d) && Regroup(d, 5, 8, false) == Some(program)
    ensures IsNumeral(256, program) && Regroup(program, 8, 5, true) == Some(d)
  {
    hide Regroup;
    EightBack(d, program);
  }

  /** Decoding the string made from a version and a program gives them back, unless the code refuses them. */
  lemma DecodesBack(hrp: string, version: nat, program: Bytes, d: seq<nat>)
    requires Regroup(program, 8, 5, true) == Some(d) && IsNumeral(32, d) && version < 32
    requires Regroup(d, 5, 8, false) == Some(program)
    ensures var r := EncodeBech(EncodingOf(version), hrp, [version] + d);
            DecodeAddress(hrp, r) ==
              if WellCased(r) && |r| <= 90 && hrp != "" && ToLower(r) == r && version <= 16 && 2 <= |program| <= 40
                 && (version == 0 ==> |program| == 20 || |program| == 32)
              then Some((version, program)) else None
  {
    hide Regroup, EncodeBech, WellCased, DecodeBech;
    var data := [version] + d;
    var r := EncodeBech(EncodingOf(version), hrp, data);
    assert data[1..] == d;
    BechIsBijective(r, EncodingOf(version), hrp, data);
    if DecodeAddress(hrp, r).Some? {
      LowerHrp(hrp, r, EncodingOf(version), data);
    }
  }

  /** If the string decodes under its own prefix, the prefix is lower case and so is the string. */
  lemma LowerHrp(hrp: string, r: string, encoding: Encoding, data: seq<nat>)
    requires IsNumeral(32, data) && r == EncodeBech(encoding, hrp, data)
    requires DecodeBech(r).Some? && DecodeBech(r).value.1 == hrp
    ensures ToLower(r) == r && WellCased(r) && |r| <= 90 && hrp != ""
  {
    hide Find, Checked, Checksum;
    var (e, got, other) := DecodeBech(r).value;
    DecodedNumeral(r);
    BechIsBijective(r, e, got, other);
    var c := Chars(data + Checksum(encoding, hrp, data));
    CharsOf(data + Checksum(encoding, hrp, data));
    LastOneOf(hrp, other, e);
    hide LastOne, DecodeBech, WellCased;
    assert ToLower(r)[..|hrp|] == hrp;
    assert ToLower(hrp) == ToLower(r)[..|hrp|];
    assert ToLower(r) == ToLower(hrp) + "1" + ToLower(c);
  }

  lemma LastOneOf(hrp: string, data: seq<nat>, encoding: Encoding)
    requires IsNumeral(32, data)
    ensures EncodeBech(encoding, hrp, data)[..|hrp|] == hrp
  {
  }

  /** Which addresses exist. */
  lemma EncodesExactly(hrp: string, version: nat, program: Bytes)
    ensures EncodeAddress(hrp, version, program).Address? <==> CanEncode(hrp, version, program)
    ensures EncodeAddress(hrp, version, program).Raised? <==> version >= 32
  {
    hide Regroup, EncodeBech, DecodeAddress;
    ProgramSymbols(program);
    var d := Regroup(program, 8, 5, true).value;
    if version < 32 {
      DecodesBack(hrp, version, program, d);
      EncodedCase(EncodingOf(version), hrp, [version] + d);
    }
    hide WellCased;
  }

  /** An encoded string is well cased and lower case exactly if its prefix is. */
  lemma EncodedCase(encoding: Encoding, hrp: string, data: seq<nat>)
    requires IsNumeral(32, data)
    ensures var r := EncodeBech(encoding, hrp, data);
            && |r| == |hrp| + 7 + |data|
            && (WellCased(r) && ToLower(r) == r <==> forall i :: 0 <= i < |hrp| ==> IsPrintable(hrp[i]) && !IsUpper(hrp[i]))
  {
    hide Checksum, Find;
    var r, all := EncodeBech(encoding, hrp, data), data + Checksum(encoding, hrp, data);
    CharsOf(all);
    assert forall i :: 0 <= i < |hrp| ==> r[i] == hrp[i];
    assert r[|hrp|] == '1';
    assert forall i :: |hrp| < i < |r| ==> r[i] == Chars(all)[i - |hrp| - 1];
  }

  /** Decoding and encoding are inverse: an accepted string is, in lower case, the address of what it decodes to. */
  lemma AddressIsBijective(hrp: string, addr: string, version: nat, program: Bytes)
    ensures DecodeAddress(hrp, addr) == Some((version, program)) <==>
            WellCased(addr) && EncodeAddress(hrp, version, program) == Address(ToLower(addr))
  {
    LowerTwice(addr);
    SameDecoding(hrp, addr);
    hide WellCased, ToLower, EncodeBech, Regroup, IsNumeral;
    if DecodeAddress(hrp, addr) == Some((version, program)) {
      AcceptedIsEncoded(hrp, addr, version, program);
    }
    if WellCased(addr) && EncodeAddress(hrp, version, program) == Address(ToLower(addr)) {
      ProgramSymbols(program);
      var d := Regroup(program, 8, 5, true).value;
      DecodesBack(hrp, version, program, d);
    }
  }

  lemma SameDecoding(hrp: string, addr: string)
    ensures if WellCased(addr) then DecodeAddress(hrp, addr) == DecodeAddress(hrp, ToLower(addr)) else DecodeAddress(hrp, addr) == None
  {
    LowerTwice(addr);
    hide WellCased, ToLower, LastOne, Finds, Checked, DecodeProgram;
  }

  lemma AcceptedIsEncoded(hrp: string, addr: string, version: nat, program: Bytes)
    requires DecodeAddress(hrp, addr) == Some((version, program))
    ensures WellCased(addr) && EncodeAddress(hrp, version, program) == Address(ToLower(addr))
  {
    hide WellCased, ToLower, EncodeBech, Regroup, DecodeBech;
    var (encoding, got, data) := DecodeBech(addr).value;
    DecodedNumeral(addr);
    BechIsBijective(addr, encoding, hrp, data);
    SymbolsProgram(data[1..], program);
    assert data == [version] + data[1..];
    SameDecoding(hrp, addr);
  }
}
