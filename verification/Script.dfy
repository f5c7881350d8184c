/** Script bytes: opcodes, the op parser, push encoding and FindAndDelete (bitcointx/core/script.py). */
module Script {
  import opened Core

  const MAX_SCRIPT_SIZE := 10000
  const MAX_SCRIPT_ELEMENT_SIZE := 520
  const MAX_SCRIPT_OPCODES := 201
  const MAX_PUSH := 0xffff_ffff

  const OP_PUSHDATA1: byte := 0x4c
  const OP_PUSHDATA2: byte := 0x4d
  const OP_PUSHDATA4: byte := 0x4e
  const OP_1NEGATE: byte := 0x4f
  const OP_1: byte := 0x51
  const OP_16: byte := 0x60
  const OP_NOP: byte := 0x61
  const OP_IF: byte := 0x63
  const OP_NOTIF: byte := 0x64
  const OP_VERIF: byte := 0x65
  const OP_VERNOTIF: byte := 0x66
  const OP_ELSE: byte := 0x67
  const OP_ENDIF: byte := 0x68
  const OP_VERIFY: byte := 0x69
  const OP_RETURN: byte := 0x6a
  const OP_TOALTSTACK: byte := 0x6b
  const OP_FROMALTSTACK: byte := 0x6c
  const OP_2DROP: byte := 0x6d
  const OP_2DUP: byte := 0x6e
  const OP_3DUP: byte := 0x6f
  const OP_2OVER: byte := 0x70
  const OP_2ROT: byte := 0x71
  const OP_2SWAP: byte := 0x72
  const OP_IFDUP: byte := 0x73
  const OP_DEPTH: byte := 0x74
  const OP_DROP: byte := 0x75
  const OP_DUP: byte := 0x76
  const OP_NIP: byte := 0x77
  const OP_OVER: byte := 0x78
  const OP_PICK: byte := 0x79
  const OP_ROLL: byte := 0x7a
  const OP_ROT: byte := 0x7b
  const OP_SWAP: byte := 0x7c
  const OP_TUCK: byte := 0x7d
  const OP_SIZE: byte := 0x82
  const OP_EQUAL: byte := 0x87
  const OP_EQUALVERIFY: byte := 0x88
  const OP_1ADD: byte := 0x8b
  const OP_1SUB: byte := 0x8c
  const OP_NEGATE: byte := 0x8f
  const OP_ABS: byte := 0x90
  const OP_NOT: byte := 0x91
  const OP_0NOTEQUAL: byte := 0x92
  const OP_ADD: byte := 0x93
  const OP_SUB: byte := 0x94
  const OP_BOOLAND: byte := 0x9a
  const OP_BOOLOR: byte := 0x9b
  const OP_NUMEQUALVERIFY: byte := 0x9d
  const OP_NUMNOTEQUAL: byte := 0x9e
  const OP_LESSTHAN: byte := 0x9f
  const OP_GREATERTHAN: byte := 0xa0
  const OP_LESSTHANOREQUAL: byte := 0xa1
  const OP_GREATERTHANOREQUAL: byte := 0xa2
  const OP_MIN: byte := 0xa3
  const OP_MAX: byte := 0xa4
  const OP_WITHIN: byte := 0xa5
  const OP_RIPEMD160: byte := 0xa6
  const OP_SHA1: byte := 0xa7
  const OP_SHA256: byte := 0xa8
  const OP_HASH160: byte := 0xa9
  const OP_HASH256: byte := 0xaa
  const OP_CODESEPARATOR: byte := 0xab
  const OP_CHECKSIG: byte := 0xac
  const OP_CHECKSIGVERIFY: byte := 0xad
  const OP_CHECKMULTISIG: byte := 0xae
  const OP_CHECKMULTISIGVERIFY: byte := 0xaf
  const OP_NOP1: byte := 0xb0
  const OP_NOP10: byte := 0xb9

  /** VERIF, VERNOTIF, CAT to RIGHT, INVERT to XOR, 2MUL, 2DIV and MUL to RSHIFT. */
  predicate IsDisabled(code: byte) {
    || code == OP_VERIF || code == OP_VERNOTIF
    || 0x7e <= code <= 0x81 || 0x83 <= code <= 0x86
    || code == 0x8d || code == 0x8e || 0x95 <= code <= 0x99
  }

  predicate IsSmallInt(code: byte) {
    code == 0 || OP_1 <= code <= OP_16
  }

  /** One op: its push data, empty for anything above PUSHDATA4, and the bytes it was read from. */
  datatype Op = Op(code: byte, data: Bytes, raw: Bytes)

  datatype ParseError = MissingDataLength | TruncatedPushData

  type ReadResult = Result<Op, ParseError>

  /** Width of the length field that follows a push opcode. */
  function LengthWidth(code: byte): nat {
    if code == OP_PUSHDATA1 then 1 else if code == OP_PUSHDATA2 then 2 else if code == OP_PUSHDATA4 then 4 else 0
  }

  /** A little-endian unsigned field. */
  function LE(s: Bytes): nat {
    if s == [] then 0 else s[0] + 256 * LE(s[1..])
  }

  function ToLE(n: nat, width: nat): (s: Bytes)
    ensures |s| == width
  {
    if width == 0 then [] else [n % 256] + ToLE(n / 256, width - 1)
  }

  lemma {:induction false} LEOfToLE(n: nat, width: nat)
    requires n < Pow(256, width)
    ensures LE(ToLE(n, width)) == n
  {
    if width > 0 {
      LEOfToLE(n / 256, width - 1);
    }
  }

  lemma {:induction false} ToLEOfLE(s: Bytes)
    ensures LE(s) < Pow(256, |s|)
    ensures ToLE(LE(s), |s|) == s
  {
    if s != [] {
      ToLEOfLE(s[1..]);
      LEHead(s);
      assert ToLE(LE(s), |s|) == [LE(s) % 256] + ToLE(LE(s) / 256, |s| - 1);
      assert Pow(256, |s|) == 256 * Pow(256, |s| - 1);
      hide LE, ToLE, Pow;
      assert s == [s[0]] + s[1..];
    }
  }

  lemma LEHead(s: Bytes)
    requires s != []
    ensures LE(s) == s[0] + 256 * LE(s[1..]) && LE(s) % 256 == s[0] && LE(s) / 256 == LE(s[1..])
  {
    var head: nat, n := s[0], LE(s[1..]);
    assert LE(s) == head + 256 * n;
    hide LE;
    assert (head + 256 * n) % 256 == head && (head + 256 * n) / 256 == n;
  }

  /** The first op of a non-empty script. */
  function ReadOp(s: Bytes): (r: ReadResult)
    requires s != []
    ensures r.Ok? ==> r.value.raw != [] && r.value.raw <= s
  {
    var code := s[0];
    if code > OP_PUSHDATA4 then Ok(Op(code, [], s[..1]))
    else
      var header := 1 + LengthWidth(code);
      if |s| < header then Err(MissingDataLength)
      else
        var size := if code < OP_PUSHDATA1 then code else LE(s[1..header]);
        if |s| < header + size then Err(TruncatedPushData)
        else Ok(Op(code, s[header..header + size], s[..header + size]))
  }

  /** The data size of a push opcode and the index after its length field. */
  method ReadSize(script: Bytes, i: nat, opcode: byte) returns (r: Option<(nat, nat)>)
    requires i <= |script| && opcode <= OP_PUSHDATA4
    ensures var end := i + LengthWidth(opcode);
            r == if end > |script| then None
                 else Some((if opcode < OP_PUSHDATA1 then opcode else LE(script[i..end]), end))
  {
    hide LE;
    if opcode < OP_PUSHDATA1 {
      return Some((opcode, i));
    } else if opcode == OP_PUSHDATA1 {
      if i >= |script| {
        return None;
      }
      LittleEndian1(script[i]);
      assert script[i..i + 1] == [script[i]];
      return Some((script[i], i + 1));
    } else if opcode == OP_PUSHDATA2 {
      if i + 1 >= |script| {
        return None;
      }
      var b0: int, b1: int := script[i], script[i + 1];
      LittleEndian2(b0, b1);
      assert script[i..i + 2] == [script[i], script[i + 1]];
      return Some((b0 + b1 * 0x100, i + 2));
    } else {
      if i + 3 >= |script| {
        return None;
      }
      var b0: int, b1: int, b2: int, b3: int := script[i], script[i + 1], script[i + 2], script[i + 3];
      LittleEndian4(b0, b1, b2, b3);
      assert script[i..i + 4] == [script[i], script[i + 1], script[i + 2], script[i + 3]];
      return Some((b0 + b1 * 0x100 + b2 * 0x1_0000 + b3 * 0x100_0000, i + 4));
    }
  }

  /** The op at index i, by the index arithmetic of the iterator. */
  method NextOp(script: Bytes, i: nat) returns (r: ReadResult)
    requires i < |script|
    ensures r == ReadOp(script[i..])
  {
    var opcode := script[i];
    var j := i + 1;
    if opcode > OP_PUSHDATA4 {
      SliceOfDrop(script, i, 0, 1);
      return Ok(Op(opcode, [], script[i..j]));
    }
    hide LE;
    var field := ReadSize(script, j, opcode);
    if field.None? {
      return Err(MissingDataLength);
    }
    var size := field.value.0;
    SliceOfDrop(script, i, 1, field.value.1 - i);
    j := field.value.1;
    var end := Min(j + size, |script|);
    var data := script[j..end];
    if |data| < size {
      return Err(TruncatedPushData);
    }
    SliceOfDrop(script, i, j - i, end - i);
    SliceOfDrop(script, i, 0, end - i);
    r := Ok(Op(opcode, data, script[i..end]));
  }

  lemma SliceOfDrop(s: Bytes, i: nat, a: nat, b: nat)
    requires i <= |s| && a <= b <= |s| - i
    ensures s[i..][a..b] == s[i + a..i + b]
  {
  }

  lemma LittleEndian1(a: byte)
    ensures LE([a]) == a
  {
  }

  lemma LittleEndian2(a: int, b: int)
    requires 0 <= a < 256 && 0 <= b < 256
    ensures LE([a, b]) == a + b * 0x100
  {
    assert LE([b]) == b;
    assert [a, b][1..] == [b];
  }

  lemma LittleEndian4(a: int, b: int, c: int, d: int)
    requires 0 <= a < 256 && 0 <= b < 256 && 0 <= c < 256 && 0 <= d < 256
    ensures LE([a, b, c, d]) == a + b * 0x100 + c * 0x1_0000 + d * 0x100_0000
  {
    LittleEndian2(c, d);
    var m := LE([c, d]);
    assert [b, c, d][1..] == [c, d];
    var n := LE([b, c, d]);
    assert n == b + 256 * m;
    assert [a, b, c, d][1..] == [b, c, d];
    assert LE([a, b, c, d]) == a + 256 * n;
  }

  /** Reading an op looks at its own bytes only. */
  predicate IsOp(op: Op) {
    op.raw != [] && ReadOp(op.raw) == Ok(op)
  }

  lemma ReadOpIsOp(s: Bytes)
    requires s != [] && ReadOp(s).Ok?
    ensures IsOp(ReadOp(s).value)
  {
    var op := ReadOp(s).value;
    var header := 1 + LengthWidth(op.code);
    assert op.raw[..|op.raw|] == op.raw && op.raw[0] == op.code;
    if op.code <= OP_PUSHDATA4 {
      assert op.raw[1..header] == s[1..header];
      assert op.raw[header..] == s[header..|op.raw|];
    }
  }

  lemma ReadOpExtend(op: Op, t: Bytes)
    requires IsOp(op)
    ensures ReadOp(op.raw + t) == Ok(op)
  {
    var s := op.raw + t;
    var header := 1 + LengthWidth(op.code);
    if op.code > OP_PUSHDATA4 {
      assert s[..1] == op.raw;
    } else {
      assert s[1..header] == op.raw[1..header];
      assert s[..|op.raw|] == op.raw && s[header..|op.raw|] == op.raw[header..];
    }
  }

  /** The ops read until the script ends or an op cannot be read. */
  datatype Parse = Parse(ops: seq<Op>, error: Option<ParseError>)

  function ParseScript(s: Bytes): (p: Parse)
    ensures forall op :: op in p.ops ==> IsOp(op)
    decreases |s|
  {
    if s == [] then Parse([], None)
    else match ReadOp(s)
      case Err(e) => Parse([], Some(e))
      case Ok(op) =>
        ReadOpIsOp(s);
        var rest := ParseScript(s[|op.raw|..]);
        Parse([op] + rest.ops, rest.error)
  }

  function Concat(ops: seq<Op>): Bytes {
    if ops == [] then [] else ops[0].raw + Concat(ops[1..])
  }

  predicate AllOps(ops: seq<Op>) {
    forall op :: op in ops ==> IsOp(op)
  }

  lemma ParseStep(op: Op, u: Bytes)
    requires IsOp(op)
    ensures ParseScript(op.raw + u) == Parse([op] + ParseScript(u).ops, ParseScript(u).error)
  {
    ReadOpExtend(op, u);
    hide ReadOp;
    assert (op.raw + u)[|op.raw|..] == u;
  }

  /** Any list of ops is what its bytes parse to, whatever follows. */
  lemma {:induction false} ParseConcat(ops: seq<Op>, t: Bytes)
    requires AllOps(ops)
    ensures ParseScript(Concat(ops) + t) == Parse(ops + ParseScript(t).ops, ParseScript(t).error)
  {
    hide ReadOp, ParseScript;
    var p := ParseScript(t);
    if ops == [] {
      assert Concat(ops) + t == t && ops + p.ops == p.ops;
    } else {
      var op, rest := ops[0], ops[1..];
      ParseConcat(rest, t);
      ParseStep(op, Concat(rest) + t);
      assert Concat(ops) == op.raw + Concat(rest);
      hide Concat;
      assert Concat(ops) + t == op.raw + (Concat(rest) + t);
      assert ops + p.ops == [op] + (rest + p.ops);
    }
  }

  /** A script that parses is the concatenation of its ops. */
  lemma {:induction false} ConcatParse(s: Bytes)
    ensures Concat(ParseScript(s).ops) <= s
    ensures ParseScript(s).error.None? ==> Concat(ParseScript(s).ops) == s
    decreases |s|
  {
    hide ReadOp;
    if s != [] && ReadOp(s).Ok? {
      var op := ReadOp(s).value;
      ConcatParse(s[|op.raw|..]);
      assert s == op.raw + s[|op.raw|..];
      assert ParseScript(s).ops[1..] == ParseScript(s[|op.raw|..]).ops;
    }
  }

  function EncodePush(d: Bytes): Bytes
    requires |d| <= MAX_PUSH
  {
    if |d| < 0x4c then [|d|] + d
    else if |d| <= 0xff then [OP_PUSHDATA1] + ToLE(|d|, 1) + d
    else if |d| <= 0xffff then [OP_PUSHDATA2] + ToLE(|d|, 2) + d
    else [OP_PUSHDATA4] + ToLE(|d|, 4) + d
  }

  function PushOp(d: Bytes): Op
    requires |d| <= MAX_PUSH
  {
    Op(EncodePush(d)[0], d, EncodePush(d))
  }

  /** A pushed string reads back as one op carrying it. */
  lemma PushIsOp(d: Bytes)
    requires |d| <= MAX_PUSH
    ensures IsOp(PushOp(d)) && PushOp(d).code <= OP_PUSHDATA4
  {
    var s := EncodePush(d);
    var width := LengthWidth(s[0]);
    assert Pow(256, 1) == 0x100 && Pow(256, 2) == 0x1_0000 && Pow(256, 4) == 0x1_0000_0000;
    if width > 0 {
      assert s[1..1 + width] == ToLE(|d|, width);
      LEOfToLE(|d|, width);
      hide LE, ToLE;
      assert s[1 + width..] == d;
    } else {
      assert s[1..] == d;
    }
    assert s[..|s|] == s;
  }

  function BareOp(code: byte): Op {
    Op(code, [], [code])
  }

  /** What remains of s when every op at which the needle occurs is dropped. */
  function Remaining(s: Bytes, needle: Bytes): Result<Bytes, ParseError>
    decreases |s|
  {
    if s == [] then Ok([])
    else match ReadOp(s)
      case Err(e) => Err(e)
      case Ok(op) =>
        match Remaining(s[|op.raw|..], needle)
        case Err(e) => Err(e)
        case Ok(rest) => Ok((if needle <= s then [] else op.raw) + rest)
  }

  /** Python's s[i:i+n] at an index inside s. */
  function Slice(s: Bytes, i: nat, n: nat): Bytes
    requires i <= |s|
  {
    s[i..Min(i + n, |s|)]
  }

  method FindAndDelete(script: Bytes, needle: Bytes) returns (res: Result<Bytes, ParseError>)
    ensures res == Remaining(script, needle)
  {
    var r: Bytes := [];
    var last := 0;
    var idx := 0;
    var skip := true;
    var i := 0;
    ghost var goal := Remaining(script, needle);
    ghost var pending: Bytes := [];
    assert script[0..] == script;
    RegroupRemaining([], [], goal);
    while i < |script|
      invariant 0 <= last <= i <= |script|
      invariant pending == if skip then [] else script[last..i]
      invariant goal == match Remaining(script[i..], needle) case Err(e) => Err(e) case Ok(rest) => Ok(r + pending + rest)
      decreases |script| - i
    {
      var next := NextOp(script, i);
      if next.Err? {
        return Err(next.error);
      }
      idx := i;
      ghost var before := r + pending;
      if !skip {
        r := r + script[last..idx];
      }
      assert r == before;
      last := idx;
      skip := Slice(script, idx, |needle|) == needle;
      assert skip <==> needle <= script[idx..];
      i := i + |next.value.raw|;
      pending := if skip then [] else script[last..i];
      RemainingStep(script, needle, idx, i);
      RegroupRemaining(before, pending, Remaining(script[i..], needle));
      hide Remaining;
    }
    assert script[i..] == [] && Remaining([], needle) == Ok([]);
    assert r + pending + [] == r + pending;
    if !skip {
      assert script[last..] == script[last..i];
      r := r + script[last..];
    } else {
      assert r + [] == r;
    }
    res := Ok(r);
  }

  lemma RemainingStep(script: Bytes, needle: Bytes, i: nat, j: nat)
    requires i < |script| && ReadOp(script[i..]).Ok? && j == i + |ReadOp(script[i..]).value.raw|
    ensures j <= |script|
    ensures Remaining(script[i..], needle) == match Remaining(script[j..], needle)
              case Err(e) => Err(e)
              case Ok(rest) => Ok((if needle <= script[i..] then [] else script[i..j]) + rest)
  {
    var op := ReadOp(script[i..]).value;
    hide ReadOp;
    assert script[i..][|op.raw|..] == script[j..];
    assert op.raw == script[i..j];
  }

  lemma RegroupRemaining(a: Bytes, b: Bytes, rest: Result<Bytes, ParseError>)
    ensures rest.Ok? ==> a + (b + rest.value) == a + b + rest.value
    ensures rest.Ok? && a == [] && b == [] ==> a + b + rest.value == rest.value
  {
  }

  /** The needle is exactly one op, as every caller in the script machine passes. */
  predicate IsOneOp(needle: Bytes) {
    needle != [] && ReadOp(needle).Ok? && ReadOp(needle).value.raw == needle
  }

  function Without(ops: seq<Op>, needle: Bytes): (r: seq<Op>)
    ensures forall op :: op in r <==> op in ops && op.raw != needle
  {
    if ops == [] then []
    else (if ops[0].raw == needle then [] else [ops[0]]) + Without(ops[1..], needle)
  }

  lemma NeedleAtOp(s: Bytes, needle: Bytes)
    requires s != [] && ReadOp(s).Ok? && IsOneOp(needle)
    ensures needle <= s <==> ReadOp(s).value.raw == needle
  {
    if needle <= s {
      ReadOpExtend(ReadOp(needle).value, s[|needle|..]);
      assert needle + s[|needle|..] == s;
    }
  }

  /** Deleting one op is parsing, dropping the equal ops and concatenating the rest. */
  lemma {:induction false} RemainingIsFilter(s: Bytes, needle: Bytes)
    requires IsOneOp(needle)
    ensures var p := ParseScript(s);
            Remaining(s, needle) == match p.error case Some(e) => Err(e) case None => Ok(Concat(Without(p.ops, needle)))
    decreases |s|
  {
    if s != [] && ReadOp(s).Ok? {
      var op := ReadOp(s).value;
      RemainingIsFilter(s[|op.raw|..], needle);
      NeedleAtOp(s, needle);
      hide ReadOp;
      var p := ParseScript(s);
      var rest := Without(p.ops[1..], needle);
      assert p.ops[1..] == ParseScript(s[|op.raw|..]).ops;
      assert ([op] + rest)[1..] == rest && [] + rest == rest && [] + Concat(rest) == Concat(rest);
    }
  }

  /** The result reparses to the filtered op list. */
  lemma RemainingReparses(s: Bytes, needle: Bytes)
    requires IsOneOp(needle) && ParseScript(s).error.None?
    ensures Remaining(s, needle).Ok?
    ensures ParseScript(Remaining(s, needle).value) == Parse(Without(ParseScript(s).ops, needle), None)
  {
    RemainingIsFilter(s, needle);
    var ops := Without(ParseScript(s).ops, needle);
    ParseConcat(ops, []);
    assert Concat(ops) + [] == Concat(ops) && ops + [] == ops;
  }

  lemma {:induction false} WithoutCommutes(ops: seq<Op>, a: Bytes, b: Bytes)
    ensures Without(Without(ops, a), b) == Without(Without(ops, b), a)
  {
    if ops != [] {
      WithoutCommutes(ops[1..], a, b);
      WithoutStep(ops[0], Without(ops[1..], a), b);
      WithoutStep(ops[0], Without(ops[1..], b), a);
    }
  }

  lemma WithoutStep(op: Op, rest: seq<Op>, needle: Bytes)
    ensures Without([op] + rest, needle) == (if op.raw == needle then [] else [op]) + Without(rest, needle)
    ensures [] + rest == rest
  {
    assert ([op] + rest)[1..] == rest;
  }

  lemma {:induction false} WithoutAbsent(ops: seq<Op>, needle: Bytes)
    requires forall op :: op in ops ==> op.raw != needle
    ensures Without(ops, needle) == ops
  {
    if ops != [] {
      WithoutAbsent(ops[1..], needle);
      assert ops == [ops[0]] + ops[1..];
    }
  }

  lemma RemainingIdempotent(s: Bytes, needle: Bytes)
    requires IsOneOp(needle) && Remaining(s, needle).Ok?
    ensures Remaining(Remaining(s, needle).value, needle) == Remaining(s, needle)
  {
    RemainingIsFilter(s, needle);
    RemainingReparses(s, needle);
    var r := Remaining(s, needle).value;
    RemainingIsFilter(r, needle);
    WithoutAbsent(ParseScript(r).ops, needle);
  }

  lemma RemainingCommutes(s: Bytes, a: Bytes, b: Bytes)
    requires IsOneOp(a) && IsOneOp(b) && ParseScript(s).error.None?
    ensures Remaining(s, a).Ok? && Remaining(s, b).Ok?
    ensures Remaining(Remaining(s, a).value, b) == Remaining(Remaining(s, b).value, a)
  {
    RemainingReparses(s, a);
    RemainingReparses(s, b);
    RemainingIsFilter(Remaining(s, a).value, b);
    RemainingIsFilter(Remaining(s, b).value, a);
    WithoutCommutes(ParseScript(s).ops, a, b);
  }

  predicate IsP2sh(s: Bytes) {
    |s| == 23 && s[0] == OP_HASH160 && s[1] == 0x14 && s[22] == OP_EQUAL
  }

  predicate IsWitnessScriptPubKey(s: Bytes) {
    4 <= |s| <= 42 && IsSmallInt(s[0]) && s[1] == |s| - 2
  }

  function WitnessVersion(s: Bytes): nat
    requires IsWitnessScriptPubKey(s)
  {
    if s[0] == 0 then 0 else s[0] - OP_1 + 1
  }

  function WitnessProgram(s: Bytes): Bytes
    requires IsWitnessScriptPubKey(s)
  {
    s[2..]
  }

  /** A witness scriptPubKey is one small number and one push, so no other op can be part of it. */
  lemma WitnessShape(s: Bytes)
    requires IsWitnessScriptPubKey(s)
    ensures var p := ParseScript(s);
            p.error.None? && |p.ops| == 2
            && p.ops[0] == Op(s[0], [], [s[0]])
            && p.ops[1] == PushOp(s[2..])
    ensures forall op :: op in ParseScript(s).ops ==> op.code <= OP_16
  {
    var first := Op(s[0], [], [s[0]]);
    var second := PushOp(s[2..]);
    PushIsOp(s[2..]);
    assert s[1..] == second.raw;
    assert IsOp(first) by {
      assert first.raw[1..1] == [] && first.raw[..1] == first.raw;
    }
    ParseConcat([first, second], []);
    assert [first, second][1..] == [second] && [second][1..] == [];
    assert Concat([second]) == second.raw && Concat([first, second]) == first.raw + second.raw;
    assert Concat([first, second]) + [] == s;
    assert [first, second] + ParseScript([]).ops == [first, second];
  }

  predicate IsPushOnly(s: Bytes) {
    var p := ParseScript(s);
    p.error.None? && forall op :: op in p.ops ==> op.code <= OP_16
  }

  method TestPushOnly(s: Bytes) returns (r: bool)
    ensures r == IsPushOnly(s)
  {
    var i := 0;
    while i < |s|
      invariant i <= |s|
      invariant IsPushOnly(s) <==> IsPushOnly(s[i..])
      decreases |s| - i
    {
      var next := NextOp(s, i);
      ghost var tail := s[i..];
      if next.Err? {
        return false;
      }
      assert next.value in ParseScript(tail).ops;
      if next.value.code > OP_16 {
        return false;
      }
      i := i + |next.value.raw|;
      assert tail[|next.value.raw|..] == s[i..];
      hide ReadOp;
    }
    assert s[i..] == [];
    return true;
  }
}
