/**
 * What every op does, by its byte value and by what the items denote: a table to hold the machine against.
 * Stacks are written with their top on the right.
 */
module Opcodes {
  import opened Core
  import opened ScriptNum
  import opened Script
  import opened DerSignature
  import opened Interp

  /** The state after an op above the pushes that leaves these stacks, within the limit on both. */
  function Left(st: State, op: Op, stack: Stack, alt: Stack): Result<State, Error> {
    if |stack| + |alt| > 1000 then Err(StackLimit)
    else Ok(State(stack, alt, st.exec, st.begin, st.pc + |op.raw|, st.ops + 1))
  }

  /** The op is above the pushes and executed, and not one too many. */
  predicate Live(op: Op, st: State) {
    0x60 < op.code && st.ops < 201 && forall i :: 0 <= i < |st.exec| ==> st.exec[i]
  }

  /** At most four bytes count as a number. */
  predicate Short(x: Bytes) {
    |x| <= 4
  }

  /** The top item becomes the shortest item for v. */
  ghost predicate Becomes(r: Result<State, Error>, st: State, op: Op, base: Stack, v: int) {
    exists x :: DecodeNum(x) == v && (forall y :: DecodeNum(y) == v ==> |x| <= |y|) && r == Left(st, op, base + [x], st.alt)
  }

  lemma BecomesEncoded(r: Result<State, Error>, st: State, op: Op, base: Stack, v: int)
    requires r == Left(st, op, base + [EncodeNum(v)], st.alt)
    ensures Becomes(r, st, op, base, v)
  {
    hide EncodeNum, DecodeNum;
    DecodeEncode(v);
    forall y | DecodeNum(y) == v
      ensures |EncodeNum(v)| <= |y|
    {
      EncodeIsShortest(v, y);
    }
  }

  /** Step on an executed op above the pushes is the op's own effect. */
  lemma {:induction false} StepIsExecute(c: Ctx, script: Bytes, op: Op, st: State)
    requires Live(op, st) && !IsDisabled(op.code) && !IsControl(op.code)
    ensures Step(c, script, op, st) ==
            match Execute(c, script, op.code, st.pc, st.(pc := st.pc + |op.raw|, ops := st.ops + 1))
            case Err(e) => Err(e)
            case Ok(next) => Limit(next)
  {
    hide Execute, Control;
  }

  lemma {:induction false} StepIsPlain(c: Ctx, script: Bytes, op: Op, st: State)
    requires Live(op, st) && !IsDisabled(op.code) && !IsControl(op.code) && !(0xab <= op.code <= 0xb9) && op.code != 0x6b && op.code != 0x6c
    ensures Step(c, script, op, st) == match PlainOp(c.crypto, op.code, st.stack) case Err(e) => Err(e) case Ok(s) => Left(st, op, s, st.alt)
  {
    hide PlainOp, Step, CheckSigOp, CheckMultiSig;
    StepIsExecute(c, script, op, st);
  }

  /** 1ADD, 1SUB, NEGATE, ABS, NOT and 0NOTEQUAL. */
  lemma UnaryTable(c: Ctx, script: Bytes, op: Op, st: State, base: Stack, x: Bytes)
    requires Live(op, st) && st.stack == base + [x] && op.code in {0x8b, 0x8c, 0x8f, 0x90, 0x91, 0x92}
    ensures var r, a := Step(c, script, op, st), DecodeNum(x);
            && (!Short(x) ==> r.Err?)
            && (Short(x) && op.code == 0x8b ==> Becomes(r, st, op, base, a + 1))
            && (Short(x) && op.code == 0x8c ==> Becomes(r, st, op, base, a - 1))
            && (Short(x) && op.code == 0x8f ==> Becomes(r, st, op, base, -a))
            && (Short(x) && op.code == 0x90 ==> Becomes(r, st, op, base, if a >= 0 then a else -a))
            && (Short(x) && op.code == 0x91 ==> Becomes(r, st, op, base, if a == 0 then 1 else 0))
            && (Short(x) && op.code == 0x92 ==> Becomes(r, st, op, base, if a == 0 then 0 else 1))
  {
    hide Step, EncodeNum, DecodeNum, Becomes, Left, Live;
    assert st.stack[..|st.stack| - 1] == base && st.stack[|st.stack| - 1] == x;
    StepIsPlain(c, script, op, st);
    if Short(x) {
      BecomesEncoded(Step(c, script, op, st), st, op, base, Unary(op.code, DecodeNum(x)));
    }
  }

  /** ADD, SUB, BOOLAND and BOOLOR, NUMEQUAL to GREATERTHANOREQUAL, MIN and MAX; the second item from the top is the first operand. */
  lemma BinaryTable(c: Ctx, script: Bytes, op: Op, st: State, base: Stack, x: Bytes, y: Bytes)
    requires Live(op, st) && st.stack == base + [x, y] && op.code in {0x93, 0x94, 0x9a, 0x9b, 0x9c, 0x9d, 0x9e, 0x9f, 0xa0, 0xa1, 0xa2, 0xa3, 0xa4}
    ensures var r, a, b, short := Step(c, script, op, st), DecodeNum(x), DecodeNum(y), Short(x) && Short(y);
            && (!short ==> r.Err?)
            && (short && op.code == 0x93 ==> Becomes(r, st, op, base, a + b))
            && (short && op.code == 0x94 ==> Becomes(r, st, op, base, a - b))
            && (short && op.code == 0x9a ==> Becomes(r, st, op, base, if a == 0 || b == 0 then 0 else 1))
            && (short && op.code == 0x9b ==> Becomes(r, st, op, base, if a == 0 && b == 0 then 0 else 1))
            && (short && op.code == 0x9c ==> Becomes(r, st, op, base, if a == b then 1 else 0))
            && (short && op.code == 0x9d ==> if a == b then r == Left(st, op, base, st.alt) else r.Err?)
            && (short && op.code == 0x9e ==> Becomes(r, st, op, base, if a == b then 0 else 1))
            && (short && op.code == 0x9f ==> Becomes(r, st, op, base, if a < b then 1 else 0))
            && (short && op.code == 0xa0 ==> Becomes(r, st, op, base, if b < a then 1 else 0))
            && (short && op.code == 0xa1 ==> Becomes(r, st, op, base, if b < a then 0 else 1))
            && (short && op.code == 0xa2 ==> Becomes(r, st, op, base, if a < b then 0 else 1))
            && (short && op.code == 0xa3 ==> Becomes(r, st, op, base, if b < a then b else a))
            && (short && op.code == 0xa4 ==> Becomes(r, st, op, base, if a < b then b else a))
  {
    hide Step, EncodeNum, DecodeNum, Becomes, Left, Live;
    var s := st.stack;
    assert s[..|s| - 2] == base && s[|s| - 2] == x && s[|s| - 1] == y;
    StepIsPlain(c, script, op, st);
    if Short(x) && Short(y) && op.code != 0x9d {
      BecomesEncoded(Step(c, script, op, st), st, op, base, Binary(op.code, DecodeNum(x), DecodeNum(y)));
    }
  }

  /** WITHIN. */
  lemma WithinTable(c: Ctx, script: Bytes, op: Op, st: State, base: Stack, x: Bytes, low: Bytes, high: Bytes)
    requires Live(op, st) && st.stack == base + [x, low, high] && op.code == 0xa5
    ensures var r, v := Step(c, script, op, st), DecodeNum(x);
            if !(Short(x) && Short(low) && Short(high)) then r.Err?
            else r == Left(st, op, base + [if DecodeNum(low) <= v && v < DecodeNum(high) then [1] else []], st.alt)
  {
    hide Step, EncodeNum, DecodeNum, Left, Live;
    var s := st.stack;
    assert s[..|s| - 3] == base && s[|s| - 3] == x && s[|s| - 2] == low && s[|s| - 1] == high;
    StepIsPlain(c, script, op, st);
  }

  /** VERIFY, IFDUP, DROP, DUP and SIZE. */
  lemma OneItemTable(c: Ctx, script: Bytes, op: Op, st: State, base: Stack, x: Bytes)
    requires Live(op, st) && st.stack == base + [x] && op.code in {0x69, 0x73, 0x75, 0x76, 0x82}
    ensures var r := Step(c, script, op, st);
            && (op.code == 0x69 ==> if DecodeNum(x) == 0 then r.Err? else r == Left(st, op, base, st.alt))
            && (op.code == 0x73 ==> r == Left(st, op, if DecodeNum(x) == 0 then base + [x] else base + [x, x], st.alt))
            && (op.code == 0x75 ==> r == Left(st, op, base, st.alt))
            && (op.code == 0x76 ==> r == Left(st, op, base + [x, x], st.alt))
            && (op.code == 0x82 ==> Becomes(r, st, op, base + [x], |x|))
  {
    hide Step, EncodeNum, DecodeNum, Becomes, CastToBool, Left, Live, BinOp, UnaryOp, PickOrRoll, Within, HashOf;
    var s := st.stack;
    assert s[..|s| - 1] == base && s[|s| - 1] == x && base + [x] + [x] == base + [x, x];
    CastToBoolIsNonzero(x);
    StepIsPlain(c, script, op, st);
    if op.code == 0x82 {
      BecomesEncoded(Step(c, script, op, st), st, op, base + [x], |x|);
    }
  }

  /** RIPEMD160, SHA1, SHA256, HASH160 and HASH256. */
  lemma HashTable(c: Ctx, script: Bytes, op: Op, st: State, base: Stack, x: Bytes)
    requires Live(op, st) && st.stack == base + [x] && op.code in {0xa6, 0xa7, 0xa8, 0xa9, 0xaa}
    ensures var r, k := Step(c, script, op, st), c.crypto;
            && (op.code == 0xa6 ==> r == Left(st, op, base + [k.ripemd160(x)], st.alt))
            && (op.code == 0xa7 ==> r == Left(st, op, base + [k.sha1(x)], st.alt))
            && (op.code == 0xa8 ==> r == Left(st, op, base + [k.sha256(x)], st.alt))
            && (op.code == 0xa9 ==> r == Left(st, op, base + [k.ripemd160(k.sha256(x))], st.alt))
            && (op.code == 0xaa ==> r == Left(st, op, base + [k.sha256(k.sha256(x))], st.alt))
  {
    hide Step, Left, Live, BinOp, UnaryOp, PickOrRoll, Within, ShuffleOp, TestOp;
    var s := st.stack;
    assert s[..|s| - 1] == base && s[|s| - 1] == x;
    StepIsPlain(c, script, op, st);
  }

  /** TOALTSTACK. */
  lemma ToAltTable(c: Ctx, script: Bytes, op: Op, st: State, base: Stack, x: Bytes)
    requires Live(op, st) && st.stack == base + [x] && op.code == 0x6b
    ensures Step(c, script, op, st) == Left(st, op, base, st.alt + [x])
  {
    hide Step, Live, PlainOp, CheckSigOp, CheckMultiSig;
    assert st.stack[..|st.stack| - 1] == base && st.stack[|st.stack| - 1] == x;
    StepIsExecute(c, script, op, st);
  }

  /** 2DROP, 2DUP, NIP, OVER, SWAP, TUCK, EQUAL and EQUALVERIFY. */
  lemma TwoItemTable(c: Ctx, script: Bytes, op: Op, st: State, base: Stack, x: Bytes, y: Bytes)
    requires Live(op, st) && st.stack == base + [x, y] && op.code in {0x6d, 0x6e, 0x77, 0x78, 0x7c, 0x7d, 0x87, 0x88}
    ensures var r := Step(c, script, op, st);
            && (op.code == 0x6d ==> r == Left(st, op, base, st.alt))
            && (op.code == 0x6e ==> r == Left(st, op, base + [x, y, x, y], st.alt))
            && (op.code == 0x77 ==> r == Left(st, op, base + [y], st.alt))
            && (op.code == 0x78 ==> r == Left(st, op, base + [x, y, x], st.alt))
            && (op.code == 0x7c ==> r == Left(st, op, base + [y, x], st.alt))
            && (op.code == 0x7d ==> r == Left(st, op, base + [y, x, y], st.alt))
            && (op.code == 0x87 ==> r == Left(st, op, base + [if x == y then [1] else []], st.alt))
            && (op.code == 0x88 ==> if x == y then r == Left(st, op, base, st.alt) else r.Err?)
  {
    hide Step, EncodeNum, DecodeNum, CastToBool, Left, Live, BinOp, UnaryOp, PickOrRoll, Within, HashOf;
    var s := st.stack;
    assert s[..|s| - 2] == base && s[|s| - 2] == x && s[|s| - 1] == y && s[|s| - 2..] == [x, y];
    assert s + [x] == base + [x, y, x] && s + [x, y] == base + [x, y, x, y];
    StepIsPlain(c, script, op, st);
  }

  /** 3DUP and ROT. */
  lemma ThreeItemTable(c: Ctx, script: Bytes, op: Op, st: State, base: Stack, x: Bytes, y: Bytes, z: Bytes)
    requires Live(op, st) && st.stack == base + [x, y, z] && op.code in {0x6f, 0x7b}
    ensures var r := Step(c, script, op, st);
            && (op.code == 0x6f ==> r == Left(st, op, base + [x, y, z, x, y, z], st.alt))
            && (op.code == 0x7b ==> r == Left(st, op, base + [y, z, x], st.alt))
  {
    hide Step, Left, Live, BinOp, UnaryOp, PickOrRoll, Within, HashOf, TestOp;
    var s := st.stack;
    assert s[..|s| - 3] == base && s[|s| - 3..] == [x, y, z] && s[|s| - 2..] == [y, z] && s[|s| - 3] == x;
    assert s + [x, y, z] == base + [x, y, z, x, y, z] && base + [y, z] + [x] == base + [y, z, x];
    StepIsPlain(c, script, op, st);
  }

  /** 2OVER and 2SWAP. */
  lemma FourItemTable(c: Ctx, script: Bytes, op: Op, st: State, base: Stack, w: Bytes, x: Bytes, y: Bytes, z: Bytes)
    requires Live(op, st) && st.stack == base + [w, x, y, z] && op.code in {0x70, 0x72}
    ensures var r := Step(c, script, op, st);
            && (op.code == 0x70 ==> r == Left(st, op, base + [w, x, y, z, w, x], st.alt))
            && (op.code == 0x72 ==> r == Left(st, op, base + [y, z, w, x], st.alt))
  {
    hide Step, Left, Live, BinOp, UnaryOp, PickOrRoll, Within, HashOf, TestOp;
    var s := st.stack;
    assert s[..|s| - 4] == base && s[|s| - 4..|s| - 2] == [w, x] && s[|s| - 2..] == [y, z];
    assert s + [w, x] == base + [w, x, y, z, w, x] && base + [y, z] + [w, x] == base + [y, z, w, x];
    StepIsPlain(c, script, op, st);
  }

  /** 2ROT. */
  lemma SixItemTable(c: Ctx, script: Bytes, op: Op, st: State, base: Stack, u: Bytes, v: Bytes, rest: Stack)
    requires Live(op, st) && st.stack == base + [u, v] + rest && |rest| == 4 && op.code == 0x71
    ensures Step(c, script, op, st) == Left(st, op, base + rest + [u, v], st.alt)
  {
    hide Step, Left, Live, BinOp, UnaryOp, PickOrRoll, Within, HashOf, TestOp;
    var s := st.stack;
    assert s[..|s| - 6] == base && s[|s| - 6..|s| - 4] == [u, v] && s[|s| - 4..] == rest;
    StepIsPlain(c, script, op, st);
  }

  /** PICK copies the item that has as many items above it as the top says; ROLL moves it. */
  lemma PickTable(c: Ctx, script: Bytes, op: Op, st: State, base: Stack, x: Bytes, above: Stack, n: Bytes)
    requires Live(op, st) && st.stack == base + [x] + above + [n] && Short(n) && DecodeNum(n) == |above| && op.code in {0x79, 0x7a}
    ensures var r := Step(c, script, op, st);
            && (op.code == 0x79 ==> r == Left(st, op, base + [x] + above + [x], st.alt))
            && (op.code == 0x7a ==> r == Left(st, op, base + above + [x], st.alt))
  {
    hide Step, EncodeNum, DecodeNum, Live;
    var s := st.stack;
    var at := |s| - 2 - |above|;
    assert s[|s| - 1] == n && s[at] == x && s[..at] == base && s[at + 1..|s| - 1] == above && s[..|s| - 1] == base + [x] + above;
    StepIsPlain(c, script, op, st);
  }

  /** Numbers that count to no item. */
  lemma PickFails(c: Ctx, script: Bytes, op: Op, st: State, rest: Stack, n: Bytes)
    requires Live(op, st) && st.stack == rest + [n] && op.code in {0x79, 0x7a} && !(Short(n) && 0 <= DecodeNum(n) < |rest|)
    ensures Step(c, script, op, st).Err?
  {
    hide Step, EncodeNum, DecodeNum, Live;
    assert st.stack[|st.stack| - 1] == n;
    StepIsPlain(c, script, op, st);
  }

  /** How many items an op needs. */
  function Needs(code: byte): nat {
    if code in {0x69, 0x6b, 0x73, 0x75, 0x76, 0x82, 0x8b, 0x8c, 0x8f, 0x90, 0x91, 0x92, 0xa6, 0xa7, 0xa8, 0xa9, 0xaa, 0xae, 0xaf} then 1
    else if code in {0x6d, 0x6e, 0x77, 0x78, 0x79, 0x7a, 0x7c, 0x7d, 0x87, 0x88, 0x93, 0x94, 0xac, 0xad} || 0x9a <= code <= 0xa4 then 2
    else if code in {0x6f, 0x7b, 0xa5} then 3
    else if code in {0x70, 0x72} then 4
    else if code == 0x71 then 6
    else 0
  }

  lemma TooFewItems(c: Ctx, script: Bytes, op: Op, st: State)
    requires Live(op, st) && |st.stack| < Needs(op.code)
    ensures Step(c, script, op, st).Err?
  {
    hide Step, EncodeNum, DecodeNum, CastToBool, Live, Shuffle, Remaining, EncodePush, GreedyMatch, CheckSig, DropSignature;
    StepIsExecute(c, script, op, st);
  }

  /** NOP and the reserved ones, DEPTH, FROMALTSTACK, CODESEPARATOR, RETURN, and what no op stands for. */
  lemma BareTable(c: Ctx, script: Bytes, op: Op, st: State)
    requires Live(op, st)
    ensures var r := Step(c, script, op, st);
            && (op.code == 0x61 ==> r == Left(st, op, st.stack, st.alt))
            && (0xb0 <= op.code <= 0xb9 ==> if DISCOURAGE_UPGRADABLE_NOPS in c.flags then r.Err? else r == Left(st, op, st.stack, st.alt))
            && (op.code == 0x74 ==> Becomes(r, st, op, st.stack, |st.stack|))
            && (op.code == 0x6c && st.alt == [] ==> r.Err?)
            && (op.code == 0x6c && st.alt != [] ==> var n := |st.alt| - 1; r == Left(st, op, st.stack + [st.alt[n]], st.alt[..n]))
            && (op.code == 0xab ==> r == Left(st.(begin := st.pc + 1), op, st.stack, st.alt))
            && (op.code in {0x62, 0x6a, 0x89, 0x8a} || op.code >= 0xba ==> r.Err?)
  {
    hide Step, EncodeNum, DecodeNum, Becomes, CheckSigOp, CheckMultiSig, BinOp, UnaryOp, ShuffleOp, TestOp, PickOrRoll, Within, HashOf;
    if op.code in {0x61, 0x74, 0x6c, 0xab, 0x62, 0x6a, 0x89, 0x8a} || op.code >= 0xb0 {
      StepIsExecute(c, script, op, st);
      if op.code == 0x74 {
        BecomesEncoded(Step(c, script, op, st), st, op, st.stack, |st.stack|);
      }
    }
  }

  /** Pushes, the small numbers among them, whether executed or not; the limits on items and on both stacks. */
  lemma PushTable(c: Ctx, script: Bytes, op: Op, st: State)
    requires op.code <= 0x60
    ensures var r, live := Step(c, script, op, st), forall i :: 0 <= i < |st.exec| ==> st.exec[i];
            var next := State(st.stack, st.alt, st.exec, st.begin, st.pc + |op.raw|, st.ops);
            && (op.code <= 0x4e && |op.data| > 520 ==> r.Err?)
            && (!live && (op.code > 0x4e || |op.data| <= 520) ==> r == if |st.stack| + |st.alt| > 1000 then Err(StackLimit) else Ok(next))
            && (live && op.code <= 0x4e && |op.data| <= 520 ==>
                  r == if |st.stack| + 1 + |st.alt| > 1000 then Err(StackLimit) else Ok(next.(stack := st.stack + [op.data])))
            && (live && op.code == 0x50 ==> r.Err?)
            && (live && op.code > 0x4e && op.code != 0x50 ==>
                  r == if |st.stack| + 1 + |st.alt| > 1000 then Err(StackLimit) else Ok(next.(stack := st.stack + [EncodeNum(op.code as int - 80)])))
  {
    hide EncodeNum, CheckSigOp, CheckMultiSig, BinOp, UnaryOp, ShuffleOp, TestOp, PickOrRoll, Within, HashOf;
  }

  /** Every op above the pushes counts, executed or not; disabled ones fail wherever they stand. */
  lemma CountTable(c: Ctx, script: Bytes, op: Op, st: State)
    ensures var r := Step(c, script, op, st);
            && (op.code > 0x60 && st.ops >= 201 ==> r.Err?)
            && (op.code in {0x65, 0x66, 0x7e, 0x7f, 0x80, 0x81, 0x83, 0x84, 0x85, 0x86, 0x8d, 0x8e, 0x95, 0x96, 0x97, 0x98, 0x99} ==> r.Err?)
  {
    hide Act;
  }

  /** IF and NOTIF look at the top item and begin a branch; where the branch around them is not executed they look at nothing. */
  lemma IfTable(c: Ctx, script: Bytes, op: Op, st: State, base: Stack, x: Bytes)
    requires op.code in {0x63, 0x64} && st.ops < 201 && |st.stack| + |st.alt| <= 1000
    ensures var r, live := Step(c, script, op, st), forall i :: 0 <= i < |st.exec| ==> st.exec[i];
            var minimal := x == [] || x == [1] || !(c.version.WitnessV0? && MINIMALIF in c.flags);
            && (!live ==> r == Left(st.(exec := st.exec + [false]), op, st.stack, st.alt))
            && (live && st.stack == [] ==> r.Err?)
            && (live && st.stack == base + [x] && !minimal ==> r.Err?)
            && (live && st.stack == base + [x] && minimal && op.code == 0x63 ==> r == Left(st.(exec := st.exec + [DecodeNum(x) != 0]), op, base, st.alt))
            && (live && st.stack == base + [x] && minimal && op.code == 0x64 ==> r == Left(st.(exec := st.exec + [DecodeNum(x) == 0]), op, base, st.alt))
  {
    hide EncodeNum, DecodeNum, CastToBool, Execute;
    CastToBoolIsNonzero(x);
    if st.stack == base + [x] {
      assert st.stack[..|st.stack| - 1] == base && st.stack[|st.stack| - 1] == x;
    }
  }

  /** ELSE turns the innermost branch and ENDIF ends it, whether executed or not. */
  lemma ElseTable(c: Ctx, script: Bytes, op: Op, st: State, outer: seq<bool>, inner: bool)
    requires op.code in {0x67, 0x68} && st.ops < 201 && |st.stack| + |st.alt| <= 1000
    ensures var r := Step(c, script, op, st);
            && (st.exec == [] ==> r.Err?)
            && (st.exec == outer + [inner] && op.code == 0x67 ==> r == Left(st.(exec := outer + [!inner]), op, st.stack, st.alt))
            && (st.exec == outer + [inner] && op.code == 0x68 ==> r == Left(st.(exec := outer), op, st.stack, st.alt))
  {
    hide Execute;
    if st.exec == outer + [inner] {
      assert st.exec[..|st.exec| - 1] == outer;
    }
  }

  /** A signature that is not empty passes the checks the flags ask for. */
  predicate Presentable(c: Ctx, sig: Bytes, pub: Bytes) {
    && sig != []
    && (DERSIG in c.flags || LOW_S in c.flags || STRICTENC in c.flags ==> IsValidSignatureEncoding(sig))
    && (LOW_S in c.flags ==> IsLowS(sig))
    && (STRICTENC in c.flags ==>
          && sig[|sig| - 1] in {1, 2, 3, 0x81, 0x82, 0x83}
          && ((|pub| == 33 && pub[0] in {2, 3}) || (|pub| == 65 && pub[0] == 4)))
    && (WITNESS_PUBKEYTYPE in c.flags && c.version.WitnessV0? ==> |pub| == 33 && pub[0] in {2, 3})
  }

  /** The curve accepts the signature for the key, on the hash of the code for the hash type the signature ends in. */
  predicate OnCurve(c: Ctx, sig: Bytes, pub: Bytes, code: Bytes) {
    && sig != []
    && var h := c.crypto.sighash(code, sig[|sig| - 1], c.version);
       if DERSIG in c.flags || LOW_S in c.flags || STRICTENC in c.flags then c.crypto.verify(pub, h, sig[..|sig| - 1])
       else c.crypto.verifyNonstrict(pub, h, sig[..|sig| - 1])
  }

  lemma CheckSigMeans(c: Ctx, sig: Bytes, pub: Bytes, code: Bytes)
    ensures var r := CheckSig(c, sig, pub, code);
            && (r.Ok? <==> sig == [] || (Presentable(c, sig, pub) && !(c.version.Base? && IsWitnessScriptPubKey(code))))
            && (r.Ok? ==> (r.value <==> OnCurve(c, sig, pub, code)))
  {
    hide IsValidSignatureEncoding, IsLowS, IsWitnessScriptPubKey;
  }

  /** CHECKSIG and CHECKSIGVERIFY; code is what the signature hash is made of, since the last CODESEPARATOR. */
  lemma CheckSigTable(c: Ctx, script: Bytes, op: Op, st: State, base: Stack, sig: Bytes, pub: Bytes, code: Bytes)
    requires Live(op, st) && st.stack == base + [sig, pub] && op.code in {0xac, 0xad} && st.begin <= |script|
    requires DropSignature(c, script[st.begin..], sig) == Ok(code) && !(c.version.Base? && IsWitnessScriptPubKey(code))
    ensures c.version.WitnessV0? ==> code == script[st.begin..]
    ensures var r, good := Step(c, script, op, st), OnCurve(c, sig, pub, code);
            && (sig != [] && !Presentable(c, sig, pub) ==> r.Err?)
            && (sig != [] && !good && NULLFAIL in c.flags ==> r.Err?)
            && ((sig == [] || (Presentable(c, sig, pub) && (good || NULLFAIL !in c.flags))) ==>
                  && (op.code == 0xac ==> r == Left(st, op, base + [if good then [1] else []], st.alt))
                  && (op.code == 0xad ==> if good then r == Left(st, op, base, st.alt) else r.Err?))
  {
    hide Step, CheckSig, Presentable, OnCurve, IsWitnessScriptPubKey, CheckMultiSig, PlainOp, Live, Remaining, EncodePush;
    var s := st.stack;
    assert s[..|s| - 2] == base && s[|s| - 2] == sig && s[|s| - 1] == pub;
    CheckSigMeans(c, sig, pub, code);
    StepIsExecute(c, script, op, st);
    assert OnCurve(c, sig, pub, code) ==> sig != [] by {
      EmptyIsNoSignature(c, sig, pub, code);
    }
  }

  lemma EmptyIsNoSignature(c: Ctx, sig: Bytes, pub: Bytes, code: Bytes)
    ensures OnCurve(c, sig, pub, code) ==> sig != []
  {
  }
}
