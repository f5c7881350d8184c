/** Every run is total and bounded, and fails with a declared validation error only. */
module Bounds {
  import opened Core
  import opened ScriptNum
  import opened Script
  import opened Interp

  /** A limit on item sizes: 520 in practice, more if the initial stack already held longer items. */
  type Size = k: nat | MAX_SCRIPT_ELEMENT_SIZE <= k <= MAX_PUSH witness MAX_SCRIPT_ELEMENT_SIZE

  predicate Small(s: Stack, k: Size) {
    forall i :: 0 <= i < |s| ==> |s[i]| <= k
  }

  predicate Bounded(st: State, k: Size) {
    && |st.stack| + |st.alt| <= MAX_STACK_ITEMS
    && st.ops <= MAX_SCRIPT_OPCODES
    && Small(st.stack, k) && Small(st.alt, k)
  }

  lemma SmallNumber(v: int)
    requires -0x1_0000_0000 <= v <= 0x1_0000_0000
    ensures |EncodeNum(v)| <= 5
  {
    assert Pow(256, 4) == 0x1_0000_0000;
    EncodeSize(v, 5);
  }

  lemma CastRange(b: Bytes)
    requires CastNum(b).Ok?
    ensures -0x8000_0000 < CastNum(b).value < 0x8000_0000
  {
    assert Pow(256, 3) == 0x100_0000;
    DecodeSize(b, 4);
  }

  lemma NumericSmall(code: byte, s: Stack, k: Size)
    requires Small(s, k)
    ensures BinOp(code, s).Ok? ==> Small(BinOp(code, s).value, k)
    ensures UnaryOp(code, s).Ok? ==> Small(UnaryOp(code, s).value, k)
  {
    var n := |s|;
    hide EncodeNum, DecodeNum;
    if UnaryOp(code, s).Ok? {
      CastRange(s[n - 1]);
      SmallNumber(Unary(code, CastNum(s[n - 1]).value));
    }
    if BinOp(code, s).Ok? {
      CastRange(s[n - 1]);
      CastRange(s[n - 2]);
      SmallNumber(Binary(code, CastNum(s[n - 2]).value, CastNum(s[n - 1]).value));
    }
  }

  lemma PlainSmall(crypto: Crypto, code: byte, s: Stack, t: Stack, k: Size)
    requires crypto.Valid() && Small(s, k)
    requires PlainOp(crypto, code, s) == Ok(t) && |t| <= MAX_STACK_ITEMS
    ensures Small(t, k)
  {
    hide BinOp, UnaryOp, ShuffleOp, TestOp, EncodeNum, CastNum;
    if IsBinOp(code) || IsUnOp(code) {
      NumericSmall(code, s, k);
    } else if IsNumberPush(code) {
      SmallNumber(code as int - 0x50);
    } else if IsShuffle(code) {
      ShuffleSmall(code, s, t, k);
    } else if IsTest(code) {
      TestSmall(code, s, t, k);
    } else if code == OP_DEPTH {
      SmallNumber(|s|);
    }
  }

  lemma TestSmall(code: byte, s: Stack, t: Stack, k: Size)
    requires Small(s, k) && IsTest(code) && TestOp(code, s) == Ok(t)
    ensures Small(t, k)
  {
    hide EncodeNum, CastToBool;
    if code == OP_SIZE {
      SmallNumber(|s[|s| - 1]|);
    }
  }

  lemma ShuffleSmall(code: byte, s: Stack, t: Stack, k: Size)
    requires Small(s, k) && IsShuffle(code) && ShuffleOp(code, s) == Ok(t)
    ensures Small(t, k)
  {
    var n := |s|;
    if code == OP_2ROT {
      SmallJoin(s[..n - 6], s[n - 4..], s[n - 6..n - 4], k);
    } else if code == OP_2SWAP {
      SmallJoin(s[..n - 4], s[n - 2..], s[n - 4..n - 2], k);
    } else if code == OP_ROT {
      SmallJoin(s[..n - 3], s[n - 2..], [s[n - 3]], k);
    }
  }

  lemma SmallJoin(a: Stack, b: Stack, c: Stack, k: Size)
    requires Small(a, k) && Small(b, k) && Small(c, k)
    ensures Small(a + b + c, k)
  {
  }

  lemma CheckSigOpsSmall(c: Ctx, code: byte, tail: Bytes, s: Stack, ops: nat, k: Size)
    requires Small(s, k)
    ensures CheckSigOp(c, code, tail, s).Ok? ==> Small(CheckSigOp(c, code, tail, s).value, k)
    ensures match CheckMultiSig(c, code, tail, s, ops) case Err(_) => true case Ok((t, after)) => Small(t, k) && after <= MAX_SCRIPT_OPCODES
  {
    hide CheckSig, DropSignature, DropSignatures, GreedyMatch;
  }

  lemma ActBounded(c: Ctx, script: Bytes, op: Op, st: State, at: nat, next: State, k: Size)
    requires c.crypto.Valid()
    requires Small(st.stack, k) && Small(st.alt, k) && st.ops <= MAX_SCRIPT_OPCODES && |op.data| <= MAX_SCRIPT_ELEMENT_SIZE
    requires Act(c, script, op, st, at) == Ok(next)
    ensures |next.stack| + |next.alt| <= MAX_STACK_ITEMS ==> Bounded(next, k)
  {
    if |next.stack| + |next.alt| <= MAX_STACK_ITEMS && op.code > OP_PUSHDATA4 && !IsControl(op.code) && AllTrue(st.exec) {
      ExecuteBounded(c, script, op.code, at, st, next, k);
    }
    hide Execute, Condition;
  }

  lemma ExecuteBounded(c: Ctx, script: Bytes, code: byte, at: nat, st: State, next: State, k: Size)
    requires c.crypto.Valid()
    requires Small(st.stack, k) && Small(st.alt, k) && st.ops <= MAX_SCRIPT_OPCODES
    requires Execute(c, script, code, at, st) == Ok(next) && |next.stack| + |next.alt| <= MAX_STACK_ITEMS
    ensures Bounded(next, k)
  {
    CheckSigOpsSmall(c, code, Tail(script, st.begin), st.stack, st.ops, k);
    hide CheckSigOp, MultiArguments;
    if PlainOp(c.crypto, code, st.stack).Ok? && next == st.(stack := PlainOp(c.crypto, code, st.stack).value) {
      hide CheckMultiSig, PlainOp;
      PlainSmall(c.crypto, code, st.stack, next.stack, k);
    }
    hide CheckMultiSig, PlainOp;
  }

  /** After every op the two stacks, the op count and every item are within their limits. */
  lemma StepBounded(c: Ctx, script: Bytes, op: Op, st: State, next: State, k: Size)
    requires c.crypto.Valid()
    requires Small(st.stack, k) && Small(st.alt, k) && st.ops <= MAX_SCRIPT_OPCODES
    requires op.code > OP_PUSHDATA4 ==> op.data == []
    requires Step(c, script, op, st) == Ok(next)
    ensures Bounded(next, k)
  {
    ActBounded(c, script, op, Count(op, st).value, st.pc, next, k);
    hide Act;
  }

  lemma BareData(op: Op)
    requires IsOp(op)
    ensures op.code > OP_PUSHDATA4 ==> op.data == []
  {
  }

  /** The states a run passes through. */
  function Trace(c: Ctx, script: Bytes, ops: seq<Op>, st: State): (t: seq<State>)
    decreases |ops|
  {
    if ops == [] || Step(c, script, ops[0], st).Err? then []
    else
      var next := Step(c, script, ops[0], st).value;
      [next] + Trace(c, script, ops[1..], next)
  }

  lemma {:induction false} TraceBounded(c: Ctx, script: Bytes, ops: seq<Op>, st: State, k: Size)
    requires c.crypto.Valid() && AllOps(ops)
    requires Small(st.stack, k) && Small(st.alt, k) && st.ops <= MAX_SCRIPT_OPCODES
    ensures forall i :: 0 <= i < |Trace(c, script, ops, st)| ==> Bounded(Trace(c, script, ops, st)[i], k)
    ensures RunOps(c, script, ops, st).Ok? ==>
              |Trace(c, script, ops, st)| == |ops| && RunOps(c, script, ops, st).value == (if ops == [] then st else Trace(c, script, ops, st)[|ops| - 1])
    decreases |ops|
  {
    if ops != [] && Step(c, script, ops[0], st).Ok? {
      var next := Step(c, script, ops[0], st).value;
      BareData(ops[0]);
      StepBounded(c, script, ops[0], st, next, k);
      hide Step, IsOp;
      TraceBounded(c, script, ops[1..], next, k);
    }
  }

  /** The ops are exactly what follows the machine's position, and its script code starts at an op boundary. */
  predicate Aligned(script: Bytes, ops: seq<Op>, st: State) {
    && st.begin <= st.pc <= |script|
    && AllOps(ops)
    && Concat(ops) <= script[st.pc..]
    && ParseScript(script[st.begin..st.pc]).error.None?
  }

  /** A script contains an op that is not a push, and may be cut short after it. */
  predicate Contains(s: Bytes, op: Op) {
    op in ParseScript(s).ops && op.code > OP_16
  }

  lemma TailContains(script: Bytes, ops: seq<Op>, st: State)
    requires Aligned(script, ops, st) && ops != [] && ops[0].code > OP_16
    ensures Contains(script[st.begin..], ops[0])
  {
    hide ReadOp, ParseScript;
    var before, after := script[st.begin..st.pc], script[st.pc..];
    var p := ParseScript(before);
    ConcatParse(before);
    assert Concat(ops) == ops[0].raw + Concat(ops[1..]);
    var rest := after[|ops[0].raw|..];
    ParseStep(ops[0], rest);
    assert after == ops[0].raw + rest;
    ParseConcat(p.ops, after);
    hide ParseScript, Concat;
    assert script[st.begin..] == before + after;
  }

  lemma DropKeepsOp(c: Ctx, script: Bytes, sig: Bytes, op: Op)
    requires c.version.Base? && Contains(script, op) && DropSignature(c, script, sig).Ok?
    ensures Contains(DropSignature(c, script, sig).value, op)
    ensures ParseScript(DropSignature(c, script, sig).value).error.None?
  {
    var needle := EncodePush(sig);
    PushIsOp(sig);
    assert IsOneOp(needle);
    RemainingIsFilter(script, needle);
    RemainingReparses(script, needle);
    assert IsOp(op) && op.raw[0] == op.code;
    hide Remaining, ReadOp, EncodePush;
    assert op.raw != needle;
  }

  lemma {:induction false} DropAllKeepOp(c: Ctx, script: Bytes, sigs: Stack, op: Op)
    requires c.version.Base? && Contains(script, op) && DropSignatures(c, script, sigs).Ok? && sigs != []
    ensures Contains(DropSignatures(c, script, sigs).value, op)
    ensures ParseScript(DropSignatures(c, script, sigs).value).error.None?
    decreases |sigs|
  {
    DropKeepsOp(c, script, sigs[0], op);
    var code := DropSignature(c, script, sigs[0]).value;
    hide DropSignature;
    if |sigs| > 1 {
      DropAllKeepOp(c, code, sigs[1..], op);
    }
  }

  lemma {:induction false} DropDeclared(c: Ctx, script: Bytes, sigs: Stack)
    requires forall i :: 0 <= i < |sigs| ==> |sigs[i]| <= MAX_PUSH
    ensures DropSignatures(c, script, sigs) != Err(ValueError)
    decreases |sigs|
  {
    if sigs != [] && DropSignature(c, script, sigs[0]).Ok? {
      DropDeclared(c, DropSignature(c, script, sigs[0]).value, sigs[1..]);
    }
  }

  lemma CheckSigDeclared(c: Ctx, sig: Bytes, pubkey: Bytes, script: Bytes, op: Op)
    requires c.version.Base? ==> Contains(script, op)
    ensures CheckSig(c, sig, pubkey, script) != Err(ValueError)
  {
    if IsWitnessScriptPubKey(script) {
      WitnessShape(script);
    }
  }

  lemma {:induction false} GreedyDeclared(c: Ctx, sigs: Stack, keys: Stack, script: Bytes, op: Op)
    requires c.version.Base? && sigs != [] ==> Contains(script, op)
    ensures GreedyMatch(c, sigs, keys, script) != Err(ValueError)
    decreases |keys|
  {
    if sigs != [] && |sigs| <= |keys| {
      CheckSigDeclared(c, sigs[0], keys[0], script, op);
      var r := CheckSig(c, sigs[0], keys[0], script);
      hide CheckSig, Contains;
      if r.Ok? {
        GreedyDeclared(c, if r.value then sigs[1..] else sigs, keys[1..], script, op);
      }
    }
  }

  lemma CheckSigOpDeclared(c: Ctx, code: byte, tail: Bytes, s: Stack, k: Size, op: Op)
    requires Small(s, k) && Contains(tail, op)
    ensures CheckSigOp(c, code, tail, s) != Err(ValueError)
  {
    hide CheckSig, Contains, DropSignature;
    var n := |s|;
    if n >= 2 && DropSignature(c, tail, s[n - 2]).Ok? {
      if c.version.Base? {
        DropKeepsOp(c, tail, s[n - 2], op);
      }
      CheckSigDeclared(c, s[n - 2], s[n - 1], DropSignature(c, tail, s[n - 2]).value, op);
    } else if n >= 2 {
      DropDeclared(c, tail, [s[n - 2]]);
      assert DropSignatures(c, tail, [s[n - 2]]) == DropSignature(c, tail, s[n - 2]);
    }
  }

  lemma CheckMultiSigDeclared(c: Ctx, code: byte, tail: Bytes, s: Stack, ops: nat, k: Size, op: Op)
    requires Small(s, k) && Contains(tail, op)
    ensures CheckMultiSig(c, code, tail, s, ops) != Err(ValueError)
  {
    hide DropSignature, GreedyMatch, Contains;
    if MultiArguments(s, ops).Ok? {
      var a := MultiArguments(s, ops).value;
      DropDeclared(c, tail, a.sigs);
      if DropSignatures(c, tail, a.sigs).Ok? {
        var script := DropSignatures(c, tail, a.sigs).value;
        if c.version.Base? && a.sigs != [] {
          DropAllKeepOp(c, tail, a.sigs, op);
        }
        hide DropSignatures, MultiArguments;
        GreedyDeclared(c, a.sigs, a.keys, script, op);
      }
    }
  }

  lemma StepDeclared(c: Ctx, script: Bytes, ops: seq<Op>, st: State, k: Size)
    requires Aligned(script, ops, st) && ops != [] && Small(st.stack, k)
    ensures Step(c, script, ops[0], st) != Err(ValueError)
  {
    hide Contains, CheckSigOp, CheckMultiSig, PlainOp, Condition;
    var op := ops[0];
    if op.code > OP_16 {
      TailContains(script, ops, st);
      CheckSigOpDeclared(c, op.code, Tail(script, st.begin), st.stack, k, op);
      CheckMultiSigDeclared(c, op.code, Tail(script, st.begin), st.stack, st.ops + 1, k, op);
    }
    hide Aligned;
    PlainDeclared(c.crypto, op.code, st.stack);
    ConditionDeclared(c, op.code, st.stack);
  }

  lemma PlainDeclared(k: Crypto, code: byte, s: Stack)
    ensures PlainOp(k, code, s) != Err(ValueError)
  {
    hide CastToBool, EncodeNum, DecodeNum;
  }

  lemma ConditionDeclared(c: Ctx, code: byte, s: Stack)
    ensures Condition(c, code, s) != Err(ValueError)
  {
    hide CastToBool;
  }

  /** Only CODESEPARATOR moves the start of the script code, to just after itself. */
  lemma StepBegin(c: Ctx, script: Bytes, op: Op, st: State, next: State)
    requires Step(c, script, op, st) == Ok(next)
    ensures next.pc == st.pc + |op.raw|
    ensures next.begin == if op.code == OP_CODESEPARATOR && AllTrue(st.exec) then st.pc + 1 else st.begin
  {
    hide Condition, CheckSigOp, CheckMultiSig, PlainOp;
  }

  lemma StepAligned(c: Ctx, script: Bytes, ops: seq<Op>, st: State, next: State)
    requires Aligned(script, ops, st) && ops != [] && Step(c, script, ops[0], st) == Ok(next)
    ensures Aligned(script, ops[1..], next)
  {
    hide ReadOp, Step, Concat, ParseScript;
    var op := ops[0];
    StepBegin(c, script, op, st, next);
    ConcatHead(ops);
    PrefixSplit(op.raw, Concat(ops[1..]), script[st.pc..]);
    assert script[next.pc..] == script[st.pc..][|op.raw|..];
    if next.begin == st.begin {
      SegmentExtends(script, st.begin, st.pc, op);
    } else {
      OpParses(op);
      assert script[next.begin..next.pc] == [];
    }
  }

  lemma ConcatHead(ops: seq<Op>)
    requires ops != []
    ensures Concat(ops) == ops[0].raw + Concat(ops[1..])
    ensures ParseScript([]) == Parse([], None)
  {
  }

  lemma PrefixSplit(a: Bytes, b: Bytes, s: Bytes)
    requires a + b <= s
    ensures |a| + |b| <= |s| && a <= s && b <= s[|a|..]
  {
    assert s[..|a|] == a;
    assert s[|a|..][..|b|] == (a + b)[|a|..];
  }

  /** A segment that parses still does with the op after it. */
  lemma SegmentExtends(script: Bytes, a: nat, b: nat, op: Op)
    requires a <= b <= |script| && IsOp(op) && ParseScript(script[a..b]).error.None?
    ensures b + |op.raw| <= |script| && op.raw <= script[b..] ==> ParseScript(script[a..b + |op.raw|]).error.None?
  {
    hide ReadOp, ParseScript, Concat;
    if b + |op.raw| <= |script| && op.raw <= script[b..] {
      var before := ParseScript(script[a..b]).ops;
      ConcatParse(script[a..b]);
      OpParses(op);
      ParseConcat(before, op.raw);
      assert script[a..b + |op.raw|] == Concat(before) + op.raw;
    }
  }

  lemma OpParses(op: Op)
    requires IsOp(op)
    ensures ParseScript(op.raw).error.None?
    ensures op.code > OP_PUSHDATA4 ==> |op.raw| == 1
  {
    ParseStep(op, []);
    assert op.raw + [] == op.raw;
  }

  lemma {:induction false} RunDeclared(c: Ctx, script: Bytes, ops: seq<Op>, st: State, k: Size)
    requires c.crypto.Valid() && Aligned(script, ops, st)
    requires Small(st.stack, k) && Small(st.alt, k) && st.ops <= MAX_SCRIPT_OPCODES
    ensures RunOps(c, script, ops, st) != Err(ValueError)
    decreases |ops|
  {
    if ops != [] {
      StepDeclared(c, script, ops, st, k);
      if Step(c, script, ops[0], st).Ok? {
        var next := Step(c, script, ops[0], st).value;
        BareData(ops[0]);
        StepBounded(c, script, ops[0], st, next, k);
        StepAligned(c, script, ops, st, next);
        hide Step, Aligned;
        RunDeclared(c, script, ops[1..], next, k);
      }
    }
  }

  /** Evaluation from a stack of pushable items succeeds or fails with a validation error. */
  lemma EvalDeclared(c: Ctx, stack: Stack, script: Bytes)
    requires c.crypto.Valid()
    requires forall i :: 0 <= i < |stack| ==> |stack[i]| <= MAX_PUSH
    ensures EvalScript(c, stack, script) != Err(ValueError)
  {
    ConcatParse(script);
    var ops := ParseScript(script).ops;
    assert script[0..] == script && script[0..0] == [];
    assert Aligned(script, ops, Start(stack));
    RunDeclared(c, script, ops, Start(stack), MAX_PUSH);
  }

  /** The limit is exact: a longer item used as a signature makes CHECKSIG raise outside the validation errors. */
  lemma OversizedSignatureRaises(c: Ctx, stack: Stack)
    requires c.version.Base? && |stack| >= 2 && |stack[|stack| - 2]| > MAX_PUSH
    ensures EvalScript(c, stack, [OP_CHECKSIG]) == Err(ValueError)
  {
    var script, op := [OP_CHECKSIG], BareOp(OP_CHECKSIG);
    assert script[..1] == script && script[1..] == [] && ReadOp(script) == Ok(op);
    assert ParseScript(script) == Parse([op], None);
    assert script[0..] == script;
    assert Step(c, script, op, Start(stack)) == Err(ValueError);
  }
}
