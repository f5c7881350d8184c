/** What the standard output scripts do when they run. */
module Spend {
  import opened Core
  import opened ScriptNum
  import opened Script
  import opened Interp
  import opened Verify

  /** Every op pushes one of the items. */
  predicate Pushes(ops: seq<Op>, items: Stack) {
    && |ops| == |items|
    && forall i :: 0 <= i < |ops| ==> ops[i].code <= OP_PUSHDATA4 && ops[i].data == items[i] && |items[i]| <= MAX_SCRIPT_ELEMENT_SIZE
  }

  lemma {:induction false} RunPushes(c: Ctx, script: Bytes, ops: seq<Op>, items: Stack, st: State)
    requires Pushes(ops, items) && st.exec == []
    requires |st.stack| + |st.alt| + |items| <= MAX_STACK_ITEMS
    ensures RunOps(c, script, ops, st) == Ok(st.(stack := st.stack + items, pc := st.pc + |Concat(ops)|))
    decreases |ops|
  {
    if ops == [] {
      assert st.stack + items == st.stack;
    } else {
      var next := st.(stack := st.stack + [items[0]], pc := st.pc + |ops[0].raw|);
      assert Step(c, script, ops[0], st) == Ok(next) by {
        hide Execute, Control;
      }
      assert Pushes(ops[1..], items[1..]);
      RunPushes(c, script, ops[1..], items[1..], next);
      assert st.stack + [items[0]] + items[1..] == st.stack + items;
    }
  }

  lemma {:induction false} RunThen(c: Ctx, script: Bytes, a: seq<Op>, b: seq<Op>, st: State, mid: State)
    requires RunOps(c, script, a, st) == Ok(mid)
    ensures RunOps(c, script, a + b, st) == RunOps(c, script, b, mid)
    decreases |a|
  {
    hide Step;
    if a == [] {
      assert a + b == b;
    } else {
      assert (a + b)[1..] == a[1..] + b;
      RunThen(c, script, a[1..], b, Step(c, script, a[0], st).value, mid);
    }
  }

  predicate Pushable(items: Stack) {
    forall i :: 0 <= i < |items| ==> |items[i]| <= MAX_PUSH
  }

  /** The script that pushes the items, as CScript builds it. */
  function PushOps(items: Stack): (ops: seq<Op>)
    requires Pushable(items)
    ensures |ops| == |items|
    ensures forall i :: 0 <= i < |items| ==> ops[i] == PushOp(items[i])
  {
    seq(|items|, i requires 0 <= i < |items| => PushOp(items[i]))
  }

  function PushScript(items: Stack): Bytes
    requires Pushable(items)
  {
    Concat(PushOps(items))
  }

  lemma PushScriptParses(items: Stack)
    requires Pushable(items)
    ensures ParseScript(PushScript(items)) == Parse(PushOps(items), None)
    ensures forall i :: 0 <= i < |items| ==> PushOps(items)[i].code <= OP_PUSHDATA4
    ensures ItemsFit(items) ==> Pushes(PushOps(items), items)
  {
    var ops := PushOps(items);
    forall i | 0 <= i < |items|
      ensures IsOp(ops[i]) && ops[i].code <= OP_PUSHDATA4
    {
      PushIsOp(items[i]);
    }
    hide PushOps, IsOp;
    ParseConcat(ops, []);
    assert Concat(ops) + [] == Concat(ops) && ops + [] == ops;
  }

  /** What CScriptWitness makes of its items: they are pushed in a script, and the script is parsed again. */
  function Coerced(items: Stack): Stack
    requires Pushable(items)
  {
    var p := ParseScript(PushScript(items));
    seq(|p.ops|, i requires 0 <= i < |p.ops| => if p.ops[i].code <= OP_PUSHDATA4 then p.ops[i].data else [p.ops[i].code])
  }

  /** The detour changes no item. */
  lemma CoercedIsSame(items: Stack)
    requires Pushable(items)
    ensures Coerced(items) == items
  {
    PushScriptParses(items);
    hide PushScript, ParseScript;
  }

  lemma {:induction false} PushScriptSize(items: Stack)
    requires ItemsFit(items)
    ensures |PushScript(items)| <= |items| * 523
  {
    hide EncodePush;
    if items != [] {
      var ops := PushOps(items);
      assert ops[1..] == PushOps(items[1..]);
      PushScriptSize(items[1..]);
      PushSize(items[0]);
    }
  }

  lemma PushSize(d: Bytes)
    requires |d| <= MAX_SCRIPT_ELEMENT_SIZE
    ensures |EncodePush(d)| <= 523
  {
  }

  lemma EvalPushScript(c: Ctx, items: Stack)
    requires ItemsFit(items) && |items| <= 19
    ensures EvalScript(c, [], PushScript(items)) == Ok(items)
    ensures IsPushOnly(PushScript(items))
  {
    PushScriptParses(items);
    PushScriptSize(items);
    var script := PushScript(items);
    hide PushScript, ParseScript;
    RunPushes(c, script, PushOps(items), items, Start([]));
    assert [] + items == items;
  }

  /** The script hash output: HASH160, the 20-byte hash, EQUAL. */
  lemma P2shParses(spk: Bytes)
    requires IsP2sh(spk)
    ensures ParseScript(spk) == Parse([BareOp(OP_HASH160), PushOp(spk[2..22]), BareOp(OP_EQUAL)], None)
  {
    var hash, push, equal := BareOp(OP_HASH160), PushOp(spk[2..22]), BareOp(OP_EQUAL);
    PushIsOp(spk[2..22]);
    BareIsOp(OP_HASH160);
    BareIsOp(OP_EQUAL);
    hide IsOp, ReadOp;
    ParseStep(equal, []);
    ParseStep(push, equal.raw);
    ParseStep(hash, push.raw + equal.raw);
    assert equal.raw + [] == equal.raw;
    assert spk == hash.raw + (push.raw + equal.raw);
    hide ParseScript;
    assert [push] + ([equal] + []) == [push, equal];
    assert [hash] + [push, equal] == [hash, push, equal];
  }

  lemma BareIsOp(code: byte)
    requires code > OP_PUSHDATA4
    ensures IsOp(BareOp(code))
  {
    assert [code][..1] == [code];
  }

  /** Running it needs an item and tells whether that item has the hash. */
  lemma EvalP2sh(c: Ctx, stack: Stack, spk: Bytes)
    requires IsP2sh(spk) && |stack| < MAX_STACK_ITEMS
    ensures EvalScript(c, stack, spk) ==
              if stack == [] then Err(MissingArguments)
              else Ok(stack[..|stack| - 1] + [Bool(c.crypto.Hash160(stack[|stack| - 1]) == spk[2..22])])
  {
    P2shParses(spk);
    hide ParseScript;
    var hash, push, equal := BareOp(OP_HASH160), PushOp(spk[2..22]), BareOp(OP_EQUAL);
    PushIsOp(spk[2..22]);
    var st0 := Start(stack);
    var n := |stack|;
    if stack == [] {
      assert Step(c, spk, hash, st0) == Err(MissingArguments);
    } else {
      var h := c.crypto.Hash160(stack[n - 1]);
      var st1 := st0.(stack := stack[..n - 1] + [h], pc := 1, ops := 1);
      StepHash(c, spk, st0);
      var st2 := st1.(stack := st1.stack + [spk[2..22]], pc := 1 + |push.raw|);
      StepPush(c, spk, push, st1);
      var st3 := st2.(stack := stack[..n - 1] + [Bool(h == spk[2..22])], pc := 2 + |push.raw|, ops := 2);
      StepEqual(c, spk, st2);
      assert st2.stack[..|st2.stack| - 2] == stack[..n - 1];
      hide Step;
      Run3(c, spk, hash, push, equal, st0, st1, st2, st3);
    }
  }

  lemma Run3(c: Ctx, script: Bytes, a: Op, b: Op, d: Op, st0: State, st1: State, st2: State, st3: State)
    requires Step(c, script, a, st0) == Ok(st1) && Step(c, script, b, st1) == Ok(st2) && Step(c, script, d, st2) == Ok(st3)
    ensures RunOps(c, script, [a, b, d], st0) == Ok(st3)
  {
    hide Step;
    assert [a, b, d][1..] == [b, d] && [b, d][1..] == [d] && [d][1..] == [];
    assert RunOps(c, script, [d], st2) == Ok(st3);
    assert RunOps(c, script, [b, d], st1) == RunOps(c, script, [d], st2);
  }

  lemma StepPush(c: Ctx, script: Bytes, op: Op, st: State)
    requires op.code <= OP_PUSHDATA4 && |op.data| <= MAX_SCRIPT_ELEMENT_SIZE && st.exec == []
    requires |st.stack| + |st.alt| < MAX_STACK_ITEMS
    ensures Step(c, script, op, st) == Ok(st.(stack := st.stack + [op.data], pc := st.pc + |op.raw|))
  {
    hide Execute, Control;
  }

  lemma StepHash(c: Ctx, script: Bytes, st: State)
    requires st.stack != [] && st.alt == [] && st.exec == [] && st.ops < MAX_SCRIPT_OPCODES && |st.stack| <= MAX_STACK_ITEMS
    ensures var n := |st.stack|;
            Step(c, script, BareOp(OP_HASH160), st)
              == Ok(st.(stack := st.stack[..n - 1] + [c.crypto.Hash160(st.stack[n - 1])], pc := st.pc + 1, ops := st.ops + 1))
  {
    hide CheckSigOp, CheckMultiSig, Condition, BinOp, UnaryOp, ShuffleOp, TestOp, PickOrRoll, Within, EncodeNum;
  }

  lemma StepEqual(c: Ctx, script: Bytes, st: State)
    requires |st.stack| >= 2 && st.alt == [] && st.exec == [] && st.ops < MAX_SCRIPT_OPCODES && |st.stack| <= MAX_STACK_ITEMS
    ensures var n := |st.stack|;
            Step(c, script, BareOp(OP_EQUAL), st)
              == Ok(st.(stack := st.stack[..n - 2] + [Bool(st.stack[n - 1] == st.stack[n - 2])], pc := st.pc + 1, ops := st.ops + 1))
  {
    hide CheckSigOp, CheckMultiSig, Condition, BinOp, UnaryOp, ShuffleOp, PickOrRoll, Within, EncodeNum, CastToBool;
  }

  lemma StepNumber(c: Ctx, script: Bytes, n: nat, st: State)
    requires 1 <= n <= 16 && st.exec == [] && |st.stack| + |st.alt| < MAX_STACK_ITEMS
    ensures Step(c, script, BareOp(0x50 + n), st) == Ok(st.(stack := st.stack + [EncodeNum(n)], pc := st.pc + 1))
  {
    hide CheckSigOp, CheckMultiSig, Condition, BinOp, UnaryOp, ShuffleOp, PickOrRoll, Within, EncodeNum, TestOp;
  }

  /** A witness output pushes its version and its program. */
  lemma EvalWitnessScriptPubKey(c: Ctx, stack: Stack, spk: Bytes)
    requires IsWitnessScriptPubKey(spk) && |stack| + 2 <= MAX_STACK_ITEMS
    ensures EvalScript(c, stack, spk) == Ok(stack + [EncodeNum(WitnessVersion(spk)), spk[2..]])
  {
    WitnessShape(spk);
    hide ParseScript;
    var first, second := Op(spk[0], [], [spk[0]]), PushOp(spk[2..]);
    assert ParseScript(spk).ops == [first, second];
    PushIsOp(spk[2..]);
    assert EncodeNum(0) == [];
    var st0 := Start(stack);
    var st1 := st0.(stack := stack + [EncodeNum(WitnessVersion(spk))], pc := 1);
    if spk[0] == 0 {
      StepPush(c, spk, first, st0);
    } else {
      assert first == BareOp(0x50 + WitnessVersion(spk));
      StepNumber(c, spk, WitnessVersion(spk), st0);
    }
    StepPush(c, spk, second, st1);
    hide Step, EncodeNum;
    var st2 := st1.(stack := st1.stack + [spk[2..]], pc := 1 + |second.raw|);
    assert [first, second][1..] == [second] && [second][1..] == [];
    assert RunOps(c, spk, [second], st1) == Ok(st2);
    assert st2.stack == stack + [EncodeNum(WitnessVersion(spk)), spk[2..]];
  }

  /** The run of a script hash output never leaves the copied stack empty, so its assertion holds. */
  lemma P2shStackNonempty(c: Ctx, stack: Stack, spk: Bytes)
    requires IsP2sh(spk) && EvalScript(c, stack, spk).Ok?
    ensures stack != []
  {
    if stack == [] {
      EvalP2sh(c, stack, spk);
    }
  }

  /** Why the clean-stack rule needs WITNESS: without it no witness output could ever be spent cleanly. */
  lemma CleanStackNeedsWitness(k: Crypto, flags: set<Flag>, scriptSig: Bytes, spk: Bytes, wit: Stack)
    requires CLEANSTACK in flags && WITNESS !in flags && IsWitnessScriptPubKey(spk)
    ensures VerifyScript(k, flags, scriptSig, spk, wit).Some?
  {
    var c := Ctx(k, flags, Base);
    var r := EvalScript(c, [], scriptSig);
    if r.Ok? && |r.value| + 2 <= MAX_STACK_ITEMS {
      EvalWitnessScriptPubKey(c, r.value, spk);
    } else if r.Ok? {
      WitnessOverflow(c, r.value, spk);
    }
    hide EvalScript, CastToBool, EncodeNum;
  }

  lemma WitnessOverflow(c: Ctx, stack: Stack, spk: Bytes)
    requires IsWitnessScriptPubKey(spk) && |stack| + 2 > MAX_STACK_ITEMS
    ensures EvalScript(c, stack, spk).Err?
  {
    WitnessShape(spk);
    hide ParseScript;
    var first, second := Op(spk[0], [], [spk[0]]), PushOp(spk[2..]);
    assert ParseScript(spk).ops == [first, second];
    PushIsOp(spk[2..]);
    var st0 := Start(stack);
    if |stack| < MAX_STACK_ITEMS {
      if spk[0] == 0 {
        StepPush(c, spk, first, st0);
      } else {
        assert first == BareOp(0x50 + WitnessVersion(spk));
        StepNumber(c, spk, WitnessVersion(spk), st0);
      }
      var st1 := Step(c, spk, first, st0).value;
      StepFull(c, spk, second, st1);
      hide Step;
      assert [first, second][1..] == [second] && RunOps(c, spk, [second], st1).Err?;
    } else {
      StepFull(c, spk, first, st0);
    }
  }

  lemma StepFull(c: Ctx, script: Bytes, op: Op, st: State)
    requires op.code <= OP_16 && st.exec == [] && |st.stack| + |st.alt| >= MAX_STACK_ITEMS
    ensures Step(c, script, op, st).Err?
  {
    hide CheckSigOp, CheckMultiSig, Condition, BinOp, UnaryOp, ShuffleOp, PickOrRoll, Within, EncodeNum, TestOp;
  }
}
