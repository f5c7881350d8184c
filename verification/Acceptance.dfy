/** What it means that a spend is accepted, stated over the runs of its scripts and the numbers they leave. */
module Acceptance {
  import opened Core
  import opened ScriptNum
  import opened Script
  import opened Interp
  import opened Verify
  import opened Opcodes
  import opened PsbtKeyHash

  /** The run ends with a stack whose top is a nonzero number. */
  predicate EndsTrue(r: Result<Stack, Error>) {
    r.Ok? && r.value != [] && DecodeNum(r.value[|r.value| - 1]) != 0
  }

  /** And with nothing else on it. */
  predicate EndsClean(r: Result<Stack, Error>) {
    EndsTrue(r) && |r.value| == 1
  }

  /** A version 0 program of 32 bytes is the hash of the last item, the script for the others; one of 20 bytes takes two items. */
  predicate ProgramHolds(k: Crypto, flags: set<Flag>, wit: Stack, program: Bytes) {
    var n := |wit|;
    var c := Ctx(k, flags, WitnessV0);
    if |program| == 32 then
      && n > 0 && k.sha256(wit[n - 1]) == program
      && (forall i :: 0 <= i < n - 1 ==> |wit[i]| <= 520)
      && EndsClean(EvalScript(c, wit[..n - 1], wit[n - 1]))
    else
      && |program| == 20 && n == 2 && |wit[0]| <= 520 && |wit[1]| <= 520
      && EndsClean(EvalScript(c, wit, [0x76, 0xa9, 0x14] + program + [0x88, 0xac]))
  }

  lemma ProgramIsHeld(k: Crypto, flags: set<Flag>, wit: Stack, program: Bytes)
    ensures VerifyWitnessProgram(k, flags, wit, 0, program).None? <==> ProgramHolds(k, flags, wit, program)
  {
    hide EvalScript, CastToBool, DecodeNum, KeyHashScript, SingleTrue, EndsClean;
    var c, n := Ctx(k, flags, WitnessV0), |wit|;
    if |program| == 20 {
      KeyHashBytes(program);
      CleanIsSingle(EvalScript(c, wit, KeyHashScript(program)));
    } else if |program| == 32 && n > 0 {
      CleanIsSingle(EvalScript(c, wit[..n - 1], wit[n - 1]));
    }
  }

  lemma CleanIsSingle(r: Result<Stack, Error>)
    ensures EndsClean(r) <==> r.Ok? && SingleTrue(r.value).None?
  {
    hide CastToBool, DecodeNum;
    if r.Ok? && r.value != [] {
      CastToBoolIsNonzero(r.value[|r.value| - 1]);
    }
  }

  lemma KeyHashBytes(program: Bytes)
    requires |program| == 20
    ensures KeyHashScript(program) == [0x76, 0xa9, 0x14] + program + [0x88, 0xac]
  {
    assert EncodePush(program) == [0x14] + program;
  }

  /** The bytes are a number and one push of the rest; the first byte says which version of program. */
  predicate IsProgram(s: Bytes) {
    4 <= |s| <= 42 && (s[0] == 0 || 0x51 <= s[0] <= 0x60) && s[1] == |s| - 2
  }

  /** Programs of a later version are free to spend, unless discouraged. */
  predicate WitnessHolds(k: Crypto, flags: set<Flag>, wit: Stack, s: Bytes)
    requires IsProgram(s)
  {
    if s[0] == 0 then ProgramHolds(k, flags, wit, s[2..]) else DISCOURAGE_UPGRADABLE_WITNESS_PROGRAM !in flags
  }

  /** The spend of a script hash with the items that scriptSig left: pushes alone, of which the last is the script run on the others. */
  predicate RedeemHolds(k: Crypto, flags: set<Flag>, scriptSig: Bytes, pushed: Stack, wit: Stack) {
    var p, n := ParseScript(scriptSig), |pushed|;
    && p.error.None? && (forall i :: 0 <= i < |p.ops| ==> p.ops[i].code <= 0x60)
    && n > 0 && EndsTrue(EvalScript(Ctx(k, flags, Base), pushed[..n - 1], pushed[n - 1]))
    && (WITNESS in flags && IsProgram(pushed[n - 1]) ==>
          scriptSig == EncodePush(pushed[n - 1]) && WitnessHolds(k, flags, wit, pushed[n - 1]))
  }

  predicate PaysToHash(spk: Bytes) {
    |spk| == 23 && spk[0] == 0xa9 && spk[1] == 20 && spk[22] == 0x87
  }

  /** Some program was run: the output's own, or the one a script hash stands for. */
  predicate RunsProgram(flags: set<Flag>, pushed: Stack, spk: Bytes) {
    WITNESS in flags && (IsProgram(spk) || (P2SH in flags && PaysToHash(spk) && pushed != [] && IsProgram(pushed[|pushed| - 1])))
  }

  /** The number of items CLEANSTACK looks at: those left by the last script that ran, or at most one beside a program. */
  predicate LeavesOne(k: Crypto, flags: set<Flag>, pushed: Stack, stack: Stack, spk: Bytes) {
    if RunsProgram(flags, pushed, spk) then true
    else if P2SH in flags && PaysToHash(spk) then
      pushed != [] && EndsClean(EvalScript(Ctx(k, flags, Base), pushed[..|pushed| - 1], pushed[|pushed| - 1]))
    else |stack| == 1
  }

  /** Every rule of acceptance at once, in no order. */
  predicate Accepts(k: Crypto, flags: set<Flag>, scriptSig: Bytes, spk: Bytes, wit: Stack) {
    var c := Ctx(k, flags, Base);
    var first := EvalScript(c, [], scriptSig);
    && flags !! {SIGPUSHONLY, MINIMALDATA, CHECKLOCKTIMEVERIFY, CHECKSEQUENCEVERIFY, CONST_SCRIPTCODE, TAPROOT}
    && first.Ok?
    && var second := EvalScript(c, first.value, spk);
       && EndsTrue(second)
       && (WITNESS in flags && IsProgram(spk) ==> scriptSig == [] && WitnessHolds(k, flags, wit, spk))
       && (P2SH in flags && PaysToHash(spk) ==> RedeemHolds(k, flags, scriptSig, first.value, wit))
       && (WITNESS in flags && !RunsProgram(flags, first.value, spk) ==> wit == [])
       && (CLEANSTACK in flags ==> LeavesOne(k, flags, first.value, second.value, spk))
       && (WITNESS in flags || CLEANSTACK in flags ==> P2SH in flags)
  }

  lemma ProgramShapes(s: Bytes)
    ensures IsWitnessScriptPubKey(s) <==> IsProgram(s)
    ensures IsProgram(s) ==> WitnessProgram(s) == s[2..] && (WitnessVersion(s) == 0 <==> s[0] == 0)
    ensures IsP2sh(s) <==> PaysToHash(s)
    ensures IsProgram(s) ==> !PaysToHash(s)
  {
  }

  lemma WitnessIsHeld(k: Crypto, flags: set<Flag>, wit: Stack, s: Bytes)
    requires IsProgram(s)
    ensures IsWitnessScriptPubKey(s)
    ensures VerifyWitnessProgram(k, flags, wit, WitnessVersion(s), WitnessProgram(s)).None? <==> WitnessHolds(k, flags, wit, s)
  {
    ProgramShapes(s);
    hide ProgramHolds, IsWitnessScriptPubKey, WitnessVersion, WitnessProgram, WitnessScript, EvalScript;
    ProgramIsHeld(k, flags, wit, s[2..]);
  }

  lemma TruthIsNonzero(r: Result<Stack, Error>)
    ensures EndsTrue(r) <==> r.Ok? && Truth(r.value).None?
    ensures EndsTrue(r) ==> r.value != []
  {
    hide CastToBool, DecodeNum;
    if r.Ok? && r.value != [] {
      CastToBoolIsNonzero(r.value[|r.value| - 1]);
    }
  }

  lemma RedeemIsHeld(k: Crypto, flags: set<Flag>, scriptSig: Bytes, pushed: Stack, wit: Stack, phase: Phase)
    ensures var r := VerifyP2sh(k, flags, scriptSig, pushed, wit, phase);
            && (r.Ok? <==> RedeemHolds(k, flags, scriptSig, pushed, wit))
            && (r.Ok? ==>
                  && pushed != []
                  && var run := EvalScript(Ctx(k, flags, Base), pushed[..|pushed| - 1], pushed[|pushed| - 1]);
                     && EndsTrue(run) && run.value != []
                     && r.value == if WITNESS in flags && IsProgram(pushed[|pushed| - 1]) then Phase(run.value[..1], true) else Phase(run.value, phase.hadWitness))
  {
    hide EvalScript, ParseScript, IsWitnessScriptPubKey, WitnessHolds, VerifyWitnessProgram, EncodePush, EndsTrue, Truth;
    if pushed != [] {
      var top := pushed[|pushed| - 1];
      var run := EvalScript(Ctx(k, flags, Base), pushed[..|pushed| - 1], top);
      ProgramShapes(top);
      TruthIsNonzero(run);
      if IsProgram(top) {
        WitnessIsHeld(k, flags, wit, top);
      }
    }
  }

  lemma NativeIsHeld(k: Crypto, flags: set<Flag>, scriptSig: Bytes, spk: Bytes, stack: Stack, wit: Stack)
    ensures var r := VerifyNative(k, flags, scriptSig, spk, stack, wit); var runs := WITNESS in flags && IsProgram(spk);
            && (r.Ok? <==> (runs ==> scriptSig == [] && WitnessHolds(k, flags, wit, spk)))
            && (r.Ok? ==> r.value == if runs then Phase(stack[..Min(1, |stack|)], true) else Phase(stack, false))
  {
    hide IsWitnessScriptPubKey, WitnessHolds, VerifyWitnessProgram, WitnessVersion, WitnessProgram;
    ProgramShapes(spk);
    if IsProgram(spk) {
      WitnessIsHeld(k, flags, wit, spk);
    }
  }

  lemma RulesHold(flags: set<Flag>, phase: Phase, wit: Stack)
    ensures VerifyRules(flags, phase, wit).None? <==>
            && (WITNESS in flags && !phase.hadWitness ==> wit == [])
            && (CLEANSTACK in flags ==> |phase.stack| == 1)
            && (WITNESS in flags || CLEANSTACK in flags ==> P2SH in flags)
  {
  }

  lemma Handled(flags: set<Flag>)
    ensures flags * UNHANDLED_SCRIPT_VERIFY_FLAGS == {} <==> flags !! {SIGPUSHONLY, MINIMALDATA, CHECKLOCKTIMEVERIFY, CHECKSEQUENCEVERIFY, CONST_SCRIPTCODE, TAPROOT}
  {
    assert forall f :: f in flags * UNHANDLED_SCRIPT_VERIFY_FLAGS <==> f in flags && f in UNHANDLED_SCRIPT_VERIFY_FLAGS;
  }

  /** A spend is accepted exactly if every rule holds. */
  lemma AcceptanceIsExact(k: Crypto, flags: set<Flag>, scriptSig: Bytes, spk: Bytes, wit: Stack)
    ensures VerifyScript(k, flags, scriptSig, spk, wit).None? <==> Accepts(k, flags, scriptSig, spk, wit)
  {
    hide EvalScript, IsWitnessScriptPubKey, IsP2sh, WitnessHolds, VerifyNative, VerifyP2sh, VerifyRules, RedeemHolds, EndsTrue, Truth, IsProgram, PaysToHash;
    var c := Ctx(k, flags, Base);
    Handled(flags);
    ProgramShapes(spk);
    var first := EvalScript(c, [], scriptSig);
    if first.Ok? {
      var second := EvalScript(c, first.value, spk);
      TruthIsNonzero(second);
      if second.Ok? && Truth(second.value).None? {
        NativeIsHeld(k, flags, scriptSig, spk, second.value, wit);
        var native := VerifyNative(k, flags, scriptSig, spk, second.value, wit);
        if native.Ok? {
          RulesHold(flags, native.value, wit);
          RedeemIsHeld(k, flags, scriptSig, first.value, wit, native.value);
          var redeemed := VerifyP2sh(k, flags, scriptSig, first.value, wit, native.value);
          if redeemed.Ok? {
            RulesHold(flags, redeemed.value, wit);
          }
        }
      }
    }
  }

  /** The machine stops at the first op that fails. */
  lemma RunTakesStep(c: Ctx, script: Bytes, ops: seq<Op>, st: State)
    requires ops != [] && RunOps(c, script, ops, st).Ok?
    ensures Step(c, script, ops[0], st).Ok? && RunOps(c, script, ops[1..], Step(c, script, ops[0], st).value) == RunOps(c, script, ops, st)
  {
    hide Step;
  }

  /** CHECKSIG leaves a true item only for a signature that verifies. */
  lemma CheckSigNeeds(c: Ctx, script: Bytes, op: Op, st: State, base: Stack, sig: Bytes, pub: Bytes)
    requires Live(op, st) && op.code == 0xac && st.begin == 0 && st.stack == base + [sig, pub]
    requires var r := Step(c, script, op, st); r.Ok? && r.value.stack != [] && DecodeNum(r.value.stack[|r.value.stack| - 1]) != 0
    ensures var code := DropSignature(c, script, sig); code.Ok? && OnCurve(c, sig, pub, code.value)
  {
    hide Step, CheckSig, OnCurve, Presentable, DropSignature, DecodeNum, Live, CheckMultiSig, PlainOp, IsWitnessScriptPubKey;
    var s := st.stack;
    assert s[|s| - 2] == sig && s[|s| - 1] == pub && script[0..] == script;
    StepIsExecute(c, script, op, st);
    if DropSignature(c, script, sig).Ok? {
      CheckSigMeans(c, sig, pub, DropSignature(c, script, sig).value);
    }
    EmptyIsZero();
  }

  lemma EmptyIsZero()
    ensures DecodeNum([]) == 0
  {
  }

  lemma HashPushed(hash: Bytes)
    requires |hash| == 20
    ensures PushOp(hash).code <= 0x4e && PushOp(hash).data == hash
  {
    PushIsOp(hash);
  }

  /** A key-hash script only lets a stack through whose top is a key with the hash, above a signature that verifies for it. */
  lemma KeyHashOpsNeed(c: Ctx, script: Bytes, hash: Bytes, base: Stack, sig: Bytes, pub: Bytes)
    requires |hash| == 20
    requires var r := RunOps(c, script, KeyHashOps(hash), Start(base + [sig, pub]));
             r.Ok? && r.value.stack != [] && DecodeNum(r.value.stack[|r.value.stack| - 1]) != 0
    ensures c.crypto.Hash160(pub) == hash
    ensures var code := DropSignature(c, script, sig); code.Ok? && OnCurve(c, sig, pub, code.value)
  {
    var ops, s0 := KeyHashOps(hash), Start(base + [sig, pub]);
    HashPushed(hash);
    hide Step, RunOps, DropSignature, OnCurve, DecodeNum, PushOp, EncodeNum;
    assert base + [sig, pub] == (base + [sig]) + [pub];
    RunTakesStep(c, script, ops, s0);
    OneItemTable(c, script, ops[0], s0, base + [sig], pub);
    var s1 := Step(c, script, ops[0], s0).value;
    assert s1.stack == (base + [sig, pub]) + [pub];
    RunTakesStep(c, script, ops[1..], s1);
    HashTable(c, script, ops[1], s1, base + [sig, pub], pub);
    var s2 := Step(c, script, ops[1], s1).value;
    RunTakesStep(c, script, ops[1..][1..], s2);
    PushTable(c, script, ops[2], s2);
    var s3 := Step(c, script, ops[2], s2).value;
    assert s3.stack == (base + [sig, pub]) + [c.crypto.Hash160(pub), hash];
    RunTakesStep(c, script, ops[1..][1..][1..], s3);
    TwoItemTable(c, script, ops[3], s3, base + [sig, pub], c.crypto.Hash160(pub), hash);
    var s4 := Step(c, script, ops[3], s3).value;
    assert ops[1..][1..][1..][1..] == [ops[4]];
    RunTakesStep(c, script, [ops[4]], s4);
    RunsNothing(c, script, Step(c, script, ops[4], s4).value);
    CheckSigNeeds(c, script, ops[4], s4, base, sig, pub);
  }

  lemma RunsNothing(c: Ctx, script: Bytes, st: State)
    ensures RunOps(c, script, [], st) == Ok(st)
  {
  }

  /** The script of a key hash ends true only for a key with that hash and a signature that verifies for it. */
  lemma KeyHashNeeds(c: Ctx, hash: Bytes, base: Stack, sig: Bytes, pub: Bytes)
    requires |hash| == 20 && EndsTrue(EvalScript(c, base + [sig, pub], [0x76, 0xa9, 0x14] + hash + [0x88, 0xac]))
    ensures c.crypto.ripemd160(c.crypto.sha256(pub)) == hash
    ensures var code := DropSignature(c, [0x76, 0xa9, 0x14] + hash + [0x88, 0xac], sig); code.Ok? && OnCurve(c, sig, pub, code.value)
  {
    KeyHashBytes(hash);
    KeyHashParses(hash);
    hide RunOps, ParseScript, DecodeNum, OnCurve, DropSignature, KeyHashOps, KeyHashScript;
    KeyHashOpsNeed(c, KeyHashScript(hash), hash, base, sig, pub);
  }

  /** A P2WPKH output can only be spent with a key of its hash and a signature by that key. */
  lemma KeyHashOutputNeedsSignature(k: Crypto, flags: set<Flag>, scriptSig: Bytes, spk: Bytes, wit: Stack)
    requires P2SH in flags && WITNESS in flags && |spk| == 22 && spk[0] == 0 && spk[1] == 20
    requires VerifyScript(k, flags, scriptSig, spk, wit).None?
    ensures scriptSig == [] && |wit| == 2 && k.ripemd160(k.sha256(wit[1])) == spk[2..]
    ensures OnCurve(Ctx(k, flags, WitnessV0), wit[0], wit[1], [0x76, 0xa9, 0x14] + spk[2..] + [0x88, 0xac])
  {
    hide VerifyScript, EvalScript, OnCurve, EndsTrue, RedeemHolds, LeavesOne, RunsProgram;
    AcceptanceIsExact(k, flags, scriptSig, spk, wit);
    assert wit == [] + [wit[0], wit[1]];
    KeyHashNeeds(Ctx(k, flags, WitnessV0), spk[2..], [], wit[0], wit[1]);
  }

  /** A P2WSH output can only be spent with a script of its hash that leaves one true item. */
  lemma ScriptHashOutputNeedsScript(k: Crypto, flags: set<Flag>, scriptSig: Bytes, spk: Bytes, wit: Stack)
    requires P2SH in flags && WITNESS in flags && |spk| == 34 && spk[0] == 0 && spk[1] == 32
    requires VerifyScript(k, flags, scriptSig, spk, wit).None?
    ensures scriptSig == [] && wit != [] && k.sha256(wit[|wit| - 1]) == spk[2..]
    ensures EndsClean(EvalScript(Ctx(k, flags, WitnessV0), wit[..|wit| - 1], wit[|wit| - 1]))
  {
    hide VerifyScript, EvalScript, EndsTrue, RedeemHolds, LeavesOne, RunsProgram;
    AcceptanceIsExact(k, flags, scriptSig, spk, wit);
  }

  /** A witness output whose script is OP_0 cannot be spent. */
  lemma FalseProgramIsRefused(k: Crypto, flags: set<Flag>)
    requires k.Valid()
    ensures VerifyWitnessProgram(k, flags, [[0]], 0, k.sha256([0])).Some?
  {
    ZeroLeavesZero(Ctx(k, flags, WitnessV0));
    EmptyIsZero();
    hide EvalScript, DecodeNum, VerifyWitnessProgram;
    ProgramIsHeld(k, flags, [[0]], k.sha256([0]));
    assert [[0]][..0] == [] && |k.sha256([0])| == 32;
  }

  lemma ZeroLeavesZero(c: Ctx)
    ensures EvalScript(c, [], [0]) == Ok([[]])
  {
    var op := PushOp([]);
    EmptyPush();
    ParseStep(op, []);
    NothingParses();
    assert [0] + [] == [0] && [op] + [] == [op];
    hide ParseScript, PushOp, Step, RunOps;
    PushTable(c, [0], op, Start([]));
    assert [] + [op.data] == [[]];
    var next := Step(c, [0], op, Start([])).value;
    RunsNothing(c, [0], next);
    RunLast(c, [0], op, Start([]));
  }

  lemma EmptyPush()
    ensures PushOp([]) == Op(0, [], [0]) && IsOp(PushOp([]))
  {
    PushIsOp([]);
  }
}
