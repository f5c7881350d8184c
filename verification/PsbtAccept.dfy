/** A finalised standard multisig input is accepted by the script machine. */
module PsbtAccept {
  import opened Core
  import opened ScriptNum
  import opened Script
  import opened DerSignature
  import opened Interp
  import opened Verify
  import opened MultisigScript
  import opened PsbtSign
  import opened PsbtInput
  import opened PsbtRun
  import opened PsbtFinish
  import opened MultisigRun
  import opened Spend
  import SoftFork

  /** Flag sets the machine handles, over hash functions of the right lengths and a curve check that is the same strict and lax. */
  ghost predicate Verifiable(k: Crypto, flags: set<Flag>) {
    && SoftFork.Closed(flags) && flags * UNHANDLED_SCRIPT_VERIFY_FLAGS == {}
    && k.Valid() && SoftFork.StrictAgrees(k)
  }

  /** What the output asks for: a true hash, and for a native witness output that sign was given the right script. */
  predicate Redeemable(env: Env, t: Target, flags: set<Flag>) {
    var hash, spk := env.crypto.sha256(t.script), env.Spk();
    if !env.utxo.WitnessUtxo? then true
    else if IsWitnessScriptPubKey(spk) then CastToBool(spk[2..]) && (WITNESS in flags ==> hash == spk[2..])
    else P2SH in flags ==> CastToBool(hash)
  }

  /** The flags that make the machine run the script behind the hash. */
  predicate RunsScript(env: Env, flags: set<Flag>) {
    if env.utxo.WitnessUtxo? then WITNESS in flags else P2SH in flags
  }

  function CtxOf(env: Env, t: Target, flags: set<Flag>): Ctx {
    Ctx(env.crypto, flags, t.version)
  }

  /** Every signature of a finished input is well encoded and verifies for the key of its slot, under any flags. */
  lemma FinishedSlots(env: Env, t: Target, info: Info, f0: Fields, f: Fields, flags: set<Flag>, slots: Slots)
    requires Finished(env, t, info, f0, f, slots)
    ensures SlotsVerify(CtxOf(env, t, flags), info.pubkeys, slots, t.script)
    ensures forall i :: 0 <= i < |slots| && slots[i].Some? ==> |slots[i].value| <= 73
  {
    hide FindTarget, IsMultisig, CurveKeys, CountSome, WitnessStack, Finalize, IsLowS, KnownHashType;
  }

  /** A script run that leaves one true item, or fails. */
  predicate Ends(r: Result<Stack, Error>, good: bool) {
    if good then r == Ok([[1]]) else r.Err?
  }

  /** What a finished input leaves to the machine: small items, and the match of the signatures with the keys. */
  lemma FinishedRuns(env: Env, t: Target, info: Info, f0: Fields, f: Fields, flags: set<Flag>, slots: Slots)
    requires Finished(env, t, info, f0, f, slots)
    ensures SlotsVerify(CtxOf(env, t, flags), info.pubkeys, slots, t.script) && AllEncoded(Present(slots))
    ensures var g := GreedyMatch(CtxOf(env, t, flags), Reverse(Present(slots)), Reverse(info.pubkeys), t.script);
            var r := EvalScript(CtxOf(env, t, flags), [[]] + Present(slots), t.script);
            (g == Ok(true) ==> r == Ok([[1]])) && (g.Err? ==> r.Err?)
    ensures 1 <= |Present(slots)| <= |info.pubkeys| <= 15 && ItemsFit([[]] + Present(slots)) && |t.script| <= 1260 && !IsWitnessScriptPubKey(t.script)
  {
    hide IsMultisig, CurveKeys, FindTarget, WellEncoded, Present, CountSome, AllEncoded, EvalScript, IsWitnessScriptPubKey, GreedyMatch, Verifies, Finalize, WitnessStack, SlotsVerify;
    NotWitness(env.fullyValid, t.script, info);
    MultisigSize(env.fullyValid, t.script, info);
    FinishedSlots(env, t, info, f0, f, flags, slots);
    SlotsEncoded(CtxOf(env, t, flags), info.pubkeys, slots, t.script);
    hide CtxOf;
    AllPresentEncoded(slots);
    PresentSizes(slots, 73);
    MultisigRuns(CtxOf(env, t, flags), env.fullyValid, t.script, info, Present(slots));
    MultisigFacts(env.fullyValid, t.script, info);
  }

  lemma SlotsEncoded(c: Ctx, keys: Keys, slots: Slots, script: Bytes)
    requires SlotsVerify(c, keys, slots, script)
    ensures |slots| == |keys| && forall i :: 0 <= i < |slots| && slots[i].Some? ==> WellEncoded(slots[i].value)
  {
    hide WellEncoded, Verifies;
  }

  /** A witness output runs its version 0 program. */
  lemma WitnessRuns(k: Crypto, flags: set<Flag>, wit: Stack, script: Bytes, program: Bytes, good: bool)
    requires wit != [] && wit[|wit| - 1] == script && |program| == 32 && ItemsFit(wit[..|wit| - 1])
    requires Ends(EvalScript(Ctx(k, flags, WitnessV0), wit[..|wit| - 1], script), good)
    ensures VerifyWitnessProgram(k, flags, wit, 0, program).None? <==> k.sha256(script) == program && good
  {
    hide EvalScript;
    TrueItem();
  }

  lemma TrueItem()
    ensures CastToBool([1])
  {
    var b: Bytes := [1];
    assert b[0] != 0;
  }

  lemma EvalEmpty(c: Ctx, stack: Stack)
    ensures EvalScript(c, stack, []) == Ok(stack)
  {
  }

  lemma AcceptNative(k: Crypto, flags: set<Flag>, spk: Bytes, items: Stack, script: Bytes, good: bool)
    requires SoftFork.Closed(flags) && flags * UNHANDLED_SCRIPT_VERIFY_FLAGS == {}
    requires |spk| == 34 && spk[0] == 0 && spk[1] == 0x20 && ItemsFit(items)
    requires Ends(EvalScript(Ctx(k, flags, WitnessV0), items, script), good)
    ensures VerifyScript(k, flags, [], spk, items + [script]).None? <==>
            CastToBool(spk[2..]) && (WITNESS in flags ==> k.sha256(script) == spk[2..] && good)
  {
    var c, wit := Ctx(k, flags, Base), items + [script];
    assert wit[..|wit| - 1] == items;
    ProgramShape(spk);
    WitnessRuns(k, flags, wit, script, spk[2..], good);
    EvalEmpty(c, []);
    EvalWitnessScriptPubKey(c, [], spk);
    hide EvalScript, CastToBool, VerifyWitnessProgram, IsWitnessScriptPubKey, IsP2sh, EncodeNum, VerifyP2sh;
  }

  lemma AcceptP2sh(k: Crypto, flags: set<Flag>, spk: Bytes, items: Stack, script: Bytes, good: bool)
    requires SoftFork.Closed(flags) && flags * UNHANDLED_SCRIPT_VERIFY_FLAGS == {}
    requires IsP2sh(spk) && k.Hash160(script) == spk[2..22] && ItemsFit(items + [script]) && |items| <= 16
    requires !IsWitnessScriptPubKey(script)
    requires Ends(EvalScript(Ctx(k, flags, Base), items, script), good)
    ensures VerifyScript(k, flags, PushScript(items + [script]), spk, []).None? <==> (P2SH in flags ==> good)
  {
    var c, pushed := Ctx(k, flags, Base), items + [script];
    EvalPushScript(c, pushed);
    EvalP2sh(c, pushed, spk);
    TrueItem();
    assert !IsWitnessScriptPubKey(spk);
    assert pushed[..|pushed| - 1] == items;
    hide EvalScript, CastToBool, VerifyWitnessProgram, IsWitnessScriptPubKey, IsP2sh, PushScript, IsPushOnly;
  }

  lemma ProgramShape(s: Bytes)
    requires |s| == 34 && s[0] == 0 && s[1] == 0x20
    ensures IsWitnessScriptPubKey(s) && WitnessVersion(s) == 0 && WitnessProgram(s) == s[2..] && !IsP2sh(s)
  {
  }

  /** The second half of a nested spend: the redeem script pushes the program, which is then run. */
  lemma NestedPhase(k: Crypto, flags: set<Flag>, rds: Bytes, items: Stack, script: Bytes, phase: Phase, good: bool)
    requires |rds| == 34 && rds[0] == 0 && rds[1] == 0x20 && rds[2..] == k.sha256(script) && ItemsFit(items)
    requires Ends(EvalScript(Ctx(k, flags, WitnessV0), items, script), good)
    ensures var r := VerifyP2sh(k, flags, EncodePush(rds), [rds], items + [script], phase);
            && (r.Ok? <==> CastToBool(k.sha256(script)) && (WITNESS in flags ==> good))
            && (r.Ok? && WITNESS in flags ==> |r.value.stack| == 1 && r.value.hadWitness)
  {
    var c, wit := Ctx(k, flags, Base), items + [script];
    assert wit[..|wit| - 1] == items && [rds][..0] == [];
    hide EvalScript, CastToBool, VerifyWitnessProgram, IsWitnessScriptPubKey, IsP2sh, WitnessVersion, WitnessProgram, PushScript, IsPushOnly, EncodeNum, EncodePush;
    ProgramShape(rds);
    SinglePush(rds);
    WitnessRuns(k, flags, wit, script, rds[2..], good);
    EvalPushScript(c, [rds]);
    EvalWitnessScriptPubKey(c, [], rds);
  }

  lemma AcceptNested(k: Crypto, flags: set<Flag>, spk: Bytes, rds: Bytes, items: Stack, script: Bytes, good: bool)
    requires SoftFork.Closed(flags) && flags * UNHANDLED_SCRIPT_VERIFY_FLAGS == {}
    requires IsP2sh(spk) && k.Hash160(rds) == spk[2..22]
    requires |rds| == 34 && rds[0] == 0 && rds[1] == 0x20 && rds[2..] == k.sha256(script) && ItemsFit(items)
    requires Ends(EvalScript(Ctx(k, flags, WitnessV0), items, script), good)
    ensures VerifyScript(k, flags, EncodePush(rds), spk, items + [script]).None? <==>
            (P2SH in flags ==> CastToBool(k.sha256(script))) && (WITNESS in flags ==> good)
  {
    var c := Ctx(k, flags, Base);
    assert !IsWitnessScriptPubKey(spk) && ItemsFit([rds]);
    assert [rds][..0] + [Bool(true)] == [[1]];
    hide EvalScript, CastToBool, VerifyP2sh, IsWitnessScriptPubKey, IsP2sh, PushScript, IsPushOnly, EncodePush, ItemsFit, VerifyWitnessProgram, Pushable, Ends;
    SinglePush(rds);
    EvalPushScript(c, [rds]);
    EvalP2sh(c, [rds], spk);
    TrueItem();
    NestedPhase(k, flags, rds, items, script, Phase([[1]], false), good);
  }

  lemma SinglePush(d: Bytes)
    requires |d| <= MAX_PUSH
    ensures PushScript([d]) == EncodePush(d)
  {
    var ops := PushOps([d]);
    assert ops == [PushOp(d)] && ops[1..] == [] && Concat(ops[1..]) == [];
    assert Concat(ops) == ops[0].raw + Concat(ops[1..]);
  }

  /** Where the target comes from, by kind of output. */
  lemma TargetShape(env: Env, t: Target, f0: Fields)
    requires FindTarget(env, f0) == Ok(t) && t.keyHash.None? && env.crypto.Valid()
    ensures env.Spent().Some?
    ensures env.utxo.FullTransaction? ==>
              t.version.Base? && IsP2sh(env.Spk()) && env.crypto.Hash160(t.script) == env.Spk()[2..22] && |t.script| <= MAX_SCRIPT_ELEMENT_SIZE
    ensures !env.utxo.FullTransaction? ==>
              && env.utxo.WitnessUtxo? && t.version.WitnessV0?
              && var native := IsWitnessScriptPubKey(env.Spk()); var program := if native then env.Spk() else f0.redeemScript;
                 && |program| == 34 && program[0] == 0 && program[1] == 0x20
                 && (native ==> t.scriptSig == [])
                 && (!native ==> IsP2sh(env.Spk()) && env.crypto.Hash160(program) == env.Spk()[2..22] && program[2..] == env.crypto.sha256(t.script)
                                 && t.scriptSig == EncodePush(program))
  {
    hide EncodePush, KnownHashType;
    var k, rds := env.crypto, f0.redeemScript;
    HashOutputs(k, rds, t.script);
  }

  lemma HashOutputs(k: Crypto, rds: Bytes, script: Bytes)
    requires k.Valid()
    ensures IsP2sh(P2shOutput(k, rds)) && P2shOutput(k, rds)[2..22] == k.Hash160(rds)
    ensures |P2wshOutput(k, script)| == 34 && P2wshOutput(k, script)[2..] == k.sha256(script)
  {
    assert |k.ripemd160(k.sha256(rds))| == 20 && |k.sha256(script)| == 32;
  }

  /** The final fields of a finished input. */
  lemma FinalFields(t: Target, f0: Fields, f: Fields, slots: Slots)
    requires Finalize(t, WitnessStack(slots, t.script), f0) == Some(f) && f0.finalScriptWitness == []
    ensures t.version.Base? ==> Pushable([[]] + Present(slots) + [t.script])
    ensures f.finalScriptSig == if t.version.Base? then PushScript([[]] + Present(slots) + [t.script]) else t.scriptSig
    ensures f.finalScriptWitness == if t.version.Base? then [] else [[]] + Present(slots) + [t.script]
  {
    hide PushScript, Present, Pushable;
  }

  /** Given how the script run ends, whether the finished input is accepted. */
  lemma FinalisedVerifies(env: Env, t: Target, info: Info, f0: Fields, f: Fields, slots: Slots, flags: set<Flag>, good: bool)
    requires Finished(env, t, info, f0, f, slots) && Verifiable(env.crypto, flags)
    requires Ends(EvalScript(CtxOf(env, t, flags), [[]] + Present(slots), t.script), good)
    ensures env.Spent().Some?
    ensures VerifyScript(env.crypto, flags, f.finalScriptSig, env.Spk(), f.finalScriptWitness).None? <==>
            Redeemable(env, t, flags) && (RunsScript(env, flags) ==> good)
  {
    hide EvalScript, VerifyScript, CastToBool, PushScript, CountSome, Present, WitnessStack, IsP2sh, IsWitnessScriptPubKey, EncodePush, SoftFork.Closed, FindTarget, IsMultisig, CurveKeys, SoftFork.StrictAgrees, Finalize, Pushable, Finished, Verifiable, Ends, GreedyMatch, SlotsVerify, AllEncoded;
    FinishedRuns(env, t, info, f0, f, flags, slots);
    FinishedFacts(env, t, info, f0, f, slots, flags);
    TargetShape(env, t, f0);
    FinalFields(t, f0, f, slots);
    var items, k, spk := [[]] + Present(slots), env.crypto, env.Spk();
    if env.utxo.FullTransaction? {
      AcceptP2sh(k, flags, spk, items, t.script, good);
    } else if IsWitnessScriptPubKey(spk) {
      AcceptNative(k, flags, spk, items, t.script, good);
    } else {
      AcceptNested(k, flags, spk, f0.redeemScript, items, t.script, good);
    }
  }

  lemma FinishedFacts(env: Env, t: Target, info: Info, f0: Fields, f: Fields, slots: Slots, flags: set<Flag>)
    requires Finished(env, t, info, f0, f, slots) && Verifiable(env.crypto, flags)
    ensures FindTarget(env, f0) == Ok(t) && t.keyHash.None? && f0.finalScriptWitness == [] && env.crypto.Valid() && |slots| == |info.pubkeys|
    ensures Finalize(t, WitnessStack(slots, t.script), f0) == Some(f)
    ensures SoftFork.Closed(flags) && flags * UNHANDLED_SCRIPT_VERIFY_FLAGS == {} && SoftFork.StrictAgrees(env.crypto)
  {
    hide FindTarget, IsMultisig, CurveKeys, CountSome, Finalize, WellEncoded, Verifies;
  }

  /** Keys of the form the flags ask for from the first signature on: accepted exactly when the output can be redeemed by that script at all. */
  lemma FinalisedIsAccepted(env: Env, t: Target, info: Info, f0: Fields, f: Fields, slots: Slots, flags: set<Flag>)
    requires Finished(env, t, info, f0, f, slots) && Verifiable(env.crypto, flags)
    requires FormsFrom(CtxOf(env, t, flags), info.pubkeys, slots)
    ensures VerifyScript(env.crypto, flags, f.finalScriptSig, env.Spk(), f.finalScriptWitness).None? <==> Redeemable(env, t, flags)
  {
    hide EvalScript, VerifyScript, CountSome, Present, Finished, Verifiable, GreedyMatch, SlotsVerify, AllEncoded, FormsFrom, Finalize, Redeemable, IsWitnessScriptPubKey, SoftFork.Closed, SoftFork.StrictAgrees;
    FinishedRuns(env, t, info, f0, f, flags, slots);
    FinishedFacts(env, t, info, f0, f, slots, flags);
    GreedySucceeds(CtxOf(env, t, flags), info.pubkeys, slots, t.script);
    FinalisedVerifies(env, t, info, f0, f, slots, flags, true);
  }

  /** A last key of a form the flags refuse: rejected, whatever the calls and the partial signatures were and whatever else the script holds. */
  lemma RefusedKeyRejects(env: Env, t: Target, info: Info, f0: Fields, f: Fields, slots: Slots, flags: set<Flag>)
    requires Finished(env, t, info, f0, f, slots) && Verifiable(env.crypto, flags)
    requires info.pubkeys != [] && !KeyAccepted(CtxOf(env, t, flags), info.pubkeys[|info.pubkeys| - 1]) && RunsScript(env, flags)
    ensures VerifyScript(env.crypto, flags, f.finalScriptSig, env.Spk(), f.finalScriptWitness).Some?
  {
    hide EvalScript, VerifyScript, CountSome, Present, Finished, Verifiable, GreedyMatch, SlotsVerify, AllEncoded, Finalize, Redeemable, IsWitnessScriptPubKey, SoftFork.Closed, SoftFork.StrictAgrees, KeyAccepted;
    FinishedRuns(env, t, info, f0, f, flags, slots);
    FinishedFacts(env, t, info, f0, f, slots, flags);
    GreedyRefusesLast(CtxOf(env, t, flags), info.pubkeys, Present(slots), t.script);
    FinalisedVerifies(env, t, info, f0, f, slots, flags, false);
  }

  /** If no signature verifies for a foreign key of the script, the two together: accepted exactly when the output can be redeemed and the keys looked at have the form. */
  lemma AcceptedExactly(env: Env, t: Target, info: Info, f0: Fields, f: Fields, slots: Slots, flags: set<Flag>)
    requires Finished(env, t, info, f0, f, slots) && Verifiable(env.crypto, flags)
    requires OnlyOwn(CtxOf(env, t, flags), info.pubkeys, slots, t.script)
    ensures VerifyScript(env.crypto, flags, f.finalScriptSig, env.Spk(), f.finalScriptWitness).None? <==>
            Redeemable(env, t, flags) && (RunsScript(env, flags) ==> FormsFrom(CtxOf(env, t, flags), info.pubkeys, slots))
  {
    hide EvalScript, VerifyScript, CountSome, Present, Finished, Verifiable, GreedyMatch, WellEncoded, Verifies, AllEncoded, FormsFrom, OnlyOwn, Finalize, Redeemable, IsWitnessScriptPubKey, SoftFork.Closed, SoftFork.StrictAgrees;
    FinishedRuns(env, t, info, f0, f, flags, slots);
    FinishedFacts(env, t, info, f0, f, slots, flags);
    GreedyExactly(CtxOf(env, t, flags), info.pubkeys, slots, t.script);
    FinalisedVerifies(env, t, info, f0, f, slots, flags, FormsFrom(CtxOf(env, t, flags), info.pubkeys, slots));
  }
}
