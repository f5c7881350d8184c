/** Signing an input that pays to a key hash, and what the script machine makes of it. */
module PsbtKeyHash {
  import opened Core
  import opened ScriptNum
  import opened Script
  import opened DerSignature
  import opened Interp
  import opened Verify
  import opened MultisigScript
  import opened PsbtSign
  import opened PsbtInput
  import opened PsbtRun
  import opened MultisigRun
  import opened PsbtAccept
  import opened Spend
  import SoftFork

  function KeyHashOps(hash: Bytes): seq<Op>
    requires |hash| == 20
  {
    [BareOp(OP_DUP), BareOp(OP_HASH160), PushOp(hash), BareOp(OP_EQUALVERIFY), BareOp(OP_CHECKSIG)]
  }

  lemma {:induction false} ConcatFive(a: Op, b: Op, d: Op, e: Op, f: Op)
    ensures Concat([a, b, d, e, f]) == a.raw + (b.raw + (d.raw + (e.raw + f.raw)))
  {
    assert [a, b, d, e, f][1..] == [b, d, e, f] && [b, d, e, f][1..] == [d, e, f] && [d, e, f][1..] == [e, f] && [e, f][1..] == [f] && [f][1..] == [];
    assert Concat([f]) == f.raw + [] == f.raw;
    assert Concat([e, f]) == e.raw + f.raw;
    assert Concat([d, e, f]) == d.raw + (e.raw + f.raw);
  }

  lemma KeyHashParses(hash: Bytes)
    requires |hash| == 20
    ensures ParseScript(KeyHashScript(hash)) == Parse(KeyHashOps(hash), None)
  {
    var ops := KeyHashOps(hash);
    PushIsOp(hash);
    BareIsOp(OP_DUP);
    BareIsOp(OP_HASH160);
    BareIsOp(OP_EQUALVERIFY);
    BareIsOp(OP_CHECKSIG);
    ConcatFive(ops[0], ops[1], ops[2], ops[3], ops[4]);
    hide IsOp, EncodePush, ReadOp, Concat, ParseScript;
    assert Concat(ops) == KeyHashScript(hash);
    ParseConcat(ops, []);
    NothingParses();
    assert Concat(ops) + [] == Concat(ops) && ops + [] == ops;
  }

  lemma NothingParses()
    ensures ParseScript([]) == Parse([], None)
  {
  }

  /** The five steps of the script on a signature and the key with that hash, up to the signature check. */
  lemma StepDup(c: Ctx, script: Bytes, a: Bytes, b: Bytes)
    ensures Step(c, script, BareOp(OP_DUP), Start([a, b])) == Ok(State([a, b, b], [], [], 0, 1, 1))
  {
    hide CheckSigOp, CheckMultiSig, Condition, BinOp, UnaryOp, TestOp, PickOrRoll, Within, EncodeNum;
    assert [a, b] + [b] == [a, b, b];
  }

  lemma StepEqualVerify(c: Ctx, script: Bytes, a: Bytes, b: Bytes, h: Bytes, pc: nat)
    ensures Step(c, script, BareOp(OP_EQUALVERIFY), State([a, b, h, h], [], [], 0, pc, 2)) == Ok(State([a, b], [], [], 0, pc + 1, 3))
  {
    hide CheckSigOp, CheckMultiSig, Condition, BinOp, UnaryOp, ShuffleOp, PickOrRoll, Within, EncodeNum, CastToBool;
    assert [a, b, h, h][..2] == [a, b];
  }

  lemma StepCheckSig(c: Ctx, script: Bytes, sig: Bytes, pub: Bytes, pc: nat, ok: bool)
    requires DropSignature(c, script, sig) == Ok(script)
    requires var r := CheckSig(c, sig, pub, script); if ok then r == Ok(true) else r.Err?
    ensures var r := Step(c, script, BareOp(OP_CHECKSIG), State([sig, pub], [], [], 0, pc, 3));
            if ok then r == Ok(State([[1]], [], [], 0, pc + 1, 4)) else r.Err?
  {
    hide CheckSig, DropSignature, CheckMultiSig, Condition, PlainOp;
    assert script[0..] == script;
    assert [sig, pub][..0] + [Bool(true)] == [[1]];
  }

  /** Only an op that carries the signature is its push. */
  lemma NotItsPush(op: Op, sig: Bytes)
    requires IsOp(op) && 0 < |sig| <= MAX_PUSH && op.data != sig
    ensures op.raw != EncodePush(sig)
  {
    PushIsOp(sig);
    var push := PushOp(sig);
    hide ReadOp, EncodePush;
    assert op.raw == push.raw ==> op == push;
  }

  lemma KeyHashOpsData(hash: Bytes)
    requires |hash| == 20
    ensures forall op :: op in KeyHashOps(hash) ==> IsOp(op) && op.data in {[], hash}
  {
    PushIsOp(hash);
    BareIsOp(OP_DUP);
    BareIsOp(OP_HASH160);
    BareIsOp(OP_EQUALVERIFY);
    BareIsOp(OP_CHECKSIG);
    hide IsOp, EncodePush;
  }

  /** No push of the signature is in the script unless the hash itself is the signature. */
  lemma NothingToDrop(c: Ctx, hash: Bytes, sig: Bytes)
    requires |hash| == 20 && 0 < |sig| <= 73 && (c.version.Base? ==> sig != hash)
    ensures DropSignature(c, KeyHashScript(hash), sig) == Ok(KeyHashScript(hash))
  {
    if c.version.WitnessV0? {
      return;
    }
    PushIsOp(sig);
    var script, ops, needle := KeyHashScript(hash), KeyHashOps(hash), EncodePush(sig);
    assert IsOneOp(needle);
    hide ReadOp, EncodePush, IsOneOp, ParseScript, KeyHashScript, KeyHashOps, IsOp;
    KeyHashParses(hash);
    KeyHashOpsData(hash);
    forall op | op in ops
      ensures op.raw != needle
    {
      NotItsPush(op, sig);
    }
    WithoutAbsent(ops, needle);
    RemainingIsFilter(script, needle);
    ConcatParse(script);
  }

  lemma RunFive(c: Ctx, script: Bytes, ops: seq<Op>, s0: State, s1: State, s2: State, s3: State, s4: State)
    requires |ops| == 5 && Step(c, script, ops[0], s0) == Ok(s1) && Step(c, script, ops[1], s1) == Ok(s2)
    requires Step(c, script, ops[2], s2) == Ok(s3) && Step(c, script, ops[3], s3) == Ok(s4)
    ensures RunOps(c, script, ops, s0) == Step(c, script, ops[4], s4)
  {
    hide Step;
    assert ops[1..][1..] == ops[2..] && ops[2..][1..] == ops[3..] && ops[3..][1..] == ops[4..] && ops[4..][1..] == [];
    RunLast(c, script, ops[4], s4);
    assert ops[4..] == [ops[4]];
    assert RunOps(c, script, ops[3..], s3) == RunOps(c, script, ops[4..], s4);
    assert RunOps(c, script, ops[2..], s2) == RunOps(c, script, ops[3..], s3);
    assert RunOps(c, script, ops[1..], s1) == RunOps(c, script, ops[2..], s2);
  }

  lemma RunLast(c: Ctx, script: Bytes, op: Op, st: State)
    ensures RunOps(c, script, [op], st) == Step(c, script, op, st)
  {
    hide Step;
    assert [op][1..] == [];
  }

  lemma KeyHashShape(hash: Bytes)
    requires |hash| == 20
    ensures !IsWitnessScriptPubKey(KeyHashScript(hash)) && |KeyHashScript(hash)| == 25
    ensures |PushOp(hash).raw| == 21 && PushOp(hash).code <= OP_PUSHDATA4
  {
    assert KeyHashScript(hash)[0] == OP_DUP;
    PushIsOp(hash);
  }

  lemma RunEnds(c: Ctx, stack: Stack, script: Bytes, ops: seq<Op>, good: bool)
    requires ParseScript(script) == Parse(ops, None) && |script| <= MAX_SCRIPT_SIZE
    requires var r := RunOps(c, script, ops, Start(stack)); if good then r == Ok(State([[1]], [], [], 0, 25, 4)) else r.Err?
    ensures Ends(EvalScript(c, stack, script), good)
  {
    hide ParseScript, RunOps;
  }

  /** Up to the signature check the key is found to have the hash. */
  lemma RunUpToCheck(c: Ctx, sig: Bytes, pub: Bytes, hash: Bytes)
    requires |hash| == 20 && c.crypto.Hash160(pub) == hash
    ensures var script := KeyHashScript(hash);
            RunOps(c, script, KeyHashOps(hash), Start([sig, pub])) == Step(c, script, BareOp(OP_CHECKSIG), State([sig, pub], [], [], 0, 24, 3))
  {
    var script, ops := KeyHashScript(hash), KeyHashOps(hash);
    KeyHashShape(hash);
    hide Step, KeyHashScript, RunOps, EncodePush, IsWitnessScriptPubKey, EvalScript;
    var s0 := Start([sig, pub]);
    var s1 := State([sig, pub, pub], [], [], 0, 1, 1);
    var s2 := State([sig, pub, hash], [], [], 0, 2, 2);
    var s3 := State([sig, pub, hash, hash], [], [], 0, 23, 2);
    var s4 := State([sig, pub], [], [], 0, 24, 3);
    StepDup(c, script, sig, pub);
    StepHash(c, script, s1);
    assert s1.stack[..2] + [hash] == s2.stack;
    StepPush(c, script, ops[2], s2);
    assert s2.stack + [hash] == s3.stack;
    StepEqualVerify(c, script, sig, pub, hash, 23);
    RunFive(c, script, ops, s0, s1, s2, s3, s4);
  }

  /** The script succeeds on a signature that verifies, exactly if the key has the form the flags ask for. */
  lemma EvalKeyHash(c: Ctx, sig: Bytes, pub: Bytes, hash: Bytes)
    requires |hash| == 20 && c.crypto.Hash160(pub) == hash && (c.version.Base? ==> sig != hash)
    requires WellEncoded(sig) && Verifies(c, sig, pub, KeyHashScript(hash)) && SoftFork.StrictAgrees(c.crypto)
    ensures Ends(EvalScript(c, [sig, pub], KeyHashScript(hash)), KeyAccepted(c, pub))
  {
    var script := KeyHashScript(hash);
    assert 9 <= |sig| <= 73;
    KeyHashShape(hash);
    hide CheckSig, DropSignature, KeyAccepted, WellEncoded, Verifies, SoftFork.StrictAgrees, Step, ParseScript, KeyHashScript, RunOps, EncodePush, IsWitnessScriptPubKey, EvalScript, Ends, BareOp, KeyHashOps;
    KeyHashParses(hash);
    NothingToDrop(c, hash, sig);
    CheckSigIs(c, sig, pub, script);
    RunUpToCheck(c, sig, pub, hash);
    StepCheckSig(c, script, sig, pub, 24, KeyAccepted(c, pub));
    RunEnds(c, [sig, pub], script, KeyHashOps(hash), KeyAccepted(c, pub));
  }

  lemma AcceptP2pkh(k: Crypto, flags: set<Flag>, items: Stack, hash: Bytes, good: bool)
    requires SoftFork.Closed(flags) && flags * UNHANDLED_SCRIPT_VERIFY_FLAGS == {}
    requires |hash| == 20 && ItemsFit(items) && |items| == 2
    requires Ends(EvalScript(Ctx(k, flags, Base), items, KeyHashScript(hash)), good)
    ensures VerifyScript(k, flags, PushScript(items), KeyHashScript(hash), []).None? <==> good
  {
    EvalPushScript(Ctx(k, flags, Base), items);
    KeyHashShape(hash);
    TrueItem();
    hide EvalScript, CastToBool, VerifyWitnessProgram, IsWitnessScriptPubKey, PushScript, IsPushOnly, KeyHashScript;
  }

  /** A witness output runs its key-hash program. */
  lemma KeyHashRuns(k: Crypto, flags: set<Flag>, wit: Stack, hash: Bytes, good: bool)
    requires |hash| == 20 && |wit| == 2 && ItemsFit(wit)
    requires Ends(EvalScript(Ctx(k, flags, WitnessV0), wit, KeyHashScript(hash)), good)
    ensures VerifyWitnessProgram(k, flags, wit, 0, hash).None? <==> good
  {
    hide EvalScript, KeyHashScript;
    TrueItem();
  }

  lemma AcceptNativeKeyHash(k: Crypto, flags: set<Flag>, spk: Bytes, wit: Stack, good: bool)
    requires SoftFork.Closed(flags) && flags * UNHANDLED_SCRIPT_VERIFY_FLAGS == {}
    requires IsWitnessKeyHash(spk) && ItemsFit(wit) && |wit| == 2
    requires Ends(EvalScript(Ctx(k, flags, WitnessV0), wit, KeyHashScript(spk[2..])), good)
    ensures VerifyScript(k, flags, [], spk, wit).None? <==> CastToBool(spk[2..]) && (WITNESS in flags ==> good)
  {
    var c := Ctx(k, flags, Base);
    assert IsWitnessScriptPubKey(spk) && WitnessVersion(spk) == 0 && WitnessProgram(spk) == spk[2..] && !IsP2sh(spk);
    KeyHashRuns(k, flags, wit, spk[2..], good);
    EvalEmpty(c, []);
    EvalWitnessScriptPubKey(c, [], spk);
    hide EvalScript, CastToBool, VerifyWitnessProgram, IsWitnessScriptPubKey, IsP2sh, EncodeNum, VerifyP2sh, KeyHashScript;
  }

  lemma NestedKeyHashPhase(k: Crypto, flags: set<Flag>, rds: Bytes, wit: Stack, phase: Phase, good: bool)
    requires IsWitnessKeyHash(rds) && ItemsFit(wit) && |wit| == 2
    requires Ends(EvalScript(Ctx(k, flags, WitnessV0), wit, KeyHashScript(rds[2..])), good)
    ensures var r := VerifyP2sh(k, flags, EncodePush(rds), [rds], wit, phase);
            && (r.Ok? <==> CastToBool(rds[2..]) && (WITNESS in flags ==> good))
            && (r.Ok? && WITNESS in flags ==> |r.value.stack| == 1 && r.value.hadWitness)
  {
    var c := Ctx(k, flags, Base);
    assert [rds][..0] == [];
    assert IsWitnessScriptPubKey(rds) && WitnessVersion(rds) == 0 && WitnessProgram(rds) == rds[2..];
    SinglePush(rds);
    KeyHashRuns(k, flags, wit, rds[2..], good);
    EvalPushScript(c, [rds]);
    EvalWitnessScriptPubKey(c, [], rds);
    hide EvalScript, CastToBool, VerifyWitnessProgram, IsWitnessScriptPubKey, PushScript, IsPushOnly, EncodeNum, EncodePush, KeyHashScript;
  }

  lemma AcceptNestedKeyHash(k: Crypto, flags: set<Flag>, spk: Bytes, rds: Bytes, wit: Stack, good: bool)
    requires SoftFork.Closed(flags) && flags * UNHANDLED_SCRIPT_VERIFY_FLAGS == {}
    requires IsP2sh(spk) && k.Hash160(rds) == spk[2..22]
    requires IsWitnessKeyHash(rds) && ItemsFit(wit) && |wit| == 2
    requires Ends(EvalScript(Ctx(k, flags, WitnessV0), wit, KeyHashScript(rds[2..])), good)
    ensures VerifyScript(k, flags, EncodePush(rds), spk, wit).None? <==>
            (P2SH in flags ==> CastToBool(rds[2..])) && (WITNESS in flags ==> good)
  {
    var c := Ctx(k, flags, Base);
    assert !IsWitnessScriptPubKey(spk) && ItemsFit([rds]);
    assert [rds][..0] + [Bool(true)] == [[1]];
    hide EvalScript, CastToBool, VerifyP2sh, IsWitnessScriptPubKey, IsP2sh, PushScript, IsPushOnly, EncodePush, ItemsFit, VerifyWitnessProgram, Pushable, Ends, KeyHashScript;
    SinglePush(rds);
    EvalPushScript(c, [rds]);
    EvalP2sh(c, [rds], spk);
    TrueItem();
    NestedKeyHashPhase(k, flags, rds, wit, Phase([[1]], false), good);
  }

  /** A key-hash input, not yet signed, whose signature hash can be made. */
  predicate FreshKeyHash(env: Env, t: Target, hash: Bytes, f0: Fields) {
    && f0.partialSigs == [] && f0.finalScriptSig == [] && f0.finalScriptWitness == []
    && env.sighashType != Some(0) && FindTarget(env, f0) == Ok(t) && t.keyHash == Some(hash)
    && !SighashRaises(env, t, env.HashType())
  }

  /** The key the store has under the hash is a key with that hash, signs correctly, and its signature is not the hash itself. */
  ghost predicate HonestKey(env: Env, t: Target, hash: Bytes, key: Key) {
    && env.crypto.Hash160(key.pub) == hash && |key.pub| <= MAX_SCRIPT_ELEMENT_SIZE
    && Genuine(env.crypto, env.HashType(), key.pub, SigHashOf(env, t), key.sign(SigHashOf(env, t)))
    && (t.version.Base? ==> KeySig(env, t, key) != hash)
  }

  ghost predicate HonestCalls(env: Env, t: Target, hash: Bytes, calls: seq<Call>) {
    forall c :: 0 <= c < |calls| && calls[c].store(hash).Some? ==> HonestKey(env, t, hash, calls[c].store(hash).value)
  }

  /** Where a key-hash target comes from, by kind of output. */
  lemma KeyHashTarget(env: Env, t: Target, hash: Bytes, f0: Fields)
    requires FindTarget(env, f0) == Ok(t) && t.keyHash == Some(hash) && env.crypto.Valid()
    ensures |hash| == 20 && t.script == KeyHashScript(hash) && env.Spent().Some?
    ensures KnownHashType(env.HashType()) && (env.sighashType.Some? ==> env.sighashType.value == env.HashType())
    ensures env.utxo.FullTransaction? ==> t.version.Base? && env.Spk() == t.script
    ensures env.utxo.WitnessUtxo? ==> t.version.WitnessV0?
    ensures env.utxo.WitnessUtxo? ==>
              (if IsWitnessScriptPubKey(env.Spk()) then IsWitnessKeyHash(env.Spk()) && hash == env.Spk()[2..] && t.scriptSig == []
               else IsP2sh(env.Spk()) && IsWitnessKeyHash(f0.redeemScript) && hash == f0.redeemScript[2..]
                    && env.crypto.Hash160(f0.redeemScript) == env.Spk()[2..22] && t.scriptSig == EncodePush(f0.redeemScript))
  {
    HashOutputs(env.crypto, f0.redeemScript, []);
    if env.utxo.FullTransaction? {
      P2pkhScript(env.Spk());
    }
    hide EncodePush, SighashRaises, P2wshOutput, KeyHashScript, IsWitnessScriptPubKey;
  }

  lemma P2pkhScript(spk: Bytes)
    ensures IsP2pkh(spk) ==> KeyHashScript(spk[3..23]) == spk
  {
    if IsP2pkh(spk) {
      assert EncodePush(spk[3..23]) == [0x14] + spk[3..23];
    }
  }

  /** What the output asks for besides the key: a hash that is a true value, where it is left on the stack. */
  predicate HashIsTrue(env: Env, hash: Bytes, flags: set<Flag>) {
    env.utxo.WitnessUtxo? && (P2SH in flags || IsWitnessScriptPubKey(env.Spk())) ==> CastToBool(hash)
  }

  /** A key with the hash, and a well-encoded signature that verifies for it and is not the hash itself. */
  predicate OwnSignature(env: Env, t: Target, hash: Bytes, pub: Bytes, sig: Bytes) {
    && env.crypto.Hash160(pub) == hash && |pub| <= MAX_SCRIPT_ELEMENT_SIZE
    && WellEncoded(sig) && Verifies(CtxOf(env, t, {}), sig, pub, t.script)
    && (t.version.Base? ==> sig != hash)
  }

  /** A finalised key-hash input is accepted exactly when the hash is true and the key has the form the flags ask for. */
  lemma KeyHashAccepted(env: Env, t: Target, hash: Bytes, f0: Fields, pub: Bytes, sig: Bytes, f: Fields, flags: set<Flag>)
    requires FindTarget(env, f0) == Ok(t) && t.keyHash == Some(hash) && f0.finalScriptWitness == []
    requires OwnSignature(env, t, hash, pub, sig) && Verifiable(env.crypto, flags)
    requires Finalize(t, [sig, pub], f0) == Some(f)
    ensures env.Spent().Some?
    ensures VerifyScript(env.crypto, flags, f.finalScriptSig, env.Spk(), f.finalScriptWitness).None? <==>
            HashIsTrue(env, hash, flags) && (env.utxo.FullTransaction? || WITNESS in flags ==> KeyAccepted(CtxOf(env, t, flags), pub))
  {
    var k, c := env.crypto, CtxOf(env, t, flags);
    KeyHashTarget(env, t, hash, f0);
    assert |sig| <= 73;
    hide EvalScript, VerifyScript, CastToBool, PushScript, IsP2sh, IsWitnessScriptPubKey, EncodePush, FindTarget, KeyHashScript, KeyAccepted, WellEncoded, SighashRaises, IsValidSignatureEncoding, IsLowS;
    EvalKeyHash(c, sig, pub, hash);
    assert ItemsFit([sig, pub]);
    if env.utxo.FullTransaction? {
      AcceptP2pkh(k, flags, [sig, pub], hash, KeyAccepted(c, pub));
    } else if IsWitnessScriptPubKey(env.Spk()) {
      AcceptNativeKeyHash(k, flags, env.Spk(), [sig, pub], KeyAccepted(c, pub));
    } else {
      AcceptNestedKeyHash(k, flags, env.Spk(), f0.redeemScript, [sig, pub], KeyAccepted(c, pub));
    }
  }

  lemma HonestKeyOwns(env: Env, t: Target, hash: Bytes, f0: Fields, key: Key)
    requires FreshKeyHash(env, t, hash, f0) && env.crypto.Valid() && HonestKey(env, t, hash, key)
    ensures OwnSignature(env, t, hash, key.pub, KeySig(env, t, key))
  {
    KeyHashTarget(env, t, hash, f0);
    GenuineSignature(env, t, key, {});
    hide WellEncoded, Verifies, FindTarget, SighashRaises, Genuine;
  }

  /** A call that starts from a partial signature has checked it and its key, and finalises with nothing else. */
  lemma KeyHashFromPartial(env: Env, t: Target, hash: Bytes, f: Fields, store: Store, finalize: bool, after: Fields, outcome: Outcome)
    requires IsFinal(env.utxo, f) == Some(false) && FindTarget(env, f) == Ok(t) && t.keyHash == Some(hash) && f.partialSigs != []
    requires SignOnce(env, store, finalize, f) == (after, outcome) && outcome.Signed?
    ensures |f.partialSigs| == 1 && outcome == Signed(1, 0, finalize)
    ensures var (pub, sig) := f.partialSigs[0];
            && env.crypto.Hash160(pub) == hash && Verifies(CtxOf(env, t, {}), sig, pub, t.script)
            && (if finalize then Finalize(t, [sig, pub], f) == Some(after) else after == f)
  {
    hide IsFinal, FindTarget, SighashRaises, Finalize;
  }

  lemma GenuineSignature(env: Env, t: Target, key: Key, flags: set<Flag>)
    requires Genuine(env.crypto, env.HashType(), key.pub, SigHashOf(env, t), key.sign(SigHashOf(env, t))) && KnownHashType(env.HashType())
    ensures WellEncoded(KeySig(env, t, key)) && Verifies(CtxOf(env, t, flags), KeySig(env, t, key), key.pub, t.script)
    ensures 9 <= |KeySig(env, t, key)| <= 73
  {
    var sig := KeySig(env, t, key);
    assert sig[..|sig| - 1] == key.sign(SigHashOf(env, t));
    hide IsLowS;
  }

  /** The first call whose store has the key, or their number. */
  function FirstWith(hash: Bytes, calls: seq<Call>): (n: nat)
    ensures n <= |calls| && forall c :: 0 <= c < n ==> calls[c].store(hash).None?
    ensures n < |calls| ==> calls[n].store(hash).Some?
  {
    if calls == [] then 0
    else var n := FirstWith(hash, calls[..|calls| - 1]);
      if n < |calls| - 1 || calls[n].store(hash).Some? then n else |calls|
  }

  /** Some call asked to finalise when the key was there. */
  predicate Ended(hash: Bytes, calls: seq<Call>) {
    exists c :: FirstWith(hash, calls) <= c < |calls| && calls[c].finalize
  }

  /** A key-hash input after the calls: as it was, with the signature of the first key, or finalised with it. */
  predicate KeyHashProgress(env: Env, t: Target, hash: Bytes, f0: Fields, calls: seq<Call>, f: Fields) {
    var n := FirstWith(hash, calls);
    if n == |calls| then f == f0
    else
      var key := calls[n].store(hash).value;
      if Ended(hash, calls) then Finalize(t, [KeySig(env, t, key), key.pub], f0) == Some(f)
      else f == f0.(partialSigs := [(key.pub, KeySig(env, t, key))])
  }

  /** And what the last call reported. */
  predicate KeyHashReports(hash: Bytes, calls: seq<Call>, outcome: Outcome)
    requires calls != []
  {
    var n := |calls| - 1;
    outcome ==
    if Ended(hash, calls[..n]) then Signed(0, 0, true)
    else if FirstWith(hash, calls) == |calls| then Signed(0, 1, false)
    else Signed(1, 0, calls[n].finalize)
  }

  lemma FirstWithGrows(hash: Bytes, calls: seq<Call>)
    requires calls != []
    ensures var n := |calls| - 1;
            && FirstWith(hash, calls) == (if FirstWith(hash, calls[..n]) < n || calls[n].store(hash).Some? then FirstWith(hash, calls[..n]) else |calls|)
            && (Ended(hash, calls) <==> Ended(hash, calls[..n]) || (FirstWith(hash, calls) <= n && calls[n].finalize))
  {
    var n := |calls| - 1;
    var first, early := FirstWith(hash, calls), FirstWith(hash, calls[..n]);
    assert first == if early < n || calls[n].store(hash).Some? then early else |calls|;
    hide FirstWith;
    if c :| early <= c < n && calls[..n][c].finalize {
      assert first <= c && calls[c].finalize;
    }
    if c :| first <= c < |calls| && calls[c].finalize {
      assert c < n ==> calls[..n][c].finalize && early <= c;
    }
  }

  /** One call on an input that is not final: the signature there is kept, or the key's is made. */
  lemma KeyHashStep(env: Env, t: Target, hash: Bytes, f0: Fields, d: SigDict, store: Store, finalize: bool)
    requires FreshKeyHash(env, t, hash, f0) && env.crypto.Valid()
    ensures SignOnce(env, store, finalize, f0.(partialSigs := d)) == SignKeyHash(env, t, hash, store, finalize, f0.(partialSigs := d))
  {
    hide SignKeyHash, SighashRaises, P2shOutput, P2wshOutput, EncodePush, IsP2pkh, IsWitnessKeyHash, KeyHashScript;
  }

  lemma GotSingleEnds(env: Env, t: Target, hash: Bytes, f0: Fields, d: SigDict, key: Key, finalize: bool)
    requires FreshKeyHash(env, t, hash, f0) && env.crypto.Valid() && HonestKey(env, t, hash, key)
    requires d == [] || d == [(key.pub, KeySig(env, t, key))]
    ensures Finalize(t, [KeySig(env, t, key), key.pub], f0).Some?
    ensures GotSingle(env, t, key.pub, KeySig(env, t, key), finalize, f0.(partialSigs := d)) ==
            (if finalize then Finalize(t, [KeySig(env, t, key), key.pub], f0).value else f0.(partialSigs := [(key.pub, KeySig(env, t, key))]),
             Signed(1, 0, finalize))
  {
    KeyHashTarget(env, t, hash, f0);
    GenuineSignature(env, t, key, {});
    assert Pushable([KeySig(env, t, key), key.pub]);
    hide PushScript, WellEncoded, Verifies, FindTarget, SighashRaises, Genuine, IsWitnessScriptPubKey, KnownHashType, IsWitnessKeyHash, IsP2sh, KeyHashScript, EncodePush, Pushable;
    var f := f0.(partialSigs := d);
    if d != [] {
      assert f.partialSigs[0].0 == key.pub;
    } else {
      assert f.partialSigs + [(key.pub, KeySig(env, t, key))] == [(key.pub, KeySig(env, t, key))];
    }
  }

  lemma MadeIsValid(env: Env, t: Target, hash: Bytes, f0: Fields, key: Key)
    requires FreshKeyHash(env, t, hash, f0) && env.crypto.Valid() && HonestKey(env, t, hash, key)
    ensures ValidPartialSig(env, t, key.pub, KeySig(env, t, key))
  {
    KeyHashTarget(env, t, hash, f0);
    var sig := KeySig(env, t, key);
    assert sig[..|sig| - 1] == key.sign(SigHashOf(env, t));
    hide SighashRaises, FindTarget, IsValidSignatureEncoding, IsLowS;
  }

  lemma KeyHashFinal(env: Env, t: Target, hash: Bytes, f0: Fields, items: Stack, f: Fields, store: Store, finalize: bool)
    requires FreshKeyHash(env, t, hash, f0) && items != [] && Finalize(t, items, f0) == Some(f)
    ensures SignOnce(env, store, finalize, f) == (f, Signed(0, 0, true))
  {
    ClosedIsFinal(env, t, Info(0, []), f0, items, f);
    hide IsFinal, FindTarget, Finalize, SighashRaises;
  }

  /** After any run: the first key found under the hash signs, and the input is final exactly if some call finalised from then on. */
  lemma {:induction false} KeyHashRun(env: Env, t: Target, hash: Bytes, f0: Fields, calls: seq<Call>, states: seq<Fields>, outcomes: seq<Outcome>)
    requires FreshKeyHash(env, t, hash, f0) && env.crypto.Valid() && HonestCalls(env, t, hash, calls)
    requires IsRun(env, calls, states, outcomes) && states[0] == f0
    ensures KeyHashProgress(env, t, hash, f0, calls, states[|calls|])
    ensures calls != [] ==> KeyHashReports(hash, calls, outcomes[|calls| - 1])
    decreases |calls|
  {
    if calls != [] {
      var n := |calls| - 1;
      var before, call := calls[..n], calls[n];
      assert SignOnce(env, call.store, call.finalize, states[n]) == (states[n + 1], outcomes[n]);
      hide FreshKeyHash, HonestKey, SignOnce, Finalize, GotSingle, ValidPartialSig, Ended, FirstWith;
      KeyHashRun(env, t, hash, f0, before, states[..n + 1], outcomes[..n]);
      FirstWithGrows(hash, calls);
      var first := FirstWith(hash, before);
      if first == n {
        assert f0 == f0.(partialSigs := f0.partialSigs) && f0.partialSigs == [] by {
          FreshHasNone(env, t, hash, f0);
        }
        assert !Ended(hash, before) by {
          NoneEnded(hash, before);
        }
        KeyHashStep(env, t, hash, f0, [], call.store, call.finalize);
        if call.store(hash).Some? {
          GotSingleEnds(env, t, hash, f0, [], call.store(hash).value, call.finalize);
        }
      } else {
        var key := before[first].store(hash).value;
        var sig := KeySig(env, t, key);
        if Ended(hash, before) {
          KeyHashFinal(env, t, hash, f0, [sig, key.pub], states[n], call.store, call.finalize);
        } else {
          KeyHashStep(env, t, hash, f0, [(key.pub, sig)], call.store, call.finalize);
          MadeIsValid(env, t, hash, f0, key);
          OwnHash(env, t, hash, key);
          GotSingleEnds(env, t, hash, f0, [(key.pub, sig)], key, call.finalize);
        }
      }
    }
  }

  lemma OwnHash(env: Env, t: Target, hash: Bytes, key: Key)
    requires HonestKey(env, t, hash, key)
    ensures env.crypto.Hash160(key.pub) == hash
  {
  }

  lemma FreshHasNone(env: Env, t: Target, hash: Bytes, f0: Fields)
    requires FreshKeyHash(env, t, hash, f0)
    ensures f0.partialSigs == []
  {
  }

  lemma NoneEnded(hash: Bytes, calls: seq<Call>)
    requires FirstWith(hash, calls) == |calls|
    ensures !Ended(hash, calls)
  {
  }
}
