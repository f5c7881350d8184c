/** Every verification flag is a soft fork: dropping flags never turns an accepted spend into a rejected one. */
module SoftFork {
  import opened Core
  import opened ScriptNum
  import opened Script
  import opened DerSignature
  import opened Interp
  import opened Verify

  /** The flag sets the code supports dropping to. */
  predicate Closed(flags: set<Flag>) {
    && (CLEANSTACK in flags ==> WITNESS in flags)
    && (WITNESS in flags ==> P2SH in flags)
  }

  /** Strict and lax verification agree on strictly encoded signatures. */
  ghost predicate StrictAgrees(k: Crypto) {
    forall pubkey, h, sig :: AgreesOn(k, pubkey, h, sig)
  }

  predicate AgreesOn(k: Crypto, pubkey: Bytes, h: Bytes, sig: Bytes) {
    IsValidSignatureEncoding(sig) ==> k.verify(pubkey, h, sig[..|sig| - 1]) == k.verifyNonstrict(pubkey, h, sig[..|sig| - 1])
  }

  /** Two runs of the same spend, the second under fewer flags. */
  ghost predicate Relaxes(c: Ctx, d: Ctx) {
    d.crypto == c.crypto && d.version == c.version && d.flags <= c.flags && StrictAgrees(c.crypto)
  }

  lemma CheckSigSoft(c: Ctx, d: Ctx, sig: Bytes, pubkey: Bytes, script: Bytes)
    requires Relaxes(c, d) && CheckSig(c, sig, pubkey, script).Ok?
    ensures CheckSig(d, sig, pubkey, script) == CheckSig(c, sig, pubkey, script)
  {
    hide IsLowS, IsWitnessScriptPubKey, IsCompressedOrUncompressedPubKey, IsCompressedPubKey;
    if sig != [] {
      assert AgreesOn(c.crypto, pubkey, c.crypto.sighash(script, sig[|sig| - 1], c.version), sig);
    }
  }

  lemma {:induction false} DropSoft(c: Ctx, d: Ctx, script: Bytes, sigs: Stack)
    requires Relaxes(c, d)
    ensures DropSignatures(d, script, sigs) == DropSignatures(c, script, sigs)
    decreases |sigs|
  {
    hide StrictAgrees;
    if sigs != [] && DropSignature(c, script, sigs[0]).Ok? {
      DropSoft(c, d, DropSignature(c, script, sigs[0]).value, sigs[1..]);
    }
  }

  lemma {:induction false} GreedySoft(c: Ctx, d: Ctx, sigs: Stack, keys: Stack, script: Bytes)
    requires Relaxes(c, d) && GreedyMatch(c, sigs, keys, script).Ok?
    ensures GreedyMatch(d, sigs, keys, script) == GreedyMatch(c, sigs, keys, script)
    decreases |keys|
  {
    hide CheckSig, Relaxes;
    if sigs != [] && |sigs| <= |keys| {
      CheckSigSoft(c, d, sigs[0], keys[0], script);
      GreedySoft(c, d, if CheckSig(c, sigs[0], keys[0], script).value then sigs[1..] else sigs, keys[1..], script);
    }
  }

  lemma CheckSigOpSoft(c: Ctx, d: Ctx, code: byte, tail: Bytes, s: Stack)
    requires Relaxes(c, d) && CheckSigOp(c, code, tail, s).Ok?
    ensures CheckSigOp(d, code, tail, s) == CheckSigOp(c, code, tail, s)
  {
    var n := |s|;
    CheckSigSoft(c, d, s[n - 2], s[n - 1], DropSignature(c, tail, s[n - 2]).value);
    hide CheckSig, StrictAgrees;
  }

  lemma CheckMultiSigSoft(c: Ctx, d: Ctx, code: byte, tail: Bytes, s: Stack, ops: nat)
    requires Relaxes(c, d) && CheckMultiSig(c, code, tail, s, ops).Ok?
    ensures CheckMultiSig(d, code, tail, s, ops) == CheckMultiSig(c, code, tail, s, ops)
  {
    hide MultiArguments, DropSignatures, GreedyMatch, StrictAgrees;
    var a := MultiArguments(s, ops).value;
    DropSoft(c, d, tail, a.sigs);
    GreedySoft(c, d, a.sigs, a.keys, DropSignatures(c, tail, a.sigs).value);
  }

  lemma ExecuteSoft(c: Ctx, d: Ctx, script: Bytes, code: byte, at: nat, st: State)
    requires Relaxes(c, d) && Execute(c, script, code, at, st).Ok?
    ensures Execute(d, script, code, at, st) == Execute(c, script, code, at, st)
  {
    hide CheckSigOp, CheckMultiSig, PlainOp, StrictAgrees;
    if code == OP_CHECKSIG || code == OP_CHECKSIGVERIFY {
      CheckSigOpSoft(c, d, code, Tail(script, st.begin), st.stack);
    } else if code == OP_CHECKMULTISIG || code == OP_CHECKMULTISIGVERIFY {
      CheckMultiSigSoft(c, d, code, Tail(script, st.begin), st.stack, st.ops);
    }
  }

  lemma StepSoft(c: Ctx, d: Ctx, script: Bytes, op: Op, st: State)
    requires Relaxes(c, d) && Step(c, script, op, st).Ok?
    ensures Step(d, script, op, st) == Step(c, script, op, st)
  {
    hide Execute, AllTrue, CastToBool, StrictAgrees;
    if op.code > OP_PUSHDATA4 && !IsControl(op.code) && AllTrue(st.exec) {
      ExecuteSoft(c, d, script, op.code, st.pc, Count(op, st).value);
    }
  }

  lemma {:induction false} RunSoft(c: Ctx, d: Ctx, script: Bytes, ops: seq<Op>, st: State)
    requires Relaxes(c, d) && RunOps(c, script, ops, st).Ok?
    ensures RunOps(d, script, ops, st) == RunOps(c, script, ops, st)
    decreases |ops|
  {
    hide Step, Relaxes;
    if ops != [] {
      StepSoft(c, d, script, ops[0], st);
      RunSoft(c, d, script, ops[1..], Step(c, script, ops[0], st).value);
    }
  }

  /** A run that succeeds under more flags ends with the same stack under fewer. */
  lemma EvalSoft(c: Ctx, d: Ctx, stack: Stack, script: Bytes)
    requires Relaxes(c, d) && EvalScript(c, stack, script).Ok?
    ensures EvalScript(d, stack, script) == EvalScript(c, stack, script)
  {
    hide RunOps, Relaxes;
    RunSoft(c, d, script, ParseScript(script).ops, Start(stack));
  }

  lemma WitnessSoft(k: Crypto, flags: set<Flag>, fewer: set<Flag>, wit: Stack, version: nat, program: Bytes)
    requires StrictAgrees(k) && fewer <= flags && VerifyWitnessProgram(k, flags, wit, version, program).None?
    ensures VerifyWitnessProgram(k, fewer, wit, version, program).None?
  {
    hide EvalScript, WitnessScript, SingleTrue;
    if version == 0 {
      var (script, stack) := WitnessScript(k, wit, program).value;
      EvalSoft(Ctx(k, flags, WitnessV0), Ctx(k, fewer, WitnessV0), stack, script);
    }
  }

  lemma NativeSoft(k: Crypto, flags: set<Flag>, fewer: set<Flag>, scriptSig: Bytes, scriptPubKey: Bytes, stack: Stack, wit: Stack)
    requires StrictAgrees(k) && fewer <= flags && VerifyNative(k, flags, scriptSig, scriptPubKey, stack, wit).Ok?
    ensures VerifyNative(k, fewer, scriptSig, scriptPubKey, stack, wit).Ok?
    ensures WITNESS in fewer ==> VerifyNative(k, fewer, scriptSig, scriptPubKey, stack, wit) == VerifyNative(k, flags, scriptSig, scriptPubKey, stack, wit)
  {
    hide VerifyWitnessProgram, StrictAgrees;
    if WITNESS in fewer && IsWitnessScriptPubKey(scriptPubKey) {
      WitnessSoft(k, flags, fewer, wit, WitnessVersion(scriptPubKey), WitnessProgram(scriptPubKey));
    }
  }

  lemma P2shSoft(k: Crypto, flags: set<Flag>, fewer: set<Flag>, scriptSig: Bytes, pushed: Stack, wit: Stack, phase: Phase, phase': Phase)
    requires StrictAgrees(k) && fewer <= flags && VerifyP2sh(k, flags, scriptSig, pushed, wit, phase).Ok?
    requires WITNESS in fewer ==> phase' == phase
    ensures VerifyP2sh(k, fewer, scriptSig, pushed, wit, phase').Ok?
    ensures WITNESS in fewer ==> VerifyP2sh(k, fewer, scriptSig, pushed, wit, phase') == VerifyP2sh(k, flags, scriptSig, pushed, wit, phase)
  {
    hide EvalScript, VerifyWitnessProgram, StrictAgrees, CastToBool, EncodePush, IsPushOnly;
    var pubKey2 := pushed[|pushed| - 1];
    EvalSoft(Ctx(k, flags, Base), Ctx(k, fewer, Base), pushed[..|pushed| - 1], pubKey2);
    if WITNESS in fewer && IsWitnessScriptPubKey(pubKey2) {
      WitnessSoft(k, flags, fewer, wit, WitnessVersion(pubKey2), WitnessProgram(pubKey2));
    }
  }

  /** Acceptance under some flags carries over to every supported subset of them. */
  lemma FlagsAreSoftForks(k: Crypto, flags: set<Flag>, fewer: set<Flag>, scriptSig: Bytes, scriptPubKey: Bytes, wit: Stack)
    requires StrictAgrees(k) && fewer <= flags && Closed(fewer)
    requires VerifyScript(k, flags, scriptSig, scriptPubKey, wit).None?
    ensures VerifyScript(k, fewer, scriptSig, scriptPubKey, wit).None?
  {
    hide EvalScript, VerifyNative, VerifyP2sh, Truth, StrictAgrees, IsP2sh;
    var c, d := Ctx(k, flags, Base), Ctx(k, fewer, Base);
    var pushed := EvalScript(c, [], scriptSig).value;
    EvalSoft(c, d, [], scriptSig);
    EvalSoft(c, d, pushed, scriptPubKey);
    var stack := EvalScript(c, pushed, scriptPubKey).value;
    NativeSoft(k, flags, fewer, scriptSig, scriptPubKey, stack, wit);
    assert fewer * UNHANDLED_SCRIPT_VERIFY_FLAGS == {};
    if P2SH in fewer && IsP2sh(scriptPubKey) {
      P2shSoft(k, flags, fewer, scriptSig, pushed, wit,
        VerifyNative(k, flags, scriptSig, scriptPubKey, stack, wit).value,
        VerifyNative(k, fewer, scriptSig, scriptPubKey, stack, wit).value);
    }
  }

  /** Without P2SH the two dependent flags never accept anything. */
  lemma DependentFlagsReject(k: Crypto, flags: set<Flag>, scriptSig: Bytes, scriptPubKey: Bytes, wit: Stack)
    requires P2SH !in flags && (CLEANSTACK in flags || WITNESS in flags)
    ensures VerifyScript(k, flags, scriptSig, scriptPubKey, wit).Some?
  {
    hide EvalScript, VerifyNative;
  }
}
