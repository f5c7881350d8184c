/** Small inputs on which a promise fails: refused although finalised, never signed, or not recognised although built. */
module PsbtExamples {
  import opened Core
  import opened ScriptNum
  import opened Script
  import opened DerSignature
  import opened Interp
  import opened Verify
  import opened MultisigScript
  import opened PsbtSign
  import opened PsbtInput
  import opened PsbtRun
  import opened PsbtFinish
  import opened PsbtAccept
  import opened PsbtKeyHash
  import SoftFork

  function Repeat(b: byte, n: nat): (s: Bytes)
    ensures |s| == n && forall i :: 0 <= i < n ==> s[i] == b
  {
    seq(n, _ => b)
  }

  /** Hash functions that are constant and a curve check that accepts everything. */
  const TOY: Crypto := Crypto(
    (b: Bytes) => Repeat(1, 20), (b: Bytes) => Repeat(1, 32), (b: Bytes) => Repeat(1, 20),
    (s: Bytes, t: byte, v: SigVersion) => [],
    (p: Bytes, h: Bytes, d: Bytes) => true, (p: Bytes, h: Bytes, d: Bytes) => true)

  function IsCurveKey(key: Bytes): bool {
    (|key| == 33 && key[0] == 2) || (|key| == 65 && key[0] == 4)
  }

  const FIRST: Bytes := [2] + Repeat(1, 32)
  const COMPRESSED: Bytes := [2] + Repeat(2, 32)
  const UNCOMPRESSED: Bytes := [4] + Repeat(2, 64)

  /** R and S are both one. */
  const DER: Bytes := [0x30, 6, 2, 1, 1, 2, 1, 1]

  /** One of two keys. */
  function OneOfTwo(last: Bytes): Info {
    Info(1, [FIRST, last])
  }

  function ScriptOf(last: Bytes): Bytes
    requires |last| <= MAX_PUSH
  {
    Concat(BuildOps(OneOfTwo(last)))
  }

  function EnvOf(program: Bytes): Env {
    Env(TOY, IsCurveKey, Unsigned([OutPoint([], 0)], 1), Some(0), WitnessUtxo(Output(0, [0, 0x20] + program)), None)
  }

  function Start(last: Bytes): Fields
    requires |last| <= MAX_PUSH
  {
    Fields([], [], ScriptOf(last), [], [], [])
  }

  function TargetOf(last: Bytes): Target
    requires |last| <= MAX_PUSH
  {
    Target(ScriptOf(last), WitnessV0, [], None)
  }

  const ANY_KEY: Store := (id: Bytes) => Some(Key([], (h: Bytes) => DER))

  lemma DerIsEncoded()
    ensures IsValidSignatureEncoding(DER + [1]) && IsLowS(DER + [1])
  {
    var sig := DER + [1];
    assert sig == [0x30, 6, 2, 1, 1, 2, 1, 1, 1];
    assert SBytes(sig) == [1];
    assert Numerals.Value(256, [1]) == 1 by {
      assert [1][..0] == [];
    }
  }

  lemma ScriptIsMultisig(last: Bytes)
    requires last in {COMPRESSED, UNCOMPRESSED}
    ensures IsMultisig(IsCurveKey, ScriptOf(last), OneOfTwo(last))
  {
    assert FIRST[0] == 2 && FIRST[1] == 1 && last[1] == 2;
    BuiltIsRecognised(IsCurveKey, OneOfTwo(last));
  }

  lemma TargetIs(program: Bytes, last: Bytes)
    requires |program| == 32 && last in {COMPRESSED, UNCOMPRESSED}
    ensures FindTarget(EnvOf(program), Start(last)) == Ok(TargetOf(last))
  {
    ScriptNotEmpty(last);
    hide ScriptOf;
  }

  lemma AnyKeyIsHonest(program: Bytes, last: Bytes)
    requires |program| == 32 && |last| <= MAX_PUSH
    ensures Honest(EnvOf(program), TargetOf(last), OneOfTwo(last), ANY_KEY)
  {
    DerIsEncoded();
    hide IsValidSignatureEncoding, IsLowS;
  }

  lemma StartIsFresh(program: Bytes, last: Bytes)
    requires |program| == 32 && last in {COMPRESSED, UNCOMPRESSED}
    ensures Setting(EnvOf(program), TargetOf(last), OneOfTwo(last), Start(last), [Call(ANY_KEY, true)])
  {
    hide IsMultisig, ScriptOf, FindTarget, Honest;
    ScriptIsMultisig(last);
    TargetIs(program, last);
    AnyKeyIsHonest(program, last);
  }

  lemma ScriptNotEmpty(last: Bytes)
    requires |last| <= MAX_PUSH
    ensures ScriptOf(last) != []
  {
    assert BuildOps(OneOfTwo(last))[0].raw != [];
  }

  /** One call with one key is enough. */
  lemma OneCallCloses(program: Bytes, last: Bytes, after: Fields, outcome: Outcome) returns (slots: Slots)
    requires |program| == 32 && last in {COMPRESSED, UNCOMPRESSED}
    requires SignOnce(EnvOf(program), ANY_KEY, true, Start(last)) == (after, outcome)
    ensures outcome.Signed? && outcome.isFinal
    ensures Closes(EnvOf(program), TargetOf(last), OneOfTwo(last), Start(last), [Call(ANY_KEY, true)], after, slots)
  {
    hide Setting, SignOnce, Closes, ScriptOf;
    var env, t, info, f0, calls := EnvOf(program), TargetOf(last), OneOfTwo(last), Start(last), [Call(ANY_KEY, true)];
    StartIsFresh(program, last);
    RunProgress(env, t, info, f0, calls, [f0, after], [outcome]);
    BothSeen(program, last);
    assert calls[..1] == calls;
    hide Covered;
    assert Finalized(env, t, info, calls);
    slots :| Closes(env, t, info, f0, calls, after, slots);
  }

  lemma BothSeen(program: Bytes, last: Bytes)
    requires |last| <= MAX_PUSH
    ensures Covered(EnvOf(program), TargetOf(last), OneOfTwo(last), [Call(ANY_KEY, true)]) == 2
  {
    var calls := [Call(ANY_KEY, true)];
    assert calls[0].store(TOY.Hash160(FIRST)).Some? && calls[0].store(TOY.Hash160(last)).Some?;
    var b := Seen(EnvOf(program), TargetOf(last), OneOfTwo(last), calls);
    hide HasKey;
    assert HasKey(EnvOf(program), calls, FIRST) && HasKey(EnvOf(program), calls, last);
    assert b == [true, true];
    assert CountTrue([true, true]) == CountTrue([true]) + 1 && CountTrue([true]) == CountTrue([]) + 1 by {
      assert [true, true][..1] == [true] && [true][..0] == [];
    }
  }

  lemma ToyIsVerifiable(flags: set<Flag>)
    requires SoftFork.Closed(flags) && flags * UNHANDLED_SCRIPT_VERIFY_FLAGS == {}
    ensures Verifiable(TOY, flags)
  {
    hide IsValidSignatureEncoding;
    assert forall p, h, s :: SoftFork.AgreesOn(TOY, p, h, s);
  }

  lemma RepeatIsTrue(b: byte, n: nat)
    requires n > 1 && b != 0
    ensures CastToBool(Repeat(b, n))
  {
    assert Repeat(b, n)[0] != 0;
  }

  /** The output pays to another script: sign finalises, and the spend is refused. */
  lemma ForeignScriptIsRefused()
    ensures var (after, outcome) := SignOnce(EnvOf(Repeat(2, 32)), ANY_KEY, true, Start(COMPRESSED));
            && outcome.Signed? && outcome.isFinal
            && VerifyScript(TOY, {P2SH, WITNESS}, after.finalScriptSig, EnvOf(Repeat(2, 32)).Spk(), after.finalScriptWitness).Some?
  {
    hide SignOnce, VerifyScript, ScriptOf, Closes, Setting, Verifiable, Finished;
    var flags, program := {P2SH, WITNESS}, Repeat(2, 32);
    var (after, outcome) := SignOnce(EnvOf(program), ANY_KEY, true, Start(COMPRESSED));
    var slots := OneCallCloses(program, COMPRESSED, after, outcome);
    var env, t, info, f0, calls := EnvOf(program), TargetOf(COMPRESSED), OneOfTwo(COMPRESSED), Start(COMPRESSED), [Call(ANY_KEY, true)];
    StartIsFresh(program, COMPRESSED);
    ToyIsVerifiable(flags);
    SlotsMatch(env, t, info, f0, calls, after, slots);
    RunFinishes(env, t, info, f0, calls, after, slots);
    FinalisedIsAccepted(env, t, info, f0, after, slots, flags);
    assert ([0, 0x20] + program)[2] == 2 && TOY.sha256(ScriptOf(COMPRESSED))[0] == 1;
  }

  lemma SlotsMatch(env: Env, t: Target, info: Info, f0: Fields, calls: seq<Call>, f: Fields, slots: Slots)
    requires Closes(env, t, info, f0, calls, f, slots)
    ensures |slots| == |info.pubkeys|
  {
  }

  /** The last key is uncompressed: sign finalises, and the spend is accepted or refused by WITNESS_PUBKEYTYPE alone. */
  lemma UncompressedKeyIsRefused()
    ensures var (after, outcome) := SignOnce(EnvOf(Repeat(1, 32)), ANY_KEY, true, Start(UNCOMPRESSED));
            && outcome.Signed? && outcome.isFinal
            && VerifyScript(TOY, {P2SH, WITNESS}, after.finalScriptSig, EnvOf(Repeat(1, 32)).Spk(), after.finalScriptWitness).None?
            && VerifyScript(TOY, {P2SH, WITNESS, WITNESS_PUBKEYTYPE}, after.finalScriptSig, EnvOf(Repeat(1, 32)).Spk(), after.finalScriptWitness).Some?
  {
    hide SignOnce, VerifyScript, ScriptOf, Closes, Setting, Verifiable, Finished;
    var program := Repeat(1, 32);
    var (after, outcome) := SignOnce(EnvOf(program), ANY_KEY, true, Start(UNCOMPRESSED));
    var slots := OneCallCloses(program, UNCOMPRESSED, after, outcome);
    var env, t, info, f0, calls := EnvOf(program), TargetOf(UNCOMPRESSED), OneOfTwo(UNCOMPRESSED), Start(UNCOMPRESSED), [Call(ANY_KEY, true)];
    StartIsFresh(program, UNCOMPRESSED);
    ToyIsVerifiable({P2SH, WITNESS});
    ToyIsVerifiable({P2SH, WITNESS, WITNESS_PUBKEYTYPE});
    SlotsMatch(env, t, info, f0, calls, after, slots);
    RepeatIsTrue(1, 32);
    assert ([0, 0x20] + program)[2..] == program;
    RunFinishes(env, t, info, f0, calls, after, slots);
    FinalisedIsAccepted(env, t, info, f0, after, slots, {P2SH, WITNESS});
    RefusedKeyRejects(env, t, info, f0, after, slots, {P2SH, WITNESS, WITNESS_PUBKEYTYPE});
  }

  /** A key that is repeated: the script is built, and not recognised. */
  lemma RepeatedKeyIsNotRecognised()
    ensures var r := Build(IsCurveKey, key => |key| == 33, 2, 1, [COMPRESSED, COMPRESSED], false);
            r.Some? && ParseInfo(IsCurveKey, ParseScript(r.value)) == Err(NotMultisig)
  {
    hide Build, ParseScript, ParseInfo;
    var keys := [COMPRESSED, COMPRESSED];
    BuildIsRecognised(IsCurveKey, key => |key| == 33, 2, 1, keys, false);
    assert keys[0] == keys[1];
  }

  /** The one input of a transaction without outputs, spending from the script hash, to be signed for SINGLE. */
  const SINGLE_ENV: Env := Env(TOY, IsCurveKey, Unsigned([OutPoint([], 0)], 0), Some(0), FullTransaction([], [Output(0, P2shOutput(TOY, ScriptOf(COMPRESSED)))]), Some(3))

  const SINGLE_START: Fields := Fields([], ScriptOf(COMPRESSED), [], [], [], [])

  lemma ScriptSize()
    ensures |ScriptOf(COMPRESSED)| == 71 && ScriptOf(COMPRESSED)[0] == OP_1
  {
    var ops := BuildOps(OneOfTwo(COMPRESSED));
    assert ops == [BareOp(0x51), PushOp(FIRST), PushOp(COMPRESSED), BareOp(0x52), BareOp(OP_CHECKMULTISIG)];
    ConcatFive(ops[0], ops[1], ops[2], ops[3], ops[4]);
  }

  /** SINGLE without an output: no key store makes sign succeed. */
  lemma SingleWithoutOutputRaises(store: Store, finalize: bool)
    ensures SignOnce(SINGLE_ENV, store, finalize, SINGLE_START) == (SINGLE_START, Raised)
  {
    var script := ScriptOf(COMPRESSED);
    var t, info := Target(script, Base, [], None), OneOfTwo(COMPRESSED);
    ScriptSize();
    ScriptIsMultisig(COMPRESSED);
    assert !IsWitnessScriptPubKey(script) && SINGLE_ENV.Found();
    HashOutputs(TOY, script, []);
    hide ScriptOf, IsMultisig, SignOnce, P2shOutput, SighashRaises, IsWitnessScriptPubKey;
    assert Fresh(SINGLE_ENV, t, info, SINGLE_START);
    RaisesExactly(SINGLE_ENV, t, info, SINGLE_START);
    var (after, outcome) := SignOnce(SINGLE_ENV, store, finalize, SINGLE_START);
    RunRaises(SINGLE_ENV, t, info, SINGLE_START, [Call(store, finalize)], [SINGLE_START, after], [outcome]);
  }

  /** A native key-hash output and a store that has an uncompressed key for it. */
  const KEY_HASH_ENV: Env := Env(TOY, IsCurveKey, Unsigned([OutPoint([], 0)], 1), Some(0), WitnessUtxo(Output(0, [0, 0x14] + Repeat(1, 20))), None)

  const UNCOMPRESSED_KEY: Key := Key(UNCOMPRESSED, (h: Bytes) => DER)

  const UNCOMPRESSED_STORE: Store := (id: Bytes) => Some(UNCOMPRESSED_KEY)

  const NO_FIELDS: Fields := Fields([], [], [], [], [], [])

  lemma KeyHashIsFresh()
    ensures var t := Target(KeyHashScript(Repeat(1, 20)), WitnessV0, [], Some(Repeat(1, 20)));
            FreshKeyHash(KEY_HASH_ENV, t, Repeat(1, 20), NO_FIELDS) && HonestKey(KEY_HASH_ENV, t, Repeat(1, 20), UNCOMPRESSED_KEY)
  {
    DerIsEncoded();
    assert KEY_HASH_ENV.Spk()[2..] == Repeat(1, 20);
    hide IsValidSignatureEncoding, IsLowS, KeyHashScript, ParseScript;
  }

  lemma KeyHashCloses(t: Target, after: Fields, outcome: Outcome)
    requires FreshKeyHash(KEY_HASH_ENV, t, Repeat(1, 20), NO_FIELDS) && HonestKey(KEY_HASH_ENV, t, Repeat(1, 20), UNCOMPRESSED_KEY)
    requires SignOnce(KEY_HASH_ENV, UNCOMPRESSED_STORE, true, NO_FIELDS) == (after, outcome)
    ensures outcome == Signed(1, 0, true)
    ensures Finalize(t, [KeySig(KEY_HASH_ENV, t, UNCOMPRESSED_KEY), UNCOMPRESSED], NO_FIELDS) == Some(after)
  {
    var hash, calls := Repeat(1, 20), [Call(UNCOMPRESSED_STORE, true)];
    ToyIsVerifiable({});
    hide SignOnce, FreshKeyHash, HonestKey, Finalize, KeySig, Repeat;
    KeyHashRun(KEY_HASH_ENV, t, hash, NO_FIELDS, calls, [NO_FIELDS, after], [outcome]);
    assert calls[0].finalize && FirstWith(hash, calls) == 0;
    assert Ended(hash, calls) && !Ended(hash, calls[..0]);
  }

  lemma FreshFacts(t: Target)
    requires FreshKeyHash(KEY_HASH_ENV, t, Repeat(1, 20), NO_FIELDS)
    ensures FindTarget(KEY_HASH_ENV, NO_FIELDS) == Ok(t) && t.keyHash == Some(Repeat(1, 20))
  {
    hide FindTarget, SighashRaises;
  }

  lemma KeyHashVerdict(t: Target, after: Fields, flags: set<Flag>)
    requires FreshKeyHash(KEY_HASH_ENV, t, Repeat(1, 20), NO_FIELDS) && HonestKey(KEY_HASH_ENV, t, Repeat(1, 20), UNCOMPRESSED_KEY)
    requires Finalize(t, [KeySig(KEY_HASH_ENV, t, UNCOMPRESSED_KEY), UNCOMPRESSED], NO_FIELDS) == Some(after) && t.version == WitnessV0
    requires SoftFork.Closed(flags) && flags * UNHANDLED_SCRIPT_VERIFY_FLAGS == {} && WITNESS in flags
    ensures VerifyScript(TOY, flags, after.finalScriptSig, KEY_HASH_ENV.Spk(), after.finalScriptWitness).None? <==> WITNESS_PUBKEYTYPE !in flags
  {
    RepeatIsTrue(1, 20);
    ToyIsVerifiable(flags);
    HonestKeyOwns(KEY_HASH_ENV, t, Repeat(1, 20), NO_FIELDS, UNCOMPRESSED_KEY);
    FreshFacts(t);
    hide OwnSignature, VerifyScript, FreshKeyHash, HonestKey, Verifiable, Finalize, KeySig, IsWitnessScriptPubKey, CastToBool, Repeat, SoftFork.Closed;
    KeyHashAccepted(KEY_HASH_ENV, t, Repeat(1, 20), NO_FIELDS, UNCOMPRESSED, KeySig(KEY_HASH_ENV, t, UNCOMPRESSED_KEY), after, flags);
  }

  /** The key of a key hash is uncompressed: sign finalises, and the spend is accepted or refused by WITNESS_PUBKEYTYPE alone. */
  lemma UncompressedKeyHashIsRefused(flags: set<Flag>)
    requires SoftFork.Closed(flags) && flags * UNHANDLED_SCRIPT_VERIFY_FLAGS == {} && WITNESS in flags
    ensures var (after, outcome) := SignOnce(KEY_HASH_ENV, UNCOMPRESSED_STORE, true, NO_FIELDS);
            && outcome == Signed(1, 0, true)
            && (VerifyScript(TOY, flags, after.finalScriptSig, KEY_HASH_ENV.Spk(), after.finalScriptWitness).None? <==> WITNESS_PUBKEYTYPE !in flags)
  {
    var t := Target(KeyHashScript(Repeat(1, 20)), WitnessV0, [], Some(Repeat(1, 20)));
    KeyHashIsFresh();
    hide SignOnce, VerifyScript, FreshKeyHash, HonestKey, Finalize, KeySig, KeyHashScript, Repeat, SoftFork.Closed;
    var (after, outcome) := SignOnce(KEY_HASH_ENV, UNCOMPRESSED_STORE, true, NO_FIELDS);
    KeyHashCloses(t, after, outcome);
    KeyHashVerdict(t, after, flags);
  }

  /** The key-hash input on a curve that accepts nothing. */
  const DOUBTFUL_ENV: Env := KEY_HASH_ENV.(crypto := TOY.(verify := (p: Bytes, h: Bytes, d: Bytes) => false))

  /** A partial signature for the right key that does not verify makes every call raise. */
  lemma InvalidSignatureRaises(sig: Bytes, store: Store, finalize: bool)
    ensures var f := NO_FIELDS.(partialSigs := [(UNCOMPRESSED, sig)]); SignOnce(DOUBTFUL_ENV, store, finalize, f) == (f, Raised)
  {
    var f := NO_FIELDS.(partialSigs := [(UNCOMPRESSED, sig)]);
    hide SignOnce;
    UnvouchedRaises(DOUBTFUL_ENV, store, finalize, f, 0);
  }
}
