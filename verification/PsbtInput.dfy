/** PSBT_Input: which script an input is signed for, and what one call of sign does to its fields (bitcointx/core/psbt.py). */
module PsbtInput {
  import opened Core
  import opened Script
  import opened Interp
  import opened MultisigScript
  import opened PsbtSign
  import opened Spend
  import opened Verify

  const MAX_STANDARD_P2WSH_SCRIPT_SIZE := 3600
  const SIGHASH_ALL: byte := 1

  const MAX_MONEY := 21_000_000 * 100_000_000

  predicate MoneyRange(value: int) {
    0 <= value <= MAX_MONEY
  }

  datatype Output = Output(value: int, spk: Bytes)

  /** What the input says about the output being spent: the output itself or the whole previous transaction. */
  datatype Utxo = NoUtxo | WitnessUtxo(output: Output) | FullTransaction(txid: Bytes, vout: seq<Output>)

  datatype OutPoint = OutPoint(hash: Bytes, n: nat)

  /** The unsigned transaction: what its inputs spend, and its number of outputs. */
  datatype Unsigned = Unsigned(vin: seq<OutPoint>, outputs: nat)

  datatype Key = Key(pub: Bytes, sign: Bytes -> Bytes)

  /** A key store seen through one input: the key it has for a key id. */
  type Store = Bytes -> Option<Key>

  /** The hash types SIGHASH_Type supports. */
  predicate KnownHashType(t: int) {
    t in {1, 2, 3, 0x81, 0x82, 0x83}
  }

  /** What does not change while an input is being signed. */
  datatype Env = Env(crypto: Crypto, fullyValid: Bytes -> bool, unsigned: Unsigned, index: Option<nat>, utxo: Utxo, sighashType: Option<nat>)
  {
    predicate HasInput() {
      index.Some? && index.value < |unsigned.vin|
    }

    predicate HasOutput() {
      index.Some? && index.value < unsigned.outputs
    }

    /** The whole previous transaction is the one the input spends from, and has the output it spends. */
    predicate Found() {
      && HasInput() && utxo.FullTransaction? && utxo.txid == unsigned.vin[index.value].hash
      && unsigned.vin[index.value].n < |utxo.vout|
    }

    function Spent(): Option<Output> {
      if utxo.WitnessUtxo? then Some(utxo.output)
      else if Found() then Some(utxo.vout[unsigned.vin[index.value].n])
      else None
    }

    /** The scriptPubKey of the output being spent, if there is one. */
    function Spk(): Bytes {
      match Spent() case None => [] case Some(o) => o.spk
    }

    predicate TypeKnown() {
      sighashType.Some? ==> KnownHashType(sighashType.value)
    }

    function HashType(): byte {
      if sighashType.Some? && sighashType.value < 0x100 then sighashType.value else SIGHASH_ALL
    }
  }

  /** The fields sign reads and writes; an absent script is the empty script. */
  datatype Fields = Fields(
    partialSigs: SigDict, redeemScript: Bytes, witnessScript: Bytes, finalScriptSig: Bytes, finalScriptWitness: Stack,
    derivationMap: seq<Bytes>)
  {
    predicate Cleared() {
      partialSigs == [] && redeemScript == [] && witnessScript == [] && derivationMap == []
    }
  }

  datatype Outcome = Raised | NotSignable | Signed(newSigs: nat, missing: nat, isFinal: bool)

  /** None if the fields contradict each other. */
  function IsFinal(utxo: Utxo, f: Fields): Option<bool> {
    if f.finalScriptWitness != [] then
      if !utxo.WitnessUtxo? || !f.Cleared() then None
      else if (if f.finalScriptSig != [] then IsWitnessScriptPubKey(utxo.output.spk) else IsP2sh(utxo.output.spk)) then None
      else Some(true)
    else if f.finalScriptSig != [] then
      if f.Cleared() then Some(true) else None
    else Some(false)
  }

  function P2shOutput(k: Crypto, script: Bytes): Bytes {
    [OP_HASH160, 0x14] + k.Hash160(script) + [OP_EQUAL]
  }

  function P2wshOutput(k: Crypto, script: Bytes): Bytes {
    [0, 0x20] + k.sha256(script)
  }

  predicate IsWitnessKeyHash(s: Bytes) {
    |s| == 22 && s[0] == 0 && s[1] == 0x14
  }

  predicate IsP2pkh(s: Bytes) {
    |s| == 25 && s[0] == OP_DUP && s[1] == OP_HASH160 && s[2] == 0x14 && s[23] == OP_EQUALVERIFY && s[24] == OP_CHECKSIG
  }

  /** The script to sign for, how its signature hash is made, the scriptSig that goes with a witness, and the key hash of a single-key output. */
  datatype Target = Target(script: Bytes, version: SigVersion, scriptSig: Bytes, keyHash: Option<Bytes>)

  function WitnessTarget(k: Crypto, program: Bytes, f: Fields, scriptSig: Bytes): Result<Target, Outcome> {
    if IsWitnessKeyHash(program) then
      if f.witnessScript != [] then Err(Raised)
      else Ok(Target(KeyHashScript(program[2..]), WitnessV0, scriptSig, Some(program[2..])))
    else if !(|program| == 34 && program[0] == 0 && program[1] == 0x20) then Err(NotSignable)
    else if f.witnessScript == [] then Err(Raised)
    else if f.redeemScript != [] && |f.witnessScript| > MAX_STANDARD_P2WSH_SCRIPT_SIZE then Err(Raised)
    else if f.redeemScript != [] && P2wshOutput(k, f.witnessScript) != f.redeemScript then Err(Raised)
    else Ok(Target(f.witnessScript, WitnessV0, scriptSig, None))
  }

  function FindTarget(env: Env, f: Fields): Result<Target, Outcome> {
    var k, rds, spk := env.crypto, f.redeemScript, env.Spk();
    if env.index.None? || env.utxo.NoUtxo? then Err(NotSignable)
    else if !env.TypeKnown() || env.Spent().None? || !MoneyRange(env.Spent().value.value) then Err(Raised)
    else if env.utxo.WitnessUtxo? then
      if IsWitnessScriptPubKey(spk) then
        if rds != [] then Err(Raised) else WitnessTarget(k, spk, f, [])
      else if IsP2sh(spk) && rds != [] && IsWitnessScriptPubKey(rds) then
        if P2shOutput(k, rds) != spk then Err(Raised) else WitnessTarget(k, rds, f, EncodePush(rds))
      else if IsP2sh(spk) && rds == [] then Err(NotSignable)
      else Err(Raised)
    else
      if f.witnessScript != [] || IsWitnessScriptPubKey(spk) then Err(Raised)
      else if IsP2pkh(spk) then
        if rds != [] then Err(Raised) else Ok(Target(spk, Base, [], Some(spk[3..23])))
      else if !IsP2sh(spk) || rds == [] then Err(NotSignable)
      else if |rds| > MAX_SCRIPT_ELEMENT_SIZE || P2shOutput(k, rds) != spk || IsWitnessScriptPubKey(rds) then Err(Raised)
      else Ok(Target(rds, Base, [], None))
  }

  /** The signature hash raises without the input and, before segwit, for a script that does not parse and for SINGLE without an output of the same index. */
  predicate SighashRaises(env: Env, t: Target, hashType: byte) {
    !env.HasInput() || (t.version.Base? && (ParseScript(t.script).error.Some? || (hashType % 32 == 3 && !env.HasOutput())))
  }

  /** A partial signature is of a known type, of the type asked for, and verifies for its key. */
  predicate ValidPartialSig(env: Env, t: Target, pub: Bytes, sig: Bytes) {
    && sig != []
    && var hashType := sig[|sig| - 1];
       && KnownHashType(hashType)
       && (env.sighashType.Some? ==> hashType == env.sighashType.value)
       && !SighashRaises(env, t, hashType)
       && env.crypto.verify(pub, env.crypto.sighash(t.script, hashType, t.version), sig[..|sig| - 1])
  }

  predicate ValidPartialSigs(env: Env, t: Target, sigs: SigDict) {
    forall i :: 0 <= i < |sigs| ==> ValidPartialSig(env, t, sigs[i].0, sigs[i].1)
  }

  function SigHashOf(env: Env, t: Target): Bytes {
    env.crypto.sighash(t.script, env.HashType(), t.version)
  }

  function KeySig(env: Env, t: Target, key: Key): Bytes {
    key.sign(SigHashOf(env, t)) + [env.HashType()]
  }

  /** Signing for a public key with the key that the store has under its id. */
  function SignerOf(env: Env, t: Target, store: Store): Signer {
    (pub: Bytes) => match store(env.crypto.Hash160(pub)) case None => None case Some(key) => Some(KeySig(env, t, key))
  }

  /** The fields after the threshold is met; a signature too long to push is refused, after the scriptSig is set. */
  function Finalize(t: Target, items: Stack, f: Fields): Option<Fields> {
    if !Pushable(items) then None
    else if t.version.WitnessV0? then Some(Fields([], [], [], t.scriptSig, items, []))
    else Some(Fields([], [], [], PushScript(items), f.finalScriptWitness, []))
  }

  /** Signing for a recognised script whose partial signatures are valid. */
  function Complete(env: Env, t: Target, info: Info, store: Store, finalize: bool, f: Fields): (Fields, Outcome) {
    match Collect(info, EmptySlots(|info.pubkeys|), f.partialSigs)
    case None => (f, Raised)
    case Some(have) =>
      var all := Fill(info, have, SignerOf(env, t, store), 0);
      var added := NewSigs(info, have, all);
      var more := f.(partialSigs := f.partialSigs + added);
      if CountSome(all) < info.required then (more, Signed(|added|, info.required - CountSome(all), false))
      else if !finalize then (more, Signed(|added|, 0, false))
      else match Finalize(t, WitnessStack(all, t.script), f)
        case None => (if t.version.WitnessV0? then f.(finalScriptSig := t.scriptSig) else f, Raised)
        case Some(done) => (done, Signed(|added|, 0, true))
  }

  /** One signature is enough for a key hash. */
  function GotSingle(env: Env, t: Target, pub: Bytes, sig: Bytes, finalize: bool, f: Fields): (Fields, Outcome)
    requires sig != []
  {
    if !finalize then
      (if exists i :: 0 <= i < |f.partialSigs| && f.partialSigs[i].0 == pub then f else f.(partialSigs := f.partialSigs + [(pub, sig)]),
       Signed(1, 0, false))
    else if env.sighashType.Some? && sig[|sig| - 1] != env.sighashType.value then (f, Raised)
    else match Finalize(t, [sig, pub], f)
      case None => (if t.version.WitnessV0? then f.(finalScriptSig := t.scriptSig) else f, Raised)
      case Some(done) => (done, Signed(1, 0, true))
  }

  function SignKeyHash(env: Env, t: Target, hash: Bytes, store: Store, finalize: bool, f: Fields): (Fields, Outcome) {
    if |f.partialSigs| > 1 then (f, Raised)
    else if |f.partialSigs| == 1 then
      var (pub, sig) := f.partialSigs[0];
      if env.crypto.Hash160(pub) != hash || !ValidPartialSig(env, t, pub, sig) then (f, Raised)
      else GotSingle(env, t, pub, sig, finalize, f)
    else match store(hash)
      case None => (f, Signed(0, 1, false))
      case Some(key) => GotSingle(env, t, key.pub, KeySig(env, t, key), finalize, f)
  }

  /** One call of sign: the fields it leaves and what it reports. */
  function SignOnce(env: Env, store: Store, finalize: bool, f: Fields): (Fields, Outcome) {
    if env.sighashType == Some(0) then (f, Raised)
    else match IsFinal(env.utxo, f)
      case None => (f, Raised)
      case Some(true) => (f, Signed(0, 0, true))
      case Some(false) =>
        match FindTarget(env, f)
        case Err(o) => (f, o)
        case Ok(t) =>
          if SighashRaises(env, t, env.HashType()) then (f, Raised)
          else if t.keyHash.Some? then SignKeyHash(env, t, t.keyHash.value, store, finalize, f)
          else if !ValidPartialSigs(env, t, f.partialSigs) then (f, Raised)
          else match ParseInfo(env.fullyValid, ParseScript(t.script))
            case Err(NotMultisig) => (f, NotSignable)
            case Err(InvalidScript) => (f, Raised)
            case Ok(info) => Complete(env, t, info, store, finalize, f)
  }

  predicate IsDict(d: SigDict) {
    forall i, j :: 0 <= i < j < |d| ==> d[i].0 != d[j].0
  }

  class Input {
    const env: Env
    var partialSigs: SigDict
    var redeemScript: Bytes
    var witnessScript: Bytes
    var finalScriptSig: Bytes
    var finalScriptWitness: Stack
    var derivationMap: seq<Bytes>

    constructor (env: Env, f: Fields)
      ensures this.env == env && Value() == f
    {
      this.env := env;
      partialSigs, redeemScript, witnessScript := f.partialSigs, f.redeemScript, f.witnessScript;
      finalScriptSig, finalScriptWitness, derivationMap := f.finalScriptSig, f.finalScriptWitness, f.derivationMap;
    }

    ghost function Value(): Fields
      reads this
    {
      Fields(partialSigs, redeemScript, witnessScript, finalScriptSig, finalScriptWitness, derivationMap)
    }

    method CheckPartialSigs(t: Target) returns (ok: bool)
      ensures ok == ValidPartialSigs(env, t, partialSigs)
    {
      for i := 0 to |partialSigs|
        invariant ValidPartialSigs(env, t, partialSigs[..i])
      {
        var (pub, sig) := partialSigs[i];
        if !ValidPartialSig(env, t, pub, sig) {
          assert !ValidPartialSig(env, t, partialSigs[i].0, partialSigs[i].1);
          return false;
        }
      }
      assert partialSigs[..|partialSigs|] == partialSigs;
      return true;
    }

    method ClearNonfinalFields()
      modifies this
      ensures Value() == old(Value()).(partialSigs := [], redeemScript := [], witnessScript := [], derivationMap := [])
    {
      partialSigs, redeemScript, witnessScript, derivationMap := [], [], [], [];
    }

    method MaybeSignComplexScript(helper: SignatureHelper, signer: Signer, t: Target, finalize: bool, ghost store: Store) returns (outcome: Outcome)
      requires helper.Valid() && 1 <= helper.info.required && helper.signatures == EmptySlots(|helper.info.pubkeys|)
      requires signer == SignerOf(env, t, store) && forall k :: 0 <= k < |partialSigs| ==> partialSigs[k].1 != []
      modifies this, helper
      ensures (Value(), outcome) == Complete(env, t, helper.info, store, finalize, old(Value()))
    {
      hide Collect, Fill, NewSigs, CountSome, WitnessStack, PushScript;
      ghost var collected := Collect(helper.info, helper.signatures, partialSigs);
      CollectNoneEmpty(helper.info, helper.signatures, partialSigs);
      if collected.Some? {
        AskedIsNew(helper.info, collected.value, signer, 0);
      }
      var signed := helper.Sign(signer, partialSigs);
      if signed.None? {
        return Raised;
      }
      var (newSigs, ready) := signed.value;
      if ready && finalize {
        if t.version.WitnessV0? {
          finalScriptSig := t.scriptSig;
        }
        var items := helper.ConstructWitnessStack(t.script);
        if !Pushable(items.value) {
          return Raised;
        }
        if t.version.WitnessV0? {
          finalScriptWitness := items.value;
        } else {
          finalScriptSig := PushScript(items.value);
        }
        ClearNonfinalFields();
        return Signed(|newSigs|, 0, true);
      }
      partialSigs := partialSigs + newSigs;
      var missing := helper.NumSigsMissing();
      outcome := Signed(|newSigs|, missing, false);
    }

    method GotSingleSig(pub: Bytes, sig: Bytes, t: Target, finalize: bool) returns (outcome: Outcome)
      requires sig != []
      modifies this
      ensures (Value(), outcome) == GotSingle(env, t, pub, sig, finalize, old(Value()))
    {
      hide PushScript;
      if finalize {
        if env.sighashType.Some? && sig[|sig| - 1] != env.sighashType.value {
          return Raised;
        }
        if t.version.WitnessV0? {
          finalScriptSig := t.scriptSig;
        }
        if !Pushable([sig, pub]) {
          return Raised;
        }
        if t.version.WitnessV0? {
          finalScriptWitness := [sig, pub];
        } else {
          finalScriptSig := PushScript([sig, pub]);
        }
        ClearNonfinalFields();
      } else {
        var known := HasPartialSig(pub);
        if !known {
          partialSigs := partialSigs + [(pub, sig)];
        }
      }
      outcome := Signed(1, 0, finalize);
    }

    method HasPartialSig(pub: Bytes) returns (known: bool)
      ensures known <==> exists i :: 0 <= i < |partialSigs| && partialSigs[i].0 == pub
    {
      for i := 0 to |partialSigs|
        invariant forall j :: 0 <= j < i ==> partialSigs[j].0 != pub
      {
        if partialSigs[i].0 == pub {
          return true;
        }
      }
      return false;
    }

    method RunSignKeyHash(t: Target, hash: Bytes, store: Store, finalize: bool) returns (outcome: Outcome)
      modifies this
      ensures (Value(), outcome) == SignKeyHash(env, t, hash, store, finalize, old(Value()))
    {
      hide GotSingle, ValidPartialSig;
      if |partialSigs| > 1 {
        return Raised;
      }
      if |partialSigs| == 1 {
        var (pub, sig) := partialSigs[0];
        if env.crypto.Hash160(pub) != hash || !ValidPartialSig(env, t, pub, sig) {
          return Raised;
        }
        assert sig != [] by {
          ValidNotEmpty(env, t, pub, sig);
        }
        outcome := GotSingleSig(pub, sig, t, finalize);
        return;
      }
      var key := store(hash);
      if key.None? {
        return Signed(0, 1, false);
      }
      outcome := GotSingleSig(key.value.pub, KeySig(env, t, key.value), t, finalize);
    }

    method Sign(store: Store, finalize: bool) returns (outcome: Outcome)
      modifies this
      ensures (Value(), outcome) == SignOnce(env, store, finalize, old(Value()))
    {
      hide ParseScript, ParseInfo, Complete, SignKeyHash, SighashRaises;
      if env.sighashType == Some(0) {
        return Raised;
      }
      var fields := Fields(partialSigs, redeemScript, witnessScript, finalScriptSig, finalScriptWitness, derivationMap);
      var isFinal := IsFinal(env.utxo, fields);
      if isFinal.None? {
        return Raised;
      } else if isFinal.value {
        return Signed(0, 0, true);
      }
      var target := FindTarget(env, fields);
      if target.Err? {
        return target.error;
      }
      var t := target.value;
      if SighashRaises(env, t, env.HashType()) {
        return Raised;
      }
      if t.keyHash.Some? {
        outcome := RunSignKeyHash(t, t.keyHash.value, store, finalize);
        return;
      }
      var valid := CheckPartialSigs(t);
      if !valid {
        return Raised;
      }
      var info := ParseMultisig(env.fullyValid, t.script);
      if info.Err? {
        return if info.error.InvalidScript? then Raised else NotSignable;
      }
      InfoIsMultisig(env.fullyValid, ParseScript(t.script));
      forall k | 0 <= k < |partialSigs|
        ensures partialSigs[k].1 != []
      {
        ValidNotEmpty(env, t, partialSigs[k].0, partialSigs[k].1);
      }
      var helper := new SignatureHelper(info.value);
      outcome := MaybeSignComplexScript(helper, SignerOf(env, t, store), t, finalize, store);
    }
  }

  lemma ValidNotEmpty(env: Env, t: Target, pub: Bytes, sig: Bytes)
    requires ValidPartialSig(env, t, pub, sig)
    ensures sig != []
  {
  }
}
