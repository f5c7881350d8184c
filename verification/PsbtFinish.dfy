/** What a call of sign vouches for, and how an input is finalised, whatever partial signatures it starts with. */
module PsbtFinish {
  import opened Core
  import opened Script
  import opened DerSignature
  import opened Interp
  import opened MultisigScript
  import opened PsbtSign
  import opened PsbtInput
  import opened PsbtRun
  import opened MultisigRun
  import opened Spend

  /** The curve accepts the signature for the key, on the signature hash of the type the signature ends in, which is one of six and the one asked for. */
  predicate Vouched(env: Env, t: Target, pub: Bytes, sig: Bytes) {
    && sig != []
    && var last := sig[|sig| - 1];
       && last in {1, 2, 3, 0x81, 0x82, 0x83}
       && (env.sighashType.None? || env.sighashType.value == last)
       && env.crypto.verify(pub, env.crypto.sighash(t.script, last, t.version), sig[..|sig| - 1])
  }

  lemma ValidIsVouched(env: Env, t: Target, pub: Bytes, sig: Bytes)
    ensures ValidPartialSig(env, t, pub, sig) <==> Vouched(env, t, pub, sig) && !SighashRaises(env, t, sig[|sig| - 1])
  {
    hide SighashRaises;
  }

  /** A call that reports anything has checked every partial signature it started with. */
  lemma SignedHasChecked(env: Env, store: Store, finalize: bool, f: Fields, after: Fields, outcome: Outcome)
    requires IsFinal(env.utxo, f) == Some(false) && SignOnce(env, store, finalize, f) == (after, outcome) && outcome.Signed?
    ensures FindTarget(env, f).Ok?
    ensures forall i :: 0 <= i < |f.partialSigs| ==> Vouched(env, FindTarget(env, f).value, f.partialSigs[i].0, f.partialSigs[i].1)
  {
    NoTargetReportsNothing(env, f);
    hide IsFinal, ValidPartialSig, Vouched, SighashRaises, ParseScript, ParseInfo, Complete, GotSingle, FindTarget;
    if FindTarget(env, f).Ok? {
      forall i | 0 <= i < |f.partialSigs|
        ensures ValidPartialSig(env, FindTarget(env, f).value, f.partialSigs[i].0, f.partialSigs[i].1) ==>
                Vouched(env, FindTarget(env, f).value, f.partialSigs[i].0, f.partialSigs[i].1)
      {
        ValidIsVouched(env, FindTarget(env, f).value, f.partialSigs[i].0, f.partialSigs[i].1);
      }
    }
  }

  lemma NoTargetReportsNothing(env: Env, f: Fields)
    ensures FindTarget(env, f).Err? ==> !FindTarget(env, f).error.Signed?
  {
    hide EncodePush, KnownHashType, IsWitnessScriptPubKey, P2shOutput, P2wshOutput;
  }

  /** One that fails makes every call raise and leaves the input as it was. */
  lemma UnvouchedRaises(env: Env, store: Store, finalize: bool, f: Fields, i: nat)
    requires IsFinal(env.utxo, f) == Some(false) && FindTarget(env, f).Ok? && i < |f.partialSigs|
    requires !Vouched(env, FindTarget(env, f).value, f.partialSigs[i].0, f.partialSigs[i].1)
    ensures SignOnce(env, store, finalize, f) == (f, Raised)
  {
    hide IsFinal, ValidPartialSig, Vouched, SighashRaises, ParseScript, ParseInfo, Complete, GotSingle, FindTarget;
    ValidIsVouched(env, FindTarget(env, f).value, f.partialSigs[i].0, f.partialSigs[i].1);
  }

  /** A multisig input finalised with as many signatures as required, each verifying for the key of its slot. */
  ghost predicate Finished(env: Env, t: Target, info: Info, f0: Fields, f: Fields, slots: Slots) {
    && FindTarget(env, f0) == Ok(t) && t.keyHash.None? && f0.finalScriptWitness == []
    && IsMultisig(env.fullyValid, t.script, info) && CurveKeys(env.fullyValid)
    && SlotsVerify(Ctx(env.crypto, {}, t.version), info.pubkeys, slots, t.script) && CountSome(slots) == info.required
    && Finalize(t, WitnessStack(slots, t.script), f0) == Some(f)
  }

  /** Whole runs from no partial signatures finish in this sense. */
  lemma RunFinishes(env: Env, t: Target, info: Info, f0: Fields, calls: seq<Call>, f: Fields, slots: Slots)
    requires Setting(env, t, info, f0, calls) && Closes(env, t, info, f0, calls, f, slots)
    ensures Finished(env, t, info, f0, f, slots)
  {
    FreshType(env, t, info, f0);
    hide Made, IsLowS, IsValidSignatureEncoding, KnownHashType, FindTarget, IsMultisig, CurveKeys, Honest, CountSome, WitnessStack, Finalize, SighashRaises, Covered;
    forall i | 0 <= i < |slots| && slots[i].Some?
      ensures WellEncoded(slots[i].value) && Verifies(Ctx(env.crypto, {}, t.version), slots[i].value, info.pubkeys[i], t.script)
    {
      MadeGenuine(env, t, info, f0, calls, info.pubkeys[i], slots[i].value);
    }
  }

  /** A standard multisig input that is not final, with partial signatures that are encoded as signatures have to be. */
  ghost predicate Begun(env: Env, t: Target, info: Info, f: Fields) {
    && f.finalScriptSig == [] && f.finalScriptWitness == [] && env.sighashType != Some(0)
    && FindTarget(env, f) == Ok(t) && t.keyHash.None? && IsMultisig(env.fullyValid, t.script, info) && CurveKeys(env.fullyValid)
    && Encoded(f.partialSigs)
  }

  predicate Encoded(d: SigDict) {
    forall k :: 0 <= k < |d| ==> WellEncoded(d[k].1)
  }

  /** Collected signatures come from the dictionary. */
  lemma {:induction false} CollectFrom(info: Info, slots: Slots, d: SigDict, all: SigDict)
    requires |slots| == |info.pubkeys| && (forall k :: 0 <= k < |d| ==> d[k] in all)
    requires forall i :: 0 <= i < |slots| && slots[i].Some? ==> (info.pubkeys[i], slots[i].value) in all
    ensures var r := Collect(info, slots, d);
            r.Some? ==> forall i :: 0 <= i < |slots| && r.value[i].Some? ==> (info.pubkeys[i], r.value[i].value) in all
    decreases |d|
  {
    hide CountSome;
    if d != [] && d[0].0 in info.pubkeys {
      assert d[0] == (d[0].0, d[0].1);
      CollectFrom(info, Place(info, slots, d[0].0, d[0].1).value, d[1..], all);
    }
  }

  /** A slot holds what a signature of the dictionary or of the store is. */
  predicate Sourced(env: Env, t: Target, info: Info, d: SigDict, store: Store, slots: Slots) {
    |slots| == |info.pubkeys|
    && forall i :: 0 <= i < |slots| && slots[i].Some? ==>
         (info.pubkeys[i], slots[i].value) in d || SignerOf(env, t, store)(info.pubkeys[i]) == slots[i]
  }

  lemma FilledFrom(env: Env, t: Target, info: Info, d: SigDict, store: Store, have: Slots)
    requires 1 <= info.required && Collect(info, EmptySlots(|info.pubkeys|), d) == Some(have)
    ensures Sourced(env, t, info, d, store, Fill(info, have, SignerOf(env, t, store), 0))
    ensures CountSome(Fill(info, have, SignerOf(env, t, store), 0)) <= info.required
  {
    CountEmpty(|info.pubkeys|);
    CollectFrom(info, EmptySlots(|info.pubkeys|), d, d);
    CollectCounts(info, EmptySlots(|info.pubkeys|), d, have);
    FillOutcome(info, have, SignerOf(env, t, store), 0);
    hide Collect, Fill, CountSome, SignerOf, Reachable, CountTrue, EmptySlots;
  }

  lemma {:induction false} NewSigsSourced(env: Env, t: Target, info: Info, store: Store, before: Slots, after: Slots)
    requires |before| == |after| <= |info.pubkeys|
    requires forall i :: 0 <= i < |after| && before[i].None? && after[i].Some? ==> SignerOf(env, t, store)(info.pubkeys[i]) == after[i]
    ensures forall k :: 0 <= k < |NewSigs(info, before, after)| ==>
              var (pub, sig) := NewSigs(info, before, after)[k]; pub in info.pubkeys && SignerOf(env, t, store)(pub) == Some(sig)
  {
    hide SignerOf;
    if before != [] {
      var n := |before| - 1;
      NewSigsSourced(env, t, info, store, before[..n], after[..n]);
    }
  }

  /** What an honest store signs is well encoded and verifies. */
  lemma HonestVerifies(env: Env, t: Target, info: Info, store: Store, pub: Bytes, sig: Bytes)
    requires Honest(env, t, info, store) && pub in info.pubkeys && SignerOf(env, t, store)(pub) == Some(sig) && KnownHashType(env.HashType())
    ensures WellEncoded(sig) && Verifies(Ctx(env.crypto, {}, t.version), sig, pub, t.script)
  {
    var i := Position(info.pubkeys, pub);
    assert info.pubkeys[i] == pub;
    var key := store(env.crypto.Hash160(pub)).value;
    assert sig == key.sign(SigHashOf(env, t)) + [env.HashType()];
    assert sig[..|sig| - 1] == key.sign(SigHashOf(env, t));
    hide IsLowS, IsValidSignatureEncoding, KnownHashType;
  }

  lemma SourcedVerifies(env: Env, t: Target, info: Info, f: Fields, store: Store, slots: Slots)
    requires Begun(env, t, info, f) && Honest(env, t, info, store) && ValidPartialSigs(env, t, f.partialSigs)
    requires Sourced(env, t, info, f.partialSigs, store, slots) && KnownHashType(env.HashType())
    ensures SlotsVerify(Ctx(env.crypto, {}, t.version), info.pubkeys, slots, t.script)
  {
    hide FindTarget, IsMultisig, CurveKeys, Honest, WellEncoded, SignerOf, SighashRaises, KnownHashType, Verifies;
    forall i | 0 <= i < |slots| && slots[i].Some?
      ensures WellEncoded(slots[i].value) && Verifies(Ctx(env.crypto, {}, t.version), slots[i].value, info.pubkeys[i], t.script)
    {
      var pub, sig := info.pubkeys[i], slots[i].value;
      if (pub, sig) in f.partialSigs {
        var k :| 0 <= k < |f.partialSigs| && f.partialSigs[k] == (pub, sig);
        ValidVerifies(env, t, f.partialSigs[k].0, f.partialSigs[k].1);
      } else {
        HonestVerifies(env, t, info, store, pub, sig);
      }
    }
  }

  lemma ValidVerifies(env: Env, t: Target, pub: Bytes, sig: Bytes)
    requires ValidPartialSig(env, t, pub, sig)
    ensures Verifies(Ctx(env.crypto, {}, t.version), sig, pub, t.script)
  {
    hide SighashRaises;
  }

  /** What one call leaves: the input finished, or begun as before with well-encoded partial signatures. */
  ghost predicate Continues(env: Env, t: Target, info: Info, f0: Fields, f: Fields) {
    (exists slots :: Finished(env, t, info, f0, f, slots)) || (Begun(env, t, info, f) && f == f0.(partialSigs := f.partialSigs))
  }

  lemma CompleteContinues(env: Env, t: Target, info: Info, f: Fields, store: Store, finalize: bool)
    requires Begun(env, t, info, f) && Honest(env, t, info, store) && ValidPartialSigs(env, t, f.partialSigs)
    ensures var (after, outcome) := Complete(env, t, info, store, finalize, f);
            && (outcome.Raised? ==> after == f)
            && (outcome.Signed? && outcome.isFinal ==> exists slots :: Finished(env, t, info, f, after, slots))
            && (outcome.Signed? && !outcome.isFinal ==> Begun(env, t, info, after) && after == f.(partialSigs := after.partialSigs))
            && outcome != NotSignable
  {
    BegunFacts(env, t, info, f);
    hide Honest, WellEncoded, ValidPartialSigs, FindTarget, IsMultisig, CurveKeys, SignerOf, Sourced, SlotsVerify, CountSome, Collect, Fill, NewSigs, Pushable, PushScript, KnownHashType;
    var collected := Collect(info, EmptySlots(|info.pubkeys|), f.partialSigs);
    if collected.Some? {
      var have := collected.value;
      var all := Fill(info, have, SignerOf(env, t, store), 0);
      FilledFrom(env, t, info, f.partialSigs, store, have);
      SourcedVerifies(env, t, info, f, store, all);
      ItemsPushable(env, t, info, all);
      var added := NewSigs(info, have, all);
      AddedEncoded(env, t, info, store, have, all);
      PartialsLeaveTarget(env, f, f.partialSigs + added);
      assert Encoded(f.partialSigs + added);
      var (after, outcome) := Complete(env, t, info, store, finalize, f);
      if outcome.Signed? && outcome.isFinal {
        assert Finished(env, t, info, f, after, all);
      }
    }
  }

  lemma BegunFacts(env: Env, t: Target, info: Info, f: Fields)
    requires Begun(env, t, info, f)
    ensures 1 <= info.required && KnownHashType(env.HashType())
    ensures IsFinal(env.utxo, f) == Some(false) && Recognised(env.fullyValid, ParseScript(t.script)) && InfoOf(ParseScript(t.script)) == info
  {
    hide ParseScript, IsWitnessScriptPubKey, P2shOutput, P2wshOutput, EncodePush;
  }

  /** Partial signatures do not change what is signed. */
  lemma PartialsLeaveTarget(env: Env, f: Fields, d: SigDict)
    ensures FindTarget(env, f.(partialSigs := d)) == FindTarget(env, f)
  {
    hide IsWitnessScriptPubKey, P2shOutput, P2wshOutput, EncodePush, KnownHashType;
  }

  lemma ItemsPushable(env: Env, t: Target, info: Info, slots: Slots)
    requires IsMultisig(env.fullyValid, t.script, info) && CurveKeys(env.fullyValid)
    requires SlotsVerify(Ctx(env.crypto, {}, t.version), info.pubkeys, slots, t.script)
    ensures Pushable(WitnessStack(slots, t.script))
  {
    MultisigSize(env.fullyValid, t.script, info);
    hide IsMultisig, CurveKeys, IsLowS, Verifies, KnownHashType;
    assert forall i :: 0 <= i < |slots| && slots[i].Some? ==> |slots[i].value| <= 73;
    hide SlotsVerify, WellEncoded;
    PresentSizes(slots, 73);
  }

  lemma AddedEncoded(env: Env, t: Target, info: Info, store: Store, have: Slots, all: Slots)
    requires Honest(env, t, info, store) && KnownHashType(env.HashType()) && 1 <= info.required
    requires |have| == |info.pubkeys| && CountSome(have) <= info.required && all == Fill(info, have, SignerOf(env, t, store), 0)
    ensures Encoded(NewSigs(info, have, all))
  {
    hide Honest, SignerOf, KnownHashType, WellEncoded, CountSome, CountTrue, Reachable, Fill;
    FillOutcome(info, have, SignerOf(env, t, store), 0);
    NewSigsSourced(env, t, info, store, have, all);
    var d := NewSigs(info, have, all);
    forall k | 0 <= k < |d|
      ensures WellEncoded(d[k].1)
    {
      HonestVerifies(env, t, info, store, d[k].0, d[k].1);
    }
  }

  /** One call with an honest store. */
  lemma CallContinues(env: Env, t: Target, info: Info, f: Fields, store: Store, finalize: bool, after: Fields, outcome: Outcome)
    requires Begun(env, t, info, f) && Honest(env, t, info, store) && SignOnce(env, store, finalize, f) == (after, outcome)
    ensures outcome.Signed? && outcome.isFinal ==> exists slots :: Finished(env, t, info, f, after, slots)
    ensures !(outcome.Signed? && outcome.isFinal) ==> Begun(env, t, info, after) && after == f.(partialSigs := after.partialSigs)
  {
    BegunFacts(env, t, info, f);
    if ValidPartialSigs(env, t, f.partialSigs) {
      CompleteContinues(env, t, info, f, store, finalize);
    }
    hide Honest, WellEncoded, ValidPartialSigs, FindTarget, IsMultisig, CurveKeys, SighashRaises, IsFinal, Recognised, ParseScript, Finished, Complete, KnownHashType;
  }

  /** Final fields depend on the target and the items alone. */
  lemma FinishedFrom(env: Env, t: Target, info: Info, f0: Fields, f: Fields, after: Fields, slots: Slots)
    requires Finished(env, t, info, f, after, slots) && f == f0.(partialSigs := f.partialSigs)
    ensures Finished(env, t, info, f0, after, slots)
  {
    PartialsLeaveTarget(env, f0, f.partialSigs);
    hide FindTarget, IsMultisig, CurveKeys, SlotsVerify, CountSome, WitnessStack, Pushable, PushScript;
  }

  /** After any run with honest stores, from any well-encoded partial signatures: final exactly if finished, and every item of it verifies. */
  lemma {:induction false} AnyRunContinues(env: Env, t: Target, info: Info, f0: Fields, calls: seq<Call>, states: seq<Fields>, outcomes: seq<Outcome>)
    requires Begun(env, t, info, f0) && IsRun(env, calls, states, outcomes) && states[0] == f0
    requires forall c :: 0 <= c < |calls| ==> Honest(env, t, info, calls[c].store)
    ensures Continues(env, t, info, f0, states[|calls|])
    ensures calls != [] && outcomes[|calls| - 1].Signed? && outcomes[|calls| - 1].isFinal ==> exists slots :: Finished(env, t, info, f0, states[|calls|], slots)
    decreases |calls|
  {
    if calls == [] {
      assert f0 == f0.(partialSigs := f0.partialSigs);
    } else {
      var n := |calls| - 1;
      var f, after := states[n], states[n + 1];
      assert SignOnce(env, calls[n].store, calls[n].finalize, f) == (after, outcomes[n]);
      hide SignOnce, Honest, Begun, Finished;
      AnyRunContinues(env, t, info, f0, calls[..n], states[..n + 1], outcomes[..n]);
      if slots :| Finished(env, t, info, f0, f, slots) {
        FinishedStays(env, t, info, f0, f, slots, calls[n].store, calls[n].finalize);
      } else {
        CallContinues(env, t, info, f, calls[n].store, calls[n].finalize, after, outcomes[n]);
        if slots :| Finished(env, t, info, f, after, slots) {
          FinishedFrom(env, t, info, f0, f, after, slots);
        }
      }
    }
  }

  lemma FinishedStays(env: Env, t: Target, info: Info, f0: Fields, f: Fields, slots: Slots, store: Store, finalize: bool)
    requires Finished(env, t, info, f0, f, slots) && env.sighashType != Some(0)
    ensures SignOnce(env, store, finalize, f) == (f, Signed(0, 0, true))
  {
    ClosedIsFinal(env, t, info, f0, WitnessStack(slots, t.script), f);
    hide FindTarget, IsFinal, IsMultisig, CurveKeys, SlotsVerify, WitnessStack;
  }
}
