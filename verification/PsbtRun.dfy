/** Whole runs of sign: the input is ready exactly when the keys seen so far reach the threshold. */
module PsbtRun {
  import opened Core
  import opened Script
  import opened DerSignature
  import opened Interp
  import opened MultisigScript
  import opened PsbtSign
  import opened PsbtInput
  import opened Spend

  function Lookup(d: SigDict, pub: Bytes): (r: Option<Bytes>)
    ensures r.None? <==> forall i :: 0 <= i < |d| ==> d[i].0 != pub
  {
    if d == [] then None
    else if d[|d| - 1].0 == pub then Some(d[|d| - 1].1)
    else Lookup(d[..|d| - 1], pub)
  }

  function SlotsOf(info: Info, d: SigDict): (s: Slots)
    ensures |s| == |info.pubkeys| && forall i :: 0 <= i < |s| ==> s[i] == Lookup(d, info.pubkeys[i])
  {
    seq(|info.pubkeys|, i requires 0 <= i < |info.pubkeys| => Lookup(d, info.pubkeys[i]))
  }

  predicate ForScript(info: Info, d: SigDict) {
    IsDict(d) && Distinct(info.pubkeys) && forall i :: 0 <= i < |d| ==> d[i].0 in info.pubkeys
  }

  /** One more entry fills one more slot. */
  lemma SlotsOfStep(info: Info, d: SigDict)
    requires d != [] && ForScript(info, d)
    ensures var n := |d| - 1; var i := Position(info.pubkeys, d[n].0);
            && ForScript(info, d[..n]) && SlotsOf(info, d[..n])[i].None?
            && SlotsOf(info, d) == SlotsOf(info, d[..n])[i := Some(d[n].1)]
  {
  }

  lemma {:induction false} SlotsCount(info: Info, d: SigDict)
    requires ForScript(info, d)
    ensures CountSome(SlotsOf(info, d)) == |d|
  {
    hide CountSome;
    if d == [] {
      assert SlotsOf(info, d) == EmptySlots(|info.pubkeys|);
      CountEmpty(|info.pubkeys|);
    } else {
      SlotsOfStep(info, d);
      var n := |d| - 1;
      SlotsCount(info, d[..n]);
      CountUpdate(SlotsOf(info, d[..n]), Position(info.pubkeys, d[n].0), d[n].1);
    }
  }

  /** Collecting a dictionary within the threshold places all of it. */
  lemma {:induction false} CollectAll(info: Info, d: SigDict, k: nat)
    requires ForScript(info, d) && k <= |d| <= info.required
    ensures Collect(info, SlotsOf(info, d[..k]), d[k..]) == Some(SlotsOf(info, d))
    decreases |d| - k
  {
    hide SlotsOf, CountSome;
    if k == |d| {
      assert d[..k] == d;
    } else {
      var e := d[..k + 1];
      assert e[..k] == d[..k] && d[k..][1..] == d[k + 1..] && d[k..][0] == e[k];
      SlotsOfStep(info, e);
      SlotsCount(info, e);
      SlotsCount(info, d[..k]);
      assert Place(info, SlotsOf(info, d[..k]), d[k].0, d[k].1) == Some(SlotsOf(info, e));
      if k + 1 < |d| {
        CollectAll(info, d, k + 1);
      } else {
        assert e == d;
        CollectAll(info, d, k + 1);
      }
    }
  }

  predicate Extends(a: Slots, b: Slots) {
    |a| == |b| && forall i :: 0 <= i < |a| && a[i].Some? ==> b[i] == a[i]
  }

  lemma AddEntry(info: Info, e: SigDict, i: nat, sig: Bytes)
    requires ForScript(info, e) && i < |info.pubkeys| && Lookup(e, info.pubkeys[i]).None?
    ensures var f := e + [(info.pubkeys[i], sig)];
            && ForScript(info, f)
            && forall j :: 0 <= j < |info.pubkeys| ==> Lookup(f, info.pubkeys[j]) == if j == i then Some(sig) else Lookup(e, info.pubkeys[j])
  {
    var f := e + [(info.pubkeys[i], sig)];
    assert f[..|f| - 1] == e;
  }

  /** Adding the new signatures to the dictionary keeps it a dictionary, and is filling the slots. */
  lemma {:induction false} NewSigsFill(info: Info, d: SigDict, all: Slots, n: nat)
    requires ForScript(info, d) && Extends(SlotsOf(info, d), all) && n <= |all|
    ensures var e := d + NewSigs(info, SlotsOf(info, d)[..n], all[..n]);
            && ForScript(info, e)
            && forall j :: 0 <= j < |all| ==> Lookup(e, info.pubkeys[j]) == if j < n then all[j] else Lookup(d, info.pubkeys[j])
  {
    hide SlotsOf, ForScript, Lookup;
    var have := SlotsOf(info, d);
    if n == 0 {
      assert d + NewSigs(info, have[..0], all[..0]) == d;
    } else {
      NewSigsFill(info, d, all, n - 1);
      assert have[..n][..n - 1] == have[..n - 1] && all[..n][..n - 1] == all[..n - 1];
      var e := d + NewSigs(info, have[..n - 1], all[..n - 1]);
      var f := d + NewSigs(info, have[..n], all[..n]);
      assert have[n - 1] == Lookup(d, info.pubkeys[n - 1]) == Lookup(e, info.pubkeys[n - 1]);
      if have[n - 1].None? && all[n - 1].Some? {
        assert f == e + [(info.pubkeys[n - 1], all[n - 1].value)];
        AddEntry(info, e, n - 1, all[n - 1].value);
      } else {
        assert f == e;
      }
    }
  }

  /** Signing never makes a partial signature for a key twice, even when the partial signatures are arbitrary. */
  lemma CompleteKeepsDict(info: Info, d: SigDict, have: Slots, signer: Signer)
    requires IsDict(d) && Distinct(info.pubkeys) && Collect(info, EmptySlots(|info.pubkeys|), d) == Some(have)
    requires 1 <= info.required
    ensures IsDict(d + NewSigs(info, have, Fill(info, have, signer, 0)))
  {
    var all := Fill(info, have, signer, 0);
    CountEmpty(|info.pubkeys|);
    CollectCounts(info, EmptySlots(|info.pubkeys|), d, have);
    if CountSome(have) == info.required {
      FillEnough(info, have, signer, 0);
      NoNewSigs(info, have);
      assert d + [] == d;
    } else {
      CollectPlaces(info, EmptySlots(|info.pubkeys|), d, have);
      NewSigsFresh(info, have, all);
    }
  }

  lemma {:induction false} CollectCounts(info: Info, slots: Slots, d: SigDict, have: Slots)
    requires |slots| == |info.pubkeys| && CountSome(slots) <= info.required && Collect(info, slots, d) == Some(have)
    ensures CountSome(have) <= info.required
    decreases |d|
  {
    hide CountSome;
    if d != [] {
      var next := Place(info, slots, d[0].0, d[0].1).value;
      PlaceCounts(info, slots, d[0].0, d[0].1);
      if CountSome(next) < info.required {
        CollectCounts(info, next, d[1..], have);
      }
    }
  }

  /** Short of the threshold, every entry has its slot filled. */
  lemma {:induction false} CollectPlaces(info: Info, slots: Slots, d: SigDict, have: Slots)
    requires |slots| == |info.pubkeys| && Collect(info, slots, d) == Some(have) && CountSome(slots) < info.required
    requires CountSome(have) < info.required
    ensures forall i :: 0 <= i < |slots| && slots[i].Some? ==> have[i].Some?
    ensures forall k :: 0 <= k < |d| ==> d[k].0 in info.pubkeys && have[Position(info.pubkeys, d[k].0)].Some?
    decreases |d|
  {
    hide CountSome;
    if d != [] {
      var next := Place(info, slots, d[0].0, d[0].1).value;
      PlaceCounts(info, slots, d[0].0, d[0].1);
      CollectPlaces(info, next, d[1..], have);
      assert forall k :: 0 < k < |d| ==> d[k] == d[1..][k - 1];
    }
  }

  lemma {:induction false} NewSigsFresh(info: Info, before: Slots, after: Slots)
    requires |before| == |after| <= |info.pubkeys| && Distinct(info.pubkeys)
    ensures var r := NewSigs(info, before, after);
            && IsDict(r)
            && forall k :: 0 <= k < |r| ==> r[k].0 in info.pubkeys && Position(info.pubkeys, r[k].0) < |before| && before[Position(info.pubkeys, r[k].0)].None?
  {
    if before != [] {
      var n := |before| - 1;
      NewSigsFresh(info, before[..n], after[..n]);
      PositionIs(info.pubkeys, n);
    }
  }

  datatype Call = Call(store: Store, finalize: bool)

  /** The store signs the input correctly: what it signs for a key of the script verifies, and is encoded as signatures have to be. */
  predicate Honest(env: Env, t: Target, info: Info, store: Store) {
    forall i :: 0 <= i < |info.pubkeys| ==>
      var pub, h := info.pubkeys[i], SigHashOf(env, t);
      match store(env.crypto.Hash160(pub))
      case None => true
      case Some(key) => Genuine(env.crypto, env.HashType(), pub, h, key.sign(h))
  }

  predicate Genuine(k: Crypto, hashType: byte, pub: Bytes, h: Bytes, der: Bytes) {
    k.verify(pub, h, der) && IsValidSignatureEncoding(der + [hashType]) && IsLowS(der + [hashType])
  }

  /** A standard multisig input, not yet signed. */
  predicate Fresh(env: Env, t: Target, info: Info, f0: Fields) {
    && f0.partialSigs == [] && f0.finalScriptSig == [] && f0.finalScriptWitness == []
    && env.sighashType != Some(0) && FindTarget(env, f0) == Ok(t) && t.keyHash.None?
    && IsMultisig(env.fullyValid, t.script, info)
  }

  /** The keys the curve accepts are 33 or 65 bytes and do not look like a signature. */
  ghost predicate CurveKeys(fullyValid: Bytes -> bool) {
    forall key :: fullyValid(key) ==> 33 <= |key| <= 65 && key[0] != 0x30
  }

  /** A run: one call after the other, each from the fields the last one left. */
  predicate IsRun(env: Env, calls: seq<Call>, states: seq<Fields>, outcomes: seq<Outcome>) {
    && |states| == |calls| + 1 && |outcomes| == |calls|
    && forall i :: 0 <= i < |calls| ==> SignOnce(env, calls[i].store, calls[i].finalize, states[i]) == (states[i + 1], outcomes[i])
  }

  /** Some store of the calls has the key. */
  predicate HasKey(env: Env, calls: seq<Call>, pub: Bytes) {
    exists c :: 0 <= c < |calls| && calls[c].store(env.crypto.Hash160(pub)).Some?
  }

  function Seen(env: Env, t: Target, info: Info, calls: seq<Call>): (b: seq<bool>)
    ensures |b| == |info.pubkeys| && forall i :: 0 <= i < |b| ==> b[i] == HasKey(env, calls, info.pubkeys[i])
  {
    seq(|info.pubkeys|, i requires 0 <= i < |info.pubkeys| => HasKey(env, calls, info.pubkeys[i]))
  }

  /** How many of the script's keys the calls have brought. */
  function Covered(env: Env, t: Target, info: Info, calls: seq<Call>): nat {
    CountTrue(Seen(env, t, info, calls))
  }

  /** The signature is one that a store of the calls made. */
  predicate Made(env: Env, t: Target, calls: seq<Call>, pub: Bytes, sig: Bytes) {
    exists c :: 0 <= c < |calls| && SignerOf(env, t, calls[c].store)(pub) == Some(sig)
  }

  predicate AllMade(env: Env, t: Target, info: Info, calls: seq<Call>, slots: Slots) {
    |slots| == |info.pubkeys| && forall i :: 0 <= i < |slots| && slots[i].Some? ==> Made(env, t, calls, info.pubkeys[i], slots[i].value)
  }

  /** Before the end: the partial signatures are those of all keys seen, or of as many as are needed. */
  predicate Open(env: Env, t: Target, info: Info, f0: Fields, calls: seq<Call>, f: Fields) {
    var slots := SlotsOf(info, f.partialSigs);
    && f == f0.(partialSigs := f.partialSigs)
    && ForScript(info, f.partialSigs) && |f.partialSigs| <= info.required
    && AllMade(env, t, info, calls, slots)
    && (|f.partialSigs| == info.required <==> Covered(env, t, info, calls) >= info.required)
    && (|f.partialSigs| < info.required ==> forall i :: 0 <= i < |slots| ==> (slots[i].Some? <==> HasKey(env, calls, info.pubkeys[i])))
  }

  /** At the end: exactly as many signatures as required, in key order, and no other field left. */
  predicate Closes(env: Env, t: Target, info: Info, f0: Fields, calls: seq<Call>, f: Fields, slots: Slots) {
    && AllMade(env, t, info, calls, slots) && CountSome(slots) == info.required
    && Covered(env, t, info, calls) >= info.required
    && Finalize(t, WitnessStack(slots, t.script), f0) == Some(f)
  }

  ghost predicate Closed(env: Env, t: Target, info: Info, f0: Fields, calls: seq<Call>, f: Fields) {
    exists slots :: Closes(env, t, info, f0, calls, f, slots)
  }

  /** Some call asked to finalise once the keys were there. */
  predicate Finalized(env: Env, t: Target, info: Info, calls: seq<Call>) {
    exists n :: 0 < n <= |calls| && calls[n - 1].finalize && Covered(env, t, info, calls[..n]) >= info.required
  }

  ghost predicate Progress(env: Env, t: Target, info: Info, f0: Fields, calls: seq<Call>, f: Fields) {
    if Finalized(env, t, info, calls) then Closed(env, t, info, f0, calls, f) else Open(env, t, info, f0, calls, f)
  }

  /** What a call reports: how many signatures are still missing, and whether the input is final. */
  predicate Reports(env: Env, t: Target, info: Info, calls: seq<Call>, outcome: Outcome) {
    var covered := Covered(env, t, info, calls);
    && outcome.Signed?
    && outcome.missing == (if covered >= info.required then 0 else info.required - covered)
    && (outcome.isFinal <==> Finalized(env, t, info, calls))
  }

  lemma SeenGrows(env: Env, t: Target, info: Info, calls: seq<Call>, call: Call)
    ensures var more := calls + [call];
            && forall pub :: HasKey(env, more, pub) <==> HasKey(env, calls, pub) || call.store(env.crypto.Hash160(pub)).Some?
    ensures Covered(env, t, info, calls) <= Covered(env, t, info, calls + [call])
  {
    var more := calls + [call];
    forall pub
      ensures HasKey(env, more, pub) <==> HasKey(env, calls, pub) || call.store(env.crypto.Hash160(pub)).Some?
    {
      if HasKey(env, calls, pub) {
        var c :| 0 <= c < |calls| && calls[c].store(env.crypto.Hash160(pub)).Some?;
        assert more[c] == calls[c];
      }
      if call.store(env.crypto.Hash160(pub)).Some? {
        assert more[|calls|] == call;
      }
    }
    CountMonotone(Seen(env, t, info, calls), Seen(env, t, info, more));
  }

  lemma MadeGrows(env: Env, t: Target, calls: seq<Call>, call: Call, pub: Bytes, sig: Bytes)
    requires Made(env, t, calls, pub, sig) || SignerOf(env, t, call.store)(pub) == Some(sig)
    ensures Made(env, t, calls + [call], pub, sig)
  {
    var more := calls + [call];
    if Made(env, t, calls, pub, sig) {
      var c :| 0 <= c < |calls| && SignerOf(env, t, calls[c].store)(pub) == Some(sig);
      assert more[c] == calls[c];
    } else {
      assert more[|calls|] == call;
    }
  }

  lemma FinalizedGrows(env: Env, t: Target, info: Info, calls: seq<Call>, call: Call)
    ensures Finalized(env, t, info, calls + [call]) ==
            (Finalized(env, t, info, calls) || (call.finalize && Covered(env, t, info, calls + [call]) >= info.required))
  {
    hide Covered;
    var more := calls + [call];
    assert more[..|more|] == more;
    if Finalized(env, t, info, calls) {
      var n :| 0 < n <= |calls| && calls[n - 1].finalize && Covered(env, t, info, calls[..n]) >= info.required;
      assert more[..n] == calls[..n];
    }
    if Finalized(env, t, info, more) {
      var n :| 0 < n <= |more| && more[n - 1].finalize && Covered(env, t, info, more[..n]) >= info.required;
      if n <= |calls| {
        assert more[..n] == calls[..n];
      }
    }
  }

  lemma RawSize(op: Op)
    requires IsOp(op)
    ensures |op.raw| <= |op.data| + 5
  {
    assert op.raw[..|op.raw|] == op.raw;
  }

  lemma {:induction false} ConcatSize(ops: seq<Op>)
    requires forall i :: 0 <= i < |ops| ==> IsOp(ops[i]) && |ops[i].data| <= 65
    ensures |Concat(ops)| <= |ops| * 70
  {
    hide IsOp;
    if ops != [] {
      RawSize(ops[0]);
      ConcatSize(ops[1..]);
    }
  }

  /** A standard multisig script is far below every size limit. */
  lemma MultisigSize(fullyValid: Bytes -> bool, script: Bytes, info: Info)
    requires IsMultisig(fullyValid, script, info) && CurveKeys(fullyValid)
    ensures |script| <= 1260
  {
    assert ParseScript(script).error.None?;
    hide ParseScript, IsMultisig, Concat, IsOp;
    var ops := ParseScript(script).ops;
    ConcatParse(script);
    forall i | 0 <= i < |ops|
      ensures IsOp(ops[i]) && |ops[i].data| <= 65
    {
      assert ops[i] in ops;
      MultisigOp(fullyValid, script, info, i);
    }
    ConcatSize(ops);
    MultisigOp(fullyValid, script, info, 0);
  }

  /** What each op of a multisig script is. */
  lemma MultisigOp(fullyValid: Bytes -> bool, script: Bytes, info: Info, i: nat)
    requires IsMultisig(fullyValid, script, info) && (i == 0 || i < |ParseScript(script).ops|)
    ensures var ops, n := ParseScript(script).ops, |info.pubkeys|;
            && |ops| == n + 3 <= 18
            && ops[i] == (if i == 0 then BareOp(0x50 + info.required)
                          else if i <= n then Op(ops[i].code, info.pubkeys[i - 1], ops[i].raw)
                          else if i == n + 1 then BareOp(0x50 + n)
                          else BareOp(OP_CHECKMULTISIG))
            && (1 <= i <= n ==> ops[i].code <= OP_PUSHDATA4 && fullyValid(info.pubkeys[i - 1]))
  {
    var ops := ParseScript(script).ops;
    assert ops[i] in ops;
    if ops[i].code > OP_PUSHDATA4 {
      assert ops[i].raw[..1] == ops[i].raw by {
        assert ReadOp(ops[i].raw) == Ok(ops[i]);
        assert ops[i].raw == ops[i].raw[..1];
      }
    }
  }

  lemma {:induction false} PresentSizes(slots: Slots, size: nat)
    requires forall i :: 0 <= i < |slots| && slots[i].Some? ==> |slots[i].value| <= size
    ensures |Present(slots)| == CountSome(slots)
    ensures forall i :: 0 <= i < |Present(slots)| ==> |Present(slots)[i]| <= size
  {
    if slots != [] {
      PresentSizes(slots[..|slots| - 1], size);
    }
  }

  /** Everything assumed of a run. */
  ghost predicate Setting(env: Env, t: Target, info: Info, f0: Fields, calls: seq<Call>) {
    && Fresh(env, t, info, f0) && CurveKeys(env.fullyValid) && !SighashRaises(env, t, env.HashType())
    && forall c :: 0 <= c < |calls| ==> Honest(env, t, info, calls[c].store)
  }

  lemma FreshType(env: Env, t: Target, info: Info, f0: Fields)
    requires Fresh(env, t, info, f0)
    ensures KnownHashType(env.HashType()) && (env.sighashType.Some? ==> env.sighashType.value == env.HashType())
  {
    hide IsMultisig, WitnessTarget;
  }

  /** A signature made in the run is genuine for the signature hash of the input. */
  lemma MadeGenuine(env: Env, t: Target, info: Info, f0: Fields, calls: seq<Call>, pub: Bytes, sig: Bytes)
    requires Setting(env, t, info, f0, calls) && Made(env, t, calls, pub, sig) && pub in info.pubkeys
    ensures 9 <= |sig| <= 73 && sig[|sig| - 1] == env.HashType()
    ensures sig == sig[..|sig| - 1] + [env.HashType()]
    ensures Genuine(env.crypto, env.HashType(), pub, SigHashOf(env, t), sig[..|sig| - 1])
    ensures ValidPartialSig(env, t, pub, sig)
  {
    FreshType(env, t, info, f0);
    hide FindTarget, IsMultisig, CurveKeys, IsLowS, SighashRaises, KnownHashType;
    var c :| 0 <= c < |calls| && SignerOf(env, t, calls[c].store)(pub) == Some(sig);
    var der := calls[c].store(env.crypto.Hash160(pub)).value.sign(SigHashOf(env, t));
    assert Honest(env, t, info, calls[c].store);
    var i := Position(info.pubkeys, pub);
    assert info.pubkeys[i] == pub;
    assert sig == der + [env.HashType()] && sig[..|sig| - 1] == der;
    assert Genuine(env.crypto, env.HashType(), pub, SigHashOf(env, t), der);
  }

  /** Filling is adding the new signatures to the dictionary. */
  lemma FillSlots(info: Info, d: SigDict, signer: Signer, all: Slots)
    requires ForScript(info, d) && |d| <= info.required && all == Fill(info, SlotsOf(info, d), signer, 0)
    ensures Collect(info, EmptySlots(|info.pubkeys|), d) == Some(SlotsOf(info, d))
    ensures var have := SlotsOf(info, d); var e := d + NewSigs(info, have, all);
            && ForScript(info, e) && SlotsOf(info, e) == all && CountSome(all) == |e| <= info.required
            && CountSome(have) == |d|
  {
    var have := SlotsOf(info, d);
    hide Fill, CountSome, Reachable, CountTrue, NewSigs, Collect;
    assert SlotsOf(info, d[..0]) == EmptySlots(|info.pubkeys|) && d[0..] == d;
    CollectAll(info, d, 0);
    SlotsCount(info, d);
    FillOutcome(info, have, signer, 0);
    NewSigsFill(info, d, all, |all|);
    assert have[..|all|] == have && all[..|all|] == all;
    var e := d + NewSigs(info, have, all);
    assert SlotsOf(info, e) == all;
    SlotsCount(info, e);
  }

  lemma FillMade(env: Env, t: Target, info: Info, calls: seq<Call>, call: Call, have: Slots, all: Slots)
    requires AllMade(env, t, info, calls, have) && CountSome(have) <= info.required
    requires all == Fill(info, have, SignerOf(env, t, call.store), 0)
    ensures AllMade(env, t, info, calls + [call], all)
  {
    hide CountSome, CountTrue, Reachable, Fill, SignerOf, Made;
    FillOutcome(info, have, SignerOf(env, t, call.store), 0);
    forall i | 0 <= i < |all| && all[i].Some?
      ensures Made(env, t, calls + [call], info.pubkeys[i], all[i].value)
    {
      if have[i].Some? {
        assert Made(env, t, calls, info.pubkeys[i], have[i].value);
      }
      MadeGrows(env, t, calls, call, info.pubkeys[i], all[i].value);
    }
  }

  /** Whether the threshold is reached depends on the keys seen alone. */
  lemma FillCovers(env: Env, t: Target, info: Info, calls: seq<Call>, call: Call, have: Slots, all: Slots)
    requires |have| == |info.pubkeys| && CountSome(have) <= info.required
    requires CountSome(have) == info.required <==> Covered(env, t, info, calls) >= info.required
    requires CountSome(have) < info.required ==> forall i :: 0 <= i < |have| ==> (have[i].Some? <==> HasKey(env, calls, info.pubkeys[i]))
    requires all == Fill(info, have, SignerOf(env, t, call.store), 0)
    ensures var more := calls + [call];
            && (CountSome(all) == info.required <==> Covered(env, t, info, more) >= info.required)
            && (CountSome(all) < info.required ==> forall i :: 0 <= i < |all| ==> (all[i].Some? <==> HasKey(env, more, info.pubkeys[i])))
  {
    var more, signer := calls + [call], SignerOf(env, t, call.store);
    SeenGrows(env, t, info, calls, call);
    if CountSome(have) == info.required {
      FillEnough(info, have, signer, 0);
    } else {
      FillOutcome(info, have, signer, 0);
      hide CountSome, CountTrue, Fill, HasKey;
      assert forall i :: 0 <= i < |have| ==> (signer(info.pubkeys[i]).Some? <==> call.store(env.crypto.Hash160(info.pubkeys[i])).Some?);
      assert Reachable(info, have, signer, 0) == Seen(env, t, info, more);
    }
  }

  /** Filling from one more store keeps the run open, now with its keys. */
  lemma FillOpen(env: Env, t: Target, info: Info, f0: Fields, calls: seq<Call>, call: Call, f: Fields, all: Slots)
    requires Open(env, t, info, f0, calls, f)
    requires all == Fill(info, SlotsOf(info, f.partialSigs), SignerOf(env, t, call.store), 0)
    ensures var have, more := SlotsOf(info, f.partialSigs), calls + [call];
            && Collect(info, EmptySlots(|info.pubkeys|), f.partialSigs) == Some(have)
            && Open(env, t, info, f0, more, f.(partialSigs := f.partialSigs + NewSigs(info, have, all)))
            && AllMade(env, t, info, more, all)
            && CountSome(all) <= info.required
            && (CountSome(all) == info.required <==> Covered(env, t, info, more) >= info.required)
            && (CountSome(all) < info.required ==> forall i :: 0 <= i < |all| ==> (all[i].Some? <==> HasKey(env, more, info.pubkeys[i])))
  {
    hide Fill, CountSome, NewSigs, Collect, Covered, HasKey, SignerOf, SlotsOf, ForScript, AllMade, EmptySlots;
    var have := SlotsOf(info, f.partialSigs);
    FillSlots(info, f.partialSigs, SignerOf(env, t, call.store), all);
    FillMade(env, t, info, calls, call, have, all);
    FillCovers(env, t, info, calls, call, have, all);
  }

  lemma OpenSigsValid(env: Env, t: Target, info: Info, f0: Fields, calls: seq<Call>, f: Fields)
    requires Setting(env, t, info, f0, calls) && Open(env, t, info, f0, calls, f)
    ensures ValidPartialSigs(env, t, f.partialSigs)
  {
    hide Setting;
    var d := f.partialSigs;
    forall i | 0 <= i < |d|
      ensures ValidPartialSig(env, t, d[i].0, d[i].1)
    {
      var p := Position(info.pubkeys, d[i].0);
      LookupIn(d, i);
      assert SlotsOf(info, d)[p] == Some(d[i].1);
      MadeGenuine(env, t, info, f0, calls, d[i].0, d[i].1);
    }
  }

  lemma {:induction false} LookupIn(d: SigDict, i: nat)
    requires IsDict(d) && i < |d|
    ensures Lookup(d, d[i].0) == Some(d[i].1)
  {
    if i < |d| - 1 {
      LookupIn(d[..|d| - 1], i);
    }
  }

  lemma FinalItemsFit(env: Env, t: Target, info: Info, f0: Fields, calls: seq<Call>, slots: Slots)
    requires Setting(env, t, info, f0, calls) && AllMade(env, t, info, calls, slots)
    ensures Pushable(WitnessStack(slots, t.script))
  {
    SettingScript(env, t, info, f0, calls);
    MultisigSize(env.fullyValid, t.script, info);
    hide Setting, IsMultisig, CurveKeys, ValidPartialSig, Genuine, Made;
    forall i | 0 <= i < |slots| && slots[i].Some?
      ensures |slots[i].value| <= 73
    {
      MadeGenuine(env, t, info, f0, calls, info.pubkeys[i], slots[i].value);
    }
    PresentSizes(slots, 73);
  }

  lemma SettingScript(env: Env, t: Target, info: Info, f0: Fields, calls: seq<Call>)
    requires Setting(env, t, info, f0, calls)
    ensures IsMultisig(env.fullyValid, t.script, info) && CurveKeys(env.fullyValid)
  {
    hide IsMultisig, CurveKeys, Honest, FindTarget;
  }

  /** What signing does once the fill is known. */
  lemma CompleteOpen(env: Env, t: Target, info: Info, f0: Fields, calls: seq<Call>, call: Call, f: Fields, have: Slots, all: Slots)
    requires 1 <= info.required && f == f0.(partialSigs := f.partialSigs) && Pushable(WitnessStack(all, t.script))
    requires Collect(info, EmptySlots(|info.pubkeys|), f.partialSigs) == Some(have)
    requires all == Fill(info, have, SignerOf(env, t, call.store), 0)
    requires AllMade(env, t, info, calls, all) && CountSome(all) <= info.required
    requires CountSome(all) == info.required <==> Covered(env, t, info, calls) >= info.required
    ensures var (after, outcome) := Complete(env, t, info, call.store, call.finalize, f);
            && outcome.Signed?
            && outcome.missing == (if Covered(env, t, info, calls) >= info.required then 0 else info.required - CountSome(all))
            && (outcome.isFinal <==> call.finalize && Covered(env, t, info, calls) >= info.required)
            && (outcome.isFinal ==> Closes(env, t, info, f0, calls, after, all))
            && (!outcome.isFinal ==> after == f.(partialSigs := f.partialSigs + NewSigs(info, have, all)))
  {
    hide Collect, Fill, NewSigs, WitnessStack, Covered, AllMade, CountSome, SignerOf, EmptySlots, Pushable, PushScript;
  }

  /** A call on an open run gets as far as signing. */
  lemma SignIsComplete(env: Env, t: Target, info: Info, f0: Fields, calls: seq<Call>, call: Call, f: Fields)
    requires Setting(env, t, info, f0, calls) && Open(env, t, info, f0, calls, f)
    ensures SignOnce(env, call.store, call.finalize, f) == Complete(env, t, info, call.store, call.finalize, f)
    ensures 1 <= info.required
  {
    OpenSigsValid(env, t, info, f0, calls, f);
    FreshTarget(env, t, info, f0, f, f.partialSigs);
    assert 1 <= info.required by {
      hide ParseScript, FindTarget;
    }
    hide ValidPartialSigs, Collect, Fill, NewSigs, AllMade, CountSome, SlotsOf, ParseScript, IsMultisig, FindTarget, IsFinal, Recognised, InfoOf, ForScript, HasKey, Complete, Honest, CurveKeys, Covered, SighashRaises;
  }

  /** Signing on an open run leaves it open with one more store, or closes it. */
  lemma CompleteProgress(env: Env, t: Target, info: Info, f0: Fields, calls: seq<Call>, call: Call, f: Fields)
    requires Setting(env, t, info, f0, calls + [call]) && Open(env, t, info, f0, calls, f) && 1 <= info.required
    ensures var (after, outcome) := Complete(env, t, info, call.store, call.finalize, f);
            var more := calls + [call]; var covered := Covered(env, t, info, more);
            && outcome.Signed?
            && outcome.missing == (if covered >= info.required then 0 else info.required - covered)
            && (outcome.isFinal <==> call.finalize && covered >= info.required)
            && (if outcome.isFinal then Closed(env, t, info, f0, more, after) else Open(env, t, info, f0, more, after))
  {
    var more, have := calls + [call], SlotsOf(info, f.partialSigs);
    var all := Fill(info, have, SignerOf(env, t, call.store), 0);
    assert f == f0.(partialSigs := f.partialSigs);
    hide Setting, Collect, Fill, NewSigs, WitnessStack, Covered, AllMade, CountSome, SignerOf, SlotsOf, ForScript, EmptySlots, HasKey, Closes, Complete, Open, Pushable;
    FillOpen(env, t, info, f0, calls, call, f, all);
    FinalItemsFit(env, t, info, f0, more, all);
    SlotsCovered(env, t, info, more, all);
    CompleteOpen(env, t, info, f0, more, call, f, have, all);
  }

  /** A call on an open run. */
  lemma StepOpen(env: Env, t: Target, info: Info, f0: Fields, calls: seq<Call>, call: Call, f: Fields, after: Fields, outcome: Outcome)
    requires Setting(env, t, info, f0, calls + [call]) && Setting(env, t, info, f0, calls)
    requires Open(env, t, info, f0, calls, f) && !Finalized(env, t, info, calls)
    requires SignOnce(env, call.store, call.finalize, f) == (after, outcome)
    ensures Progress(env, t, info, f0, calls + [call], after)
    ensures Reports(env, t, info, calls + [call], outcome)
  {
    hide Setting, SignOnce, Covered, Finalized, Closed, Complete, Open;
    SignIsComplete(env, t, info, f0, calls, call, f);
    CompleteProgress(env, t, info, f0, calls, call, f);
    FinalizedGrows(env, t, info, calls, call);
  }

  /** Short of the threshold, the count of signatures is the count of keys seen. */
  lemma SlotsCovered(env: Env, t: Target, info: Info, calls: seq<Call>, all: Slots)
    requires |all| == |info.pubkeys|
    requires CountSome(all) < info.required ==> forall i :: 0 <= i < |all| ==> (all[i].Some? <==> HasKey(env, calls, info.pubkeys[i]))
    ensures CountSome(all) < info.required ==> CountSome(all) == Covered(env, t, info, calls)
  {
    hide HasKey;
    if CountSome(all) < info.required {
      CountsAgree(all, Seen(env, t, info, calls));
    }
  }

  /** Partial signatures do not change what an unfinished input is signed for. */
  lemma FreshTarget(env: Env, t: Target, info: Info, f0: Fields, f: Fields, d: SigDict)
    requires Fresh(env, t, info, f0) && f == f0.(partialSigs := d)
    ensures IsFinal(env.utxo, f) == Some(false) && FindTarget(env, f) == Ok(t)
    ensures Recognised(env.fullyValid, ParseScript(t.script)) && InfoOf(ParseScript(t.script)) == info
  {
    hide ParseScript, P2shOutput, P2wshOutput, IsWitnessKeyHash, IsP2pkh, EncodePush;
  }

  /** A finalised input says so, and never changes again. */
  lemma ClosedIsFinal(env: Env, t: Target, info: Info, f0: Fields, items: Stack, f: Fields)
    requires FindTarget(env, f0) == Ok(t) && f0.finalScriptWitness == [] && items != [] && Finalize(t, items, f0) == Some(f)
    ensures IsFinal(env.utxo, f) == Some(true)
  {
    hide ParseScript, P2shOutput, P2wshOutput, EncodePush, IsMultisig, IsWitnessKeyHash, IsP2pkh, KnownHashType;
    if t.version.Base? {
      NonemptyPushScript(items);
    }
    if f0.redeemScript != [] && |f0.redeemScript| <= MAX_PUSH {
      NonemptyPush(f0.redeemScript);
    }
  }

  lemma NonemptyPush(d: Bytes)
    requires |d| <= MAX_PUSH
    ensures EncodePush(d) != []
  {
  }

  lemma NonemptyPushScript(items: Stack)
    requires items != [] && Pushable(items)
    ensures PushScript(items) != []
  {
    assert EncodePush(items[0]) != [];
  }

  lemma StepClosed(env: Env, t: Target, info: Info, f0: Fields, calls: seq<Call>, call: Call, f: Fields, after: Fields, outcome: Outcome)
    requires Fresh(env, t, info, f0)
    requires Closed(env, t, info, f0, calls, f) && Finalized(env, t, info, calls)
    requires SignOnce(env, call.store, call.finalize, f) == (after, outcome)
    ensures Progress(env, t, info, f0, calls + [call], after)
    ensures Reports(env, t, info, calls + [call], outcome)
  {
    var slots: Slots :| Closes(env, t, info, f0, calls, f, slots);
    ClosedIsFinal(env, t, info, f0, WitnessStack(slots, t.script), f);
    FinalizedGrows(env, t, info, calls, call);
    SeenGrows(env, t, info, calls, call);
    hide Fresh, Made, Covered, Finalize, WitnessStack, Finalized, SignerOf, CountSome, HasKey, FindTarget, IsFinal, Complete, Recognised;
    assert AllMade(env, t, info, calls + [call], slots) by {
      forall i | 0 <= i < |slots| && slots[i].Some?
        ensures Made(env, t, calls + [call], info.pubkeys[i], slots[i].value)
      {
        MadeGrows(env, t, calls, call, info.pubkeys[i], slots[i].value);
      }
    }
    assert Closes(env, t, info, f0, calls + [call], after, slots);
  }

  /**
   * After any run the input is ready exactly when the keys seen cover the threshold; until then its partial
   * signatures are those of all keys seen, and once finalised it holds signatures of the run for as many keys as required.
   */
  lemma {:induction false} RunProgress(env: Env, t: Target, info: Info, f0: Fields, calls: seq<Call>, states: seq<Fields>, outcomes: seq<Outcome>)
    requires Setting(env, t, info, f0, calls)
    requires IsRun(env, calls, states, outcomes) && states[0] == f0
    ensures Progress(env, t, info, f0, calls, states[|calls|])
    ensures calls != [] ==> Reports(env, t, info, calls, outcomes[|calls| - 1])
    decreases |calls|
  {
    hide Fresh, CurveKeys, Honest, Open, Finalized, SighashRaises, Reports;
    if calls == [] {
      EmptyRun(env, t, info, f0);
    } else {
      var n := |calls| - 1;
      var before, call := calls[..n], calls[n];
      assert before + [call] == calls;
      assert SignOnce(env, call.store, call.finalize, states[n]) == (states[n + 1], outcomes[n]);
      SettingBefore(env, t, info, f0, before, call);
      hide Setting, SignOnce, Progress, Reports;
      RunProgress(env, t, info, f0, before, states[..n + 1], outcomes[..n]);
      StepProgress(env, t, info, f0, before, call, states[n], states[n + 1], outcomes[n]);
    }
  }

  lemma SettingBefore(env: Env, t: Target, info: Info, f0: Fields, calls: seq<Call>, call: Call)
    requires Setting(env, t, info, f0, calls + [call])
    ensures Setting(env, t, info, f0, calls) && Fresh(env, t, info, f0)
  {
    hide Fresh, CurveKeys, Honest;
    var more := calls + [call];
    assert forall c :: 0 <= c < |calls| ==> calls[c] == more[c];
  }

  lemma StepProgress(env: Env, t: Target, info: Info, f0: Fields, calls: seq<Call>, call: Call, f: Fields, after: Fields, outcome: Outcome)
    requires Setting(env, t, info, f0, calls + [call]) && Progress(env, t, info, f0, calls, f)
    requires SignOnce(env, call.store, call.finalize, f) == (after, outcome)
    ensures Progress(env, t, info, f0, calls + [call], after) && Reports(env, t, info, calls + [call], outcome)
  {
    SettingBefore(env, t, info, f0, calls, call);
    hide Fresh, Setting, SignOnce, Open, Reports, Closed, Finalized;
    if Finalized(env, t, info, calls) {
      StepClosed(env, t, info, f0, calls, call, f, after, outcome);
    } else {
      StepOpen(env, t, info, f0, calls, call, f, after, outcome);
    }
  }

  /** If the signature hash of the input raises, every call raises and changes nothing, whatever the stores. */
  lemma {:induction false} RunRaises(env: Env, t: Target, info: Info, f0: Fields, calls: seq<Call>, states: seq<Fields>, outcomes: seq<Outcome>)
    requires Fresh(env, t, info, f0) && SighashRaises(env, t, env.HashType())
    requires IsRun(env, calls, states, outcomes) && states[0] == f0
    ensures states[|calls|] == f0 && (calls != [] ==> outcomes[|calls| - 1] == Raised)
    decreases |calls|
  {
    if calls != [] {
      var n := |calls| - 1;
      assert f0 == f0.(partialSigs := f0.partialSigs);
      FreshTarget(env, t, info, f0, f0, f0.partialSigs);
      assert SignOnce(env, calls[n].store, calls[n].finalize, states[n]) == (states[n + 1], outcomes[n]);
      RunRaises(env, t, info, f0, calls[..n], states[..n + 1], outcomes[..n]);
      hide Fresh, SighashRaises, FindTarget, IsFinal;
    }
  }

  /** For a recognised script that is, before segwit, SINGLE without an output of the same index. */
  lemma RaisesExactly(env: Env, t: Target, info: Info, f0: Fields)
    requires Fresh(env, t, info, f0)
    ensures SighashRaises(env, t, env.HashType()) <==> !env.HasInput() || (t.version.Base? && env.HashType() % 32 == 3 && !env.HasOutput())
  {
    hide FindTarget, ParseScript;
  }

  lemma EmptyRun(env: Env, t: Target, info: Info, f0: Fields)
    requires Fresh(env, t, info, f0)
    ensures Open(env, t, info, f0, [], f0) && !Finalized(env, t, info, [])
  {
    SlotsCount(info, []);
    CountsAgree(SlotsOf(info, []), Seen(env, t, info, []));
    assert 1 <= info.required && Distinct(info.pubkeys) by {
      hide ParseScript, FindTarget;
    }
  }
}
