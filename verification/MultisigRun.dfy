/** Running a standard multisig script on signatures in key order. */
module MultisigRun {
  import opened Core
  import opened ScriptNum
  import opened Script
  import opened DerSignature
  import opened Interp
  import opened Multisig
  import opened MultisigScript
  import opened PsbtSign
  import opened PsbtInput
  import opened PsbtRun
  import opened Spend
  import SoftFork

  lemma CastSmall(n: nat)
    requires n <= 20
    ensures CastNum(EncodeNum(n)) == Ok(n)
  {
    EncodeSize(n, 1);
    DecodeEncode(n);
  }

  /** Where the present signatures are, in order. */
  lemma {:induction false} PresentAt(slots: Slots) returns (p: seq<nat>)
    ensures |p| == |Present(slots)|
    ensures forall i :: 0 <= i < |p| ==> p[i] < |slots| && slots[p[i]] == Some(Present(slots)[i])
    ensures forall i, j :: 0 <= i < j < |p| ==> p[i] < p[j]
  {
    if slots == [] {
      p := [];
    } else {
      var n := |slots| - 1;
      p := PresentAt(slots[..n]);
      assert forall i :: 0 <= i < |p| ==> slots[..n][p[i]] == slots[p[i]];
      if slots[n].Some? {
        p := p + [n];
      }
    }
  }

  /** Signatures in key order can be assigned to the keys as the machine walks them, from the top of the stack. */
  lemma SlotsAssignable(c: Ctx, keys: Keys, slots: Slots, script: Bytes)
    requires |slots| == |keys| && forall i :: 0 <= i < |slots| && slots[i].Some? ==> CheckSig(c, slots[i].value, keys[i], script) == Ok(true)
    ensures Assignable(c, Reverse(Present(slots)), Reverse(keys), script)
  {
    hide CheckSig, Present;
    var sigs := Present(slots);
    var p := PresentAt(slots);
    var m, n := |sigs|, |keys|;
    var f := seq(m, i requires 0 <= i < m => n - 1 - p[m - 1 - i]);
    forall i | 0 <= i < m
      ensures f[i] < n && CheckSig(c, Reverse(sigs)[i], Reverse(keys)[f[i]], script) == Ok(true)
    {
      assert slots[p[m - 1 - i]] == Some(sigs[m - 1 - i]);
    }
    assert IsAssignment(c, f, Reverse(sigs), Reverse(keys), script);
  }

  /** The key encoding the flags ask for. */
  predicate KeyAccepted(c: Ctx, key: Bytes) {
    && (STRICTENC in c.flags ==> IsCompressedOrUncompressedPubKey(key))
    && (WITNESS_PUBKEYTYPE in c.flags && c.version.WitnessV0? ==> IsCompressedPubKey(key))
  }

  /** A signature encoded as every flag asks for. */
  predicate WellEncoded(sig: Bytes) {
    IsValidSignatureEncoding(sig) && IsLowS(sig) && KnownHashType(sig[|sig| - 1])
  }

  predicate AllEncoded(sigs: Stack) {
    forall i :: 0 <= i < |sigs| ==> WellEncoded(sigs[i])
  }

  /** The curve check of a signature on the signature hash of its hash type. */
  predicate Verifies(c: Ctx, sig: Bytes, pub: Bytes, script: Bytes) {
    sig != [] && c.crypto.verify(pub, c.crypto.sighash(script, sig[|sig| - 1], c.version), sig[..|sig| - 1])
  }

  /** A well-encoded signature is refused for the form of the key, or checked on the curve. */
  lemma CheckSigIs(c: Ctx, sig: Bytes, pub: Bytes, script: Bytes)
    requires WellEncoded(sig) && !IsWitnessScriptPubKey(script) && SoftFork.StrictAgrees(c.crypto)
    ensures KeyAccepted(c, pub) ==> CheckSig(c, sig, pub, script) == Ok(Verifies(c, sig, pub, script))
    ensures !KeyAccepted(c, pub) ==> CheckSig(c, sig, pub, script).Err?
  {
    hide IsCompressedOrUncompressedPubKey, IsCompressedPubKey, IsLowS, IsWitnessScriptPubKey;
    assert SoftFork.AgreesOn(c.crypto, pub, c.crypto.sighash(script, sig[|sig| - 1], c.version), sig);
  }

  /** The first slot with a signature, or their number. */
  function FirstFilled(slots: Slots): (k: nat)
    ensures k <= |slots| && (k < |slots| ==> slots[k].Some?)
    ensures forall i :: 0 <= i < k ==> slots[i].None?
  {
    if slots == [] then 0
    else
      var n := |slots| - 1;
      var k := FirstFilled(slots[..n]);
      if k < n || slots[n].Some? then k else n + 1
  }

  /** The keys from the first slot with a signature on have the form the flags ask for. */
  predicate FormsFrom(c: Ctx, keys: Keys, slots: Slots)
    requires |keys| == |slots|
  {
    forall j :: FirstFilled(slots) <= j < |keys| ==> KeyAccepted(c, keys[j])
  }

  /** Every signature verifies for the key of its slot. */
  predicate SlotsVerify(c: Ctx, keys: Keys, slots: Slots, script: Bytes) {
    |slots| == |keys| && forall i :: 0 <= i < |slots| && slots[i].Some? ==> WellEncoded(slots[i].value) && Verifies(c, slots[i].value, keys[i], script)
  }

  /** And for no other key of the script. */
  predicate OnlyOwn(c: Ctx, keys: Keys, slots: Slots, script: Bytes) {
    |slots| == |keys| && forall i, j :: 0 <= i < |slots| && 0 <= j < |keys| && i != j && slots[i].Some? ==> !Verifies(c, slots[i].value, keys[j], script)
  }

  lemma {:induction false} FirstFilledNone(slots: Slots)
    ensures FirstFilled(slots) == |slots| <==> Present(slots) == []
  {
    if slots != [] {
      FirstFilledNone(slots[..|slots| - 1]);
    }
  }

  lemma {:induction false} PresentFrom(slots: Slots, k: nat)
    requires k <= |slots| && forall i :: 0 <= i < k ==> slots[i].None?
    ensures Present(slots) == Present(slots[k..])
    decreases |slots|
  {
    var n := |slots| - 1;
    if slots == [] {
      assert slots[k..] == [];
    } else if k == |slots| {
      PresentFrom(slots[..n], n);
      assert slots[..n][n..] == [] && slots[k..] == [];
    } else {
      PresentFrom(slots[..n], k);
      assert slots[k..][..n - k] == slots[..n][k..];
    }
  }

  /** Once all signatures are matched the loop looks at no further key. */
  lemma {:induction false} GreedyPrefix(c: Ctx, sigs: Stack, a: Stack, b: Stack, script: Bytes)
    requires GreedyMatch(c, sigs, a, script) == Ok(true)
    ensures GreedyMatch(c, sigs, a + b, script) == Ok(true)
    decreases |a|
  {
    hide CheckSig;
    if sigs != [] {
      assert (a + b)[0] == a[0] && (a + b)[1..] == a[1..] + b;
      GreedyPrefix(c, if CheckSig(c, sigs[0], a[0], script).value then sigs[1..] else sigs, a[1..], b, script);
    }
  }

  lemma ReverseSplit<T>(s: seq<T>, k: nat)
    requires k <= |s|
    ensures Reverse(s) == Reverse(s[k..]) + Reverse(s[..k])
  {
  }

  lemma AllPresentEncoded(slots: Slots)
    requires forall i :: 0 <= i < |slots| && slots[i].Some? ==> WellEncoded(slots[i].value)
    ensures AllEncoded(Present(slots))
  {
    hide WellEncoded, Present;
    var p := PresentAt(slots);
    forall i | 0 <= i < |p|
      ensures WellEncoded(Present(slots)[i])
    {
      assert slots[p[i]] == Some(Present(slots)[i]);
    }
  }

  /** With keys of the right form from the first signature on, the loop succeeds. */
  lemma GreedySucceeds(c: Ctx, keys: Keys, slots: Slots, script: Bytes)
    requires SlotsVerify(c, keys, slots, script) && FormsFrom(c, keys, slots)
    requires !IsWitnessScriptPubKey(script) && SoftFork.StrictAgrees(c.crypto)
    ensures GreedyMatch(c, Reverse(Present(slots)), Reverse(keys), script) == Ok(true)
  {
    var k := FirstFilled(slots);
    var late, own := keys[k..], slots[k..];
    hide WellEncoded, KeyAccepted, CheckSig, GreedyMatch, Verifies, SoftFork.StrictAgrees, IsWitnessScriptPubKey, Present, Assignable, FirstFilled;
    forall i | 0 <= i < |own| && own[i].Some?
      ensures WellEncoded(own[i].value) && CheckSig(c, own[i].value, late[i], script) == Ok(true)
    {
      assert own[i] == slots[k + i] && late[i] == keys[k + i];
      CheckSigIs(c, own[i].value, late[i], script);
    }
    PresentFrom(slots, k);
    AllPresentEncoded(own);
    var sigs := Present(own);
    forall i, j | 0 <= i < |sigs| && 0 <= j < |late|
      ensures CheckSig(c, Reverse(sigs)[i], Reverse(late)[j], script).Ok?
    {
      assert WellEncoded(sigs[|sigs| - 1 - i]);
      assert KeyAccepted(c, keys[k + (|late| - 1 - j)]);
      CheckSigIs(c, Reverse(sigs)[i], Reverse(late)[j], script);
    }
    GreedyDefined(c, Reverse(sigs), Reverse(late), script);
    SlotsAssignable(c, late, own, script);
    GreedyDecides(c, Reverse(sigs), Reverse(late), script);
    ReverseSplit(keys, k);
    GreedyPrefix(c, Reverse(sigs), Reverse(late), Reverse(keys[..k]), script);
  }

  /** The last key is looked at whatever the signatures are. */
  lemma GreedyRefusesLast(c: Ctx, keys: Keys, sigs: Stack, script: Bytes)
    requires sigs != [] && AllEncoded(sigs) && |sigs| <= |keys| && !KeyAccepted(c, keys[|keys| - 1])
    requires !IsWitnessScriptPubKey(script) && SoftFork.StrictAgrees(c.crypto)
    ensures GreedyMatch(c, Reverse(sigs), Reverse(keys), script).Err?
  {
    hide KeyAccepted, CheckSig, WellEncoded, SoftFork.StrictAgrees, IsWitnessScriptPubKey;
    assert WellEncoded(sigs[|sigs| - 1]);
    CheckSigIs(c, Reverse(sigs)[0], Reverse(keys)[0], script);
  }

  lemma ReverseLast<T>(s: seq<T>)
    requires s != []
    ensures Reverse(s)[0] == s[|s| - 1] && Reverse(s)[1..] == Reverse(s[..|s| - 1])
  {
  }

  lemma {:induction false} PresentCount(slots: Slots)
    ensures |Present(slots)| == CountSome(slots) <= |slots|
  {
    if slots != [] {
      PresentCount(slots[..|slots| - 1]);
    }
  }

  /** What the loop does with the last key: refused for its form, or matched exactly if its own slot holds a signature. */
  lemma LastKey(c: Ctx, keys: Keys, slots: Slots, script: Bytes)
    requires SlotsVerify(c, keys, slots, script) && OnlyOwn(c, keys, slots, script) && Present(slots) != []
    requires !IsWitnessScriptPubKey(script) && SoftFork.StrictAgrees(c.crypto)
    ensures var n := |slots| - 1; var r := CheckSig(c, Present(slots)[|Present(slots)| - 1], keys[n], script);
            && n >= 0 && (if KeyAccepted(c, keys[n]) then r == Ok(slots[n].Some?) else r.Err?)
  {
    hide KeyAccepted, CheckSig, WellEncoded, Verifies, SoftFork.StrictAgrees, IsWitnessScriptPubKey;
    var n := |slots| - 1;
    var p := PresentAt(slots);
    var last := p[|p| - 1];
    assert slots[last] == Some(Present(slots)[|p| - 1]);
    CheckSigIs(c, slots[last].value, keys[n], script);
    assert slots[n].Some? ==> Present(slots)[|p| - 1] == slots[n].value;
  }

  lemma OneFewer(c: Ctx, keys: Keys, slots: Slots, script: Bytes)
    requires SlotsVerify(c, keys, slots, script) && OnlyOwn(c, keys, slots, script) && slots != []
    ensures var n := |slots| - 1; SlotsVerify(c, keys[..n], slots[..n], script) && OnlyOwn(c, keys[..n], slots[..n], script)
  {
    hide WellEncoded, Verifies;
  }

  /** One turn of the loop, from the last signature and the last key. */
  lemma {:induction false} GreedyFromLast(c: Ctx, keys: Keys, sigs: Stack, script: Bytes)
    requires 0 < |sigs| <= |keys|
    ensures var n, m := |keys| - 1, |sigs| - 1;
            GreedyMatch(c, Reverse(sigs), Reverse(keys), script) ==
            match CheckSig(c, sigs[m], keys[n], script)
            case Err(e) => Err(e)
            case Ok(ok) => GreedyMatch(c, Reverse(if ok then sigs[..m] else sigs), Reverse(keys[..n]), script)
  {
    hide CheckSig;
    ReverseLast(sigs);
    ReverseLast(keys);
    hide Reverse;
  }

  /** If no signature verifies for a foreign key, the loop looks at exactly the keys from the first signature on. */
  lemma {:induction false} GreedyExactly(c: Ctx, keys: Keys, slots: Slots, script: Bytes)
    requires SlotsVerify(c, keys, slots, script) && OnlyOwn(c, keys, slots, script)
    requires !IsWitnessScriptPubKey(script) && SoftFork.StrictAgrees(c.crypto)
    ensures var g := GreedyMatch(c, Reverse(Present(slots)), Reverse(keys), script);
            if FormsFrom(c, keys, slots) then g == Ok(true) else g.Err?
    decreases |slots|
  {
    hide KeyAccepted, CheckSig, SoftFork.StrictAgrees, IsWitnessScriptPubKey;
    FirstFilledNone(slots);
    if Present(slots) != [] {
      var n := |slots| - 1;
      var less := slots[..n];
      assert slots[n].Some? ==> Present(slots)[..|Present(slots)| - 1] == Present(less);
      assert slots[n].None? ==> Present(slots) == Present(less);
      hide FirstFilled, GreedyMatch, Present;
      PresentCount(slots);
      OneFewer(c, keys, slots, script);
      LastKey(c, keys, slots, script);
      FormsStep(c, keys, slots);
      GreedyFromLast(c, keys, Present(slots), script);
      hide SlotsVerify, OnlyOwn, FormsFrom, Reverse;
      GreedyExactly(c, keys[..n], less, script);
    }
  }

  lemma FormsStep(c: Ctx, keys: Keys, slots: Slots)
    requires |keys| == |slots| > 0 && FirstFilled(slots) < |slots|
    ensures var n := |slots| - 1;
            FormsFrom(c, keys, slots) <==> KeyAccepted(c, keys[n]) && FormsFrom(c, keys[..n], slots[..n])
  {
    hide KeyAccepted;
  }

  /** A multisig script holds no push of a signature, and is no witness program. */
  lemma NoSignatureInside(fullyValid: Bytes -> bool, script: Bytes, info: Info, sig: Bytes)
    requires IsMultisig(fullyValid, script, info) && CurveKeys(fullyValid) && IsValidSignatureEncoding(sig)
    ensures Remaining(script, EncodePush(sig)) == Ok(script)
  {
    PushIsOp(sig);
    var needle, push, ops := EncodePush(sig), PushOp(sig), ParseScript(script).ops;
    assert IsOneOp(needle);
    forall op | op in ops
      ensures op.raw != needle
    {
      var i :| 0 <= i < |ops| && op == ops[i];
      MultisigOp(fullyValid, script, info, i);
      assert IsOp(op);
      hide ReadOp, EncodePush, ParseScript, IsMultisig;
      assert op.raw == needle ==> op == push;
    }
    hide ReadOp, EncodePush, IsOneOp, IsValidSignatureEncoding;
    WithoutAbsent(ops, needle);
    RemainingIsFilter(script, needle);
    ConcatParse(script);
  }

  lemma NotWitness(fullyValid: Bytes -> bool, script: Bytes, info: Info)
    requires IsMultisig(fullyValid, script, info)
    ensures !IsWitnessScriptPubKey(script)
  {
    var n := |ParseScript(script).ops|;
    assert ParseScript(script).ops[n - 1] in ParseScript(script).ops;
    hide ParseScript;
    if IsWitnessScriptPubKey(script) {
      WitnessShape(script);
      assert false;
    }
  }

  lemma {:induction false} NothingDropped(c: Ctx, fullyValid: Bytes -> bool, script: Bytes, info: Info, sigs: Stack)
    requires IsMultisig(fullyValid, script, info) && CurveKeys(fullyValid) && AllEncoded(sigs)
    ensures DropSignatures(c, script, sigs) == Ok(script)
    decreases |sigs|
  {
    hide IsMultisig, CurveKeys, IsLowS, EncodePush;
    if sigs != [] {
      assert WellEncoded(sigs[0]);
      NoSignatureInside(fullyValid, script, info, sigs[0]);
      hide IsValidSignatureEncoding;
      NothingDropped(c, fullyValid, script, info, sigs[1..]);
    }
  }

  /** The stack when the last op is reached. */
  function BeforeCheck(sigs: Stack, info: Info): Stack {
    [[]] + sigs + [EncodeNum(info.required)] + info.pubkeys + [EncodeNum(|info.pubkeys|)]
  }

  lemma ArgumentsOf(sigs: Stack, info: Info)
    requires |sigs| == info.required <= |info.pubkeys| <= 15
    ensures MultiArguments(BeforeCheck(sigs, info), 1) == Ok(MultiArgs(Reverse(info.pubkeys), Reverse(sigs), [], []))
  {
    hide EncodeNum, CastNum;
    var s, k, m := BeforeCheck(sigs, info), |info.pubkeys|, info.required;
    var n := |s|;
    assert n == k + m + 3 && s[n - 1] == EncodeNum(k) && s[n - 2 - k] == EncodeNum(m);
    CastSmall(k);
    CastSmall(m);
    assert s[n - 1 - k..n - 1] == info.pubkeys;
    assert s[1..1 + m] == sigs;
  }

  lemma CheckResult(c: Ctx, tail: Bytes, s: Stack, ops: nat, keys: Stack, sigs: Stack)
    requires MultiArguments(s, ops) == Ok(MultiArgs(keys, sigs, [], []))
    requires DropSignatures(c, tail, sigs) == Ok(tail)
    ensures var g, r := GreedyMatch(c, sigs, keys, tail), CheckMultiSig(c, OP_CHECKMULTISIG, tail, s, ops);
            (g == Ok(true) ==> r == Ok(([[1]], ops + |keys|))) && (g.Err? ==> r.Err?)
  {
    hide MultiArguments, DropSignatures, GreedyMatch;
    var rest: Stack := [];
    assert rest + [Bool(true)] == [[1]];
  }

  /** Of the multisig op only the match is left to decide. */
  lemma CheckFollowsMatch(c: Ctx, fullyValid: Bytes -> bool, script: Bytes, info: Info, sigs: Stack)
    requires IsMultisig(fullyValid, script, info) && CurveKeys(fullyValid) && AllEncoded(sigs)
    requires info.required == |sigs| <= |info.pubkeys| <= 15
    ensures var g, r := GreedyMatch(c, Reverse(sigs), Reverse(info.pubkeys), script), CheckMultiSig(c, OP_CHECKMULTISIG, script, BeforeCheck(sigs, info), 1);
            (g == Ok(true) ==> r == Ok(([[1]], 1 + |info.pubkeys|))) && (g.Err? ==> r.Err?)
  {
    hide IsMultisig, CurveKeys, WellEncoded, GreedyMatch, DropSignatures, MultiArguments, BeforeCheck, CheckMultiSig;
    ArgumentsOf(sigs, info);
    NothingDropped(c, fullyValid, script, info, Reverse(sigs));
    CheckResult(c, script, BeforeCheck(sigs, info), 1, Reverse(info.pubkeys), Reverse(sigs));
  }

  lemma StepCheck(c: Ctx, script: Bytes, st: State, left: Stack, count: nat)
    requires st.exec == [] && st.alt == [] && st.begin == 0 && st.ops == 0
    requires CheckMultiSig(c, OP_CHECKMULTISIG, script, st.stack, 1) == Ok((left, count)) && |left| <= MAX_STACK_ITEMS
    ensures Step(c, script, BareOp(OP_CHECKMULTISIG), st) == Ok(st.(stack := left, pc := st.pc + 1, ops := count))
  {
    hide CheckSigOp, CheckMultiSig, Condition, PlainOp;
    assert script[0..] == script;
  }

  lemma StepCheckFails(c: Ctx, script: Bytes, st: State)
    requires st.exec == [] && st.begin == 0 && st.ops == 0
    requires CheckMultiSig(c, OP_CHECKMULTISIG, script, st.stack, 1).Err?
    ensures Step(c, script, BareOp(OP_CHECKMULTISIG), st).Err?
  {
    hide CheckSigOp, CheckMultiSig, Condition, PlainOp;
    assert script[0..] == script;
  }

  lemma MultisigFacts(fullyValid: Bytes -> bool, script: Bytes, info: Info)
    requires IsMultisig(fullyValid, script, info)
    ensures 1 <= info.required <= |info.pubkeys| <= 15 && |ParseScript(script).ops| == |info.pubkeys| + 3
    ensures ParseScript(script).error.None?
  {
    hide ParseScript;
  }

  /** The run of a multisig script up to the keys. */
  lemma RunHead(c: Ctx, script: Bytes, m: nat, pubkeys: Keys, stack: Stack, keys: seq<Op>, rest: seq<Op>)
    requires 1 <= m <= 16 && |stack| <= 16 && |pubkeys| <= 15 && Pushes(keys, pubkeys)
    ensures RunOps(c, script, [BareOp(0x50 + m)] + (keys + rest), Start(stack)) ==
            RunOps(c, script, rest, State(stack + [EncodeNum(m)] + pubkeys, [], [], 0, 1 + |Concat(keys)|, 0))
  {
    hide Step, EncodeNum, Concat, RunOps, Pushes;
    var st1 := State(stack + [EncodeNum(m)], [], [], 0, 1, 0);
    StepNumber(c, script, m, Start(stack));
    RunPushes(c, script, keys, pubkeys, st1);
    RunThen(c, script, keys, rest, st1, State(st1.stack + pubkeys, [], [], 0, 1 + |Concat(keys)|, 0));
    RunFirst(c, script, BareOp(0x50 + m), keys + rest, Start(stack), st1);
  }

  /** The run from the key count on, with the outcome of the multisig op. */
  lemma RunTail(c: Ctx, script: Bytes, n: nat, s: Stack, pc: nat, ok: bool)
    requires 1 <= n <= 15 && |s| <= 40
    requires var r := CheckMultiSig(c, OP_CHECKMULTISIG, script, s + [EncodeNum(n)], 1); if ok then r == Ok(([[1]], 1 + n)) else r.Err?
    ensures var r := RunOps(c, script, [BareOp(0x50 + n), BareOp(OP_CHECKMULTISIG)], State(s, [], [], 0, pc, 0));
            if ok then r == Ok(State([[1]], [], [], 0, pc + 2, 1 + n)) else r.Err?
  {
    hide Step, EncodeNum, CheckMultiSig, RunOps;
    var st2, st3 := State(s, [], [], 0, pc, 0), State(s + [EncodeNum(n)], [], [], 0, pc + 1, 0);
    StepNumber(c, script, n, st2);
    if ok {
      StepCheck(c, script, st3, [[1]], 1 + n);
      RunTwo(c, script, BareOp(0x50 + n), BareOp(OP_CHECKMULTISIG), st2, st3, State([[1]], [], [], 0, pc + 2, 1 + n));
    } else {
      StepCheckFails(c, script, st3);
      RunFails(c, script, BareOp(0x50 + n), BareOp(OP_CHECKMULTISIG), st2, st3);
    }
  }

  lemma RunFails(c: Ctx, script: Bytes, a: Op, b: Op, st0: State, st1: State)
    requires Step(c, script, a, st0) == Ok(st1) && Step(c, script, b, st1).Err?
    ensures RunOps(c, script, [a, b], st0).Err?
  {
    hide Step;
    assert [a, b][1..] == [b];
    assert RunOps(c, script, [b], st1).Err?;
  }

  lemma RunMultisig(c: Ctx, script: Bytes, info: Info, sigs: Stack, keys: seq<Op>, ok: bool)
    requires 1 <= info.required <= |info.pubkeys| <= 15 && |sigs| <= 15 && Pushes(keys, info.pubkeys)
    requires var r := CheckMultiSig(c, OP_CHECKMULTISIG, script, BeforeCheck(sigs, info), 1); if ok then r == Ok(([[1]], 1 + |info.pubkeys|)) else r.Err?
    ensures var n := |info.pubkeys|;
            var ops := [BareOp(0x50 + info.required)] + (keys + [BareOp(0x50 + n), BareOp(OP_CHECKMULTISIG)]);
            var r := RunOps(c, script, ops, Start([[]] + sigs));
            if ok then r == Ok(State([[1]], [], [], 0, 3 + |Concat(keys)|, 1 + n)) else r.Err?
  {
    hide CheckMultiSig, EncodeNum, Concat, RunOps, Pushes, BareOp, Start;
    var n := |info.pubkeys|;
    RunHead(c, script, info.required, info.pubkeys, [[]] + sigs, keys, [BareOp(0x50 + n), BareOp(OP_CHECKMULTISIG)]);
    RunTail(c, script, n, [[]] + sigs + [EncodeNum(info.required)] + info.pubkeys, 1 + |Concat(keys)|, ok);
  }

  lemma RunFirst(c: Ctx, script: Bytes, a: Op, rest: seq<Op>, st: State, next: State)
    requires Step(c, script, a, st) == Ok(next)
    ensures RunOps(c, script, [a] + rest, st) == RunOps(c, script, rest, next)
  {
    hide Step;
    assert ([a] + rest)[1..] == rest;
  }

  /** The whole run: one true item remains if the signatures match, and it fails if a check on the way raises. */
  lemma MultisigRuns(c: Ctx, fullyValid: Bytes -> bool, script: Bytes, info: Info, sigs: Stack)
    requires IsMultisig(fullyValid, script, info) && CurveKeys(fullyValid)
    requires AllEncoded(sigs) && |sigs| == info.required
    ensures var g, r := GreedyMatch(c, Reverse(sigs), Reverse(info.pubkeys), script), EvalScript(c, [[]] + sigs, script);
            (g == Ok(true) ==> r == Ok([[1]])) && (g.Err? ==> r.Err?)
  {
    hide AllEncoded, CheckMultiSig, GreedyMatch, RunOps, CurveKeys, IsMultisig, ParseScript, BeforeCheck, Pushes;
    MultisigFacts(fullyValid, script, info);
    CheckFollowsMatch(c, fullyValid, script, info, sigs);
    MultisigSize(fullyValid, script, info);
    var keys := ParseScript(script).ops[1..|info.pubkeys| + 1];
    SplitOps(fullyValid, script, info, keys);
    var g := GreedyMatch(c, Reverse(sigs), Reverse(info.pubkeys), script);
    if g == Ok(true) || g.Err? {
      RunMultisig(c, script, info, sigs, keys, g.Ok?);
    }
  }

  lemma RunTwo(c: Ctx, script: Bytes, a: Op, b: Op, st0: State, st1: State, st2: State)
    requires Step(c, script, a, st0) == Ok(st1) && Step(c, script, b, st1) == Ok(st2)
    ensures RunOps(c, script, [a, b], st0) == Ok(st2)
  {
    hide Step;
    assert [a, b][1..] == [b] && [b][1..] == [];
    assert RunOps(c, script, [b], st1) == Ok(st2);
  }

  lemma SplitOps(fullyValid: Bytes -> bool, script: Bytes, info: Info, keys: seq<Op>)
    requires IsMultisig(fullyValid, script, info) && CurveKeys(fullyValid)
    requires |info.pubkeys| + 1 <= |ParseScript(script).ops| && keys == ParseScript(script).ops[1..|info.pubkeys| + 1]
    ensures var ops, n := ParseScript(script).ops, |info.pubkeys|;
            ops == [BareOp(0x50 + info.required)] + (keys + [BareOp(0x50 + n), BareOp(OP_CHECKMULTISIG)])
    ensures Pushes(keys, info.pubkeys)
  {
    hide ParseScript, IsMultisig;
    var ops, n := ParseScript(script).ops, |info.pubkeys|;
    MultisigOp(fullyValid, script, info, 0);
    MultisigOp(fullyValid, script, info, n + 1);
    MultisigOp(fullyValid, script, info, n + 2);
    forall i | 0 <= i < n
      ensures keys[i].code <= OP_PUSHDATA4 && keys[i].data == info.pubkeys[i] && |info.pubkeys[i]| <= 520
    {
      MultisigOp(fullyValid, script, info, i + 1);
    }
    assert ops == [ops[0]] + (ops[1..n + 1] + [ops[n + 1], ops[n + 2]]);
  }
}
