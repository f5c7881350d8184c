/** Which flags may be dropped: exactly those whose absence leaves CLEANSTACK implying WITNESS implying P2SH. */
module FlagClosure {
  import opened Core
  import opened ScriptNum
  import opened Script
  import opened Interp
  import opened Verify
  import opened Spend
  import opened SoftFork
  import opened PsbtAccept

  /** Acceptance of a spend carries over from the flags to the fewer. */
  predicate Carries(k: Crypto, flags: set<Flag>, fewer: set<Flag>, scriptSig: Bytes, spk: Bytes, wit: Stack) {
    VerifyScript(k, flags, scriptSig, spk, wit).None? ==> VerifyScript(k, fewer, scriptSig, spk, wit).None?
  }

  /** The script that pushes one true item. */
  lemma EvalOne(c: Ctx)
    ensures EvalScript(c, [], [OP_1]) == Ok([[1]])
  {
    var script, op := [OP_1], BareOp(OP_1);
    BareIsOp(OP_1);
    ParseStep(op, []);
    assert op.raw + [] == script && [op] + [] == [op];
    StepNumber(c, script, 1, Start([]));
    OneIsOne();
    hide Step, ParseScript, EncodeNum;
    assert RunOps(c, script, [op], Start([])) == RunOps(c, script, [], State([[1]], [], [], 0, 1, 0)) by {
      assert [op][1..] == [] && [] + [EncodeNum(1)] == [[1]];
    }
  }

  lemma OneIsOne()
    ensures EncodeNum(1) == [1]
  {
    var b: Bytes := [1];
    assert DecodeNum(b) == 1;
    hide EncodeNum, DecodeNum;
    EncodeIsShortest(1, b);
    EncodeNotEmpty();
  }

  lemma EncodeNotEmpty()
    ensures EncodeNum(1) != []
  {
    DecodeEncode(1);
    assert DecodeNum([]) == 0;
    hide EncodeNum, DecodeNum;
  }

  /** Anyone can spend an output that is OP_1, under every flag set the machine handles. */
  lemma OneIsAccepted(k: Crypto, flags: set<Flag>)
    requires Closed(flags) && flags * UNHANDLED_SCRIPT_VERIFY_FLAGS == {}
    ensures VerifyScript(k, flags, [], [OP_1], []).None?
  {
    var c := Ctx(k, flags, Base);
    EvalEmpty(c, []);
    EvalOne(c);
    TrueItem();
    hide EvalScript, CastToBool;
  }

  /** The witness output whose script is OP_1, spent. */
  lemma WitnessOneIsAccepted(k: Crypto, flags: set<Flag>, spk: Bytes)
    requires Closed(flags) && flags * UNHANDLED_SCRIPT_VERIFY_FLAGS == {}
    requires k.Valid() && CastToBool(k.sha256([OP_1])) && spk == [0, 0x20] + k.sha256([OP_1])
    ensures VerifyScript(k, flags, [], spk, [[OP_1]]).None?
  {
    EvalOne(Ctx(k, flags, WitnessV0));
    assert |k.sha256([OP_1])| == 32 && spk[2..] == k.sha256([OP_1]);
    hide EvalScript, CastToBool, VerifyScript;
    AcceptNative(k, flags, spk, [], [OP_1], true);
    assert [] + [[OP_1]] == [[OP_1]];
  }

  /** Dropping flags is a soft fork for every spend if and only if what remains is closed. */
  lemma ClosureIsExact(k: Crypto, flags: set<Flag>, fewer: set<Flag>)
    requires k.Valid() && StrictAgrees(k) && CastToBool(k.sha256([OP_1]))
    requires Closed(flags) && flags * UNHANDLED_SCRIPT_VERIFY_FLAGS == {} && fewer <= flags
    ensures Closed(fewer) <==> forall scriptSig, spk, wit :: Carries(k, flags, fewer, scriptSig, spk, wit)
  {
    hide VerifyScript, CastToBool, StrictAgrees;
    if Closed(fewer) {
      forall scriptSig, spk, wit
        ensures Carries(k, flags, fewer, scriptSig, spk, wit)
      {
        if VerifyScript(k, flags, scriptSig, spk, wit).None? {
          FlagsAreSoftForks(k, flags, fewer, scriptSig, spk, wit);
        }
      }
    } else if P2SH !in fewer {
      OneIsAccepted(k, flags);
      DependentFlagsReject(k, fewer, [], [OP_1], []);
      assert !Carries(k, flags, fewer, [], [OP_1], []);
    } else {
      var spk := [0, 0x20] + k.sha256([OP_1]);
      assert |k.sha256([OP_1])| == 32;
      WitnessOneIsAccepted(k, flags, spk);
      CleanStackNeedsWitness(k, fewer, [], spk, [[OP_1]]);
      assert !Carries(k, flags, fewer, [], spk, [[OP_1]]);
    }
  }
}
