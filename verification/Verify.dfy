/** VerifyScript: the runs that decide whether an input may spend an output. */
module Verify {
  import opened Core
  import opened ScriptNum
  import opened Script
  import opened Interp
  import opened Machine

  const UNHANDLED_SCRIPT_VERIFY_FLAGS: set<Flag> :=
    {SIGPUSHONLY, MINIMALDATA, CHECKLOCKTIMEVERIFY, CHECKSEQUENCEVERIFY, CONST_SCRIPTCODE, TAPROOT}

  function KeyHashScript(program: Bytes): Bytes
    requires |program| == 20
  {
    [OP_DUP, OP_HASH160] + EncodePush(program) + [OP_EQUALVERIFY, OP_CHECKSIG]
  }

  /** The script a version 0 program runs and the stack it runs on. */
  function WitnessScript(k: Crypto, wit: Stack, program: Bytes): Result<(Bytes, Stack), Error> {
    var n := |wit|;
    if |program| == 32 then
      if n == 0 then Err(WitnessEmpty)
      else if k.sha256(wit[n - 1]) != program then Err(WitnessMismatch)
      else Ok((wit[n - 1], wit[..n - 1]))
    else if |program| == 20 then
      if n != 2 then Err(WitnessMismatch) else Ok((KeyHashScript(program), wit))
    else Err(WitnessProgramLength)
  }

  function SingleTrue(stack: Stack): Option<Error> {
    if stack == [] then Some(EmptyStack)
    else if |stack| != 1 then Some(ExtraItems)
    else if !CastToBool(stack[0]) then Some(FalseResult)
    else None
  }

  predicate ItemsFit(stack: Stack) {
    forall i :: 0 <= i < |stack| ==> |stack[i]| <= MAX_SCRIPT_ELEMENT_SIZE
  }

  function VerifyWitnessProgram(k: Crypto, flags: set<Flag>, wit: Stack, version: nat, program: Bytes): Option<Error> {
    if version == 0 then
      match WitnessScript(k, wit, program)
      case Err(e) => Some(e)
      case Ok((script, stack)) =>
        if !ItemsFit(stack) then Some(WitnessItemTooLong)
        else match EvalScript(Ctx(k, flags, WitnessV0), stack, script)
          case Err(e) => Some(e)
          case Ok(after) => SingleTrue(after)
    else if DISCOURAGE_UPGRADABLE_WITNESS_PROGRAM in flags then Some(UpgradableWitness)
    else None
  }

  function Truth(stack: Stack): Option<Error> {
    if stack == [] then Some(EmptyStack)
    else if !CastToBool(stack[|stack| - 1]) then Some(FalseResult)
    else None
  }

  /** The stack that the clean-stack rule looks at, and whether a witness program was run. */
  datatype Phase = Phase(stack: Stack, hadWitness: bool)

  function VerifyNative(k: Crypto, flags: set<Flag>, scriptSig: Bytes, scriptPubKey: Bytes, stack: Stack, wit: Stack): Result<Phase, Error> {
    if !(WITNESS in flags && IsWitnessScriptPubKey(scriptPubKey)) then Ok(Phase(stack, false))
    else if scriptSig != [] then Err(ScriptSigNotEmpty)
    else match VerifyWitnessProgram(k, flags, wit, WitnessVersion(scriptPubKey), WitnessProgram(scriptPubKey))
      case Some(e) => Err(e)
      case None => Ok(Phase(stack[..Min(1, |stack|)], true))
  }

  /** The spend of a script hash: pushed is the stack that scriptSig left. */
  function VerifyP2sh(k: Crypto, flags: set<Flag>, scriptSig: Bytes, pushed: Stack, wit: Stack, phase: Phase): Result<Phase, Error> {
    if !IsPushOnly(scriptSig) then Err(NotPushOnly)
    else if pushed == [] then Err(ValueError)
    else
      var pubKey2 := pushed[|pushed| - 1];
      match EvalScript(Ctx(k, flags, Base), pushed[..|pushed| - 1], pubKey2)
      case Err(e) => Err(e)
      case Ok(after) =>
        if Truth(after).Some? then Err(Truth(after).value)
        else if !(WITNESS in flags && IsWitnessScriptPubKey(pubKey2)) then Ok(Phase(after, phase.hadWitness))
        else if scriptSig != EncodePush(pubKey2) then Err(ScriptSigNotSinglePush)
        else match VerifyWitnessProgram(k, flags, wit, WitnessVersion(pubKey2), WitnessProgram(pubKey2))
          case Some(e) => Err(e)
          case None => Ok(Phase(after[..1], true))
  }

  function VerifyRules(flags: set<Flag>, phase: Phase, wit: Stack): Option<Error> {
    if CLEANSTACK in flags && P2SH !in flags then Some(ValueError)
    else if CLEANSTACK in flags && phase.stack == [] then Some(EmptyStack)
    else if CLEANSTACK in flags && |phase.stack| != 1 then Some(ExtraItems)
    else if WITNESS in flags && P2SH !in flags then Some(ValueError)
    else if WITNESS in flags && !phase.hadWitness && wit != [] then Some(UnexpectedWitness)
    else None
  }

  /** None if the spend is accepted. */
  function VerifyScript(k: Crypto, flags: set<Flag>, scriptSig: Bytes, scriptPubKey: Bytes, wit: Stack): Option<Error> {
    if flags * UNHANDLED_SCRIPT_VERIFY_FLAGS != {} then Some(UnhandledFlags)
    else match EvalScript(Ctx(k, flags, Base), [], scriptSig)
      case Err(e) => Some(e)
      case Ok(pushed) =>
        match EvalScript(Ctx(k, flags, Base), pushed, scriptPubKey)
        case Err(e) => Some(e)
        case Ok(stack) =>
          if Truth(stack).Some? then Truth(stack)
          else match VerifyNative(k, flags, scriptSig, scriptPubKey, stack, wit)
            case Err(e) => Some(e)
            case Ok(native) =>
              if !(P2SH in flags && IsP2sh(scriptPubKey)) then VerifyRules(flags, native, wit)
              else match VerifyP2sh(k, flags, scriptSig, pushed, wit, native)
                case Err(e) => Some(e)
                case Ok(phase) => VerifyRules(flags, phase, wit)
  }

  method RunWitnessProgram(k: Crypto, flags: set<Flag>, wit: Stack, version: nat, program: Bytes) returns (e: Option<Error>)
    ensures e == VerifyWitnessProgram(k, flags, wit, version, program)
  {
    hide EvalScript, CastToBool;
    if version != 0 {
      return if DISCOURAGE_UPGRADABLE_WITNESS_PROGRAM in flags then Some(UpgradableWitness) else None;
    }
    var stack, script := wit, [];
    if |program| == 32 {
      if |stack| == 0 {
        return Some(WitnessEmpty);
      }
      script := stack[|stack| - 1];
      stack := stack[..|stack| - 1];
      if k.sha256(script) != program {
        return Some(WitnessMismatch);
      }
    } else if |program| == 20 {
      if |stack| != 2 {
        return Some(WitnessMismatch);
      }
      script := KeyHashScript(program);
    } else {
      return Some(WitnessProgramLength);
    }
    for i := 0 to |stack|
      invariant forall j :: 0 <= j < i ==> |stack[j]| <= MAX_SCRIPT_ELEMENT_SIZE
    {
      if |stack[i]| > MAX_SCRIPT_ELEMENT_SIZE {
        return Some(WitnessItemTooLong);
      }
    }
    var machine := new Evaluator(stack);
    e := machine.Eval(Ctx(k, flags, WitnessV0), script);
    if e.Some? {
      return;
    }
    if |machine.stack| == 0 {
      return Some(EmptyStack);
    } else if |machine.stack| != 1 {
      return Some(ExtraItems);
    }
    var truth := TestBool(machine.stack[0]);
    return if truth then None else Some(FalseResult);
  }

  method RunVerifyScript(k: Crypto, flags: set<Flag>, scriptSig: Bytes, scriptPubKey: Bytes, wit: Stack) returns (e: Option<Error>)
    ensures e == VerifyScript(k, flags, scriptSig, scriptPubKey, wit)
  {
    hide EvalScript, CastToBool, VerifyWitnessProgram, EncodePush, ParseScript;
    if flags * UNHANDLED_SCRIPT_VERIFY_FLAGS != {} {
      return Some(UnhandledFlags);
    }
    var machine := new Evaluator([]);
    e := machine.Eval(Ctx(k, flags, Base), scriptSig);
    if e.Some? {
      return;
    }
    var stackCopy := machine.stack;
    e := machine.Eval(Ctx(k, flags, Base), scriptPubKey);
    if e.Some? {
      return;
    }
    e := RunTruth(machine.stack);
    if e.Some? {
      return;
    }
    var stack, hadWitness := machine.stack, false;
    if WITNESS in flags && IsWitnessScriptPubKey(scriptPubKey) {
      hadWitness := true;
      if scriptSig != [] {
        return Some(ScriptSigNotEmpty);
      }
      e := RunWitnessProgram(k, flags, wit, WitnessVersion(scriptPubKey), WitnessProgram(scriptPubKey));
      if e.Some? {
        return;
      }
      stack := stack[..1];
    }
    ghost var native := Phase(stack, hadWitness);
    assert VerifyNative(k, flags, scriptSig, scriptPubKey, machine.stack, wit) == Ok(native);
    if P2SH in flags && IsP2sh(scriptPubKey) {
      var pushOnly := TestPushOnly(scriptSig);
      if !pushOnly {
        return Some(NotPushOnly);
      }
      stack := stackCopy;
      if |stack| == 0 {
        return Some(ValueError);
      }
      var pubKey2 := stack[|stack| - 1];
      machine.stack := stack[..|stack| - 1];
      e := machine.Eval(Ctx(k, flags, Base), pubKey2);
      if e.Some? {
        return;
      }
      stack := machine.stack;
      e := RunTruth(stack);
      if e.Some? {
        return;
      }
      if WITNESS in flags && IsWitnessScriptPubKey(pubKey2) {
        hadWitness := true;
        if scriptSig != EncodePush(pubKey2) {
          return Some(ScriptSigNotSinglePush);
        }
        e := RunWitnessProgram(k, flags, wit, WitnessVersion(pubKey2), WitnessProgram(pubKey2));
        if e.Some? {
          return;
        }
        stack := stack[..1];
      }
      assert VerifyP2sh(k, flags, scriptSig, stackCopy, wit, native) == Ok(Phase(stack, hadWitness));
    }
    hide VerifyNative, VerifyP2sh;
    if CLEANSTACK in flags {
      if P2SH !in flags {
        return Some(ValueError);
      }
      if |stack| == 0 {
        return Some(EmptyStack);
      } else if |stack| != 1 {
        return Some(ExtraItems);
      }
    }
    if WITNESS in flags {
      if P2SH !in flags {
        return Some(ValueError);
      }
      if !hadWitness && wit != [] {
        return Some(UnexpectedWitness);
      }
    }
    return None;
  }

  method RunTruth(stack: Stack) returns (e: Option<Error>)
    ensures e == Truth(stack)
  {
    if |stack| == 0 {
      return Some(EmptyStack);
    }
    var truth := TestBool(stack[|stack| - 1]);
    return if truth then None else Some(FalseResult);
  }
}
