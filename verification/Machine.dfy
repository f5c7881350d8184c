/** The script machine as the source runs it: an object whose stacks, conditions and counters the ops change in place. */
module Machine {
  import opened Core
  import opened ScriptNum
  import opened Script
  import opened Interp

  /** An operation ended as its specification says: with this stack, or with this error. */
  predicate Ends<T(==)>(e: Option<Error>, spec: Result<T, Error>, got: T) {
    match spec
    case Ok(t) => e.None? && got == t
    case Err(x) => e == Some(x)
  }

  class Evaluator {
    var stack: Stack
    var alt: Stack
    var exec: seq<bool>
    var begin: nat
    var pc: nat
    var ops: nat

    constructor (initial: Stack)
      ensures stack == initial
    {
      stack, alt, exec, begin, pc, ops := initial, [], [], 0, 0, 0;
    }

    function Now(): State
      reads this
    {
      State(stack, alt, exec, begin, pc, ops)
    }

    method Pop() returns (b: Bytes)
      requires stack != []
      modifies this`stack
      ensures b == old(stack)[|old(stack)| - 1] && stack == old(stack)[..|old(stack)| - 1]
    {
      b := stack[|stack| - 1];
      stack := stack[..|stack| - 1];
    }

    /** stack.pop(), k times. */
    method Discard(k: nat)
      requires k <= |stack|
      modifies this`stack
      ensures stack == old(stack)[..|old(stack)| - k]
    {
      for i := 0 to k
        invariant stack == old(stack)[..|old(stack)| - i]
      {
        var _ := Pop();
      }
    }

    method Push(b: Bytes)
      modifies this`stack
      ensures stack == old(stack) + [b]
    {
      stack := stack + [b];
    }

    /** The item k places from the top, the top being 1. */
    function Peek(k: nat): Bytes
      requires 1 <= k <= |stack|
      reads this`stack
    {
      stack[|stack| - k]
    }

    /** Stores into the item k places from the top. */
    method Poke(k: nat, b: Bytes)
      requires 1 <= k <= |stack|
      modifies this`stack
      ensures stack == old(stack)[|old(stack)| - k := b]
    {
      stack := stack[|stack| - k := b];
    }

    method Delete(k: nat)
      requires 1 <= k <= |stack|
      modifies this`stack
      ensures stack == old(stack)[..|old(stack)| - k] + old(stack)[|old(stack)| - k + 1..]
    {
      stack := stack[..|stack| - k] + stack[|stack| - k + 1..];
    }

    method RunUnary(code: byte) returns (e: Option<Error>)
      requires IsUnOp(code)
      modifies this`stack
      ensures Ends(e, UnaryOp(code, old(stack)), stack)
    {
      hide EncodeNum, DecodeNum;
      if |stack| < 1 {
        return Some(MissingArguments);
      }
      var num := CastNum(Peek(1));
      if num.Err? {
        return Some(num.error);
      }
      var _ := Pop();
      var bn := num.value;
      if code == OP_1ADD {
        bn := bn + 1;
      } else if code == OP_1SUB {
        bn := bn - 1;
      } else if code == OP_NEGATE {
        bn := -bn;
      } else if code == OP_ABS {
        if bn < 0 {
          bn := -bn;
        }
      } else if code == OP_NOT {
        bn := if bn == 0 then 1 else 0;
      } else {
        bn := if bn != 0 then 1 else 0;
      }
      Push(EncodeNum(bn));
      return None;
    }

    method RunBinary(code: byte) returns (e: Option<Error>)
      requires IsBinOp(code)
      modifies this`stack
      ensures Ends(e, BinOp(code, old(stack)), stack)
    {
      hide EncodeNum, DecodeNum;
      if |stack| < 2 {
        return Some(MissingArguments);
      }
      var num2 := CastNum(Peek(1));
      if num2.Err? {
        return Some(num2.error);
      }
      var num1 := CastNum(Peek(2));
      if num1.Err? {
        return Some(num1.error);
      }
      var bn1, bn2, bn := num1.value, num2.value, 0;
      if code == OP_ADD {
        bn := bn1 + bn2;
      } else if code == OP_SUB {
        bn := bn1 - bn2;
      } else if code == OP_NUMEQUALVERIFY {
        if bn1 != bn2 {
          return Some(VerifyFailed);
        }
        Discard(2);
        return None;
      } else if code == OP_MIN {
        bn := if bn1 < bn2 then bn1 else bn2;
      } else if code == OP_MAX {
        bn := if bn1 > bn2 then bn1 else bn2;
      } else {
        bn := if Compare(code, bn1, bn2) then 1 else 0;
      }
      Discard(2);
      Push(EncodeNum(bn));
      return None;
    }

    method RunShuffle(code: byte) returns (e: Option<Error>)
      requires IsShuffle(code)
      modifies this`stack
      ensures Ends(e, ShuffleOp(code, old(stack)), stack)
    {
      if |stack| < Arity(code) {
        return Some(MissingArguments);
      }
      if code in {OP_2ROT, OP_2SWAP, OP_ROT, OP_SWAP, OP_TUCK, OP_NIP} {
        RunExchange(code);
        return None;
      }
      ghost var s, n := stack, |stack|;
      var v1 := Peek(1);
      if code == OP_DROP {
        v1 := Pop();
      } else if code == OP_2DROP {
        Discard(2);
      } else if code == OP_DUP {
        Push(v1);
      } else if code == OP_2DUP {
        var v2 := Peek(2);
        Push(v2);
        Push(v1);
        assert stack == s + s[n - 2..];
      } else if code == OP_3DUP {
        var v3, v2 := Peek(3), Peek(2);
        Push(v3);
        Push(v2);
        Push(v1);
        assert stack == s + s[n - 3..];
      } else if code == OP_2OVER {
        var v4, v3 := Peek(4), Peek(3);
        Push(v4);
        Push(v3);
        assert stack == s + s[n - 4..n - 2];
      } else {
        var v2 := Peek(2);
        Push(v2);
      }
      return None;
    }

    /** The ops that delete, insert or swap below the top. */
    method RunExchange(code: byte)
      requires code in {OP_2ROT, OP_2SWAP, OP_ROT, OP_SWAP, OP_TUCK, OP_NIP} && |stack| >= Arity(code)
      modifies this`stack
      ensures stack == Shuffle(code, old(stack))
    {
      ghost var s, n := stack, |stack|;
      if code == OP_2ROT {
        RunRotatePairs();
      } else if code == OP_2SWAP {
        RunSwapPairs();
      } else if code == OP_ROT {
        Swap(3, 2);
        Swap(2, 1);
        assert stack == s[..n - 3] + s[n - 2..] + [s[n - 3]];
      } else if code == OP_SWAP {
        Swap(2, 1);
        assert stack == s[..n - 2] + [s[n - 1], s[n - 2]];
      } else if code == OP_TUCK {
        var at := |stack| - 2;
        stack := stack[..at] + [Peek(1)] + stack[at..];
        assert stack == s[..n - 2] + [s[n - 1], s[n - 2], s[n - 1]];
      } else {
        Delete(2);
        assert stack == s[..n - 2] + [s[n - 1]];
      }
    }

    method RunRotatePairs()
      requires |stack| >= 6
      modifies this`stack
      ensures stack == Shuffle(OP_2ROT, old(stack))
    {
      ghost var s, n := stack, |stack|;
      var v1, v2 := Peek(6), Peek(5);
      Delete(6);
      assert stack == s[..n - 6] + s[n - 5..];
      Delete(5);
      assert stack == s[..n - 6] + s[n - 4..];
      Push(v1);
      Push(v2);
      assert stack == s[..n - 6] + s[n - 4..] + s[n - 6..n - 4];
    }

    method RunSwapPairs()
      requires |stack| >= 4
      modifies this`stack
      ensures stack == Shuffle(OP_2SWAP, old(stack))
    {
      ghost var s, n := stack, |stack|;
      Swap(4, 2);
      Swap(3, 1);
      assert stack == s[..n - 4] + s[n - 2..] + s[n - 4..n - 2];
    }

    /** Exchanges two items through a temporary. */
    method Swap(j: nat, k: nat)
      requires 1 <= k < j <= |stack|
      modifies this`stack
      ensures var n := |old(stack)|; stack == old(stack)[n - j := old(stack)[n - k]][n - k := old(stack)[n - j]]
    {
      var tmp := Peek(j);
      Poke(j, Peek(k));
      Poke(k, tmp);
    }

    method RunTest(code: byte) returns (e: Option<Error>)
      requires IsTest(code)
      modifies this`stack
      ensures Ends(e, TestOp(code, old(stack)), stack)
    {
      hide EncodeNum, CastToBool;
      if |stack| < Arity(code) {
        return Some(MissingArguments);
      }
      if code == OP_EQUAL {
        ghost var s := stack;
        var v1 := Pop();
        var v2 := Pop();
        assert stack == s[..|s| - 2];
        Push(if v1 == v2 then [1] else []);
      } else if code == OP_EQUALVERIFY {
        if Peek(1) != Peek(2) {
          return Some(VerifyFailed);
        }
        Discard(2);
      } else if code == OP_IFDUP {
        var vch := Peek(1);
        var truth := TestBool(vch);
        if truth {
          Push(vch);
        }
      } else if code == OP_SIZE {
        Push(EncodeNum(|Peek(1)|));
      } else {
        var truth := TestBool(Peek(1));
        if !truth {
          return Some(VerifyFailed);
        }
        var _ := Pop();
      }
      return None;
    }

    method RunPickOrRoll(code: byte) returns (e: Option<Error>)
      requires code == OP_PICK || code == OP_ROLL
      modifies this`stack
      ensures Ends(e, PickOrRoll(code, old(stack)), stack)
    {
      hide DecodeNum;
      if |stack| < 2 {
        return Some(MissingArguments);
      }
      var b := Pop();
      var num := CastNum(b);
      if num.Err? {
        return Some(num.error);
      }
      var n := num.value;
      if n < 0 || n >= |stack| {
        return Some(OutOfBounds);
      }
      var vch := Peek(n + 1);
      ghost var s := stack;
      if code == OP_ROLL {
        Delete(n + 1);
        assert old(stack)[|s| - n..|s|] == s[|s| - n..];
        assert old(stack)[..|s| - n - 1] == s[..|s| - n - 1];
      }
      Push(vch);
      return None;
    }

    method RunWithin() returns (e: Option<Error>)
      modifies this`stack
      ensures Ends(e, Within(old(stack)), stack)
    {
      hide DecodeNum;
      if |stack| < 3 {
        return Some(MissingArguments);
      }
      var bn3 := CastNum(Peek(1));
      if bn3.Err? {
        return Some(bn3.error);
      }
      var bn2 := CastNum(Peek(2));
      if bn2.Err? {
        return Some(bn2.error);
      }
      var bn1 := CastNum(Peek(3));
      if bn1.Err? {
        return Some(bn1.error);
      }
      Discard(3);
      Push(if bn2.value <= bn1.value && bn1.value < bn3.value then [1] else []);
      return None;
    }

    method RunPlain(k: Crypto, code: byte) returns (e: Option<Error>)
      modifies this`stack
      ensures Ends(e, PlainOp(k, code, old(stack)), stack)
    {
      hide BinOp, UnaryOp, ShuffleOp, TestOp, PickOrRoll, Within, EncodeNum;
      if IsNumberPush(code) {
        Push(EncodeNum(code as int - 0x50));
        return None;
      } else if IsBinOp(code) {
        e := RunBinary(code);
      } else if IsUnOp(code) {
        e := RunUnary(code);
      } else if IsShuffle(code) {
        e := RunShuffle(code);
      } else if IsTest(code) {
        e := RunTest(code);
      } else if code == OP_PICK || code == OP_ROLL {
        e := RunPickOrRoll(code);
      } else if code == OP_DEPTH {
        Push(EncodeNum(|stack|));
        return None;
      } else if IsHashOp(code) {
        if |stack| < 1 {
          return Some(MissingArguments);
        }
        var b := Pop();
        Push(HashOf(k, code, b));
        return None;
      } else if code == OP_WITHIN {
        e := RunWithin();
      } else if code == OP_NOP {
        return None;
      } else if code == OP_RETURN {
        return Some(ReturnCalled);
      } else {
        return Some(UnsupportedOpcode);
      }
    }

    method RunCheckSig(c: Ctx, code: byte, tail: Bytes) returns (e: Option<Error>)
      requires code == OP_CHECKSIG || code == OP_CHECKSIGVERIFY
      modifies this`stack
      ensures Ends(e, CheckSigOp(c, code, tail, old(stack)), stack)
    {
      hide CheckSig;
      if |stack| < 2 {
        return Some(MissingArguments);
      }
      var vchPubKey, vchSig := Peek(1), Peek(2);
      var dropped := RunDrop(c, tail, vchSig);
      if dropped.Err? {
        return Some(dropped.error);
      }
      hide DropSignature;
      var checked := CheckSig(c, vchSig, vchPubKey, dropped.value);
      if checked.Err? {
        return Some(checked.error);
      }
      var ok := checked.value;
      if !ok && NULLFAIL in c.flags && |vchSig| != 0 {
        return Some(NullFailed);
      }
      if !ok && code == OP_CHECKSIGVERIFY {
        return Some(VerifyFailed);
      }
      Discard(2);
      if ok {
        if code != OP_CHECKSIGVERIFY {
          Push([1]);
        }
      } else {
        Push([]);
      }
      return None;
    }

    method RunDrop(c: Ctx, script: Bytes, sig: Bytes) returns (r: Result<Bytes, Error>)
      ensures r == DropSignature(c, script, sig)
    {
      if c.version.WitnessV0? {
        return Ok(script);
      }
      if |sig| > MAX_PUSH {
        return Err(ValueError);
      }
      var found := FindAndDelete(script, EncodePush(sig));
      match found {
        case Err(x) => return Err(BadPush(x));
        case Ok(code) => return Ok(code);
      }
    }

    /** Reads the counts; keys are counted into the op count before anything else can fail. */
    method ReadCounts() returns (r: Result<(nat, nat), Error>)
      modifies this`ops
      ensures match MultiArguments(stack, old(ops))
              case Err(x) => r == Err(x)
              case Ok(a) => r == Ok((|a.keys|, |a.sigs|)) && ops == old(ops) + |a.keys|
    {
      hide DecodeNum;
      var i := 1;
      if |stack| < i {
        return Err(MissingArguments);
      }
      var count := CastNum(Peek(i));
      if count.Err? {
        return Err(count.error);
      }
      var keysCount := count.value;
      if keysCount < 0 || keysCount > 20 {
        return Err(ArgumentsInvalid);
      }
      i := i + 1;
      i := i + keysCount;
      ops := ops + keysCount;
      if ops > MAX_SCRIPT_OPCODES {
        return Err(MaxOpCount);
      }
      if |stack| < i {
        return Err(ArgumentsInvalid);
      }
      count := CastNum(Peek(i));
      if count.Err? {
        return Err(count.error);
      }
      var sigsCount := count.value;
      if sigsCount < 0 || sigsCount > keysCount {
        return Err(ArgumentsInvalid);
      }
      i := i + 1;
      i := i + sigsCount;
      if |stack| < i {
        return Err(ArgumentsInvalid);
      }
      r := Ok((keysCount, sigsCount));
    }

    /** _CheckMultiSig. */
    method RunCheckMultiSig(c: Ctx, code: byte, tail: Bytes) returns (e: Option<Error>)
      requires code == OP_CHECKMULTISIG || code == OP_CHECKMULTISIGVERIFY
      modifies this`stack, this`ops
      ensures Ends(e, CheckMultiSig(c, code, tail, old(stack), old(ops)), (stack, ops))
    {
      hide MultiArguments, GreedyMatch, DropSignatures;
      ghost var s := stack;
      ghost var args := MultiArguments(stack, ops);
      if args.Ok? {
        MultiLayout(stack, ops);
      }
      var counts := ReadCounts();
      if counts.Err? {
        return Some(counts.error);
      }
      var (keysCount, sigsCount) := counts.value;
      ghost var a := args.value;
      var dropped := DropEach(c, tail, a, 3 + keysCount, sigsCount);
      if dropped.Err? {
        return Some(dropped.error);
      }
      var matched := MatchLoop(c, code, a, dropped.value, 3 + keysCount, 2, sigsCount, keysCount);
      if matched.Err? {
        return Some(matched.error);
      }
      var success := matched.value;
      e := Unwind(c, success, 3 + keysCount + sigsCount, keysCount + 2);
      if e.Some? {
        return;
      }
      if code == OP_CHECKMULTISIG {
        Push(if success then [1] else []);
      }
    }

    /** The stack from position at downwards holds these items, first one highest. */
    ghost predicate Holds(at: nat, items: Stack)
      reads this`stack
    {
      && 1 <= at && at + |items| <= |stack| + 1
      && forall k :: 0 <= k < |items| ==> items[k] == stack[|stack| - at - k]
    }

    method DropEach(c: Ctx, tail: Bytes, ghost a: MultiArgs, isig: nat, sigsCount: nat) returns (r: Result<Bytes, Error>)
      requires Holds(isig, a.sigs) && |a.sigs| == sigsCount
      ensures r == DropSignatures(c, tail, a.sigs)
    {
      hide DropSignature;
      r := Ok(tail);
      if c.version.WitnessV0? {
        WitnessKeepsAll(c, tail, a.sigs);
        return;
      }
      var script := tail;
      assert a.sigs[0..] == a.sigs;
      for k := 0 to sigsCount
        invariant DropSignatures(c, tail, a.sigs) == DropSignatures(c, script, a.sigs[k..])
      {
        var sig := Peek(isig + k);
        assert a.sigs[k..][0] == sig && a.sigs[k..][1..] == a.sigs[k + 1..];
        var dropped := RunDrop(c, script, sig);
        if dropped.Err? {
          return Err(dropped.error);
        }
        script := dropped.value;
      }
      r := Ok(script);
    }

    method MatchLoop(c: Ctx, code: byte, ghost a: MultiArgs, script: Bytes, isig0: nat, ikey0: nat, sigsCount0: nat, keysCount0: nat)
      returns (r: Result<bool, Error>)
      requires Holds(isig0, a.sigs) && Holds(ikey0, a.keys)
      requires |a.sigs| == sigsCount0 <= keysCount0 == |a.keys|
      ensures match GreedyMatch(c, a.sigs, a.keys, script)
              case Err(x) => r == Err(x)
              case Ok(ok) => r == if !ok && code == OP_CHECKMULTISIGVERIFY then Err(VerifyFailed) else Ok(ok)
    {
      hide CheckSig;
      var isig, ikey, sigsCount, keysCount := isig0, ikey0, sigsCount0, keysCount0;
      var success := true;
      ghost var goal := GreedyMatch(c, a.sigs, a.keys, script);
      ghost var sigs, keys := a.sigs, a.keys;
      while success && sigsCount > 0
        invariant |sigs| == sigsCount && |keys| == keysCount
        invariant Holds(isig, sigs) && Holds(ikey, keys)
        invariant success <==> sigsCount <= keysCount
        invariant goal == GreedyMatch(c, sigs, keys, script)
        invariant !success ==> code != OP_CHECKMULTISIGVERIFY
        decreases keysCount
      {
        var sig, pubkey := Peek(isig), Peek(ikey);
        var checked := CheckSig(c, sig, pubkey, script);
        if checked.Err? {
          return Err(checked.error);
        }
        if checked.value {
          sigs := sigs[1..];
          isig := isig + 1;
          sigsCount := sigsCount - 1;
        }
        keys := keys[1..];
        ikey := ikey + 1;
        keysCount := keysCount - 1;
        if sigsCount > keysCount {
          success := false;
          if code == OP_CHECKMULTISIGVERIFY {
            return Err(VerifyFailed);
          }
        }
      }
      return Ok(success);
    }

    /** Pops everything the op read, checking on the way the signatures of a failure and the dummy. */
    method Unwind(c: Ctx, success: bool, i0: nat, ikey20: nat) returns (e: Option<Error>)
      requires 2 <= ikey20 < i0 <= |stack|
      modifies this`stack
      ensures var s, n := old(stack), |old(stack)|;
              if !success && NULLFAIL in c.flags && exists k :: n - i0 < k < n - ikey20 && s[k] != [] then e == Some(NullFailed)
              else if NULLDUMMY in c.flags && s[n - i0] != [] then e == Some(ArgumentsInvalid)
              else e.None? && stack == s[..n - i0]
    {
      var i, ikey2 := i0, ikey20;
      ghost var s, n := stack, |stack|;
      while i > 1
        invariant 1 <= i <= i0 && stack == s[..n - (i0 - i)]
        invariant ikey2 == if i0 - i <= ikey20 then ikey20 - (i0 - i) else 0
        invariant !success && NULLFAIL in c.flags ==> forall k :: n - (i0 - i) <= k < n - ikey20 ==> s[k] == []
      {
        if !success && NULLFAIL in c.flags && ikey2 == 0 && |Peek(1)| != 0 {
          assert s[n - (i0 - i) - 1] != [];
          return Some(NullFailed);
        }
        if ikey2 > 0 {
          ikey2 := ikey2 - 1;
        }
        var _ := Pop();
        i := i - 1;
      }
      if |stack| != 0 && NULLDUMMY in c.flags {
        if Peek(1) != [] {
          return Some(ArgumentsInvalid);
        }
      }
      var _ := Pop();
      return None;
    }

    method CheckExec() returns (live: bool)
      ensures live == AllTrue(exec)
    {
      for i := 0 to |exec|
        invariant forall j :: 0 <= j < i ==> exec[j]
      {
        if !exec[i] {
          return false;
        }
      }
      return true;
    }

    method RunControl(c: Ctx, code: byte, live: bool) returns (e: Option<Error>)
      requires IsControl(code)
      modifies this`stack, this`exec
      ensures Ends(e, Control(c, code, live, old(Now())), Now())
    {
      hide CastToBool;
      if code == OP_IF || code == OP_NOTIF {
        var val := false;
        if live {
          if |stack| < 1 {
            return Some(MissingArguments);
          }
          var vch := Pop();
          if c.version.WitnessV0? && MINIMALIF in c.flags {
            if |vch| > 1 {
              return Some(MinimalIfFailed);
            }
            if |vch| == 1 && vch[0] != 1 {
              return Some(MinimalIfFailed);
            }
          }
          val := TestBool(vch);
          if code == OP_NOTIF {
            val := !val;
          }
        }
        exec := exec + [val];
      } else if code == OP_ELSE {
        if |exec| == 0 {
          return Some(UnbalancedConditional);
        }
        ghost var was := exec;
        exec := exec[|exec| - 1 := !exec[|exec| - 1]];
        assert exec == was[..|was| - 1] + [!was[|was| - 1]];
      } else if code == OP_ENDIF {
        if |exec| == 0 {
          return Some(UnbalancedConditional);
        }
        exec := exec[..|exec| - 1];
      } else {
        return Some(UnsupportedOpcode);
      }
      return None;
    }

    method RunExecute(c: Ctx, script: Bytes, code: byte, at: nat) returns (e: Option<Error>)
      modifies this
      ensures Ends(e, Execute(c, script, code, at, old(Now())), Now())
    {
      hide CheckSigOp, CheckMultiSig, PlainOp;
      if code == OP_CHECKMULTISIG || code == OP_CHECKMULTISIGVERIFY {
        e := RunCheckMultiSig(c, code, Tail(script, begin));
      } else if code == OP_CHECKSIG || code == OP_CHECKSIGVERIFY {
        e := RunCheckSig(c, code, Tail(script, begin));
      } else if code == OP_CODESEPARATOR {
        begin := at + 1;
        return None;
      } else if OP_NOP1 <= code <= OP_NOP10 {
        return if DISCOURAGE_UPGRADABLE_NOPS in c.flags then Some(ReservedNop) else None;
      } else if code == OP_TOALTSTACK {
        if |stack| < 1 {
          return Some(MissingArguments);
        }
        var b := Pop();
        alt := alt + [b];
        return None;
      } else if code == OP_FROMALTSTACK {
        if |alt| < 1 {
          return Some(MissingArguments);
        }
        Push(alt[|alt| - 1]);
        alt := alt[..|alt| - 1];
        return None;
      } else {
        e := RunPlain(c.crypto, code);
      }
    }

    /** One turn of the evaluation loop. */
    method RunStep(c: Ctx, script: Bytes, op: Op) returns (e: Option<Error>)
      modifies this
      ensures Ends(e, Step(c, script, op, old(Now())), Now())
    {
      hide Execute, Control;
      var live := CheckExec();
      var at := pc;
      if IsDisabled(op.code) {
        return Some(DisabledOpcode);
      }
      if op.code > OP_16 {
        ops := ops + 1;
        if ops > MAX_SCRIPT_OPCODES {
          return Some(MaxOpCount);
        }
      }
      pc := pc + |op.raw|;
      if op.code <= OP_PUSHDATA4 {
        if |op.data| > MAX_SCRIPT_ELEMENT_SIZE {
          return Some(PushTooLong);
        } else if live {
          Push(op.data);
        }
      } else if live || (OP_IF <= op.code && op.code <= OP_ENDIF) {
        if OP_IF <= op.code && op.code <= OP_ENDIF {
          e := RunControl(c, op.code, live);
        } else {
          e := RunExecute(c, script, op.code, at);
        }
        if e.Some? {
          return;
        }
      }
      if |stack| + |alt| > MAX_STACK_ITEMS {
        return Some(StackLimit);
      }
      return None;
    }

    method Eval(c: Ctx, script: Bytes) returns (e: Option<Error>)
      modifies this
      ensures Ends(e, EvalScript(c, old(stack), script), stack)
    {
      hide Step, ReadOp;
      if |script| > MAX_SCRIPT_SIZE {
        return Some(ScriptTooLarge);
      }
      ghost var initial := stack;
      ghost var parse := ParseScript(script);
      alt, exec, begin, pc, ops := [], [], 0, 0, 0;
      ghost var goal := RunOps(c, script, parse.ops, Start(stack));
      ghost var rest := parse.ops;
      assert script[0..] == script;
      while pc < |script|
        invariant pc <= |script|
        invariant ParseScript(script[pc..]) == Parse(rest, parse.error)
        invariant RunOps(c, script, rest, Now()) == goal
        decreases |script| - pc
      {
        var next := NextOp(script, pc);
        if next.Err? {
          return Some(BadPush(next.error));
        }
        ghost var tail := script[pc..];
        ghost var was := Now();
        assert rest[0] == next.value && rest[1..] == ParseScript(tail[|next.value.raw|..]).ops;
        e := RunStep(c, script, next.value);
        if e.Some? {
          return;
        }
        StepAdvances(c, script, next.value, was);
        assert tail[|next.value.raw|..] == script[pc..];
        rest := rest[1..];
      }
      assert script[pc..] == [];
      if |exec| != 0 {
        return Some(UnterminatedConditional);
      }
      return None;
    }
  }

  /** Where the parts of a multisig op lie on the stack. */
  lemma MultiLayout(s: Stack, ops: nat)
    requires MultiArguments(s, ops).Ok?
    ensures var a := MultiArguments(s, ops).value;
            var n, i, j := |s|, |a.keys| + |a.sigs| + 3, |a.keys| + 2;
            && a.dummy == s[n - i] && a.rest == s[..n - i]
            && (forall k :: 0 <= k < |a.keys| ==> a.keys[k] == s[n - 2 - k])
            && (forall k :: 0 <= k < |a.sigs| ==> a.sigs[k] == s[n - 1 - j - k])
            && (AllEmpty(a.sigs) <==> forall k :: n - i < k < n - j ==> s[k] == [])
  {
    var a := MultiArguments(s, ops).value;
    var n, i, j := |s|, |a.keys| + |a.sigs| + 3, |a.keys| + 2;
    hide DecodeNum;
    assert forall k :: 0 <= k < |a.sigs| ==> a.sigs[k] == s[n - j - 1 - k];
    forall k | n - i < k < n - j
      ensures s[k] == a.sigs[n - j - 1 - k]
    {
    }
  }

  lemma StepAdvances(c: Ctx, script: Bytes, op: Op, st: State)
    ensures match Step(c, script, op, st) case Err(_) => true case Ok(next) => next.pc == st.pc + |op.raw|
  {
    hide CheckSigOp, CheckMultiSig, PlainOp, Condition;
  }

  lemma {:induction false} WitnessKeepsAll(c: Ctx, script: Bytes, sigs: Stack)
    requires c.version.WitnessV0?
    ensures DropSignatures(c, script, sigs) == Ok(script)
    decreases |sigs|
  {
    if sigs != [] {
      WitnessKeepsAll(c, script, sigs[1..]);
    }
  }
}
