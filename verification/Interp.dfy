/** The script machine as a function of its state (bitcointx/core/scripteval.py). */
module Interp {
  import opened Core
  import opened ScriptNum
  import opened Script
  import opened DerSignature

  const MAX_NUM_SIZE := 4
  const MAX_STACK_ITEMS := 1000

  datatype Flag =
    | P2SH | STRICTENC | DERSIG | LOW_S | NULLDUMMY | SIGPUSHONLY | MINIMALDATA
    | DISCOURAGE_UPGRADABLE_NOPS | CLEANSTACK | CHECKLOCKTIMEVERIFY | CHECKSEQUENCEVERIFY
    | MINIMALIF | NULLFAIL | WITNESS | DISCOURAGE_UPGRADABLE_WITNESS_PROGRAM | WITNESS_PUBKEYTYPE
    | CONST_SCRIPTCODE | TAPROOT

  datatype SigVersion = Base | WitnessV0

  /** What the machine takes from outside: hash functions, the signature hash of the spending input and the curve check. */
  datatype Crypto = Crypto(
    sha1: Bytes -> Bytes,
    sha256: Bytes -> Bytes,
    ripemd160: Bytes -> Bytes,
    sighash: (Bytes, byte, SigVersion) -> Bytes,
    verify: (Bytes, Bytes, Bytes) -> bool,
    verifyNonstrict: (Bytes, Bytes, Bytes) -> bool)
  {
    ghost predicate Valid() {
      && (forall b :: |sha1(b)| == 20)
      && (forall b :: |sha256(b)| == 32)
      && (forall b :: |ripemd160(b)| == 20)
    }

    function Hash160(b: Bytes): Bytes {
      ripemd160(sha256(b))
    }

    function Hash256(b: Bytes): Bytes {
      sha256(sha256(b))
    }
  }

  datatype Ctx = Ctx(crypto: Crypto, flags: set<Flag>, version: SigVersion)

  /** Every way a run can fail; ValueError is the one that is not a validation error. */
  datatype Error =
    | ScriptTooLarge | BadPush(reason: ParseError) | DisabledOpcode | MaxOpCount | PushTooLong
    | MissingArguments | ArgumentsInvalid | NumberOverflow | VerifyFailed | UnbalancedConditional
    | OutOfBounds | ReturnCalled | ReservedNop | UnsupportedOpcode | StackLimit | UnterminatedConditional
    | MinimalIfFailed | NullFailed | SignatureEncoding | UnknownHashType | UnknownPubkeyType
    | UncompressedWitnessPubkey | HighS
    | UnhandledFlags | EmptyStack | FalseResult | ExtraItems | NotPushOnly | ScriptSigNotEmpty | ScriptSigNotSinglePush
    | WitnessEmpty | WitnessMismatch | WitnessProgramLength | UpgradableWitness | WitnessItemTooLong | UnexpectedWitness
    | ValueError

  type Stack = seq<Bytes>

  datatype State = State(stack: Stack, alt: Stack, exec: seq<bool>, begin: nat, pc: nat, ops: nat)

  function Bool(b: bool): Bytes {
    if b then [1] else []
  }

  function CastNum(b: Bytes): Result<int, Error> {
    if |b| > MAX_NUM_SIZE then Err(NumberOverflow) else Ok(DecodeNum(b))
  }

  predicate IsCompressedPubKey(p: Bytes) {
    |p| == 33 && (p[0] == 2 || p[0] == 3)
  }

  predicate IsCompressedOrUncompressedPubKey(p: Bytes) {
    IsCompressedPubKey(p) || (|p| == 65 && p[0] == 4)
  }

  /** The encoding checks, then the curve check on the signature hash of the script code. */
  function CheckSig(c: Ctx, sig: Bytes, pubkey: Bytes, script: Bytes): Result<bool, Error> {
    if sig == [] then Ok(false)
    else
      var hashtype := sig[|sig| - 1];
      var strict := DERSIG in c.flags || LOW_S in c.flags || STRICTENC in c.flags;
      if strict && !IsValidSignatureEncoding(sig) then Err(SignatureEncoding)
      else if STRICTENC in c.flags && !(1 <= hashtype % 128 <= 3) then Err(UnknownHashType)
      else if STRICTENC in c.flags && !IsCompressedOrUncompressedPubKey(pubkey) then Err(UnknownPubkeyType)
      else if WITNESS_PUBKEYTYPE in c.flags && c.version.WitnessV0? && !IsCompressedPubKey(pubkey) then Err(UncompressedWitnessPubkey)
      else if LOW_S in c.flags && !IsLowS(sig) then Err(HighS)
      else if c.version.Base? && IsWitnessScriptPubKey(script) then Err(ValueError)
      else
        var h := c.crypto.sighash(script, hashtype, c.version);
        var der := sig[..|sig| - 1];
        Ok(if strict then c.crypto.verify(pubkey, h, der) else c.crypto.verifyNonstrict(pubkey, h, der))
  }

  /** The script code without the pushes of the signatures, before segwit. */
  function DropSignature(c: Ctx, script: Bytes, sig: Bytes): Result<Bytes, Error> {
    if c.version.WitnessV0? then Ok(script)
    else if |sig| > MAX_PUSH then Err(ValueError)
    else match Remaining(script, EncodePush(sig))
      case Err(e) => Err(BadPush(e))
      case Ok(code) => Ok(code)
  }

  function DropSignatures(c: Ctx, script: Bytes, sigs: Stack): Result<Bytes, Error>
    decreases |sigs|
  {
    if sigs == [] then Ok(script)
    else match DropSignature(c, script, sigs[0])
      case Err(e) => Err(e)
      case Ok(code) => DropSignatures(c, code, sigs[1..])
  }

  /** Signatures are tried against keys in order, each key at most once. */
  function GreedyMatch(c: Ctx, sigs: Stack, keys: Stack, script: Bytes): Result<bool, Error>
    decreases |keys|
  {
    if sigs == [] then Ok(true)
    else if |sigs| > |keys| then Ok(false)
    else match CheckSig(c, sigs[0], keys[0], script)
      case Err(e) => Err(e)
      case Ok(ok) => GreedyMatch(c, if ok then sigs[1..] else sigs, keys[1..], script)
  }

  function CheckSigOp(c: Ctx, code: byte, tail: Bytes, s: Stack): Result<Stack, Error> {
    var n := |s|;
    if n < 2 then Err(MissingArguments)
    else match DropSignature(c, tail, s[n - 2])
      case Err(e) => Err(e)
      case Ok(script) =>
        match CheckSig(c, s[n - 2], s[n - 1], script)
        case Err(e) => Err(e)
        case Ok(ok) =>
          if !ok && NULLFAIL in c.flags && s[n - 2] != [] then Err(NullFailed)
          else if code == OP_CHECKSIGVERIFY then (if ok then Ok(s[..n - 2]) else Err(VerifyFailed))
          else Ok(s[..n - 2] + [Bool(ok)])
  }

  /** The stack of a multisig op from the top: the key count, the keys, the signature count, the signatures, a dummy. */
  datatype MultiArgs = MultiArgs(keys: Stack, sigs: Stack, dummy: Bytes, rest: Stack)

  function MultiArguments(s: Stack, ops: nat): (r: Result<MultiArgs, Error>)
    ensures r.Ok? ==> |r.value.sigs| <= |r.value.keys| <= 20
    ensures r.Ok? ==> |s| == |r.value.keys| + |r.value.sigs| + 3 + |r.value.rest|
    ensures r.Ok? ==> ops + |r.value.keys| <= MAX_SCRIPT_OPCODES
  {
    var n := |s|;
    if n < 1 then Err(MissingArguments)
    else match CastNum(s[n - 1])
      case Err(e) => Err(e)
      case Ok(k) =>
        if k < 0 || k > 20 then Err(ArgumentsInvalid)
        else if ops + k > MAX_SCRIPT_OPCODES then Err(MaxOpCount)
        else if n < k + 2 then Err(ArgumentsInvalid)
        else match CastNum(s[n - 2 - k])
          case Err(e) => Err(e)
          case Ok(m) =>
            if m < 0 || m > k || n < k + m + 3 then Err(ArgumentsInvalid)
            else
              var base := n - k - m - 3;
              Ok(MultiArgs(Reverse(s[n - 1 - k..n - 1]), Reverse(s[base + 1..base + 1 + m]), s[base], s[..base]))
  }

  function AllEmpty(sigs: Stack): bool {
    forall i :: 0 <= i < |sigs| ==> sigs[i] == []
  }

  /** The stack and the op count after a multisig op. */
  function CheckMultiSig(c: Ctx, code: byte, tail: Bytes, s: Stack, ops: nat): Result<(Stack, nat), Error> {
    match MultiArguments(s, ops)
    case Err(e) => Err(e)
    case Ok(a) =>
      match DropSignatures(c, tail, a.sigs)
      case Err(e) => Err(e)
      case Ok(script) =>
        match GreedyMatch(c, a.sigs, a.keys, script)
        case Err(e) => Err(e)
        case Ok(ok) =>
          if !ok && code == OP_CHECKMULTISIGVERIFY then Err(VerifyFailed)
          else if !ok && NULLFAIL in c.flags && !AllEmpty(a.sigs) then Err(NullFailed)
          else if NULLDUMMY in c.flags && a.dummy != [] then Err(ArgumentsInvalid)
          else Ok((if code == OP_CHECKMULTISIG then a.rest + [Bool(ok)] else a.rest, ops + |a.keys|))
  }

  predicate IsUnOp(code: byte) {
    code in {OP_1ADD, OP_1SUB, OP_NEGATE, OP_ABS, OP_NOT, OP_0NOTEQUAL}
  }

  function Unary(code: byte, a: int): int {
    if code == OP_1ADD then a + 1
    else if code == OP_1SUB then a - 1
    else if code == OP_NEGATE then -a
    else if code == OP_ABS then Abs(a)
    else if code == OP_NOT then (if a == 0 then 1 else 0)
    else (if a != 0 then 1 else 0)
  }

  function UnaryOp(code: byte, s: Stack): Result<Stack, Error> {
    var n := |s|;
    if n < 1 then Err(MissingArguments)
    else match CastNum(s[n - 1])
      case Err(e) => Err(e)
      case Ok(a) => Ok(s[..n - 1] + [EncodeNum(Unary(code, a))])
  }

  predicate IsBinOp(code: byte) {
    code == OP_ADD || code == OP_SUB || OP_BOOLAND <= code <= OP_MAX
  }

  function Binary(code: byte, a: int, b: int): int {
    if code == OP_ADD then a + b
    else if code == OP_SUB then a - b
    else if code == OP_MIN then Min(a, b)
    else if code == OP_MAX then (if a > b then a else b)
    else if Compare(code, a, b) then 1 else 0
  }

  predicate Compare(code: byte, a: int, b: int) {
    if code == OP_BOOLAND then a != 0 && b != 0
    else if code == OP_BOOLOR then a != 0 || b != 0
    else if code == OP_NUMNOTEQUAL then a != b
    else if code == OP_LESSTHAN then a < b
    else if code == OP_GREATERTHAN then a > b
    else if code == OP_LESSTHANOREQUAL then a <= b
    else if code == OP_GREATERTHANOREQUAL then a >= b
    else a == b
  }

  function BinOp(code: byte, s: Stack): Result<Stack, Error> {
    var n := |s|;
    if n < 2 then Err(MissingArguments)
    else match CastNum(s[n - 1])
      case Err(e) => Err(e)
      case Ok(b) =>
        match CastNum(s[n - 2])
        case Err(e) => Err(e)
        case Ok(a) =>
          if code == OP_NUMEQUALVERIFY then (if a == b then Ok(s[..n - 2]) else Err(VerifyFailed))
          else Ok(s[..n - 2] + [EncodeNum(Binary(code, a, b))])
  }

  function Within(s: Stack): Result<Stack, Error> {
    var n := |s|;
    if n < 3 then Err(MissingArguments)
    else match CastNum(s[n - 1])
      case Err(e) => Err(e)
      case Ok(high) =>
        match CastNum(s[n - 2])
        case Err(e) => Err(e)
        case Ok(low) =>
          match CastNum(s[n - 3])
          case Err(e) => Err(e)
          case Ok(v) => Ok(s[..n - 3] + [Bool(low <= v < high)])
  }

  predicate IsHashOp(code: byte) {
    OP_RIPEMD160 <= code <= OP_HASH256
  }

  function HashOf(k: Crypto, code: byte, b: Bytes): Bytes {
    if code == OP_RIPEMD160 then k.ripemd160(b)
    else if code == OP_SHA1 then k.sha1(b)
    else if code == OP_SHA256 then k.sha256(b)
    else if code == OP_HASH160 then k.Hash160(b)
    else k.Hash256(b)
  }

  /** PICK copies and ROLL moves the item the popped number counts to. */
  function PickOrRoll(code: byte, s: Stack): Result<Stack, Error> {
    var n := |s|;
    if n < 2 then Err(MissingArguments)
    else match CastNum(s[n - 1])
      case Err(e) => Err(e)
      case Ok(k) =>
        if k < 0 || k >= n - 1 then Err(OutOfBounds)
        else
          var at := n - 2 - k;
          if code == OP_PICK then Ok(s[..n - 1] + [s[at]])
          else Ok(s[..at] + s[at + 1..n - 1] + [s[at]])
  }

  /** How many items each rearranging op needs. */
  function Arity(code: byte): nat {
    if code == OP_2ROT then 6
    else if code == OP_2OVER || code == OP_2SWAP then 4
    else if code == OP_3DUP || code == OP_ROT then 3
    else if code in {OP_2DROP, OP_2DUP, OP_NIP, OP_OVER, OP_SWAP, OP_TUCK, OP_EQUAL, OP_EQUALVERIFY} then 2
    else 1
  }

  predicate IsShuffle(code: byte) {
    code in {OP_2DROP, OP_2DUP, OP_3DUP, OP_2OVER, OP_2ROT, OP_2SWAP, OP_DROP, OP_DUP, OP_NIP, OP_OVER, OP_ROT, OP_SWAP, OP_TUCK}
  }

  /** The stack effect of the rearranging ops. */
  function Shuffle(code: byte, s: Stack): Stack
    requires IsShuffle(code) && |s| >= Arity(code)
  {
    var n := |s|;
    if code == OP_2DROP then s[..n - 2]
    else if code == OP_2DUP then s + s[n - 2..]
    else if code == OP_3DUP then s + s[n - 3..]
    else if code == OP_2OVER then s + s[n - 4..n - 2]
    else if code == OP_2ROT then s[..n - 6] + s[n - 4..] + s[n - 6..n - 4]
    else if code == OP_2SWAP then s[..n - 4] + s[n - 2..] + s[n - 4..n - 2]
    else if code == OP_DROP then s[..n - 1]
    else if code == OP_DUP then s + [s[n - 1]]
    else if code == OP_NIP then s[..n - 2] + [s[n - 1]]
    else if code == OP_OVER then s + [s[n - 2]]
    else if code == OP_ROT then s[..n - 3] + s[n - 2..] + [s[n - 3]]
    else if code == OP_SWAP then s[..n - 2] + [s[n - 1], s[n - 2]]
    else s[..n - 2] + [s[n - 1], s[n - 2], s[n - 1]]
  }

  function ShuffleOp(code: byte, s: Stack): Result<Stack, Error>
    requires IsShuffle(code)
  {
    if |s| < Arity(code) then Err(MissingArguments) else Ok(Shuffle(code, s))
  }

  predicate IsTest(code: byte) {
    code in {OP_EQUAL, OP_EQUALVERIFY, OP_IFDUP, OP_SIZE, OP_VERIFY}
  }

  /** Ops that look at the top items. */
  function TestOp(code: byte, s: Stack): Result<Stack, Error>
    requires IsTest(code)
  {
    var n := |s|;
    if n < Arity(code) then Err(MissingArguments)
    else if code == OP_EQUAL then Ok(s[..n - 2] + [Bool(s[n - 1] == s[n - 2])])
    else if code == OP_EQUALVERIFY then (if s[n - 1] == s[n - 2] then Ok(s[..n - 2]) else Err(VerifyFailed))
    else if code == OP_IFDUP then Ok(if CastToBool(s[n - 1]) then s + [s[n - 1]] else s)
    else if code == OP_SIZE then Ok(s + [EncodeNum(|s[n - 1]|)])
    else if CastToBool(s[n - 1]) then Ok(s[..n - 1]) else Err(VerifyFailed)
  }

  predicate IsNumberPush(code: byte) {
    code == OP_1NEGATE || OP_1 <= code <= OP_16
  }

  /** Ops that read and write the main stack alone. */
  function PlainOp(k: Crypto, code: byte, s: Stack): Result<Stack, Error> {
    if IsNumberPush(code) then Ok(s + [EncodeNum(code as int - 0x50)])
    else if IsBinOp(code) then BinOp(code, s)
    else if IsUnOp(code) then UnaryOp(code, s)
    else if IsShuffle(code) then ShuffleOp(code, s)
    else if IsTest(code) then TestOp(code, s)
    else if code == OP_PICK || code == OP_ROLL then PickOrRoll(code, s)
    else if code == OP_DEPTH then Ok(s + [EncodeNum(|s|)])
    else if IsHashOp(code) then (if s == [] then Err(MissingArguments) else Ok(s[..|s| - 1] + [HashOf(k, code, s[|s| - 1])]))
    else if code == OP_WITHIN then Within(s)
    else if code == OP_NOP then Ok(s)
    else if code == OP_RETURN then Err(ReturnCalled)
    else Err(UnsupportedOpcode)
  }

  predicate AllTrue(exec: seq<bool>) {
    forall i :: 0 <= i < |exec| ==> exec[i]
  }

  /** The condition an executed IF or NOTIF pops. */
  function Condition(c: Ctx, code: byte, s: Stack): Result<bool, Error> {
    if s == [] then Err(MissingArguments)
    else
      var top := s[|s| - 1];
      if c.version.WitnessV0? && MINIMALIF in c.flags && (|top| > 1 || (|top| == 1 && top[0] != 1)) then Err(MinimalIfFailed)
      else Ok(CastToBool(top) == (code == OP_IF))
  }

  predicate IsControl(code: byte) {
    OP_IF <= code <= OP_ENDIF
  }

  function Control(c: Ctx, code: byte, live: bool, st: State): Result<State, Error> {
    if code == OP_IF || code == OP_NOTIF then
      if !live then Ok(st.(exec := st.exec + [false]))
      else match Condition(c, code, st.stack)
        case Err(e) => Err(e)
        case Ok(val) => Ok(st.(stack := st.stack[..|st.stack| - 1], exec := st.exec + [val]))
    else if code == OP_ELSE || code == OP_ENDIF then
      if st.exec == [] then Err(UnbalancedConditional)
      else
        var n := |st.exec| - 1;
        Ok(st.(exec := if code == OP_ELSE then st.exec[..n] + [!st.exec[n]] else st.exec[..n]))
    else Err(UnsupportedOpcode)
  }

  /** Python's script[begin:]. */
  function Tail(script: Bytes, begin: nat): Bytes {
    if begin <= |script| then script[begin..] else []
  }

  /** The ops outside IF to ENDIF, when they are executed; at is the index of the op in the script. */
  function Execute(c: Ctx, script: Bytes, code: byte, at: nat, st: State): Result<State, Error> {
    var tail := Tail(script, st.begin);
    if code == OP_CHECKSIG || code == OP_CHECKSIGVERIFY then
      match CheckSigOp(c, code, tail, st.stack)
      case Err(e) => Err(e)
      case Ok(s) => Ok(st.(stack := s))
    else if code == OP_CHECKMULTISIG || code == OP_CHECKMULTISIGVERIFY then
      match CheckMultiSig(c, code, tail, st.stack, st.ops)
      case Err(e) => Err(e)
      case Ok((left, count)) => Ok(st.(stack := left, ops := count))
    else if code == OP_CODESEPARATOR then Ok(st.(begin := at + 1))
    else if OP_NOP1 <= code <= OP_NOP10 then
      if DISCOURAGE_UPGRADABLE_NOPS in c.flags then Err(ReservedNop) else Ok(st)
    else if code == OP_TOALTSTACK then
      if st.stack == [] then Err(MissingArguments)
      else Ok(st.(stack := st.stack[..|st.stack| - 1], alt := st.alt + [st.stack[|st.stack| - 1]]))
    else if code == OP_FROMALTSTACK then
      if st.alt == [] then Err(MissingArguments)
      else Ok(st.(stack := st.stack + [st.alt[|st.alt| - 1]], alt := st.alt[..|st.alt| - 1]))
    else
      match PlainOp(c.crypto, code, st.stack)
      case Err(e) => Err(e)
      case Ok(s) => Ok(st.(stack := s))
  }

  /** What happens to every op, executed or skipped, before it acts. */
  function Count(op: Op, st: State): Result<State, Error> {
    if IsDisabled(op.code) then Err(DisabledOpcode)
    else if op.code > OP_16 && st.ops + 1 > MAX_SCRIPT_OPCODES then Err(MaxOpCount)
    else if op.code <= OP_PUSHDATA4 && |op.data| > MAX_SCRIPT_ELEMENT_SIZE then Err(PushTooLong)
    else Ok(st.(pc := st.pc + |op.raw|, ops := if op.code > OP_16 then st.ops + 1 else st.ops))
  }

  function Limit(st: State): Result<State, Error> {
    if |st.stack| + |st.alt| > MAX_STACK_ITEMS then Err(StackLimit) else Ok(st)
  }

  function Act(c: Ctx, script: Bytes, op: Op, st: State, at: nat): Result<State, Error> {
    var live := AllTrue(st.exec);
    if op.code <= OP_PUSHDATA4 then Ok(if live then st.(stack := st.stack + [op.data]) else st)
    else if IsControl(op.code) then Control(c, op.code, live, st)
    else if live then Execute(c, script, op.code, at, st)
    else Ok(st)
  }

  /** One turn of the evaluation loop. */
  function Step(c: Ctx, script: Bytes, op: Op, st: State): Result<State, Error> {
    match Count(op, st)
    case Err(e) => Err(e)
    case Ok(counted) =>
      match Act(c, script, op, counted, st.pc)
      case Err(e) => Err(e)
      case Ok(acted) => Limit(acted)
  }

  function RunOps(c: Ctx, script: Bytes, ops: seq<Op>, st: State): Result<State, Error>
    decreases |ops|
  {
    if ops == [] then Ok(st)
    else match Step(c, script, ops[0], st)
      case Err(e) => Err(e)
      case Ok(next) => RunOps(c, script, ops[1..], next)
  }

  function Start(stack: Stack): State {
    State(stack, [], [], 0, 0, 0)
  }

  function EvalScript(c: Ctx, stack: Stack, script: Bytes): Result<Stack, Error> {
    if |script| > MAX_SCRIPT_SIZE then Err(ScriptTooLarge)
    else
      var p := ParseScript(script);
      match RunOps(c, script, p.ops, Start(stack))
      case Err(e) => Err(e)
      case Ok(st) =>
        if p.error.Some? then Err(BadPush(p.error.value))
        else if st.exec != [] then Err(UnterminatedConditional)
        else Ok(st.stack)
  }
}
