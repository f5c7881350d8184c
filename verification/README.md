# A model of the python-bitcointx core, with proofs

This project models the consensus and encoding core of python-bitcointx and proves properties of it.
It is written for Dafny 4.11; `dafny verify dfyconfig.toml` checks the whole project.

The parts, with the modules that hold them:

- Script numbers, script bytes and DER signatures: `ScriptNum`, `Script`, `DerSignature`, over the positional numerals of `Numerals`.
- The script machine. `Interp` is the machine as a function of its state. `Machine` is the same machine as an object that
  changes its stacks, condition stack and op count in place, proved equal to it op by op. `Bounds` proves totality and limits,
  `Opcodes` what every op does by its byte value, `Multisig` what the greedy loop decides, `Structured` the refinement of an interpreter
  over nested conditionals.
- Spending: `Verify` composes the runs, `Acceptance` says what it means that they accept, `SoftFork` proves that flags only
  restrict, `FlagClosure` which of them may be dropped, `Spend` runs the standard outputs.
- Signing an input of a PSBT: `PsbtInput` is one call of `sign`, for every kind of output it knows. For standard multisig scripts
  `MultisigScript`, `PsbtSign` and `PsbtRun` prove what whole runs of calls do, `PsbtFinish` what holds from any partial signatures;
  `MultisigRun` and `PsbtAccept` carry the signed input through the script machine. `PsbtKeyHash` does both for key-hash outputs, `PsbtExamples` holds small inputs on which a promise fails.
- The taproot script tree: `Taproot`.
- SHA-256: `Sha256` is the standard written plainly, `Sha256Laws` what its functions mean bit by bit and on given numbers,
  `Sha256Machine` the unrolled transform and the incremental buffer, over the bitwise operations of `Bits` on numbers of any size, as Python has them.
- Codecs: `Serialize` states once what it means that a decoder accepts exactly the image of an encoder; `Transaction`, `KeyMap`
  and `Derivation` build on it, `Layouts` spells out their bytes, `Stream` reads and writes through a byte stream. `Bech32`, `ConvertBits`, `SegwitAddr` and `Base58`
  are the address formats.

Parameters stand for what the code takes from outside. `Interp.Crypto` holds the hash functions with their output lengths, the
signature hash of the spending input and the two curve checks. `PsbtInput.Store` is a key store seen through one input,
and a predicate stands for the curve's own test of a public key. `Taproot.Hashers` holds the tagged hashers.

## What the code does that its promises do not say

- Signing a native P2WSH input never compares the witness script with the output (bitcointx/core/psbt.py:1135-1139 does so only when a
  redeem script is present). `PsbtAccept.FinalisedIsAccepted` states the exact condition: the finalised input is accepted if and only if the
  output is a true value and, with WITNESS, the hash of the script. `PsbtExamples.ForeignScriptIsRefused` is an input that fails it.
- Multisig scripts with uncompressed keys are recognised, signed and finalised, and so are key-hash inputs of uncompressed keys, but
  WITNESS_PUBKEYTYPE refuses such keys, as STRICTENC refuses other forms. The script machine looks at the keys of a script from the last
  one down to the first that has a signature, and no further: `PsbtAccept.AcceptedExactly`, `PsbtAccept.RefusedKeyRejects`,
  `PsbtKeyHash.KeyHashAccepted`. `PsbtExamples.UncompressedKeyIsRefused` and `PsbtExamples.UncompressedKeyHashIsRefused` are such inputs.
- Before segwit, asking for SIGHASH_SINGLE at an index without an output makes every call of `sign` raise, whatever the keys:
  `PsbtRun.RunRaises`, `PsbtRun.RaisesExactly`; `PsbtExamples.SingleWithoutOutputRaises` is such an input.
- Building a multisig script does not look for repeated keys, recognising it does: `MultisigScript.BuildIsRecognised`, and
  `PsbtExamples.RepeatedKeyIsNotRecognised` for a key given twice.
- Trees of tapscripts may be nested to any depth, while a validator takes at most 128 hashes (BIP341, "Script validation rules").
  `Taproot.ControlBlockProves` states when a control block is accepted by the depth of the script, `Taproot.ShallowTreesProve` that a tree
  of height 128 is always good, and `Taproot.NestedTooDeep` is a family of legal trees of which exactly the first 128 can be spent.
- A transaction with outputs and no inputs encodes to a string that reads as the marked form. `Transaction.RoundTripsExactly` gives the
  exact reach of the round trip, `Transaction.OutputsAloneAreRefused` a transaction that does not come back.
- A proprietary group without entries is lost when a map is written: `KeyMap.EmptyGroupIsLost`. `KeyMap.MapRoundTripsExactly` makes that part
  of the condition.
- A stack item of 2^32 bytes or more used as a signature raises outside the validation errors (`Bounds.OversizedSignatureRaises`); no item
  can grow to that length from items of at most 520 bytes.

## Assumptions of the main results

- `SoftFork`: strict and lax verification agree on strictly encoded signatures, and the smaller flag set has CLEANSTACK imply WITNESS imply
  P2SH. `FlagClosure.ClosureIsExact` proves the second necessary, given that the hash of the script OP_1 is a true value.
- `PsbtRun` and `PsbtFinish`: what a key store signs for a key of the script, on the signature hash of the input, verifies for that key, is
  strictly encoded and has low S (`PsbtRun.Honest`); public keys the curve accepts are 33 to 65 bytes and do not begin like a signature; the
  signature hash of the input does not raise (if it does, every call raises). `PsbtRun` starts from no partial signatures, `PsbtFinish` from
  any that are strictly encoded with low S, which `sign` does not check; that they verify is proved. `PsbtAccept` holds for every input
  finished in the sense of `PsbtFinish.Finished`. That no signature push occurs in the script is proved, not assumed.
- `PsbtAccept.AcceptedExactly`: a signature verifies for no other key of the script. `PsbtAccept.FinalisedIsAccepted` and
  `PsbtAccept.RefusedKeyRejects` do without.
- `PsbtKeyHash`: the key found under a hash has that hash, and before segwit its signature is not itself the 20 bytes of the hash.
- `Taproot`: the hashers return 32 bytes; nothing is assumed about collisions.

## Model

| member | source | states |
|---|---|---|
| `ScriptNum.Bn2Bin` | bitcointx/core/_bignum.py:29-35 | The loop over bytes yields the shortest big-endian numeral of the integer. |
| `ScriptNum.Bin2Bn` | bitcointx/core/_bignum.py:38-42 | The loop yields the big-endian value of the bytes. |
| `ScriptNum.Bn2Mpi` | bitcointx/core/_bignum.py:45-65 | MPI form of any integer: four length bytes, then sign and magnitude; None when the length does not fit. |
| `ScriptNum.Mpi2Bn` | bitcointx/core/_bignum.py:68-91 | Reads MPI back: None unless the length field matches, else the signed value, negative zero included. |
| `ScriptNum.Bn2Vch` | bitcointx/core/_bignum.py:94-101 | The little-endian script number of an integer whenever its MPI length fits. |
| `ScriptNum.Vch2Bn` | bitcointx/core/_bignum.py:104-111 | The integer a byte string stands for as a script number. |
| `ScriptNum.DecodeEncode` | bitcointx/core/_bignum.py:100-111 | Decoding the encoding of any integer gives that integer. |
| `ScriptNum.EncodeIsShortest` | bitcointx/core/_bignum.py:45-101 | No byte string decoding to v is shorter than its encoding, and an equally short one is the encoding. |
| `ScriptNum.TestBool` | bitcointx/core/scripteval.py:435-443 | The loop with its early exits decides whether some byte is set, a final 0x80 apart. |
| `ScriptNum.CastToBoolIsNonzero` | bitcointx/core/scripteval.py:435-443 | A byte string is true exactly when its script number is not zero. |
| `ScriptNum.NumberByByte` | bitcointx/core/_bignum.py:68-111 | A number byte by byte: the last byte holds the sign and seven bits, and a byte put in front counts once, the rest 256 times as much. |
| `Script.NextOp` | bitcointx/core/script.py:781-836 | One turn of the op iterator by index arithmetic: the op at the index, or a missing length, or truncated data. |
| `Script.PushIsOp` | bitcointx/core/script.py:171-183 | Every push encoding parses back as a single push op carrying exactly the pushed data. |
| `Script.ParseConcat` | bitcointx/core/script.py:781-836 | Any list of ops is what its bytes parse to, whatever bytes follow. |
| `Script.ConcatParse` | bitcointx/core/script.py:781-836 | The ops read are a prefix of the script, and all of it when it parses. |
| `Script.FindAndDelete` | bitcointx/core/script.py:1229-1244 | The index loop removes every op at which the needle occurs and keeps the rest; a script that does not parse raises. |
| `Script.RemainingIsFilter` | bitcointx/core/script.py:1229-1244 | With a needle that is one op, deletion is parsing, dropping the equal ops and concatenating the rest. |
| `Script.RemainingReparses` | bitcointx/core/script.py:1229-1244 | The result of a deletion parses to the filtered op list. |
| `Script.RemainingIdempotent` | bitcointx/core/script.py:1229-1244 | Deleting the same op twice is deleting it once. |
| `Script.RemainingCommutes` | bitcointx/core/script.py:1229-1244 | Deleting two ops gives the same script in either order. |
| `Script.TestPushOnly` | bitcointx/core/script.py:992-1007 | The loop accepts exactly the scripts that parse and hold no op above OP_16. |
| `Script.WitnessShape` | bitcointx/core/script.py:935-965 | A witness scriptPubKey is one small number and one push, so no other op can be part of it. |
| `Spend.CoercedIsSame` | bitcointx/core/script.py:1184-1197 | Turning witness items into a script and parsing it again changes none of them. |
| `DerSignature.ParseDerLax` | bitcointx/core/ecdasig_parse_der_lax.py:36-187 | The lax parser reads only inside its input and fills the buffer with R and S as 32 big-endian bytes each, zeros when either is too large. |
| `DerSignature.StrictAgreesWithLax` | bitcointx/core/scripteval.py:243-320 | For every strictly encoded signature the lax parser, given it without the hash type, finds the same R and S. |
| `DerSignature.LaxIsExact` | bitcointx/core/ecdasig_parse_der_lax.py:36-187 | The lax parser finds two integers exactly where the bytes are a header, two integers under tags and lengths of either kind, and anything after; and finds those. |
| `DerSignature.StrictIsSignature` | bitcointx/core/scripteval.py:243-320 | A strictly encoded signature is two integers in their shortest positive form under their headers and a hash type, in at most 73 bytes. |
| `DerSignature.SignatureIsStrict` | bitcointx/core/scripteval.py:243-320 | Everything of that form is strictly encoded, with those integers. |
| `DerSignature.CompareBigEndian` | bitcointx/core/script.py:1271-1294 | The sign of the result orders two byte strings as unsigned numbers, whatever their lengths. |
| `DerSignature.HalfOrderValue` | bitcointx/core/script.py:1247-1268 | The constant of the comparison is half the curve order. |
| `DerSignature.IsLowDERSignature` | bitcointx/core/script.py:1247-1268 | For a signature with integers in place, true exactly when 0 < S <= half the curve order. |
| `Machine.Evaluator.RunUnary` | bitcointx/core/scripteval.py:601-637 | The one-operand ops on the stack in place, with the stack effect or error of their specification. |
| `Machine.Evaluator.RunBinary` | bitcointx/core/scripteval.py:651-719 | The two-operand ops and NUMEQUALVERIFY in place. |
| `Machine.Evaluator.RunShuffle` | bitcointx/core/scripteval.py:806-852 | Duplicating and dropping ops: the new stack is exactly the rearranged old one. |
| `Machine.Evaluator.RunExchange` | bitcointx/core/scripteval.py:978-1055 | NIP, ROT, SWAP, TUCK and their pair forms by deletions, insertions and exchanges below the top. |
| `Machine.Evaluator.RunPickOrRoll` | bitcointx/core/scripteval.py:998-1009 | PICK copies and ROLL moves the item the popped number counts to. |
| `Machine.Evaluator.RunCheckSig` | bitcointx/core/scripteval.py:859-888 | CHECKSIG and CHECKSIGVERIFY: the signature is dropped from the script code before segwit, and NULLFAIL holds. |
| `Machine.Evaluator.RunCheckMultiSig` | bitcointx/core/scripteval.py:495-587 | The count, match and clean-up loops over stack indexes compute the multisig result, never index out of range, and pop exactly keys + signatures + 3 items. |
| `Machine.Evaluator.RunControl` | bitcointx/core/scripteval.py:905-970 | IF, NOTIF, ELSE and ENDIF on the condition stack, executed or not. |
| `Machine.Evaluator.RunStep` | bitcointx/core/scripteval.py:751-1087 | One turn of the loop: disabled ops, op count, push size, execution and stack limit. |
| `Machine.Evaluator.Eval` | bitcointx/core/scripteval.py:729-1121 | The whole run in place ends with the stack or the error of the functional machine, for any stack and bytes. |
| `Opcodes.UnaryTable` | bitcointx/core/scripteval.py:601-637 | 1ADD, 1SUB, NEGATE, ABS, NOT and 0NOTEQUAL by byte value: the item left is the shortest one for the number meant, and longer operands fail. |
| `Opcodes.BinaryTable` | bitcointx/core/scripteval.py:651-719 | ADD, SUB, BOOLAND, BOOLOR, the comparisons, MIN, MAX and NUMEQUALVERIFY by byte value and by the numbers the two items denote. |
| `Opcodes.WithinTable` | bitcointx/core/scripteval.py:1064-1077 | WITHIN by the numbers the three items denote. |
| `Opcodes.OneItemTable` | bitcointx/core/scripteval.py:896-1063 | VERIFY, IFDUP, DROP, DUP and SIZE by byte value, exact in stack, limit and bookkeeping. |
| `Opcodes.HashTable` | bitcointx/core/scripteval.py:945-1039 | The five hash ops by byte value. |
| `Opcodes.TwoItemTable` | bitcointx/core/scripteval.py:806-1056 | 2DROP, 2DUP, NIP, OVER, SWAP, TUCK, EQUAL and EQUALVERIFY in stack notation. |
| `Opcodes.ThreeItemTable` | bitcointx/core/scripteval.py:844-1026 | 3DUP and ROT in stack notation. |
| `Opcodes.FourItemTable` | bitcointx/core/scripteval.py:818-843 | 2OVER and 2SWAP in stack notation. |
| `Opcodes.SixItemTable` | bitcointx/core/scripteval.py:825-833 | 2ROT in stack notation. |
| `Opcodes.PickTable` | bitcointx/core/scripteval.py:998-1009 | PICK and ROLL take the item with as many items above it as the top says. |
| `Opcodes.PickFails` | bitcointx/core/scripteval.py:998-1009 | And fail for every other number. |
| `Opcodes.TooFewItems` | bitcointx/core/scripteval.py:751-1087 | How many items every op needs. |
| `Opcodes.BareTable` | bitcointx/core/scripteval.py:751-1087 | NOP and the reserved ones, DEPTH, FROMALTSTACK, CODESEPARATOR, RETURN and the bytes that are no op. |
| `Opcodes.PushTable` | bitcointx/core/scripteval.py:769-796 | Pushes and small numbers, executed or not, with the limits on an item and on both stacks. |
| `Opcodes.CountTable` | bitcointx/core/scripteval.py:769-796 | One op too many and the disabled ops fail wherever they stand. |
| `Opcodes.IfTable` | bitcointx/core/scripteval.py:953-971 | IF and NOTIF branch on whether the number on top is zero, under MINIMALIF only for an empty item or a single one; unexecuted they look at nothing. |
| `Opcodes.ElseTable` | bitcointx/core/scripteval.py:905-916 | ELSE turns the innermost branch, ENDIF ends it, and neither stands alone. |
| `Opcodes.CheckSigMeans` | bitcointx/core/scripteval.py:446-492 | When the signature check raises, by flag, encoding, hash type and form of the key, and that it otherwise tells whether the curve accepts. |
| `Opcodes.CheckSigTable` | bitcointx/core/scripteval.py:859-888 | CHECKSIG and CHECKSIGVERIFY by byte value, with NULLFAIL. |
| `Bounds.TraceBounded` | bitcointx/core/scripteval.py:769-796 | After every op of every run: at most 1000 items on both stacks, op count at most 201, items at most 520 bytes or as long as the longest initial one. |
| `Bounds.EvalDeclared` | bitcointx/core/scripteval.py:1095-1121 | From any stack of pushable items a run ends in success or a declared validation error, never another exception. |
| `Bounds.OversizedSignatureRaises` | bitcointx/core/script.py:171-183 | That limit is exact: a longer item used as a signature makes the push encoding raise. |
| `Multisig.GreedyDecides` | bitcointx/core/scripteval.py:541-566 | The greedy loop succeeds exactly when all signatures can be assigned to different keys in order with every pair checking. |
| `Multisig.MultiSigOutcome` | bitcointx/core/scripteval.py:502-587 | By stack positions: what a finished multisig op popped, what its result means, and that under NULLFAIL and NULLDUMMY failing signatures and the dummy are empty. |
| `Structured.FlatRefines` | bitcointx/core/scripteval.py:751-1087 | Running the ops of nested conditionals with the condition stack is running only the selected segments recursively, repeated ELSE included. |
| `Structured.UnselectedIsSkipped` | bitcointx/core/scripteval.py:769-796 | Ops of an unselected segment are only counted; they can still fail as disabled, oversized or one too many. |
| `Structured.SkippedTouchesNothing` | bitcointx/core/scripteval.py:769-796 | Skipping leaves both stacks, the conditions and the script code start as they were. |
| `Structured.BalancedOrFails` | bitcointx/core/scripteval.py:905-970 | Every script either parses into balanced conditionals whose recursive run equals evaluation from every stack, or never succeeds. |
| `Verify.RunWitnessProgram` | bitcointx/core/scripteval.py:355-421 | Version 0 key-hash and script-hash programs, item limits, and the single true result. |
| `Verify.RunVerifyScript` | bitcointx/core/scripteval.py:1128-1259 | The composition of the runs under the flags: scriptSig, scriptPubKey, witness program, script hash, clean stack and unexpected witness. |
| `Acceptance.ProgramIsHeld` | bitcointx/core/scripteval.py:355-421 | A version 0 program is accepted exactly if hash and items fit and its script run leaves exactly one item, which is a nonzero number. |
| `Acceptance.AcceptanceIsExact` | bitcointx/core/scripteval.py:1128-1259 | A spend is accepted if and only if every rule holds, written over script runs and the numbers they leave: nonzero results, push-only and single-push scriptSig, empty scriptSig, no unexpected witness, item sizes, clean stack, dependent flags. |
| `Acceptance.KeyHashOutputNeedsSignature` | bitcointx/core/scripteval.py:355-421 | Under P2SH and WITNESS a P2WPKH output is accepted only with a key of its hash and a signature that verifies for it. |
| `Acceptance.ScriptHashOutputNeedsScript` | bitcointx/core/scripteval.py:355-421 | Under P2SH and WITNESS a P2WSH output is accepted only with a script of its hash that leaves one true item. |
| `Acceptance.KeyHashNeeds` | bitcointx/core/scripteval.py:859-888 | The key-hash script ends true on no stack but one whose top is a key of that hash, above a signature that verifies for it. |
| `Acceptance.FalseProgramIsRefused` | bitcointx/core/scripteval.py:411-421 | The P2WSH script OP_0 is refused. |
| `SoftFork.EvalSoft` | bitcointx/core/scripteval.py:446-492 | A run that succeeds under more flags ends with the same stack under fewer, given that strict and lax verification agree on strictly encoded signatures. |
| `SoftFork.FlagsAreSoftForks` | bitcointx/core/scripteval.py:1128-1259 | Acceptance under some flags carries over to every subset in which CLEANSTACK implies WITNESS implies P2SH. |
| `SoftFork.DependentFlagsReject` | bitcointx/core/scripteval.py:1238-1253 | Without P2SH the two dependent flags accept nothing. |
| `FlagClosure.ClosureIsExact` | bitcointx/core/scripteval.py:1238-1259 | Acceptance of every spend carries over to a subset of the flags if and only if in the subset CLEANSTACK implies WITNESS implies P2SH. |
| `Spend.CleanStackNeedsWitness` | bitcointx/core/scripteval.py:1238-1259 | Why CLEANSTACK has to imply WITNESS: alone it rejects every witness output. |
| `Spend.P2shStackNonempty` | bitcointx/core/scripteval.py:1200-1212 | A script hash output that ran had an item to hash, so the assertion on the copied stack holds. |
| `Spend.EvalP2sh` | bitcointx/core/script.py:900-912 | A script hash output needs an item and tells whether that item has the hash. |
| `Spend.EvalWitnessScriptPubKey` | bitcointx/core/script.py:935-965 | A witness output pushes its version and its program. |
| `MultisigScript.ParseMultisig` | bitcointx/core/script.py:1594-1663 | Succeeds on exactly the scripts m, keys, n, CHECKMULTISIG with valid distinct keys and 2 to 15 of them, and returns their threshold and keys; a refusal is of the kind for a script that does not parse or of the kind for one of another shape. |
| `MultisigScript.BuildIsRecognised` | bitcointx/core/script.py:1695-1753 | A script is built exactly from a threshold of 1 to the number of keys, 2 to 15 valid keys counted correctly, uncompressed ones only if asked for; parsing it gives back that threshold and those keys if they are distinct, and otherwise finds it not to be a standard multisig script. |
| `PsbtSign.SignatureHelper.NumSigsMissing` | bitcointx/core/script.py:1853-1862 | The required number less the signatures present; there are never more than required. |
| `PsbtSign.SignatureHelper.CollectSig` | bitcointx/core/script.py:1875-1895 | A signature goes to the slot of its key unless that is taken or there are enough; a key outside the script raises. |
| `PsbtSign.SignatureHelper.Sign` | bitcointx/core/script.py:1806-1839 | Known signatures are placed, then keys without one, or with an empty one, are tried in order until there are enough; the slots, the signatures made in turn and whether there are enough. |
| `PsbtSign.AskedIsNew` | bitcointx/core/script.py:1824-1837 | Unless a known signature is empty, the signatures made are exactly those of the newly filled slots. |
| `PsbtSign.SignatureHelper.ConstructWitnessStack` | bitcointx/core/script.py:1868-1873 | A dummy, the signatures in key order and the script, exactly when there are enough. |
| `PsbtSign.FillOutcome` | bitcointx/core/script.py:1806-1839 | Filling keeps what is there, never exceeds the threshold, and reaches it exactly when the reachable keys do. |
| `PsbtInput.Input.MaybeSignComplexScript` | bitcointx/core/psbt.py:897-934 | Finalises, or adds the new partial signatures, and reports how many are missing. |
| `PsbtInput.Input.Sign` | bitcointx/core/psbt.py:970-1256 | One call for every kind of output: the hash type asked for, finality, a missing index, the output spent with its transaction id, position and value, the script to sign for, partial signature checks, recognition and signing, with the exact outcome and every field named. |
| `PsbtInput.Input.GotSingleSig` | bitcointx/core/psbt.py:868-895 | One signature for a key hash: finalised with its key, or kept unless the key has a partial signature; the hash type has to agree. |
| `PsbtInput.Input.RunSignKeyHash` | bitcointx/core/psbt.py:1092-1128 | A key-hash input takes its one valid partial signature, or signs with the key stored under the hash, or misses one signature. |
| `PsbtFinish.SignedHasChecked` | bitcointx/core/psbt.py:1013-1044 | A call that reports anything has found every partial signature it started with not empty, of one of the six hash types and the one asked for, and accepted by the curve on the signature hash of its own type. |
| `PsbtFinish.UnvouchedRaises` | bitcointx/core/psbt.py:1013-1044 | A partial signature that fails any of that makes every call raise and leaves every field. |
| `PsbtRun.CompleteKeepsDict` | bitcointx/core/psbt.py:928-929 | New signatures are never for a key that already has a partial signature, so the dictionary update overwrites nothing. |
| `PsbtRun.RunProgress` | bitcointx/core/psbt.py:897-934 | After any sequence of calls with any key stores from no partial signatures: missing is zero exactly when the keys seen cover the threshold, the partial signatures are those of all keys seen until then, and the input is final exactly if some call finalised after that. |
| `PsbtRun.RunRaises` | bitcointx/core/script.py:1431-1443 | If the signature hash of the input raises, every call of any run raises and changes no field. |
| `PsbtRun.RaisesExactly` | bitcointx/core/script.py:1371-1382 | For a recognised script that is exactly an index beyond the inputs or, before segwit, SINGLE at an index without an output. |
| `PsbtRun.ClosedIsFinal` | bitcointx/core/psbt.py:943-970 | A finalised input reports itself final without a contradiction among its fields. |
| `PsbtFinish.AnyRunContinues` | bitcointx/core/psbt.py:897-934 | After any run from any well-encoded partial signatures the input is final only with as many signatures as required, each verifying for the key of its slot, and otherwise differs in its partial signatures alone. |
| `PsbtFinish.RunFinishes` | bitcointx/core/psbt.py:897-934 | Runs from no partial signatures end in that sense too. |
| `MultisigRun.MultisigRuns` | bitcointx/core/scripteval.py:495-587 | A standard multisig script run on a dummy and well-encoded signatures leaves one true item if they match the keys, and fails if the match fails. |
| `MultisigRun.GreedySucceeds` | bitcointx/core/scripteval.py:541-566 | Signatures in key order, each verifying for its own key, match if the keys from the first signed one on have the form the flags ask for; earlier keys are never looked at. |
| `MultisigRun.GreedyRefusesLast` | bitcointx/core/scripteval.py:541-566 | A last key of a form the flags refuse makes the match fail, whatever the signatures. |
| `MultisigRun.GreedyExactly` | bitcointx/core/scripteval.py:541-566 | If signatures verify for no other key, they match if and only if the keys from the first signed one on have that form. |
| `MultisigRun.NoSignatureInside` | bitcointx/core/script.py:1229-1244 | No push of a strictly encoded signature occurs in a standard multisig script, so nothing is deleted from it. |
| `PsbtAccept.FinalisedIsAccepted` | bitcointx/core/psbt.py:1129-1153 | For P2SH, P2WSH and P2SH-P2WSH, keys of the form the flags ask for from the first signed one on: the finalised fields are accepted under every supported flag set exactly when the output hash is true and, for a native witness output, is the hash of the witness script given. |
| `PsbtAccept.RefusedKeyRejects` | bitcointx/core/psbt.py:1129-1153 | Where the flags run the script and refuse the form of its last key, no fields finalised by any calls from any partial signatures are accepted. |
| `PsbtAccept.AcceptedExactly` | bitcointx/core/psbt.py:1129-1153 | If signatures verify for no other key of the script: the finalised fields are accepted if and only if the output can be redeemed by the script and, where the flags run it, the keys from the first signed one on have the form they ask for. |
| `PsbtExamples.ForeignScriptIsRefused` | bitcointx/core/psbt.py:1129-1153 | A native P2WSH input given a script of another hash is finalised by one call and refused. |
| `PsbtExamples.UncompressedKeyIsRefused` | bitcointx/core/psbt.py:1129-1153 | A native P2WSH input whose last key is uncompressed is finalised by one call, accepted without WITNESS_PUBKEYTYPE and refused with it. |
| `PsbtExamples.UncompressedKeyHashIsRefused` | bitcointx/core/psbt.py:1092-1128 | A native P2WPKH input of an uncompressed key is finalised by one call, and under every flag set with WITNESS accepted if and only if WITNESS_PUBKEYTYPE is not set. |
| `PsbtExamples.SingleWithoutOutputRaises` | bitcointx/core/script.py:1378-1382 | A P2SH input to be signed for SINGLE in a transaction without outputs: sign raises and changes nothing, whatever the key store. |
| `PsbtExamples.RepeatedKeyIsNotRecognised` | bitcointx/core/script.py:1695-1753 | A script of a key given twice is built and not recognised. |
| `PsbtExamples.InvalidSignatureRaises` | bitcointx/core/psbt.py:1043-1044 | A P2WPKH input with a partial signature of the right key that the curve does not accept: every call raises. |
| `PsbtKeyHash.KeyHashRun` | bitcointx/core/psbt.py:1092-1128 | After any run of calls on a P2PKH, P2WPKH or P2SH-P2WPKH input the first key found under the hash has signed, later calls keep its signature, and the input is final exactly if some call finalised from then on. |
| `PsbtKeyHash.KeyHashFromPartial` | bitcointx/core/psbt.py:1092-1128 | A call that starts from a partial signature and reports anything has checked its key against the hash and the signature on the curve, and finalises with these two. |
| `PsbtKeyHash.EvalKeyHash` | bitcointx/core/scripteval.py:859-888 | The key-hash script run on a verifying signature and the key with that hash leaves one true item if the key has the form the flags ask for, and fails otherwise. |
| `PsbtKeyHash.KeyHashAccepted` | bitcointx/core/psbt.py:1195-1229 | A finalised key-hash input is accepted if and only if the hash is true where the flags leave it on the stack and, where they run the script, the key has the form they ask for. |
| `Taproot.NewTree` | bitcointx/core/script.py:1958-1990 | Over well-formed sub-trees the constructor accepts exactly the lists with a script and a version that is even, in range and, unless asked for, conventional; the tree is well formed and of the leaves given. |
| `Taproot.PathsProve` | bitcointx/core/script.py:2098-2156 | One path per leaf in order; past its first item it leads from the leaf hash of BIP341 (version, length, script) to the root, each pair with the smaller number first, in floor or ceiling of log2 n steps. |
| `Taproot.BranchIsPair` | bitcointx/core/script.py:2149-2154 | A branch hashes its two sides in the order of their big-endian numbers, as BIP341 puts them. |
| `Taproot.SmallTrees` | bitcointx/core/script.py:2098-2156 | The roots of trees of one, two and three scripts, written out. |
| `Taproot.FindProves` | bitcointx/core/script.py:2051-2069 | For every nesting of trees the path a lookup returns folds the leaf hash of BIP341, with the returned version, onto the outermost root, each pair with the smaller number first. |
| `Taproot.FindIsFirst` | bitcointx/core/script.py:2051-2069 | A lookup finds the first script of that name in depth-first order with the version of its own tree, or nothing if there is none. |
| `Taproot.ControlBlockProves` | bitcointx/core/script.py:2031-2049 | From the control block of any named script a validator by section "Script validation rules" of BIP341 recovers the root exactly if the script lies at depth 128 or less, and the parity and internal key in any case. |
| `Taproot.PathHasDepth` | bitcointx/core/script.py:2051-2069 | The path a lookup returns has 32 bytes for every level between the script and the outermost root. |
| `Taproot.ShallowTreesProve` | bitcointx/core/script.py:2031-2049 | Every script of a tree is provable if the nesting and the logarithms of the leaf counts, rounded up, add up to at most 128. |
| `Taproot.NestedTooDeep` | bitcointx/core/script.py:1958-2069 | Legal trees nested n deep: the innermost script is found and its path leads to the root, but its control block is accepted if and only if n < 128. |
| `Taproot.LessIsTotal` | bitcointx/core/script.py:2149-2154 | The byte order used to sort a branch is total and strict. |
| `Taproot.LessIsNumeric` | bitcointx/core/script.py:2149-2154 | On equally long strings the byte order is the order of big-endian numbers. |
| `Sha256Machine.Round` | bitcointx/core/sha256.py:61-66 | One round in place is one step of section 6.2.2, with the registers one place further round the circle of indices. |
| `Sha256Machine.Extend` | bitcointx/core/sha256.py:141-142 | A schedule word computed in place and masked is the next word of the schedule. |
| `Sha256Machine.RoundSums` | bitcointx/core/sha256.py:32-66 | The unmasked sums, rotations by shifts, and the short forms of Ch and Maj give after masking the step of the standard. |
| `Sha256Machine.LowTurn` | bitcointx/core/sha256.py:40-53 | Shifting both ways without masking and then masking is a rotation. |
| `Sha256Machine.Transform64` | bitcointx/core/sha256.py:105-236 | The 64 unrolled calls with rotated indices, literal constants and the two unmasked last words are the 64 steps. |
| `Sha256Machine.TransformBlock` | bitcointx/core/sha256.py:101-245 | A block updates the state by the compression function. |
| `Sha256Machine.CSHA256.Transform` | bitcointx/core/sha256.py:97-247 | Any number of blocks updates the state by the compression of each in turn. |
| `Sha256Machine.CSHA256.Write` | bitcointx/core/sha256.py:249-280 | Whatever the chunks so far, the object holds the fold over the whole blocks of everything written and the remainder in the buffer; too long a total is refused. |
| `Sha256Machine.CSHA256.Finalize` | bitcointx/core/sha256.py:282-287 | The digest of the padded message for every total below 2^60 bytes; above, packing the length raises. |
| `Sha256Machine.CSHA256.Midstate` | bitcointx/core/sha256.py:289-305 | The eight words as big-endian bytes. |
| `Sha256Machine.CSHA256.Reset` | bitcointx/core/sha256.py:307-318 | The empty message. |
| `Sha256.RoundConstants` | bitcointx/core/sha256.py:107-236 | Every round constant is the first 32 fractional bits of the cube root of the matching prime. |
| `Sha256.InitialState` | bitcointx/core/sha256.py:307-318 | The initial state is the first 32 fractional bits of the square roots of the first eight primes. |
| `Sha256Laws.BigSigma0At` | bitcointx/core/sha256.py:40-41 | Every bit of the function is the sum of the three bits at the distances the standard gives. |
| `Sha256Laws.BigSigma1At` | bitcointx/core/sha256.py:44-45 | The same. |
| `Sha256Laws.SmallSigma0At` | bitcointx/core/sha256.py:48-49 | The same, with a shift that brings in zeros. |
| `Sha256Laws.SmallSigma1At` | bitcointx/core/sha256.py:52-53 | The same. |
| `Sha256Laws.ChooseAt` | bitcointx/core/sha256.py:32-37 | Every bit of the choice is that of the second or third operand as the first says; every bit of the majority is that of two of three. |
| `Sha256Laws.WordsAreBits` | bitcointx/core/sha256.py:32-53 | Words with equal bits are equal, so these laws determine the functions. |
| `Sha256Laws.SigmasOfOne` | bitcointx/core/sha256.py:40-53 | The four functions on the word one, as numbers. |
| `Sha256Laws.StepOnNumbers` | bitcointx/core/sha256.py:61-66 | One round on given registers, constant and word, with a sum that wraps around, as numbers. |
| `Sha256Laws.WordOnNumbers` | bitcointx/core/sha256.py:141-142 | One word of the schedule from the four it is made of, as a number. |
| `Sha256Laws.WordsAreBigEndian` | bitcointx/core/sha256.py:108-114 | A block is read as big-endian words. |
| `Sha256Laws.CompressAdds` | bitcointx/core/sha256.py:238-245 | After a block every register is the sum of what it was and what the rounds made of it. |
| `Sha256Laws.PaddingIsCanonical` | bitcointx/core/sha256.py:282-287 | The padded message is the message, 0x80, zeros and the number of bits in the fewest blocks. |
| `Sha256Laws.DigestIsBigEndian` | bitcointx/core/sha256.py:289-305 | The digest is the eight registers in order as big-endian words. |
| `Bits.ChoiceForms` | bitcointx/core/sha256.py:32-33 | The short form of the choice function equals the form of the standard, for numbers of any size. |
| `Bits.MajorityForms` | bitcointx/core/sha256.py:36-37 | The short form of the majority function equals the form of the standard. |
| `Serialize.VarIntLawful` | bitcointx/core/serialize.py:244-314 | Varints decode to what was encoded whatever follows, and only the shortest form within the limit is accepted. |
| `Serialize.CompactSizeIsPrefix` | bitcointx/core/serialize.py:246-262 | The one, three, five and nine byte forms of a length, byte by byte. |
| `Serialize.VarBytesLawful` | bitcointx/core/serialize.py:317-328 | The same for length-prefixed bytes. |
| `Serialize.VectorLawful` | bitcointx/core/serialize.py:331-383 | The same for vectors of anything with a lawful codec. |
| `Serialize.SignedLawful` | bitcointx/core/__init__.py:758-767 | The same for signed fixed-width integers in two's complement. |
| `Transaction.TxInsLawful` | bitcointx/core/__init__.py:554-671 | The same for outpoints and inputs. |
| `Transaction.TxOutsLawful` | bitcointx/core/__init__.py:758-767 | The same for outputs. |
| `Transaction.StacksLawful` | bitcointx/core/script.py:1215-1226 | The same for witness stacks. |
| `Transaction.TxRoundTrips` | bitcointx/core/__init__.py:1120-1192 | Every encodable transaction with an input, or with neither inputs nor outputs, decodes back with its witness normalised, whatever follows. |
| `Transaction.TxReencodes` | bitcointx/core/__init__.py:1120-1192 | Every accepted string is the encoding of the transaction it decodes to, in plain or marked form. |
| `Transaction.RoundTripsExactly` | bitcointx/core/__init__.py:1120-1192 | The round trip holds if and only if there is an input or no output. |
| `Transaction.OutputsAloneAreRefused` | bitcointx/core/__init__.py:1120-1192 | A transaction of one output and no input is written as bytes that are refused. |
| `Layouts.TransactionLayout` | bitcointx/core/__init__.py:1178-1192 | The bytes of a transaction with and without a witness, field by field. |
| `Layouts.MapLayout` | bitcointx/core/psbt.py:211-236 | The bytes of a map with a typed and a proprietary entry, field by field. |
| `Layouts.DerivationLayout` | bitcointx/core/psbt.py:388-395 | The bytes of derivation info, field by field. |
| `Stream.SerRead` | bitcointx/core/serialize.py:95-107 | A bounded read: the bytes, or too large with nothing read, or truncated with everything read. |
| `Stream.ReadVarInt` | bitcointx/core/serialize.py:264-314 | Reading a varint from a stream agrees with the decoder in value, position and failure. |
| `Stream.ReadBytes` | bitcointx/core/serialize.py:325-328 | The same for length-prefixed bytes. |
| `Stream.ReadTransaction` | bitcointx/core/__init__.py:1120-1176 | The same for a transaction, with its loops over inputs, outputs and witness stacks. |
| `Stream.WriteVarInt` | bitcointx/core/serialize.py:246-262 | Appends the encoding of the integer; above 64 bits it fails. |
| `Stream.WriteTransaction` | bitcointx/core/__init__.py:1178-1192 | Appends the encoding, with or without the witness, if every field fits its width, and otherwise fails, having written a prefix of it. |
| `Stream.EncodableFits` | bitcointx/core/__init__.py:1178-1192 | Every transaction of the round trips fits. |
| `KeyMap.ReadKeymap` | bitcointx/core/psbt.py:293-344 | The reading loop with its seen keys and entry count agrees with the decoder in value, position and failure. |
| `KeyMap.WriteField` | bitcointx/core/psbt.py:211-220 | Appends a key of type and data, and a value, if type and lengths fit 64 bits, and otherwise fails. |
| `KeyMap.WriteMap` | bitcointx/core/psbt.py:1453-1456 | Appends known fields, proprietary groups, unknown fields and the separator if everything fits, and otherwise fails, having written a prefix. |
| `KeyMap.WritableFits` | bitcointx/core/psbt.py:1453-1456 | Every map of the round trips fits. |
| `KeyMap.WriteList` | bitcointx/core/psbt.py:223-236 | Appends the proprietary fields of one prefix if they fit, and otherwise fails. |
| `KeyMap.KeyInjective` | bitcointx/core/psbt.py:318-325 | Equal keys have equal types and key data, so refusing duplicate keys refuses duplicate entries. |
| `KeyMap.MapRoundTrips` | bitcointx/core/psbt.py:293-344 | A written map reads back as the same typed entries, proprietary groups in order and unknown list, and reading stops at the separator. |
| `KeyMap.MapCameFrom` | bitcointx/core/psbt.py:293-344 | Every map that is read could have been written, and holds exactly the fields that were read. |
| `KeyMap.MapRoundTripsExactly` | bitcointx/core/psbt.py:211-344 | The round trip holds if and only if entries stand with their types, keys differ, limits hold and no group is empty. |
| `KeyMap.EmptyGroupIsLost` | bitcointx/core/psbt.py:223-236 | A map of one group without entries reads back without the group. |
| `Derivation.ReadDerivation` | bitcointx/core/psbt.py:365-386 | The reading loop over indexes to the end of the bytes, at most 255. |
| `Derivation.DerivationIsBijective` | bitcointx/core/psbt.py:361-395 | Key derivation info decodes from exactly its own encoding. |
| `Bech32.Polymod` | bitcointx/segwit_addr.py:40-49 | The two nested loops compute the checksum state. |
| `Bech32.PolyLinear` | bitcointx/segwit_addr.py:40-49 | The checksum is linear over exclusive or. |
| `Bech32.StepInjective` | bitcointx/segwit_addr.py:40-49 | A step without a symbol maps only the zero state to zero. |
| `Bech32.GeneratorsArePolynomial` | bitcointx/segwit_addr.py:40-49 | The five generators are the coefficients of the generator polynomial of BIP173 times the bit shifted out, in the field of 32 elements. |
| `Bech32.ExpandMeans` | bitcointx/segwit_addr.py:52-54 | The prefix counts by its high bits, a zero and its low five bits. |
| `Bech32.ChecksumUnique` | bitcointx/segwit_addr.py:57-74 | For every prefix and data the created symbols are the only six that verify under that encoding. |
| `Bech32.BurstNeverVerifies` | bitcointx/segwit_addr.py:57-65 | Changing symbols within any six adjacent places, in particular any single one, never verifies under the same encoding. |
| `Bech32.VerifyChecksum` | bitcointx/segwit_addr.py:57-65 | Which encoding, if any, the symbols verify under. |
| `Bech32.CreateChecksum` | bitcointx/segwit_addr.py:68-74 | The six symbols by shifts of the final state. |
| `ConvertBits.Convert` | bitcointx/segwit_addr.py:103-124 | The accumulator loop regroups the bits of the whole input, padded with zeros, or refused unless fewer than a group of zeros remain. |
| `ConvertBits.FiveBack` | bitcointx/segwit_addr.py:103-124 | Eight to five bits with padding and back without is the identity. |
| `ConvertBits.EightBack` | bitcointx/segwit_addr.py:103-124 | Five to eight bits without padding and back with it is the identity. |
| `SegwitAddr.BechIsBijective` | bitcointx/segwit_addr.py:77-100 | Exactly the well-cased strings of at most 90 characters are accepted whose lower case is the encoding of what they decode to. |
| `SegwitAddr.AddressIsBijective` | bitcointx/segwit_addr.py:127-155 | An address decodes to a version and program exactly if its lower case is their address. |
| `SegwitAddr.AddressMeans` | bitcointx/segwit_addr.py:77-142 | A decoded address is the prefix, a one, the version, the regrouped program and a checksum that ends in 1 for version 0 and in 0x2bc830a3 otherwise. |
| `SegwitAddr.EncodesExactly` | bitcointx/segwit_addr.py:146-155 | An address exists exactly for a lower-case printable prefix, version 0 to 16, an allowed program length and 90 characters at most. |
| `Base58.RunEncode` | bitcointx/base58.py:49-70 | The division loop and the padding loop yield the encoding. |
| `Base58.RunDecode` | bitcointx/base58.py:73-105 | The digit loop, the detour by hexadecimal and the padding loop yield the bytes or the error. |
| `Base58.DecodeInvertsEncode` | bitcointx/base58.py:49-105 | A string decodes to some bytes exactly if it is their encoding and has at most 128 characters. |
| `Base58.LeadingOnes` | bitcointx/base58.py:62-70 | Leading ones correspond one to one to leading zero bytes. |
| `Base58.PadAndHex` | bitcointx/base58.py:92-105 | Leaving out the last character when padding is made up for by the zero byte of a zero value. |
| `Base58.CheckInverts` | bitcointx/base58.py:124-146 | The same bijection for payloads with the four-byte checksum. |

## Left out

- Derivation info, which `sign` passes on to the key store: a store is a function of the key id alone, because the info of an input does not change before it is final.
- `PsbtInput.Input.Sign`: the branch order over outputs is the function `FindTarget` rather than nested statements, because the source changes no field before it is through.
- Curve arithmetic, key stores, BIP32 derivation and the computation of signature hashes: parameters.
- Taproot spending and the flags the code refuses up front: `Verify` models the refusal.
- Merging and combining PSBTs, typed PSBT fields beyond the key-value level, and the sanity messages around UTXO fields.
- The wallet, address and base58 classes over the codecs, and prefix matching.
- Mutable and immutable twins of transactions, chain parameters and class dispatch: Bitcoin's are fixed.
- `SegwitAddr`: string methods on characters outside printable ASCII never matter, because such strings are refused first.
- `SegwitAddr.EncodesExactly`: negative witness versions, which index the alphabet from its end, are outside the model.
- Digests of particular messages: the functions of SHA-256 are fixed by their bits, single steps by their numbers.
- RIPEMD-160 and SHA-1 are uninterpreted; SHA-256 is uninterpreted in the script machine and concrete in its own modules.
