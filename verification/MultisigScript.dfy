/** Standard multisig scripts: how they are built and recognised. */
module MultisigScript {
  import opened Core
  import opened Script

  const MAX_P2SH_MULTISIG_PUBKEYS := 15

  type Keys = seq<Bytes>

  datatype Info = Info(required: nat, pubkeys: Keys)

  predicate Distinct(keys: Keys) {
    forall i, j :: 0 <= i < j < |keys| ==> keys[i] != keys[j]
  }

  /** What the cooked iterator yields for an op: a number for OP_0 and every op above the pushes, bytes otherwise. */
  function Number(op: Op): Option<nat> {
    if op.code == 0 then Some(0)
    else if op.code <= OP_PUSHDATA4 then None
    else if IsSmallInt(op.code) then Some(op.code as int - 0x50)
    else Some(op.code)
  }

  predicate IsKey(fullyValid: Bytes -> bool, op: Op) {
    Number(op).None? && fullyValid(op.data)
  }

  function KeysOf(ops: seq<Op>): (keys: Keys)
    ensures |keys| == |ops| && forall i :: 0 <= i < |ops| ==> keys[i] == ops[i].data
  {
    seq(|ops|, i requires 0 <= i < |ops| => ops[i].data)
  }

  /** m, the keys, n, CHECKMULTISIG; fullyValid stands for the curve's own test of a public key. */
  predicate Recognised(fullyValid: Bytes -> bool, p: Parse) {
    var n := |p.ops| - 3;
    && p.error.None?
    && 2 <= n <= MAX_P2SH_MULTISIG_PUBKEYS
    && OP_1 <= p.ops[0].code && p.ops[0].code as int - 0x50 <= n
    && (forall i :: 1 <= i <= n ==> IsKey(fullyValid, p.ops[i]))
    && p.ops[n + 1].code == 0x50 + n
    && p.ops[n + 2].code == OP_CHECKMULTISIG
    && Distinct(KeysOf(p.ops[1..n + 1]))
  }

  function InfoOf(p: Parse): Info
    requires |p.ops| >= 3 && p.ops[0].code >= 0x50
  {
    Info(p.ops[0].code as int - 0x50, KeysOf(p.ops[1..|p.ops| - 2]))
  }

  predicate IsMultisig(fullyValid: Bytes -> bool, script: Bytes, info: Info) {
    var p := ParseScript(script);
    Recognised(fullyValid, p) && info == InfoOf(p)
  }

  predicate KeysThrough(fullyValid: Bytes -> bool, ops: seq<Op>, n: nat)
    requires n < |ops|
  {
    forall i :: 1 <= i <= n ==> IsKey(fullyValid, ops[i])
  }

  /** n keys and their number after the threshold, and CHECKMULTISIG if there is one op more. */
  predicate Counted(fullyValid: Bytes -> bool, ops: seq<Op>, n: nat) {
    && 2 <= n <= MAX_P2SH_MULTISIG_PUBKEYS && n + 2 <= |ops| <= n + 3
    && KeysThrough(fullyValid, ops, n) && ops[n + 1].code == 0x50 + n
    && (|ops| == n + 3 ==> ops[n + 2].code == OP_CHECKMULTISIG)
  }

  /** The ops could begin a standard multisig script: every test made before the next op is read has passed. */
  predicate Plausible(fullyValid: Bytes -> bool, ops: seq<Op>) {
    ops == []
    || (&& OP_1 <= ops[0].code <= 0x50 + MAX_P2SH_MULTISIG_PUBKEYS
        && ((|ops| <= MAX_P2SH_MULTISIG_PUBKEYS + 1 && KeysThrough(fullyValid, ops, |ops| - 1))
            || exists n :: 2 <= n <= MAX_P2SH_MULTISIG_PUBKEYS && Counted(fullyValid, ops, n)))
  }

  /** The two ways parsing gives up: the script is not of the form, or its bytes do not parse. */
  datatype Refusal = NotMultisig | InvalidScript

  /** What parsing gives: an op that cannot be read counts only if everything before it was plausible. */
  function ParseInfo(fullyValid: Bytes -> bool, p: Parse): Result<Info, Refusal> {
    if Recognised(fullyValid, p) then Ok(InfoOf(p))
    else if p.error.Some? && Plausible(fullyValid, p.ops) then Err(InvalidScript)
    else Err(NotMultisig)
  }

  lemma InfoIsMultisig(fullyValid: Bytes -> bool, p: Parse)
    requires ParseInfo(fullyValid, p).Ok?
    ensures Recognised(fullyValid, p) && var info := ParseInfo(fullyValid, p).value; 1 <= info.required && Distinct(info.pubkeys)
  {
  }

  /** Python's iterator over a script: next yields an op, stops, or finds that the rest does not parse. */
  class ScriptIterator {
    const script: Bytes
    var pos: nat

    constructor (script: Bytes)
      ensures this.script == script && pos == 0
    {
      this.script, pos := script, 0;
    }

    ghost predicate AtOp(p: Parse, k: nat)
      reads this
    {
      pos <= |script| && k <= |p.ops| && ParseScript(script[pos..]) == Parse(p.ops[k..], p.error)
    }

    /** The k-th op of the script, if there is one. */
    method Next(ghost p: Parse, ghost k: nat) returns (r: Result<Op, Refusal>)
      requires AtOp(p, k)
      modifies this
      ensures match r
              case Ok(op) => k < |p.ops| && op == p.ops[k] && AtOp(p, k + 1)
              case Err(e) => k == |p.ops| && e == if p.error.Some? then InvalidScript else NotMultisig
    {
      hide ReadOp;
      ghost var tail := script[pos..];
      if pos >= |script| {
        return Err(NotMultisig);
      }
      var next := NextOp(script, pos);
      if next.Err? {
        return Err(InvalidScript);
      }
      assert p.ops[k..][0] == next.value && p.ops[k..][1..] == p.ops[k + 1..];
      assert tail[|next.value.raw|..] == script[pos + |next.value.raw|..];
      pos := pos + |next.value.raw|;
      return Ok(next.value);
    }
  }

  /** parse_standard_multisig_redeem_script succeeds on exactly the standard multisig scripts, and gives up as specified on the others. */
  method ParseMultisig(fullyValid: Bytes -> bool, script: Bytes) returns (r: Result<Info, Refusal>)
    ensures r == ParseInfo(fullyValid, ParseScript(script))
  {
    hide ParseScript;
    var si := new ScriptIterator(script);
    assert script[0..] == script;
    ghost var p := ParseScript(script);
    assert p.ops[0..] == p.ops;
    var item := si.Next(p, 0);
    if item.Err? {
      return Err(item.error);
    }
    var required := Number(item.value);
    if required.None? || required.value < 1 || required.value > MAX_P2SH_MULTISIG_PUBKEYS {
      return Err(NotMultisig);
    }
    hide ParseInfo;
    var keys := ReadKeys(fullyValid, si, p);
    if keys.Err? {
      return Err(keys.error);
    }
    var (pubkeys, total) := keys.value;
    NumberAfterKeys(fullyValid, p, |pubkeys|);
    if total != |pubkeys| || total < 2 || total > MAX_P2SH_MULTISIG_PUBKEYS {
      NotCounted(fullyValid, p, |pubkeys|);
      return Err(NotMultisig);
    }
    r := ReadEnd(fullyValid, si, p, Info(required.value, pubkeys));
  }

  /** The threshold is in order and the ops from 1 to i are keys. */
  predicate KeysRead(fullyValid: Bytes -> bool, p: Parse, i: nat) {
    i < |p.ops| && OP_1 <= p.ops[0].code <= 0x50 + MAX_P2SH_MULTISIG_PUBKEYS && KeysThrough(fullyValid, p.ops, i)
  }

  /** The keys up to the first number, and that number. */
  method ReadKeys(fullyValid: Bytes -> bool, si: ScriptIterator, ghost p: Parse) returns (r: Result<(Keys, nat), Refusal>)
    requires si.AtOp(p, 1) && KeysRead(fullyValid, p, 0)
    modifies si
    ensures r.Ok? ==>
              var (keys, total) := r.value;
              && si.AtOp(p, |keys| + 2) && |keys| + 1 < |p.ops| && Number(p.ops[1 + |keys|]) == Some(total)
              && keys == KeysOf(p.ops[1..1 + |keys|]) && |keys| <= MAX_P2SH_MULTISIG_PUBKEYS
              && KeysRead(fullyValid, p, |keys|)
    ensures r.Err? ==> ParseInfo(fullyValid, p) == Err(r.error)
  {
    hide KeysRead, KeysOf;
    KeysReadFacts(fullyValid, p, 0);
    var pubkeys: Keys := [];
    assert pubkeys == KeysOf(p.ops[1..1 + 0]);
    for i := 0 to MAX_P2SH_MULTISIG_PUBKEYS + 1
      invariant |pubkeys| == i < |p.ops| && si.AtOp(p, 1 + i)
      invariant KeysRead(fullyValid, p, i)
      invariant pubkeys == KeysOf(p.ops[1..1 + i])
    {
      hide ParseInfo, ParseScript;
      var item := si.Next(p, 1 + i);
      if item.Err? {
        CutAfterKeys(fullyValid, p, i);
        return Err(item.error);
      }
      var total := Number(item.value);
      if total.Some? {
        return Ok((pubkeys, total.value));
      }
      if !fullyValid(item.value.data) {
        NeitherKeyNorNumber(fullyValid, p, i);
        return Err(NotMultisig);
      }
      OneKeyMore(fullyValid, p, i, pubkeys);
      pubkeys := pubkeys + [item.value.data];
    }
    TooManyKeys(fullyValid, p);
    return Err(NotMultisig);
  }

  lemma KeysReadFacts(fullyValid: Bytes -> bool, p: Parse, i: nat)
    requires KeysRead(fullyValid, p, i)
    ensures i < |p.ops|
  {
  }

  lemma OneKeyMore(fullyValid: Bytes -> bool, p: Parse, i: nat, pubkeys: Keys)
    requires KeysRead(fullyValid, p, i) && i + 1 < |p.ops| && Number(p.ops[i + 1]).None? && fullyValid(p.ops[i + 1].data)
    requires pubkeys == KeysOf(p.ops[1..1 + i])
    ensures KeysRead(fullyValid, p, i + 1) && pubkeys + [p.ops[i + 1].data] == KeysOf(p.ops[1..2 + i])
  {
  }

  /** The ops end after i keys. */
  lemma CutAfterKeys(fullyValid: Bytes -> bool, p: Parse, i: nat)
    requires KeysRead(fullyValid, p, i) && |p.ops| == i + 1 && i <= MAX_P2SH_MULTISIG_PUBKEYS
    ensures ParseInfo(fullyValid, p) == Err(if p.error.Some? then InvalidScript else NotMultisig)
  {
  }

  lemma NeitherKeyNorNumber(fullyValid: Bytes -> bool, p: Parse, i: nat)
    requires KeysRead(fullyValid, p, i) && i + 1 < |p.ops| && Number(p.ops[i + 1]).None? && !fullyValid(p.ops[i + 1].data)
    ensures ParseInfo(fullyValid, p) == Err(NotMultisig)
  {
    assert !IsKey(fullyValid, p.ops[i + 1]);
    NumberAfterKeys(fullyValid, p, i);
    hide Recognised;
    if n :| Counted(fullyValid, p.ops, n) {
      CountedNumber(fullyValid, p, n, i);
    }
  }

  /** The first number after the keys is where the count is. */
  lemma CountedNumber(fullyValid: Bytes -> bool, p: Parse, n: nat, i: nat)
    requires Counted(fullyValid, p.ops, n) && KeysRead(fullyValid, p, i)
    ensures i <= n && (i < n ==> i + 1 < |p.ops| && IsKey(fullyValid, p.ops[i + 1]))
    ensures i == n ==> Number(p.ops[i + 1]) == Some(n)
  {
    assert Number(p.ops[n + 1]) == Some(n);
    assert forall j :: 1 <= j <= i ==> Number(p.ops[j]).None?;
  }

  lemma TooManyKeys(fullyValid: Bytes -> bool, p: Parse)
    requires KeysRead(fullyValid, p, MAX_P2SH_MULTISIG_PUBKEYS + 1)
    ensures ParseInfo(fullyValid, p) == Err(NotMultisig)
  {
    NumberAfterKeys(fullyValid, p, MAX_P2SH_MULTISIG_PUBKEYS + 1);
    hide Recognised;
    if n :| Counted(fullyValid, p.ops, n) {
      CountedNumber(fullyValid, p, n, MAX_P2SH_MULTISIG_PUBKEYS + 1);
    }
  }

  /** The number after the keys is not their count, or the count is out of range. */
  lemma NotCounted(fullyValid: Bytes -> bool, p: Parse, i: nat)
    requires KeysRead(fullyValid, p, i) && i + 1 < |p.ops| && Number(p.ops[i + 1]).Some?
    requires Number(p.ops[i + 1]) != Some(i) || i < 2 || i > MAX_P2SH_MULTISIG_PUBKEYS
    ensures ParseInfo(fullyValid, p) == Err(NotMultisig)
  {
    assert !IsKey(fullyValid, p.ops[i + 1]);
    NumberAfterKeys(fullyValid, p, i);
    if n :| Counted(fullyValid, p.ops, n) {
      CountedNumber(fullyValid, p, n, i);
    }
  }

  /** What follows the key count. */
  method ReadEnd(fullyValid: Bytes -> bool, si: ScriptIterator, ghost p: Parse, info: Info) returns (r: Result<Info, Refusal>)
    requires var n := |info.pubkeys|;
             && 2 <= n <= MAX_P2SH_MULTISIG_PUBKEYS && si.AtOp(p, n + 2) && n + 1 < |p.ops|
             && KeysRead(fullyValid, p, n) && Number(p.ops[0]) == Some(info.required)
             && Number(p.ops[1 + n]) == Some(n)
             && info.pubkeys == KeysOf(p.ops[1..1 + n])
    modifies si
    ensures r == ParseInfo(fullyValid, p)
  {
    var n := |info.pubkeys|;
    hide ParseInfo;
    var item := si.Next(p, n + 2);
    if item.Err? {
      CutAfterCount(fullyValid, p, n);
      return Err(item.error);
    }
    if item.value.code != OP_CHECKMULTISIG {
      WrongEnd(fullyValid, p, n);
      return Err(NotMultisig);
    }
    var last := si.Next(p, n + 3);
    if last.Ok? {
      WrongEnd(fullyValid, p, n);
      return Err(NotMultisig);
    }
    if last.error.InvalidScript? {
      CutAfterCount(fullyValid, p, n);
      return Err(InvalidScript);
    }
    var distinct := AreDistinct(info.pubkeys);
    WholeScript(fullyValid, p, info);
    if !distinct || info.required > n {
      return Err(NotMultisig);
    }
    return Ok(info);
  }

  lemma CutAfterCount(fullyValid: Bytes -> bool, p: Parse, n: nat)
    requires 2 <= n <= MAX_P2SH_MULTISIG_PUBKEYS && KeysRead(fullyValid, p, n) && n + 2 <= |p.ops| <= n + 3
    requires Number(p.ops[n + 1]) == Some(n) && (|p.ops| == n + 3 ==> p.ops[n + 2].code == OP_CHECKMULTISIG && p.error.Some?)
    ensures ParseInfo(fullyValid, p) == Err(if p.error.Some? then InvalidScript else NotMultisig)
  {
    assert Counted(fullyValid, p.ops, n);
    NumberAfterKeys(fullyValid, p, n);
  }

  lemma WrongEnd(fullyValid: Bytes -> bool, p: Parse, n: nat)
    requires 2 <= n <= MAX_P2SH_MULTISIG_PUBKEYS && KeysRead(fullyValid, p, n) && n + 3 <= |p.ops|
    requires Number(p.ops[n + 1]) == Some(n) && (p.ops[n + 2].code != OP_CHECKMULTISIG || |p.ops| > n + 3)
    ensures ParseInfo(fullyValid, p) == Err(NotMultisig)
  {
    assert !IsKey(fullyValid, p.ops[n + 1]);
    NumberAfterKeys(fullyValid, p, n);
    if m :| Counted(fullyValid, p.ops, m) {
      CountedNumber(fullyValid, p, m, n);
    }
  }

  lemma WholeScript(fullyValid: Bytes -> bool, p: Parse, info: Info)
    requires var n := |info.pubkeys|;
             && 2 <= n <= MAX_P2SH_MULTISIG_PUBKEYS && KeysRead(fullyValid, p, n) && |p.ops| == n + 3 && p.error.None?
             && Number(p.ops[0]) == Some(info.required) && Number(p.ops[1 + n]) == Some(n) && p.ops[n + 2].code == OP_CHECKMULTISIG
             && info.pubkeys == KeysOf(p.ops[1..1 + n])
    ensures ParseInfo(fullyValid, p) == if Distinct(info.pubkeys) && info.required <= |info.pubkeys| then Ok(info) else Err(NotMultisig)
  {
  }

  /** In a recognised script the first number after m stands right after the keys. */
  lemma NumberAfterKeys(fullyValid: Bytes -> bool, p: Parse, i: nat)
    requires i < |p.ops| && forall j :: 1 <= j <= i ==> IsKey(fullyValid, p.ops[j])
    ensures Recognised(fullyValid, p) ==> i <= |p.ops| - 3 <= MAX_P2SH_MULTISIG_PUBKEYS
    ensures Recognised(fullyValid, p) && i < |p.ops| - 3 ==> IsKey(fullyValid, p.ops[1 + i])
    ensures Recognised(fullyValid, p) && i == |p.ops| - 3 ==> Number(p.ops[1 + i]) == Some(i)
  {
  }

  method AreDistinct(keys: Keys) returns (r: bool)
    ensures r == Distinct(keys)
  {
    for i := 0 to |keys|
      invariant Distinct(keys[..i])
    {
      if keys[i] in keys[..i] {
        return false;
      }
    }
    assert keys[..|keys|] == keys;
    return true;
  }

  /** The script that standard_multisig_redeem_script builds. */
  function BuildOps(info: Info): seq<Op>
    requires 1 <= info.required <= 16 && 1 <= |info.pubkeys| <= 16
    requires forall i :: 0 <= i < |info.pubkeys| ==> |info.pubkeys[i]| <= MAX_PUSH
  {
    [BareOp(0x50 + info.required)]
    + seq(|info.pubkeys|, i requires 0 <= i < |info.pubkeys| => PushOp(info.pubkeys[i]))
    + [BareOp(0x50 + |info.pubkeys|), BareOp(OP_CHECKMULTISIG)]
  }

  lemma BuiltParses(fullyValid: Bytes -> bool, info: Info)
    requires 1 <= info.required <= |info.pubkeys| && 2 <= |info.pubkeys| <= MAX_P2SH_MULTISIG_PUBKEYS
    requires forall i :: 0 <= i < |info.pubkeys| ==> 0 < |info.pubkeys[i]| <= MAX_PUSH && fullyValid(info.pubkeys[i])
    ensures ParseScript(Concat(BuildOps(info))) == Parse(BuildOps(info), None)
    ensures forall i :: 1 <= i <= |info.pubkeys| ==> IsKey(fullyValid, BuildOps(info)[i]) && BuildOps(info)[i].data == info.pubkeys[i - 1]
    ensures var ops, n := BuildOps(info), |info.pubkeys|;
            |ops| == n + 3 && ops[0].code == 0x50 + info.required && ops[n + 1].code == 0x50 + n && ops[n + 2].code == OP_CHECKMULTISIG
  {
    var ops, n := BuildOps(info), |info.pubkeys|;
    forall op | op in ops
      ensures IsOp(op)
    {
      if i :| 0 <= i < n && op == PushOp(info.pubkeys[i]) {
        PushIsOp(info.pubkeys[i]);
      } else {
        assert op.raw[..1] == op.raw;
      }
    }
    forall i | 1 <= i <= n
      ensures IsKey(fullyValid, ops[i]) && ops[i].data == info.pubkeys[i - 1]
    {
      PushIsOp(info.pubkeys[i - 1]);
      assert ops[i] == PushOp(info.pubkeys[i - 1]);
      assert EncodePush(info.pubkeys[i - 1])[0] > 0;
    }
    hide IsOp, EncodePush, ReadOp;
    ParseConcat(ops, []);
    hide ParseScript, Concat;
    assert Concat(ops) + [] == Concat(ops) && ops + [] == ops;
  }

  lemma OpsRecognised(fullyValid: Bytes -> bool, ops: seq<Op>, info: Info)
    requires 1 <= info.required <= |info.pubkeys| && 2 <= |info.pubkeys| <= MAX_P2SH_MULTISIG_PUBKEYS && |ops| == |info.pubkeys| + 3
    requires var n := |info.pubkeys|; ops[0].code == 0x50 + info.required && ops[n + 1].code == 0x50 + n && ops[n + 2].code == OP_CHECKMULTISIG
    requires forall i :: 1 <= i <= |info.pubkeys| ==> IsKey(fullyValid, ops[i]) && ops[i].data == info.pubkeys[i - 1]
    ensures ParseInfo(fullyValid, Parse(ops, None)) == if Distinct(info.pubkeys) then Ok(info) else Err(NotMultisig)
  {
    hide IsKey, Distinct;
    assert KeysOf(ops[1..|info.pubkeys| + 1]) == info.pubkeys;
  }

  /** Building and then parsing gives back the threshold and the keys, unless a key is repeated. */
  lemma BuiltIsRecognised(fullyValid: Bytes -> bool, info: Info)
    requires 1 <= info.required <= |info.pubkeys| && 2 <= |info.pubkeys| <= MAX_P2SH_MULTISIG_PUBKEYS
    requires forall i :: 0 <= i < |info.pubkeys| ==> 0 < |info.pubkeys[i]| <= MAX_PUSH && fullyValid(info.pubkeys[i])
    ensures ParseInfo(fullyValid, ParseScript(Concat(BuildOps(info)))) == if Distinct(info.pubkeys) then Ok(info) else Err(NotMultisig)
    ensures Distinct(info.pubkeys) ==> IsMultisig(fullyValid, Concat(BuildOps(info)), info)
  {
    hide ParseScript, Concat, BuildOps, IsKey, Distinct, Recognised, Plausible;
    BuiltParses(fullyValid, info);
    OpsRecognised(fullyValid, BuildOps(info), info);
  }

  /** standard_multisig_redeem_script: None where it raises. */
  function Build(fullyValid: Bytes -> bool, compressed: Bytes -> bool, total: int, required: int, pubkeys: Keys, acceptUncompressed: bool): (r: Option<Bytes>) {
    if total != |pubkeys| || required <= 0 || required > total || total > MAX_P2SH_MULTISIG_PUBKEYS || total == 1 then None
    else if exists i :: 0 <= i < |pubkeys| && !(fullyValid(pubkeys[i]) && (compressed(pubkeys[i]) || acceptUncompressed)) then None
    else if exists i :: 0 <= i < |pubkeys| && |pubkeys[i]| > MAX_PUSH then None
    else Some(Concat(BuildOps(Info(required, pubkeys))))
  }

  /** A built script is recognised with its threshold and keys, unless a key is repeated, which building does not look for. */
  lemma BuildIsRecognised(fullyValid: Bytes -> bool, compressed: Bytes -> bool, total: int, required: int, pubkeys: Keys, acceptUncompressed: bool)
    requires forall key :: fullyValid(key) ==> 0 < |key| <= 65
    ensures var r := Build(fullyValid, compressed, total, required, pubkeys, acceptUncompressed);
            && (r.Some? <==>
                  && 1 <= required <= total == |pubkeys| && 2 <= total <= MAX_P2SH_MULTISIG_PUBKEYS
                  && forall i :: 0 <= i < |pubkeys| ==> fullyValid(pubkeys[i]) && (acceptUncompressed || compressed(pubkeys[i])))
            && (r.Some? ==> ParseInfo(fullyValid, ParseScript(r.value)) == if Distinct(pubkeys) then Ok(Info(required, pubkeys)) else Err(NotMultisig))
  {
    hide ParseInfo, ParseScript, Concat, BuildOps, IsMultisig;
    var r := Build(fullyValid, compressed, total, required, pubkeys, acceptUncompressed);
    if r.Some? {
      assert forall i :: 0 <= i < |pubkeys| ==> fullyValid(pubkeys[i]);
      BuiltIsRecognised(fullyValid, Info(required, pubkeys));
    }
  }
}
