/** The greedy multisig loop decides whether the signatures can be assigned to keys in order. */
module Multisig {
  import opened Core
  import opened ScriptNum
  import opened Script
  import opened Interp

  /** f sends every signature to a key that verifies it, keeping their order and using no key twice. */
  predicate IsAssignment(c: Ctx, f: seq<nat>, sigs: Stack, keys: Stack, script: Bytes) {
    && |f| == |sigs|
    && (forall i :: 0 <= i < |f| ==> f[i] < |keys|)
    && (forall i, j :: 0 <= i < j < |f| ==> f[i] < f[j])
    && (forall i :: 0 <= i < |f| ==> CheckSig(c, sigs[i], keys[f[i]], script) == Ok(true))
  }

  ghost predicate Assignable(c: Ctx, sigs: Stack, keys: Stack, script: Bytes) {
    exists f :: IsAssignment(c, f, sigs, keys, script)
  }

  /** If the assignment misses the first key, it is one over the other keys. */
  lemma WithoutFirstKey(c: Ctx, f: seq<nat>, sigs: Stack, keys: Stack, script: Bytes) returns (g: seq<nat>)
    requires keys != [] && IsAssignment(c, f, sigs, keys, script)
    requires forall i :: 0 <= i < |f| ==> f[i] > 0
    ensures IsAssignment(c, g, sigs, keys[1..], script)
  {
    hide CheckSig;
    g := seq(|f|, i requires 0 <= i < |f| => f[i] - 1);
    assert forall i :: 0 <= i < |f| ==> keys[1..][g[i]] == keys[f[i]];
  }

  lemma ShiftAssignment(c: Ctx, g: seq<nat>, sigs: Stack, keys: Stack, script: Bytes) returns (f: seq<nat>)
    requires keys != [] && IsAssignment(c, g, sigs, keys[1..], script)
    ensures IsAssignment(c, f, sigs, keys, script)
    ensures forall i :: 0 <= i < |f| ==> f[i] > 0
  {
    hide CheckSig;
    f := seq(|g|, i requires 0 <= i < |g| => g[i] + 1);
    assert forall i :: 0 <= i < |g| ==> keys[1..][g[i]] == keys[f[i]];
  }

  lemma UseFirstKey(c: Ctx, g: seq<nat>, sigs: Stack, keys: Stack, script: Bytes) returns (f: seq<nat>)
    requires sigs != [] && keys != [] && IsAssignment(c, g, sigs[1..], keys, script)
    requires forall i :: 0 <= i < |g| ==> g[i] > 0
    requires CheckSig(c, sigs[0], keys[0], script) == Ok(true)
    ensures IsAssignment(c, f, sigs, keys, script)
  {
    hide CheckSig;
    f := [0] + g;
    assert forall i :: 0 < i < |f| ==> f[i] == g[i - 1] && sigs[i] == sigs[1..][i - 1];
  }

  lemma ForgetFirstSignature(c: Ctx, f: seq<nat>, sigs: Stack, keys: Stack, script: Bytes)
    requires sigs != [] && IsAssignment(c, f, sigs, keys, script)
    ensures IsAssignment(c, f[1..], sigs[1..], keys, script)
    ensures forall i :: 0 <= i < |f[1..]| ==> f[1..][i] > 0
    ensures f[0] > 0 ==> forall i :: 0 <= i < |f| ==> f[i] > 0
  {
    hide CheckSig;
    var g := f[1..];
    assert forall i :: 0 <= i < |g| ==> g[i] == f[i + 1] && sigs[1..][i] == sigs[i + 1];
    assert forall i :: 0 < i < |f| ==> f[0] < f[i];
  }

  lemma AssignmentSize(c: Ctx, f: seq<nat>, sigs: Stack, keys: Stack, script: Bytes)
    requires IsAssignment(c, f, sigs, keys, script)
    ensures |sigs| <= |keys|
  {
    hide CheckSig;
    var i := 0;
    while i < |f|
      invariant i <= |f|
      invariant i > 0 ==> f[i - 1] >= i - 1
    {
      i := i + 1;
    }
  }

  /** A success comes with an assignment. */
  lemma {:induction false} GreedySound(c: Ctx, sigs: Stack, keys: Stack, script: Bytes) returns (f: seq<nat>)
    requires GreedyMatch(c, sigs, keys, script) == Ok(true)
    ensures IsAssignment(c, f, sigs, keys, script)
    decreases |keys|
  {
    hide CheckSig;
    if sigs == [] {
      f := [];
    } else if CheckSig(c, sigs[0], keys[0], script).value {
      hide IsAssignment;
      var g := GreedySound(c, sigs[1..], keys[1..], script);
      f := ShiftAssignment(c, g, sigs[1..], keys, script);
      f := UseFirstKey(c, f, sigs, keys, script);
    } else {
      var g := GreedySound(c, sigs, keys[1..], script);
      f := ShiftAssignment(c, g, sigs, keys, script);
    }
  }

  /** If there is an assignment and no check raises on the way, the loop succeeds. */
  lemma {:induction false} GreedyComplete(c: Ctx, f: seq<nat>, sigs: Stack, keys: Stack, script: Bytes)
    requires IsAssignment(c, f, sigs, keys, script) && GreedyMatch(c, sigs, keys, script).Ok?
    ensures GreedyMatch(c, sigs, keys, script) == Ok(true)
    decreases |keys|
  {
    hide CheckSig;
    if sigs != [] {
      AssignmentSize(c, f, sigs, keys, script);
      ForgetFirstSignature(c, f, sigs, keys, script);
      assert CheckSig(c, sigs[0], keys[f[0]], script) == Ok(true);
      hide IsAssignment;
      if CheckSig(c, sigs[0], keys[0], script).value {
        var g := WithoutFirstKey(c, f[1..], sigs[1..], keys, script);
        GreedyComplete(c, g, sigs[1..], keys[1..], script);
      } else {
        var g := WithoutFirstKey(c, f, sigs, keys, script);
        GreedyComplete(c, g, sigs, keys[1..], script);
      }
    }
  }

  lemma GreedyDecides(c: Ctx, sigs: Stack, keys: Stack, script: Bytes)
    requires GreedyMatch(c, sigs, keys, script).Ok?
    ensures GreedyMatch(c, sigs, keys, script).value <==> Assignable(c, sigs, keys, script)
  {
    hide CheckSig, GreedyMatch, IsAssignment;
    if GreedyMatch(c, sigs, keys, script).value {
      var f := GreedySound(c, sigs, keys, script);
    }
    if Assignable(c, sigs, keys, script) {
      var f :| IsAssignment(c, f, sigs, keys, script);
      GreedyComplete(c, f, sigs, keys, script);
    }
  }

  /** No check raises when every signature can be checked against every key. */
  lemma {:induction false} GreedyDefined(c: Ctx, sigs: Stack, keys: Stack, script: Bytes)
    requires forall i, j :: 0 <= i < |sigs| && 0 <= j < |keys| ==> CheckSig(c, sigs[i], keys[j], script).Ok?
    ensures GreedyMatch(c, sigs, keys, script).Ok?
    decreases |keys|
  {
    hide CheckSig;
    if sigs != [] && |sigs| <= |keys| {
      assert CheckSig(c, sigs[0], keys[0], script).Ok?;
      GreedyDefined(c, if CheckSig(c, sigs[0], keys[0], script).value then sigs[1..] else sigs, keys[1..], script);
    }
  }

  /** What a completed multisig op has popped, and what its success means, by stack positions. */
  lemma MultiSigOutcome(c: Ctx, code: byte, tail: Bytes, s: Stack, ops: nat, t: Stack, after: nat)
    requires CheckMultiSig(c, code, tail, s, ops) == Ok((t, after))
    ensures MultiArguments(s, ops).Ok?
    ensures var a := MultiArguments(s, ops).value;
            var n, k, m := |s|, |a.keys|, |a.sigs|;
            && (forall i :: 0 <= i < k ==> a.keys[i] == s[n - 2 - i])
            && (forall i :: 0 <= i < m ==> a.sigs[i] == s[n - 3 - k - i])
            && after == ops + k <= MAX_SCRIPT_OPCODES
            && DecodeNum(s[n - 1]) == k && DecodeNum(s[n - 2 - k]) == m
            && DropSignatures(c, tail, a.sigs).Ok?
            && var success := Assignable(c, a.sigs, a.keys, DropSignatures(c, tail, a.sigs).value);
            && s[..n - k - m - 3] <= t
            && (code == OP_CHECKMULTISIG ==> |t| == n - k - m - 2 && t[n - k - m - 3] == if success then [1] else [])
            && (code == OP_CHECKMULTISIGVERIFY ==> success && |t| == n - k - m - 3)
            && (!success && NULLFAIL in c.flags ==> forall i :: 0 <= i < m ==> a.sigs[i] == [])
            && (NULLDUMMY in c.flags ==> s[n - k - m - 3] == [])
  {
    hide CheckSig, GreedyMatch, DropSignatures, DecodeNum, Assignable;
    var a := MultiArguments(s, ops).value;
    GreedyDecides(c, a.sigs, a.keys, DropSignatures(c, tail, a.sigs).value);
  }
}
