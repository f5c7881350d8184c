/** Signing a standard multisig input of a PSBT, one key store at a time (bitcointx/core/psbt.py). */
module PsbtSign {
  import opened Core
  import opened Interp
  import opened MultisigScript

  /** A key store seen through the input: the signature it can make for a public key. */
  type Signer = Bytes -> Option<Bytes>

  type Slots = seq<Option<Bytes>>

  /** A dictionary from public keys to signatures, in insertion order. */
  type SigDict = seq<(Bytes, Bytes)>

  function CountSome(s: Slots): (n: nat)
    ensures n <= |s|
  {
    if s == [] then 0 else CountSome(s[..|s| - 1]) + if s[|s| - 1].Some? then 1 else 0
  }

  function CountTrue(s: seq<bool>): (n: nat)
    ensures n <= |s|
  {
    if s == [] then 0 else CountTrue(s[..|s| - 1]) + if s[|s| - 1] then 1 else 0
  }

  lemma {:induction false} CountsAgree(s: Slots, b: seq<bool>)
    requires |s| == |b| && forall i :: 0 <= i < |s| ==> (s[i].Some? <==> b[i])
    ensures CountSome(s) == CountTrue(b)
  {
    if s != [] {
      CountsAgree(s[..|s| - 1], b[..|b| - 1]);
    }
  }

  lemma {:induction false} CountMonotone(a: seq<bool>, b: seq<bool>)
    requires |a| == |b| && forall i :: 0 <= i < |a| ==> a[i] ==> b[i]
    ensures CountTrue(a) <= CountTrue(b)
  {
    if a != [] {
      CountMonotone(a[..|a| - 1], b[..|b| - 1]);
    }
  }

  lemma {:induction false} CountUpdate(s: Slots, i: nat, sig: Bytes)
    requires i < |s| && s[i].None?
    ensures CountSome(s[i := Some(sig)]) == CountSome(s) + 1
  {
    var t := s[i := Some(sig)];
    if i == |s| - 1 {
      assert t[..|t| - 1] == s[..|s| - 1];
    } else {
      CountUpdate(s[..|s| - 1], i, sig);
      assert t[..|t| - 1] == s[..|s| - 1][i := Some(sig)];
    }
  }

  function EmptySlots(n: nat): (s: Slots)
    ensures |s| == n && forall i :: 0 <= i < n ==> s[i] == None
  {
    seq(n, _ => None)
  }

  lemma {:induction false} CountEmpty(n: nat)
    ensures CountSome(EmptySlots(n)) == 0
  {
    if n > 0 {
      assert EmptySlots(n)[..n - 1] == EmptySlots(n - 1);
      CountEmpty(n - 1);
    }
  }

  /** Signatures made for the missing keys in order, until there are enough. */
  function Fill(info: Info, slots: Slots, signer: Signer, i: nat): (r: Slots)
    requires |slots| == |info.pubkeys|
    ensures |r| == |slots|
    decreases |slots| - i
  {
    if i >= |slots| || CountSome(slots) >= info.required then slots
    else
      var made := if slots[i].None? then signer(info.pubkeys[i]) else None;
      Fill(info, if made.Some? then slots[i := made] else slots, signer, i + 1)
  }

  /** Which keys have a signature or could get one from position i on. */
  function Reachable(info: Info, slots: Slots, signer: Signer, i: nat): (b: seq<bool>)
    requires |slots| == |info.pubkeys|
    ensures |b| == |slots| && forall j :: 0 <= j < |b| ==> b[j] == (slots[j].Some? || (j >= i && signer(info.pubkeys[j]).Some?))
  {
    seq(|slots|, j requires 0 <= j < |slots| => slots[j].Some? || (j >= i && signer(info.pubkeys[j]).Some?))
  }

  /** Filling keeps what is there, adds only what the signer makes, and falls short only if everything reachable is in. */
  lemma {:induction false} FillOutcome(info: Info, slots: Slots, signer: Signer, i: nat)
    requires |slots| == |info.pubkeys| && CountSome(slots) <= info.required
    ensures var r := Fill(info, slots, signer, i);
            && CountSome(r) <= info.required
            && (forall j :: 0 <= j < |r| && slots[j].Some? ==> r[j] == slots[j])
            && (forall j :: 0 <= j < |r| && r[j].Some? && slots[j].None? ==> r[j] == signer(info.pubkeys[j]))
            && (CountSome(r) == info.required <==> CountTrue(Reachable(info, slots, signer, i)) >= info.required)
            && (CountSome(r) < info.required ==> forall j :: 0 <= j < |r| ==> (r[j].Some? <==> Reachable(info, slots, signer, i)[j]))
    decreases |slots| - i
  {
    hide CountSome, CountTrue, Reachable;
    var target := Reachable(info, slots, signer, i);
    var have := seq(|slots|, j requires 0 <= j < |slots| => slots[j].Some?);
    CountsAgree(slots, have);
    if i >= |slots| || CountSome(slots) >= info.required {
      CountMonotone(have, target);
      if i >= |slots| {
        CountsAgree(slots, target);
      }
    } else {
      var made := if slots[i].None? then signer(info.pubkeys[i]) else None;
      var next := if made.Some? then slots[i := made] else slots;
      if made.Some? {
        CountUpdate(slots, i, made.value);
      }
      assert Reachable(info, next, signer, i + 1) == target;
      FillOutcome(info, next, signer, i + 1);
    }
  }

  function Position(keys: Keys, pub: Bytes): (i: nat)
    requires pub in keys
    ensures i < |keys| && keys[i] == pub
  {
    if keys[0] == pub then 0 else 1 + Position(keys[1..], pub)
  }

  /** A signature goes to its key's slot unless that is taken or there are enough; None if the script has no such key. */
  function Place(info: Info, slots: Slots, pub: Bytes, sig: Bytes): (r: Option<Slots>)
    requires |slots| == |info.pubkeys|
    ensures r.Some? ==> |r.value| == |slots|
  {
    if pub !in info.pubkeys then None
    else
      var i := Position(info.pubkeys, pub);
      Some(if CountSome(slots) < info.required && slots[i].None? then slots[i := Some(sig)] else slots)
  }

  lemma {:induction false} PositionIs(keys: Keys, i: nat)
    requires i < |keys| && Distinct(keys)
    ensures Position(keys, keys[i]) == i
  {
    if i > 0 {
      PositionIs(keys[1..], i - 1);
    }
  }

  /** The known signatures placed one by one until there are enough. */
  function Collect(info: Info, slots: Slots, sigs: SigDict): (r: Option<Slots>)
    requires |slots| == |info.pubkeys|
    ensures r.Some? ==> |r.value| == |slots|
    decreases |sigs|
  {
    if sigs == [] then Some(slots)
    else match Place(info, slots, sigs[0].0, sigs[0].1)
      case None => None
      case Some(next) => if CountSome(next) == info.required then Some(next) else Collect(info, next, sigs[1..])
  }

  /** The signatures of the slots from i on that were filled between the two states, in key order. */
  function NewSigs(info: Info, before: Slots, after: Slots): (r: SigDict)
    requires |before| == |after| <= |info.pubkeys|
  {
    var n := |before| - 1;
    if n < 0 then []
    else NewSigs(info, before[..n], after[..n]) + if before[n].None? && after[n].Some? then [(info.pubkeys[n], after[n].value)] else []
  }

  lemma {:induction false} NoNewSigs(info: Info, slots: Slots)
    requires |slots| <= |info.pubkeys|
    ensures NewSigs(info, slots, slots) == []
  {
    if slots != [] {
      NoNewSigs(info, slots[..|slots| - 1]);
    }
  }

  /** The signatures the signer makes in turn, until there are enough: for every key without one, or with an empty one. */
  function Asked(info: Info, slots: Slots, signer: Signer, i: nat): SigDict
    requires |slots| == |info.pubkeys|
    decreases |slots| - i
  {
    if i >= |slots| || CountSome(slots) >= info.required then []
    else if slots[i].Some? && slots[i].value != [] then Asked(info, slots, signer, i + 1)
    else
      var made := signer(info.pubkeys[i]);
      (if made.Some? then [(info.pubkeys[i], made.value)] else [])
      + Asked(info, if made.Some? && slots[i].None? then slots[i := made] else slots, signer, i + 1)
  }

  predicate NoneEmpty(slots: Slots, i: nat) {
    forall j :: i <= j < |slots| ==> slots[j] != Some([])
  }

  /** Filling from a place on leaves what is before it. */
  lemma {:induction false} FillKeeps(info: Info, slots: Slots, signer: Signer, i: nat)
    requires |slots| == |info.pubkeys| && i <= |slots|
    ensures Fill(info, slots, signer, i)[..i] == slots[..i]
    decreases |slots| - i
  {
    hide CountSome;
    if i < |slots| && CountSome(slots) < info.required {
      var made := if slots[i].None? then signer(info.pubkeys[i]) else None;
      var next := if made.Some? then slots[i := made] else slots;
      FillKeeps(info, next, signer, i + 1);
      var r := Fill(info, next, signer, i + 1);
      assert r[..i] == r[..i + 1][..i] && next[..i] == next[..i + 1][..i] == slots[..i];
    }
  }

  /** One more filled slot before all others is one more new signature, the first. */
  lemma {:induction false} NewSigsFirst(info: Info, before: Slots, after: Slots, i: nat)
    requires i < |before| == |after| <= |info.pubkeys| && before[..i] == after[..i] && before[i].None? && after[i].Some?
    ensures NewSigs(info, before, after) == [(info.pubkeys[i], after[i].value)] + NewSigs(info, before[i := after[i]], after)
  {
    var n := |before| - 1;
    var next := before[i := after[i]];
    if i == n {
      assert next[..n] == after[..n] && before[..n] == after[..n];
      NoNewSigs(info, after[..n]);
      assert [] + [(info.pubkeys[i], after[i].value)] == [(info.pubkeys[i], after[i].value)] + [];
    } else {
      assert before[..n][..i] == before[..i] && after[..n][..i] == after[..i];
      NewSigsFirst(info, before[..n], after[..n], i);
      assert next[..n] == before[..n][i := after[i]];
    }
  }

  /** If no known signature is empty, the signatures made are those of the newly filled slots. */
  lemma {:induction false} AskedIsNew(info: Info, slots: Slots, signer: Signer, i: nat)
    requires |slots| == |info.pubkeys| && NoneEmpty(slots, i)
    ensures Asked(info, slots, signer, i) == NewSigs(info, slots, Fill(info, slots, signer, i))
    decreases |slots| - i
  {
    hide CountSome, NewSigs;
    if i >= |slots| || CountSome(slots) >= info.required {
      NoNewSigs(info, slots);
    } else {
      var made := if slots[i].None? then signer(info.pubkeys[i]) else None;
      var next := if made.Some? then slots[i := made] else slots;
      AskedIsNew(info, next, signer, i + 1);
      if made.Some? {
        var r := Fill(info, next, signer, i + 1);
        FillKeeps(info, next, signer, i + 1);
        assert r[i] == r[..i + 1][i] == next[..i + 1][i] && r[..i] == r[..i + 1][..i] == next[..i + 1][..i] == slots[..i];
        NewSigsFirst(info, slots, r, i);
      }
    }
  }

  /** Collecting signatures that are not empty leaves no empty slot. */
  lemma {:induction false} CollectNoneEmpty(info: Info, slots: Slots, sigs: SigDict)
    requires |slots| == |info.pubkeys| && NoneEmpty(slots, 0)
    requires forall k :: 0 <= k < |sigs| ==> sigs[k].1 != []
    ensures var r := Collect(info, slots, sigs); r.Some? ==> NoneEmpty(r.value, 0)
    decreases |sigs|
  {
    hide CountSome;
    if sigs != [] && sigs[0].0 in info.pubkeys {
      CollectNoneEmpty(info, Place(info, slots, sigs[0].0, sigs[0].1).value, sigs[1..]);
    }
  }

  lemma FillEnough(info: Info, slots: Slots, signer: Signer, i: nat)
    requires |slots| == |info.pubkeys| && (CountSome(slots) >= info.required || i >= |slots|)
    ensures Fill(info, slots, signer, i) == slots && Asked(info, slots, signer, i) == []
  {
  }

  /** One turn of the loop over the keys without a signature. */
  lemma FillStep(info: Info, slots: Slots, signer: Signer, i: nat, next: Slots)
    requires |slots| == |info.pubkeys| && i < |slots| && CountSome(slots) < info.required && Distinct(info.pubkeys)
    requires next == if slots[i].None? && signer(info.pubkeys[i]).Some? then slots[i := signer(info.pubkeys[i])] else slots
    ensures Fill(info, slots, signer, i) == Fill(info, next, signer, i + 1)
    ensures Asked(info, slots, signer, i) ==
            (if (slots[i].None? || slots[i].value == []) && signer(info.pubkeys[i]).Some? then [(info.pubkeys[i], signer(info.pubkeys[i]).value)] else [])
            + Asked(info, next, signer, i + 1)
    ensures forall sig :: Place(info, slots, info.pubkeys[i], sig) == Some(if slots[i].None? then slots[i := Some(sig)] else slots)
  {
    hide CountSome;
    PositionIs(info.pubkeys, i);
  }

  /** Placing keeps what is there and never exceeds the threshold. */
  lemma PlaceCounts(info: Info, slots: Slots, pub: Bytes, sig: Bytes)
    requires |slots| == |info.pubkeys| && CountSome(slots) <= info.required && pub in info.pubkeys
    ensures CountSome(Place(info, slots, pub, sig).value) <= info.required
  {
    var i := Position(info.pubkeys, pub);
    if slots[i].None? {
      CountUpdate(slots, i, sig);
    }
  }

  /** The signatures in key order. */
  function Present(slots: Slots): (r: Stack) {
    if slots == [] then []
    else Present(slots[..|slots| - 1]) + if slots[|slots| - 1].Some? then [slots[|slots| - 1].value] else []
  }

  function WitnessStack(slots: Slots, script: Bytes): Stack {
    [[]] + Present(slots) + [script]
  }

  /** StandardMultisigSignatureHelper: one slot per key of the script. */
  class SignatureHelper {
    const info: Info
    var signatures: Slots

    constructor (info: Info)
      requires Distinct(info.pubkeys)
      ensures this.info == info && signatures == EmptySlots(|info.pubkeys|)
      ensures Valid()
    {
      this.info, signatures := info, EmptySlots(|info.pubkeys|);
      CountEmpty(|info.pubkeys|);
    }

    /** There are never more signatures than required, so the assertion in the source holds. */
    ghost predicate Valid()
      reads this
    {
      |signatures| == |info.pubkeys| && CountSome(signatures) <= info.required && Distinct(info.pubkeys)
    }

    method NumSigsMissing() returns (n: nat)
      requires CountSome(signatures) <= info.required
      ensures n == info.required - CountSome(signatures)
    {
      var numSigs := 0;
      for i := 0 to |signatures|
        invariant numSigs == CountSome(signatures[..i])
      {
        assert signatures[..i + 1][..i] == signatures[..i];
        if signatures[i].Some? {
          numSigs := numSigs + 1;
        }
      }
      assert signatures[..|signatures|] == signatures;
      n := info.required - numSigs;
    }

    method IndexOf(pub: Bytes) returns (index: Option<nat>)
      requires Distinct(info.pubkeys)
      ensures match index
              case None => pub !in info.pubkeys
              case Some(i) => i < |info.pubkeys| && info.pubkeys[i] == pub
    {
      for i := 0 to |info.pubkeys|
        invariant pub !in info.pubkeys[..i]
      {
        if info.pubkeys[i] == pub {
          return Some(i);
        }
      }
      assert info.pubkeys[..|info.pubkeys|] == info.pubkeys;
      return None;
    }

    /** None for a key that is not in the script, otherwise whether there are enough signatures now. */
    method CollectSig(pub: Bytes, sig: Bytes) returns (enough: Option<bool>)
      requires Valid()
      modifies this`signatures
      ensures Valid()
      ensures match Place(info, old(signatures), pub, sig)
              case None => enough.None? && signatures == old(signatures)
              case Some(after) => signatures == after && enough == Some(CountSome(after) == info.required)
    {
      var found := IndexOf(pub);
      if found.None? {
        return None;
      }
      var index := found.value;
      PositionIs(info.pubkeys, index);
      var missing := NumSigsMissing();
      if missing == 0 {
        return Some(true);
      }
      if signatures[index].Some? {
        return Some(false);
      }
      CountUpdate(signatures, index, sig);
      signatures := signatures[index := Some(sig)];
      missing := NumSigsMissing();
      return Some(missing == 0);
    }

    /** The new signatures by key, and whether there are enough; None if a known signature is for a key outside the script. */
    method Sign(signer: Signer, partialSigs: SigDict) returns (r: Option<(SigDict, bool)>)
      requires Valid() && 1 <= info.required
      modifies this`signatures
      ensures Valid()
      ensures match Collect(info, old(signatures), partialSigs)
              case None => r.None?
              case Some(have) =>
                && signatures == Fill(info, have, signer, 0)
                && r == Some((Asked(info, have, signer, 0), CountSome(signatures) == info.required))
    {
      hide Place, Fill;
      for k := 0 to |partialSigs|
        invariant Valid()
        invariant Collect(info, old(signatures), partialSigs) == Collect(info, signatures, partialSigs[k..])
      {
        var enough := CollectSig(partialSigs[k].0, partialSigs[k].1);
        if enough.None? {
          return None;
        }
        assert partialSigs[k..][1..] == partialSigs[k + 1..];
        if enough.value {
          break;
        }
      }
      ghost var have := signatures;
      r := FillMissing(signer, have);
    }

    method FillMissing(signer: Signer, ghost have: Slots) returns (r: Option<(SigDict, bool)>)
      requires Valid() && 1 <= info.required && have == signatures
      modifies this`signatures
      ensures Valid()
      ensures signatures == Fill(info, have, signer, 0)
      ensures r == Some((Asked(info, have, signer, 0), CountSome(signatures) == info.required))
    {
      hide CountSome, Place, Fill, Asked;
      var newSigs: SigDict := [];
      var missing := NumSigsMissing();
      if missing == 0 {
        FillEnough(info, have, signer, 0);
        return Some((newSigs, true));
      }
      for i := 0 to |info.pubkeys|
        invariant Valid() && CountSome(signatures) < info.required
        invariant Fill(info, have, signer, 0) == Fill(info, signatures, signer, i)
        invariant Asked(info, have, signer, 0) == newSigs + Asked(info, signatures, signer, i)
      {
        ghost var made, start := signer(info.pubkeys[i]), newSigs;
        ghost var next := if signatures[i].None? && made.Some? then signatures[i := made] else signatures;
        ghost var rest := Asked(info, next, signer, i + 1);
        FillStep(info, signatures, signer, i, next);
        if signatures[i].None? || signatures[i].value == [] {
          var made := signer(info.pubkeys[i]);
          if made.Some? {
            newSigs := newSigs + [(info.pubkeys[i], made.value)];
            assert start + ([(info.pubkeys[i], made.value)] + rest) == newSigs + rest;
            var enough := CollectSig(info.pubkeys[i], made.value);
            assert signatures == next;
            if enough.value {
              FillEnough(info, signatures, signer, i + 1);
              assert newSigs + rest == newSigs;
              return Some((newSigs, true));
            }
          }
        }
      }
      FillEnough(info, signatures, signer, |signatures|);
      assert newSigs + [] == newSigs;
      missing := NumSigsMissing();
      r := Some((newSigs, missing == 0));
    }

    method ConstructWitnessStack(script: Bytes) returns (stack: Option<Stack>)
      requires Valid()
      ensures stack == if CountSome(signatures) == info.required then Some(WitnessStack(signatures, script)) else None
    {
      var missing := NumSigsMissing();
      if missing != 0 {
        return None;
      }
      var sigs: Stack := [];
      for i := 0 to |signatures|
        invariant sigs == Present(signatures[..i])
      {
        assert signatures[..i + 1][..i] == signatures[..i];
        if signatures[i].Some? {
          sigs := sigs + [signatures[i].value];
        }
      }
      assert signatures[..|signatures|] == signatures;
      stack := Some([[]] + sigs + [script]);
    }
  }
}
