/** Key derivation info of a PSBT: a fingerprint and a path that runs to the end of the bytes (bitcointx/core/psbt.py). */
module Derivation {
  import opened Core
  import opened Script
  import opened Serialize
  import opened Stream

  const MAX_PATH := 255

  datatype KeyDerivation = KeyDerivation(masterFp: Bytes, path: seq<nat>)

  predicate IsDerivation(d: KeyDerivation) {
    |d.masterFp| == 4 && |d.path| <= MAX_PATH && AllOk(Unsigned(4), d.path)
  }

  function EncodeDerivation(d: KeyDerivation): Bytes {
    d.masterFp + EncodeAll(Unsigned(4), d.path)
  }

  /** The indexes up to the end, at most so many. */
  function DecodeIndexes(s: Bytes, room: nat): Result<seq<nat>, Failure> {
    if s == [] then Ok([])
    else if |s| < 4 then Err(Truncated)
    else if room == 0 then Err(PathTooLong)
    else match DecodeIndexes(s[4..], room - 1)
      case Err(e) => Err(e)
      case Ok(rest) => Ok([LE(s[..4])] + rest)
  }

  function DecodeDerivation(s: Bytes): Result<KeyDerivation, Failure> {
    match Take(s, 4)
    case Err(e) => Err(e)
    case Ok((fp, t)) =>
      match DecodeIndexes(t, MAX_PATH)
      case Err(e) => Err(e)
      case Ok(path) => Ok(KeyDerivation(fp, path))
  }

  lemma {:induction false} IndexesRoundTrip(path: seq<nat>, room: nat)
    requires AllOk(Unsigned(4), path) && |path| <= room
    ensures DecodeIndexes(EncodeAll(Unsigned(4), path), room) == Ok(path)
    decreases |path|
  {
    hide LE, ToLE;
    if path != [] {
      var s := EncodeAll(Unsigned(4), path);
      var head, rest := ToLE(path[0], 4), EncodeAll(Unsigned(4), path[1..]);
      assert s == head + rest && s[..4] == head && s[4..] == rest;
      assert path[0] < Pow(256, 4);
      LEOfToLE(path[0], 4);
      hide Unsigned, EncodeAll;
      IndexesRoundTrip(path[1..], room - 1);
      assert [path[0]] + path[1..] == path;
    }
  }

  lemma {:induction false} IndexesReencode(s: Bytes, room: nat, path: seq<nat>)
    requires DecodeIndexes(s, room) == Ok(path)
    ensures AllOk(Unsigned(4), path) && |path| <= room && s == EncodeAll(Unsigned(4), path)
    decreases |s|
  {
    hide LE, ToLE;
    if s != [] {
      IndexesReencode(s[4..], room - 1, path[1..]);
      ToLEOfLE(s[..4]);
      assert s == s[..4] + s[4..];
    }
  }

  /** Exactly the encodings are accepted. */
  lemma DerivationIsBijective(d: KeyDerivation, s: Bytes)
    ensures IsDerivation(d) && s == EncodeDerivation(d) <==> DecodeDerivation(s) == Ok(d)
  {
    hide DecodeIndexes, EncodeAll, Unsigned, AllOk;
    if IsDerivation(d) && s == EncodeDerivation(d) {
      TakeAll(d.masterFp, EncodeAll(Unsigned(4), d.path));
      IndexesRoundTrip(d.path, MAX_PATH);
    }
    if DecodeDerivation(s) == Ok(d) {
      IndexesReencode(Take(s, 4).value.1, MAX_PATH, d.path);
    }
  }

  method ReadDerivation(f: ByteStream) returns (r: Result<KeyDerivation, Failure>)
    requires f.Valid()
    modifies f`pos
    ensures f.Valid() && r == DecodeDerivation(old(f.Rest()))
  {
    hide Take, LE;
    var fingerprint := SerRead(f, 4);
    if fingerprint.Err? {
      return Err(fingerprint.error);
    }
    var indexList: seq<nat> := [];
    ghost var goal := DecodeIndexes(f.Rest(), MAX_PATH);
    assert goal.Ok? ==> [] + goal.value == goal.value;
    while true
      invariant f.Valid() && f.data == old(f.data) && |indexList| <= MAX_PATH
      invariant goal == match DecodeIndexes(f.Rest(), MAX_PATH - |indexList|)
                        case Err(e) => Err(e)
                        case Ok(rest) => Ok(indexList + rest)
      decreases |f.data| - f.pos
    {
      ghost var rest := f.Rest();
      ghost var next := if |rest| < 4 || |indexList| == MAX_PATH then Err(Truncated) else DecodeIndexes(rest[4..], MAX_PATH - |indexList| - 1);
      var data := f.Read(4);
      if |data| < 4 {
        if |data| != 0 {
          return Err(Truncated);
        }
        assert indexList + [] == indexList;
        return Ok(KeyDerivation(fingerprint.value, indexList));
      }
      if |indexList| + 1 > MAX_PATH {
        return Err(PathTooLong);
      }
      assert next.Ok? ==> indexList + ([LE(data)] + next.value) == indexList + [LE(data)] + next.value;
      indexList := indexList + [LE(data)];
    }
  }
}
