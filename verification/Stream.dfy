/** Reading and writing through a byte stream, one field after the other. */
module Stream {
  import opened Core
  import opened Script
  import opened Serialize
  import opened Transaction

  /** io.BytesIO: reads move the position, writes extend the data. */
  class ByteStream {
    var data: Bytes
    var pos: nat

    constructor (initial: Bytes)
      ensures data == initial && pos == 0
    {
      data, pos := initial, 0;
    }

    ghost predicate Valid()
      reads this
    {
      pos <= |data|
    }

    ghost function Rest(): Bytes
      requires Valid()
      reads this
    {
      data[pos..]
    }

    method Read(n: nat) returns (r: Bytes)
      requires Valid()
      modifies this`pos
      ensures Valid()
      ensures r == old(Rest())[..Min(n, |old(Rest())|)] && Rest() == old(Rest())[|r|..]
    {
      var end := Min(pos + n, |data|);
      r := data[pos..end];
      pos := end;
    }

    method Write(b: Bytes)
      modifies this`data
      ensures data == old(data) + b
    {
      data := data + b;
    }
  }

  /** A read agrees with a decoder: same value and same rest, or the same failure. */
  predicate Agrees<T(==)>(r: Result<T, Failure>, rest: Bytes, d: Decoded<T>) {
    match d
    case Ok((x, t)) => r == Ok(x) && rest == t
    case Err(e) => r == Err(e)
  }

  method SerRead(f: ByteStream, n: nat) returns (r: Result<Bytes, Failure>)
    requires f.Valid()
    modifies f`pos
    ensures f.Valid() && Agrees(r, f.Rest(), Take(old(f.Rest()), n))
    ensures r == Err(TooLarge) ==> f.Rest() == old(f.Rest())
    ensures r == Err(Truncated) ==> f.Rest() == []
  {
    if n > MAX_SIZE {
      return Err(TooLarge);
    }
    var b := f.Read(n);
    if |b| < n {
      return Err(Truncated);
    }
    return Ok(b);
  }

  method ReadUnsigned(f: ByteStream, width: nat) returns (r: Result<nat, Failure>)
    requires f.Valid()
    modifies f`pos
    ensures f.Valid() && Agrees(r, f.Rest(), DecodeLE(old(f.Rest()), width))
  {
    var b := SerRead(f, width);
    if b.Err? {
      return Err(b.error);
    }
    return Ok(LE(b.value));
  }

  method ReadSigned(f: ByteStream, width: nat) returns (r: Result<int, Failure>)
    requires f.Valid()
    modifies f`pos
    ensures f.Valid() && Agrees(r, f.Rest(), Signed(width).dec(old(f.Rest())))
  {
    var n := ReadUnsigned(f, width);
    if n.Err? {
      return Err(n.error);
    }
    return Ok(ToSigned(n.value, width));
  }

  method ReadVarInt(f: ByteStream, allowFullRange: bool) returns (r: Result<nat, Failure>)
    requires f.Valid()
    modifies f`pos
    ensures f.Valid() && Agrees(r, f.Rest(), DecodeSize(old(f.Rest()), allowFullRange))
  {
    hide LE, Take;
    var head := SerRead(f, 1);
    if head.Err? {
      return Err(head.error);
    }
    var b := head.value[0];
    if b < 0xfd {
      return Ok(b);
    }
    var lowerBound := if b == 0xfd then 0xfd else if b == 0xfe then 0x1_0000 else 0x1_0000_0000;
    var v := ReadUnsigned(f, if b == 0xfd then 2 else if b == 0xfe then 4 else 8);
    if v.Err? {
      return Err(v.error);
    }
    if v.value < lowerBound {
      return Err(NonCanonical);
    }
    if !allowFullRange && v.value > MAX_SIZE {
      return Err(NonCanonical);
    }
    return Ok(v.value);
  }

  method ReadBytes(f: ByteStream) returns (r: Result<Bytes, Failure>)
    requires f.Valid()
    modifies f`pos
    ensures f.Valid() && Agrees(r, f.Rest(), DecodeBytes(old(f.Rest())))
  {
    hide DecodeSize, Take;
    var n := ReadVarInt(f, false);
    if n.Err? {
      return Err(n.error);
    }
    r := SerRead(f, n.value);
  }

  method ReadOutPoint(f: ByteStream) returns (r: Result<OutPoint, Failure>)
    requires f.Valid()
    modifies f`pos
    ensures f.Valid() && Agrees(r, f.Rest(), OutPoints().dec(old(f.Rest())))
  {
    hide DecodeLE, Take;
    var hash := SerRead(f, 32);
    if hash.Err? {
      return Err(hash.error);
    }
    var n := ReadUnsigned(f, 4);
    if n.Err? {
      return Err(n.error);
    }
    return Ok(OutPoint(hash.value, n.value));
  }

  method ReadTxIn(f: ByteStream) returns (r: Result<TxIn, Failure>)
    requires f.Valid()
    modifies f`pos
    ensures f.Valid() && Agrees(r, f.Rest(), TxIns().dec(old(f.Rest())))
  {
    hide OutPoints, DecodeBytes, DecodeLE;
    var prevout := ReadOutPoint(f);
    if prevout.Err? {
      return Err(prevout.error);
    }
    var scriptSig := ReadBytes(f);
    if scriptSig.Err? {
      return Err(scriptSig.error);
    }
    var sequence := ReadUnsigned(f, 4);
    if sequence.Err? {
      return Err(sequence.error);
    }
    return Ok(TxIn(prevout.value, scriptSig.value, sequence.value));
  }

  method ReadTxOut(f: ByteStream) returns (r: Result<TxOut, Failure>)
    requires f.Valid()
    modifies f`pos
    ensures f.Valid() && Agrees(r, f.Rest(), TxOuts().dec(old(f.Rest())))
  {
    hide Signed, DecodeBytes;
    var value := ReadSigned(f, 8);
    if value.Err? {
      return Err(value.error);
    }
    var scriptPubKey := ReadBytes(f);
    if scriptPubKey.Err? {
      return Err(scriptPubKey.error);
    }
    return Ok(TxOut(value.value, scriptPubKey.value));
  }

  /** The elements read so far, and what the decoder makes of the rest. */
  function Prepend<T>(xs: seq<T>, d: Decoded<seq<T>>): Decoded<seq<T>> {
    match d
    case Ok((ys, t)) => Ok((xs + ys, t))
    case Err(e) => Err(e)
  }

  lemma ReadStep<T>(c: Codec<T>, n: nat, s: Bytes, xs: seq<T>)
    requires n > 0
    ensures Prepend(xs, DecodeCount(c, n, s)) == match c.dec(s)
              case Err(e) => Err(e)
              case Ok((x, t)) => Prepend(xs + [x], DecodeCount(c, n - 1, t))
  {
    if c.dec(s).Ok? && DecodeCount(c, n - 1, c.dec(s).value.1).Ok? {
      var ys := DecodeCount(c, n - 1, c.dec(s).value.1).value.0;
      assert xs + ([c.dec(s).value.0] + ys) == xs + [c.dec(s).value.0] + ys;
    }
  }

  lemma ReadEnds<T>(c: Codec<T>, n: nat, s: Bytes, xs: seq<T>)
    ensures Prepend(xs, DecodeCount(c, 0, s)) == Ok((xs, s))
    ensures Prepend([], DecodeCount(c, n, s)) == DecodeCount(c, n, s)
  {
    assert xs + [] == xs;
    if DecodeCount(c, n, s).Ok? {
      assert [] + DecodeCount(c, n, s).value.0 == DecodeCount(c, n, s).value.0;
    }
  }

  method ReadInputs(f: ByteStream) returns (r: Result<seq<TxIn>, Failure>)
    requires f.Valid()
    modifies f`pos
    ensures f.Valid() && Agrees(r, f.Rest(), Inputs().dec(old(f.Rest())))
  {
    hide DecodeSize, DecodeCount, TxIns;
    var n := ReadVarInt(f, false);
    if n.Err? {
      return Err(n.error);
    }
    var xs: seq<TxIn> := [];
    ghost var goal := DecodeCount(TxIns(), n.value, f.Rest());
    ReadEnds(TxIns(), n.value, f.Rest(), xs);
    for i := 0 to n.value
      invariant f.Valid() && goal == Prepend(xs, DecodeCount(TxIns(), n.value - i, f.Rest()))
      invariant f.data == old(f.data)
    {
      ReadStep(TxIns(), n.value - i, f.Rest(), xs);
      var x := ReadTxIn(f);
      if x.Err? {
        return Err(x.error);
      }
      xs := xs + [x.value];
    }
    ReadEnds(TxIns(), 0, f.Rest(), xs);
    return Ok(xs);
  }

  method ReadOutputs(f: ByteStream) returns (r: Result<seq<TxOut>, Failure>)
    requires f.Valid()
    modifies f`pos
    ensures f.Valid() && Agrees(r, f.Rest(), Outputs().dec(old(f.Rest())))
  {
    hide DecodeSize, DecodeCount, TxOuts;
    var n := ReadVarInt(f, false);
    if n.Err? {
      return Err(n.error);
    }
    var xs: seq<TxOut> := [];
    ghost var goal := DecodeCount(TxOuts(), n.value, f.Rest());
    ReadEnds(TxOuts(), n.value, f.Rest(), xs);
    for i := 0 to n.value
      invariant f.Valid() && goal == Prepend(xs, DecodeCount(TxOuts(), n.value - i, f.Rest()))
      invariant f.data == old(f.data)
    {
      ReadStep(TxOuts(), n.value - i, f.Rest(), xs);
      var x := ReadTxOut(f);
      if x.Err? {
        return Err(x.error);
      }
      xs := xs + [x.value];
    }
    ReadEnds(TxOuts(), 0, f.Rest(), xs);
    return Ok(xs);
  }

  method ReadStack(f: ByteStream) returns (r: Result<seq<Bytes>, Failure>)
    requires f.Valid()
    modifies f`pos
    ensures f.Valid() && Agrees(r, f.Rest(), Stacks().dec(old(f.Rest())))
  {
    hide DecodeSize, DecodeCount, DecodeBytes;
    var n := ReadVarInt(f, false);
    if n.Err? {
      return Err(n.error);
    }
    var xs: seq<Bytes> := [];
    ghost var goal := DecodeCount(VarBytes(), n.value, f.Rest());
    ReadEnds(VarBytes(), n.value, f.Rest(), xs);
    for i := 0 to n.value
      invariant f.Valid() && goal == Prepend(xs, DecodeCount(VarBytes(), n.value - i, f.Rest()))
      invariant f.data == old(f.data)
    {
      ReadStep(VarBytes(), n.value - i, f.Rest(), xs);
      var x := ReadBytes(f);
      if x.Err? {
        return Err(x.error);
      }
      xs := xs + [x.value];
    }
    ReadEnds(VarBytes(), 0, f.Rest(), xs);
    return Ok(xs);
  }

  method ReadWitness(f: ByteStream, numInputs: nat) returns (r: Result<Witness, Failure>)
    requires f.Valid()
    modifies f`pos
    ensures f.Valid() && Agrees(r, f.Rest(), DecodeCount(Stacks(), numInputs, old(f.Rest())))
  {
    hide DecodeCount, Stacks;
    var xs: Witness := [];
    ghost var goal := DecodeCount(Stacks(), numInputs, f.Rest());
    ReadEnds(Stacks(), numInputs, f.Rest(), xs);
    for i := 0 to numInputs
      invariant f.Valid() && goal == Prepend(xs, DecodeCount(Stacks(), numInputs - i, f.Rest()))
      invariant f.data == old(f.data)
    {
      ReadStep(Stacks(), numInputs - i, f.Rest(), xs);
      var x := ReadStack(f);
      if x.Err? {
        return Err(x.error);
      }
      xs := xs + [x.value];
    }
    ReadEnds(Stacks(), 0, f.Rest(), xs);
    return Ok(xs);
  }

  method TestNull(wit: Witness) returns (r: bool)
    ensures r == IsNull(wit)
  {
    for n := 0 to |wit|
      invariant forall j :: 0 <= j < n ==> wit[j] == []
    {
      if wit[n] != [] {
        return false;
      }
    }
    return true;
  }

  method ReadBody(f: ByteStream) returns (r: Result<(seq<TxIn>, seq<TxOut>, byte), Failure>)
    requires f.Valid()
    modifies f`pos
    ensures f.Valid() && Agrees(r, f.Rest(), DecodeBody(old(f.Rest())))
  {
    hide Inputs, Outputs, Take;
    var vin := ReadInputs(f);
    if vin.Err? {
      return Err(vin.error);
    }
    var flags: byte := 0;
    if vin.value == [] {
      var b := SerRead(f, 1);
      if b.Err? {
        return Err(b.error);
      }
      flags := b.value[0];
      if flags == 0 {
        return Ok(([], [], flags));
      }
      vin := ReadInputs(f);
      if vin.Err? {
        return Err(vin.error);
      }
    }
    var vout := ReadOutputs(f);
    if vout.Err? {
      return Err(vout.error);
    }
    return Ok((vin.value, vout.value, flags));
  }

  method ReadTransaction(f: ByteStream) returns (r: Result<Tx, Failure>)
    requires f.Valid()
    modifies f`pos
    ensures f.Valid() && Agrees(r, f.Rest(), DecodeTx(old(f.Rest())))
  {
    hide Signed, DecodeBody, DecodeCount, DecodeLE, Stacks;
    var version := ReadSigned(f, 4);
    if version.Err? {
      return Err(version.error);
    }
    var body := ReadBody(f);
    if body.Err? {
      return Err(body.error);
    }
    var (vin, vout, flags) := body.value;
    var wit: Witness := [];
    if flags % 2 == 1 {
      flags := flags - 1;
      var w := ReadWitness(f, |vin|);
      if w.Err? {
        return Err(w.error);
      }
      wit := w.value;
      var isNull := TestNull(wit);
      if isNull {
        return Err(SuperfluousWitness);
      }
    }
    if flags != 0 {
      return Err(UnknownFlags);
    }
    var lockTime := ReadUnsigned(f, 4);
    if lockTime.Err? {
      return Err(lockTime.error);
    }
    return Ok(Tx(version.value, vin, vout, wit, lockTime.value));
  }

  /** A write succeeded with exactly these bytes, or failed after some bytes. */
  predicate Wrote(ok: bool, good: bool, before: Bytes, after: Bytes, b: Bytes) {
    (ok <==> good) && before <= after && (ok ==> after == before + b)
  }

  const MAX_UINT64 := 0xffff_ffff_ffff_ffff

  /** struct.pack: a value outside the field is refused. */
  method WriteUnsigned(f: ByteStream, n: nat, width: nat) returns (ok: bool)
    modifies f`data
    ensures Wrote(ok, n < Pow(256, width), old(f.data), f.data, ToLE(n, width))
  {
    if n >= Pow(256, width) {
      return false;
    }
    f.Write(ToLE(n, width));
    return true;
  }

  method WriteSigned(f: ByteStream, v: int, width: nat) returns (ok: bool)
    modifies f`data
    ensures Wrote(ok, Signed(width).ok(v), old(f.data), f.data, Signed(width).enc(v))
  {
    if !Signed(width).ok(v) {
      return false;
    }
    f.Write(Signed(width).enc(v));
    return true;
  }

  method WriteVarInt(f: ByteStream, n: nat) returns (ok: bool)
    modifies f`data
    ensures Wrote(ok, n <= MAX_UINT64, old(f.data), f.data, CompactSize(n))
  {
    hide ToLE, Pow;
    Pow256Values();
    if n < 0xfd {
      f.Write([n]);
      ok := true;
    } else if n <= 0xffff {
      f.Write([0xfd]);
      ok := WriteUnsigned(f, n, 2);
    } else if n <= 0xffff_ffff {
      f.Write([0xfe]);
      ok := WriteUnsigned(f, n, 4);
    } else {
      f.Write([0xff]);
      ok := WriteUnsigned(f, n, 8);
    }
  }

  method WriteBytes(f: ByteStream, b: Bytes) returns (ok: bool)
    modifies f`data
    ensures Wrote(ok, |b| <= MAX_UINT64, old(f.data), f.data, EncodeBytes(b))
  {
    hide CompactSize;
    ok := WriteVarInt(f, |b|);
    if ok {
      f.Write(b);
    }
  }

  /** The fields fit their widths. */
  predicate InFits(x: TxIn) {
    |x.prevout.hash| == 32 && Unsigned(4).ok(x.prevout.n) && |x.scriptSig| <= MAX_UINT64 && Unsigned(4).ok(x.sequence)
  }

  predicate OutFits(x: TxOut) {
    Signed(8).ok(x.value) && |x.scriptPubKey| <= MAX_UINT64
  }

  predicate StackFits(xs: seq<Bytes>) {
    |xs| <= MAX_UINT64 && forall i :: 0 <= i < |xs| ==> |xs[i]| <= MAX_UINT64
  }

  method WriteTxIn(f: ByteStream, x: TxIn) returns (ok: bool)
    modifies f`data
    ensures Wrote(ok, InFits(x), old(f.data), f.data, TxIns().enc(x))
  {
    hide EncodeBytes, ToLE, Pow;
    ghost var hash, n, sig, last := x.prevout.hash, ToLE(x.prevout.n, 4), EncodeBytes(x.scriptSig), ToLE(x.sequence, 4);
    assert TxIns().enc(x) == hash + n + (sig + last);
    Regroup4(f.data, hash, n, sig, last);
    hide TxIns;
    if |x.prevout.hash| != 32 {
      return false;
    }
    f.Write(x.prevout.hash);
    ok := WriteUnsigned(f, x.prevout.n, 4);
    if !ok {
      return;
    }
    ok := WriteBytes(f, x.scriptSig);
    if !ok {
      return;
    }
    ok := WriteUnsigned(f, x.sequence, 4);
  }

  lemma Regroup4(s: Bytes, a: Bytes, b: Bytes, c: Bytes, d: Bytes)
    ensures s + a + b + c + d == s + (a + b + (c + d))
  {
  }

  method WriteTxOut(f: ByteStream, x: TxOut) returns (ok: bool)
    modifies f`data
    ensures Wrote(ok, OutFits(x), old(f.data), f.data, TxOuts().enc(x))
  {
    hide EncodeBytes, Signed;
    ok := WriteSigned(f, x.value, 8);
    if ok {
      ok := WriteBytes(f, x.scriptPubKey);
    }
  }

  lemma {:induction false} EncodeAllStep<T>(c: Codec<T>, xs: seq<T>, i: nat)
    requires i < |xs|
    ensures EncodeAll(c, xs[..i + 1]) == EncodeAll(c, xs[..i]) + c.enc(xs[i])
  {
    if i == 0 {
      assert xs[..1][1..] == [] && EncodeAll(c, xs[..1]) == c.enc(xs[0]) + EncodeAll(c, []);
    } else {
      assert xs[..i + 1][1..] == xs[1..][..i] && xs[..i][1..] == xs[1..][..i - 1];
      EncodeAllStep(c, xs[1..], i - 1);
      assert c.enc(xs[0]) + (EncodeAll(c, xs[1..][..i - 1]) + c.enc(xs[i])) == c.enc(xs[0]) + EncodeAll(c, xs[1..][..i - 1]) + c.enc(xs[i]);
    }
  }

  lemma NothingYet<T>(c: Codec<T>, xs: seq<T>)
    ensures EncodeAll(c, xs[..0]) == []
  {
  }

  predicate InputsFit(xs: seq<TxIn>) {
    |xs| <= MAX_UINT64 && forall i :: 0 <= i < |xs| ==> InFits(xs[i])
  }

  predicate OutputsFit(xs: seq<TxOut>) {
    |xs| <= MAX_UINT64 && forall i :: 0 <= i < |xs| ==> OutFits(xs[i])
  }

  method WriteInputs(f: ByteStream, xs: seq<TxIn>) returns (ok: bool)
    modifies f`data
    ensures Wrote(ok, InputsFit(xs), old(f.data), f.data, Inputs().enc(xs))
  {
    hide CompactSize, EncodeAll, TxIns, InFits;
    ok := WriteVarInt(f, |xs|);
    if !ok {
      return;
    }
    ghost var head := f.data;
    NothingYet(TxIns(), xs);
    for i := 0 to |xs|
      invariant f.data == head + EncodeAll(TxIns(), xs[..i])
      invariant forall j :: 0 <= j < i ==> InFits(xs[j])
    {
      ok := WriteTxIn(f, xs[i]);
      if !ok {
        return;
      }
      EncodeAllStep(TxIns(), xs, i);
    }
    assert xs[..|xs|] == xs;
    ok := true;
  }

  method WriteOutputs(f: ByteStream, xs: seq<TxOut>) returns (ok: bool)
    modifies f`data
    ensures Wrote(ok, OutputsFit(xs), old(f.data), f.data, Outputs().enc(xs))
  {
    hide CompactSize, EncodeAll, TxOuts, OutFits;
    ok := WriteVarInt(f, |xs|);
    if !ok {
      return;
    }
    ghost var head := f.data;
    NothingYet(TxOuts(), xs);
    for i := 0 to |xs|
      invariant f.data == head + EncodeAll(TxOuts(), xs[..i])
      invariant forall j :: 0 <= j < i ==> OutFits(xs[j])
    {
      ok := WriteTxOut(f, xs[i]);
      if !ok {
        return;
      }
      EncodeAllStep(TxOuts(), xs, i);
    }
    assert xs[..|xs|] == xs;
    ok := true;
  }

  method WriteStack(f: ByteStream, xs: seq<Bytes>) returns (ok: bool)
    modifies f`data
    ensures Wrote(ok, StackFits(xs), old(f.data), f.data, Stacks().enc(xs))
  {
    hide CompactSize, EncodeAll, EncodeBytes;
    ok := WriteVarInt(f, |xs|);
    if !ok {
      return;
    }
    ghost var head := f.data;
    NothingYet(VarBytes(), xs);
    for i := 0 to |xs|
      invariant f.data == head + EncodeAll(VarBytes(), xs[..i])
      invariant forall j :: 0 <= j < i ==> |xs[j]| <= MAX_UINT64
    {
      ok := WriteBytes(f, xs[i]);
      if !ok {
        return;
      }
      EncodeAllStep(VarBytes(), xs, i);
    }
    assert xs[..|xs|] == xs;
    ok := true;
  }

  predicate WitnessFits(wit: Witness) {
    forall i :: 0 <= i < |wit| ==> StackFits(wit[i])
  }

  method WriteWitness(f: ByteStream, wit: Witness) returns (ok: bool)
    modifies f`data
    ensures Wrote(ok, WitnessFits(wit), old(f.data), f.data, EncodeAll(Stacks(), wit))
  {
    hide EncodeAll, Stacks, StackFits;
    NothingYet(Stacks(), wit);
    for i := 0 to |wit|
      invariant f.data == old(f.data) + EncodeAll(Stacks(), wit[..i])
      invariant forall j :: 0 <= j < i ==> StackFits(wit[j])
    {
      ok := WriteStack(f, wit[i]);
      if !ok {
        return;
      }
      EncodeAllStep(Stacks(), wit, i);
    }
    assert wit[..|wit|] == wit;
    ok := true;
  }

  /** Every field fits, and a witness that is written has one stack per input. */
  predicate TxFits(tx: Tx, includeWitness: bool) {
    && Signed(4).ok(tx.version) && InputsFit(tx.vin) && OutputsFit(tx.vout) && Unsigned(4).ok(tx.lockTime)
    && (includeWitness && !IsNull(tx.wit) ==> |tx.wit| == |tx.vin| && WitnessFits(tx.wit))
  }

  /** Writing a transaction succeeds exactly if all of it fits. */
  method WriteTransaction(f: ByteStream, tx: Tx, includeWitness: bool) returns (ok: bool)
    modifies f`data
    ensures Wrote(ok, TxFits(tx, includeWitness), old(f.data), f.data, EncodeTx(if includeWitness then tx else tx.(wit := [])))
  {
    hide Signed, Inputs, Outputs, EncodeAll, Stacks, ToLE, InputsFit, OutputsFit, WitnessFits, Pow;
    ghost var start := f.data;
    ok := WriteSigned(f, tx.version, 4);
    if !ok {
      return;
    }
    var isNull := TestNull(tx.wit);
    var marked := includeWitness && !isNull;
    if marked {
      if |tx.wit| != |tx.vin| {
        return false;
      }
      f.Write([0]);
      f.Write([1]);
    }
    ghost var head := f.data;
    ok := WriteInputs(f, tx.vin);
    if !ok {
      return;
    }
    ok := WriteOutputs(f, tx.vout);
    if !ok {
      return;
    }
    ghost var body := f.data;
    assert body == head + Inputs().enc(tx.vin) + Outputs().enc(tx.vout);
    if marked {
      ok := WriteWitness(f, tx.wit);
      if !ok {
        return;
      }
    }
    ok := WriteUnsigned(f, tx.lockTime, 4);
    if marked {
      Regroup7(start, Signed(4).enc(tx.version), [0], [1], Inputs().enc(tx.vin), Outputs().enc(tx.vout), EncodeAll(Stacks(), tx.wit), ToLE(tx.lockTime, 4));
    } else {
      RegroupPlain(start, Signed(4).enc(tx.version), Inputs().enc(tx.vin), Outputs().enc(tx.vout), ToLE(tx.lockTime, 4));
    }
  }

  /** Whatever can be encoded and read back is written without failure. */
  lemma EncodableFits(tx: Tx, includeWitness: bool)
    requires Encodable(tx)
    ensures TxFits(tx, includeWitness)
  {
    hide Signed, Unsigned;
    forall i | 0 <= i < |tx.vin|
      ensures InFits(tx.vin[i])
    {
      assert TxIns().ok(tx.vin[i]);
    }
    forall i | 0 <= i < |tx.vout|
      ensures OutFits(tx.vout[i])
    {
      assert TxOuts().ok(tx.vout[i]);
    }
    if !IsNull(tx.wit) {
      forall i | 0 <= i < |tx.wit|
        ensures StackFits(tx.wit[i])
      {
        assert Stacks().ok(tx.wit[i]);
      }
    }
  }

  lemma RegroupPlain(s: Bytes, a: Bytes, b: Bytes, c: Bytes, d: Bytes)
    ensures s + a + b + c + d == s + (a + b + c + d)
  {
  }

  lemma Regroup7(s: Bytes, a: Bytes, b: Bytes, c: Bytes, d: Bytes, e: Bytes, g: Bytes, h: Bytes)
    ensures s + a + b + c + d + e + g + h == s + (a + b + c + d + e + g + h)
  {
    RegroupPlain(s, a, b, c, d);
    RegroupPlain(s, a + b + c + d, e, g, h);
  }
}
