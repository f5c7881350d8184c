/** Transactions as bytes (bitcointx/core/__init__.py), with the witness form of BIP144. */
module Transaction {
  import opened Core
  import opened Script
  import opened Serialize

  datatype OutPoint = OutPoint(hash: Bytes, n: nat)

  datatype TxIn = TxIn(prevout: OutPoint, scriptSig: Bytes, sequence: nat)

  datatype TxOut = TxOut(value: int, scriptPubKey: Bytes)

  type Witness = seq<seq<Bytes>>

  datatype Tx = Tx(version: int, vin: seq<TxIn>, vout: seq<TxOut>, wit: Witness, lockTime: nat)

  function OutPoints(): Codec<OutPoint> {
    As(Both(Block(32), Unsigned(4)), (p: (Bytes, nat)) => OutPoint(p.0, p.1), (o: OutPoint) => (o.hash, o.n))
  }

  function TxIns(): Codec<TxIn> {
    As(Both(OutPoints(), Both(VarBytes(), Unsigned(4))),
      (p: (OutPoint, (Bytes, nat))) => TxIn(p.0, p.1.0, p.1.1),
      (i: TxIn) => (i.prevout, (i.scriptSig, i.sequence)))
  }

  function TxOuts(): Codec<TxOut> {
    As(Both(Signed(8), VarBytes()), (p: (int, Bytes)) => TxOut(p.0, p.1), (o: TxOut) => (o.value, o.scriptPubKey))
  }

  function Stacks(): Codec<seq<Bytes>> {
    Vector(VarBytes())
  }

  lemma TxInsLawful()
    ensures Lawful(OutPoints()) && Lawful(TxIns())
  {
    hide Lawful, Both, As, Block, Unsigned, VarBytes;
    BlockLawful(32);
    UnsignedLawful(4);
    VarBytesLawful();
    BothLawful(Block(32), Unsigned(4));
    AsLawful(Both(Block(32), Unsigned(4)), (p: (Bytes, nat)) => OutPoint(p.0, p.1), (o: OutPoint) => (o.hash, o.n));
    BothLawful(VarBytes(), Unsigned(4));
    BothLawful(OutPoints(), Both(VarBytes(), Unsigned(4)));
    AsLawful(Both(OutPoints(), Both(VarBytes(), Unsigned(4))),
      (p: (OutPoint, (Bytes, nat))) => TxIn(p.0, p.1.0, p.1.1),
      (i: TxIn) => (i.prevout, (i.scriptSig, i.sequence)));
  }

  lemma TxOutsLawful()
    ensures Lawful(TxOuts())
  {
    hide Lawful, Both, As, Signed, VarBytes;
    SignedLawful(8);
    VarBytesLawful();
    BothLawful(Signed(8), VarBytes());
    AsLawful(Both(Signed(8), VarBytes()), (p: (int, Bytes)) => TxOut(p.0, p.1), (o: TxOut) => (o.value, o.scriptPubKey));
  }

  lemma StacksLawful()
    ensures Lawful(Stacks())
  {
    hide Lawful, Vector, VarBytes;
    VarBytesLawful();
    VectorLawful(VarBytes());
  }

  predicate IsNull(wit: Witness) {
    forall i :: 0 <= i < |wit| ==> wit[i] == []
  }

  function Inputs(): Codec<seq<TxIn>> {
    Vector(TxIns())
  }

  function Outputs(): Codec<seq<TxOut>> {
    Vector(TxOuts())
  }

  function EncodeTx(tx: Tx): Bytes {
    if IsNull(tx.wit) then
      Signed(4).enc(tx.version) + Inputs().enc(tx.vin) + Outputs().enc(tx.vout) + ToLE(tx.lockTime, 4)
    else
      Signed(4).enc(tx.version) + [0] + [1] + Inputs().enc(tx.vin) + Outputs().enc(tx.vout) + EncodeAll(Stacks(), tx.wit) + ToLE(tx.lockTime, 4)
  }

  /** What can be encoded: fields in range, within the size limits, and one stack per input if there is a witness. */
  predicate Encodable(tx: Tx) {
    && Signed(4).ok(tx.version) && Inputs().ok(tx.vin) && Outputs().ok(tx.vout) && Unsigned(4).ok(tx.lockTime)
    && (!IsNull(tx.wit) ==> |tx.wit| == |tx.vin| && AllOk(Stacks(), tx.wit))
  }

  /** The inputs, the outputs and the flag byte; an empty first vector is the marker of the witness form. */
  function DecodeBody(s: Bytes): Decoded<(seq<TxIn>, seq<TxOut>, byte)> {
    match Inputs().dec(s)
    case Err(e) => Err(e)
    case Ok((vin, t)) =>
      if vin != [] then
        match Outputs().dec(t)
        case Err(e) => Err(e)
        case Ok((vout, u)) => Ok(((vin, vout, 0), u))
      else
        match Take(t, 1)
        case Err(e) => Err(e)
        case Ok((flag, u)) =>
          if flag[0] == 0 then Ok((([], [], 0), u))
          else match Both(Inputs(), Outputs()).dec(u)
            case Err(e) => Err(e)
            case Ok(((vin', vout), v)) => Ok(((vin', vout, flag[0]), v))
  }

  /** What follows: the witness if the flag has bit 0, and the lock time. */
  function DecodeEnd(version: int, vin: seq<TxIn>, vout: seq<TxOut>, flags: byte, s: Bytes): Decoded<Tx> {
    if flags % 2 == 1 then
      match DecodeCount(Stacks(), |vin|, s)
      case Err(e) => Err(e)
      case Ok((wit, t)) =>
        if IsNull(wit) then Err(SuperfluousWitness)
        else if flags != 1 then Err(UnknownFlags)
        else match DecodeLE(t, 4)
          case Err(e) => Err(e)
          case Ok((lockTime, u)) => Ok((Tx(version, vin, vout, wit, lockTime), u))
    else if flags != 0 then Err(UnknownFlags)
    else match DecodeLE(s, 4)
      case Err(e) => Err(e)
      case Ok((lockTime, u)) => Ok((Tx(version, vin, vout, [], lockTime), u))
  }

  function DecodeTx(s: Bytes): Decoded<Tx> {
    match Signed(4).dec(s)
    case Err(e) => Err(e)
    case Ok((version, t)) =>
      match DecodeBody(t)
      case Err(e) => Err(e)
      case Ok(((vin, vout, flags), u)) => DecodeEnd(version, vin, vout, flags, u)
  }

  /** A witness of empty stacks is no witness. */
  function Normalised(tx: Tx): Tx {
    if IsNull(tx.wit) then tx.(wit := []) else tx
  }

  lemma PartsLawful()
    ensures Lawful(Inputs()) && Lawful(Outputs()) && Lawful(Stacks()) && Lawful(Signed(4)) && Lawful(Unsigned(4))
  {
    hide Lawful, TxIns, TxOuts, Vector, Stacks, Signed, Unsigned;
    TxInsLawful();
    TxOutsLawful();
    VectorLawful(TxIns());
    VectorLawful(TxOuts());
    StacksLawful();
    SignedLawful(4);
    UnsignedLawful(4);
  }

  lemma Regroup(a: Bytes, b: Bytes, c: Bytes)
    ensures a + b + c == a + (b + c)
  {
  }

  lemma EmptyVectors(s: Bytes)
    ensures Inputs().enc([]) == [0] && Outputs().enc([]) == [0] && Inputs().ok([]) && Outputs().ok([])
  {
    hide TxIns, TxOuts;
  }

  lemma Marker(s: Bytes)
    ensures Inputs().dec([0] + s) == Ok(([], s))
  {
    ZeroSize(s);
    hide TxIns, DecodeSize;
  }

  lemma ZeroSize(s: Bytes)
    ensures DecodeSize([0] + s, false) == Ok((0, s))
  {
    TakeAll([0], s);
    hide Take;
  }

  lemma BodyPlain(vin: seq<TxIn>, vout: seq<TxOut>, t: Bytes)
    requires Inputs().ok(vin) && Outputs().ok(vout) && (vin != [] || vout == [])
    ensures DecodeBody(Inputs().enc(vin) + (Outputs().enc(vout) + t)) == Ok(((vin, vout, 0), t))
  {
    hide Inputs, Outputs, Lawful, Take, Both;
    PartsLawful();
    DecodesBack(Inputs(), vin, Outputs().enc(vout) + t);
    if vin == [] {
      EmptyVectors([]);
      TakeAll([0], t);
    } else {
      DecodesBack(Outputs(), vout, t);
    }
  }

  lemma BodyMarked(vin: seq<TxIn>, vout: seq<TxOut>, t: Bytes)
    requires Inputs().ok(vin) && Outputs().ok(vout)
    ensures DecodeBody([0] + ([1] + (Inputs().enc(vin) + (Outputs().enc(vout) + t)))) == Ok(((vin, vout, 1), t))
  {
    hide Inputs, Outputs, Lawful, Take;
    PartsLawful();
    var rest := Inputs().enc(vin) + (Outputs().enc(vout) + t);
    Marker([1] + rest);
    TakeAll([1], rest);
    DecodesBack(Inputs(), vin, Outputs().enc(vout) + t);
    DecodesBack(Outputs(), vout, t);
  }

  lemma EndPlain(tx: Tx, t: Bytes)
    requires Encodable(tx) && IsNull(tx.wit)
    ensures DecodeEnd(tx.version, tx.vin, tx.vout, 0, ToLE(tx.lockTime, 4) + t) == Ok((Normalised(tx), t))
  {
    hide Inputs, Outputs, Stacks, Lawful, ToLE;
    PartsLawful();
    DecodesBack(Unsigned(4), tx.lockTime, t);
  }

  lemma EndMarked(tx: Tx, t: Bytes)
    requires Encodable(tx) && !IsNull(tx.wit)
    ensures DecodeEnd(tx.version, tx.vin, tx.vout, 1, EncodeAll(Stacks(), tx.wit) + (ToLE(tx.lockTime, 4) + t)) == Ok((tx, t))
  {
    hide Inputs, Outputs, Stacks, Lawful, ToLE, AllOk, EncodeAll;
    PartsLawful();
    DecodesBack(Unsigned(4), tx.lockTime, t);
    CountRoundTrips(Stacks(), tx.wit, ToLE(tx.lockTime, 4) + t);
  }

  /** The encoding followed by t, grouped as the decoder reads it. */
  lemma EncodedThen(tx: Tx, t: Bytes)
    ensures var v, i, o, l := Signed(4).enc(tx.version), Inputs().enc(tx.vin), Outputs().enc(tx.vout), ToLE(tx.lockTime, 4);
            EncodeTx(tx) + t ==
              if IsNull(tx.wit) then v + (i + (o + (l + t)))
              else v + ([0] + ([1] + (i + (o + (EncodeAll(Stacks(), tx.wit) + (l + t))))))
  {
    hide Signed, Inputs, Outputs, Stacks, ToLE, EncodeAll;
    var v, i, o, l := Signed(4).enc(tx.version), Inputs().enc(tx.vin), Outputs().enc(tx.vout), ToLE(tx.lockTime, 4);
    if IsNull(tx.wit) {
      Group3(v, i, o, l, t);
    } else {
      var w := EncodeAll(Stacks(), tx.wit);
      Group6(v, [0], [1], i, o, w, l, t);
    }
  }

  lemma Group3(v: Bytes, i: Bytes, o: Bytes, l: Bytes, t: Bytes)
    ensures v + i + o + l + t == v + (i + (o + (l + t)))
  {
    Regroup(v, i, o);
    Regroup(v, i + o, l);
    Regroup(v, i + o + l, t);
    Regroup(i, o, l);
    Regroup(i, o + l, t);
    Regroup(o, l, t);
  }

  lemma Group6(v: Bytes, m: Bytes, f: Bytes, i: Bytes, o: Bytes, w: Bytes, l: Bytes, t: Bytes)
    ensures v + m + f + i + o + w + l + t == v + (m + (f + (i + (o + (w + (l + t))))))
  {
    Group3(v + m + f, i, o, w, l + t);
    Regroup(v + m + f + i + o + w, l, t);
    Group3(v, m, f, [], i + (o + (w + (l + t))));
    assert v + m + f + [] == v + m + f && [] + (i + (o + (w + (l + t)))) == i + (o + (w + (l + t)));
  }

  /** Encoding and then decoding gives back the transaction, its witness normalised. */
  lemma TxRoundTrips(tx: Tx, t: Bytes)
    requires Encodable(tx) && (tx.vin != [] || tx.vout == [])
    ensures DecodeTx(EncodeTx(tx) + t) == Ok((Normalised(tx), t))
  {
    hide EncodeTx, DecodeBody, DecodeEnd, Signed, Inputs, Outputs, Stacks, ToLE, Lawful, EncodeAll;
    PartsLawful();
    EncodedThen(tx, t);
    var i, o, l := Inputs().enc(tx.vin), Outputs().enc(tx.vout), ToLE(tx.lockTime, 4);
    if IsNull(tx.wit) {
      DecodesBack(Signed(4), tx.version, i + (o + (l + t)));
      BodyPlain(tx.vin, tx.vout, l + t);
      EndPlain(tx, t);
    } else {
      var rest := EncodeAll(Stacks(), tx.wit) + (l + t);
      DecodesBack(Signed(4), tx.version, [0] + ([1] + (i + (o + rest))));
      BodyMarked(tx.vin, tx.vout, rest);
      EndMarked(tx, t);
    }
  }

  lemma BodyReencodes(s: Bytes, vin: seq<TxIn>, vout: seq<TxOut>, flags: byte, t: Bytes)
    requires DecodeBody(s) == Ok(((vin, vout, flags), t))
    ensures Inputs().ok(vin) && Outputs().ok(vout)
    ensures flags == 0 ==> (vin != [] || vout == []) && s == Inputs().enc(vin) + (Outputs().enc(vout) + t)
    ensures flags != 0 ==> s == [0] + ([flags] + (Inputs().enc(vin) + (Outputs().enc(vout) + t)))
  {
    hide Inputs, Outputs, Lawful;
    PartsLawful();
    EmptyVectors([]);
    CameFrom(Inputs(), s);
    var (first, u) := Inputs().dec(s).value;
    if first != [] {
      CameFrom(Outputs(), u);
    } else {
      var (flag, rest) := Take(u, 1).value;
      assert flag == [flag[0]];
      hide Take;
      if flag[0] != 0 {
        CameFrom(Inputs(), rest);
        CameFrom(Outputs(), Inputs().dec(rest).value.1);
      }
    }
  }

  lemma EndReencodes(version: int, vin: seq<TxIn>, vout: seq<TxOut>, flags: byte, s: Bytes, tx: Tx, t: Bytes)
    requires DecodeEnd(version, vin, vout, flags, s) == Ok((tx, t))
    ensures tx.version == version && tx.vin == vin && tx.vout == vout && Unsigned(4).ok(tx.lockTime) && flags <= 1
    ensures flags == 0 ==> tx.wit == [] && s == ToLE(tx.lockTime, 4) + t
    ensures flags == 1 ==> !IsNull(tx.wit) && |tx.wit| == |vin| && AllOk(Stacks(), tx.wit)
                           && s == EncodeAll(Stacks(), tx.wit) + (ToLE(tx.lockTime, 4) + t)
  {
    hide Inputs, Outputs, Stacks, Lawful, ToLE, AllOk, EncodeAll, Pow;
    PartsLawful();
    if flags % 2 == 1 {
      CountReencodes(Stacks(), |vin|, s);
      CameFrom(Unsigned(4), DecodeCount(Stacks(), |vin|, s).value.1);
    } else {
      CameFrom(Unsigned(4), s);
    }
  }

  /** Every accepted string is the encoding of what it decodes to, and never that of a transaction with outputs alone. */
  lemma TxReencodes(s: Bytes, tx: Tx, t: Bytes)
    requires DecodeTx(s) == Ok((tx, t))
    ensures Encodable(tx) && Normalised(tx) == tx && (tx.vin != [] || tx.vout == [])
    ensures s == EncodeTx(tx) + t
  {
    hide EncodeTx, DecodeBody, DecodeEnd, Signed, Inputs, Outputs, Stacks, ToLE, Lawful, EncodeAll, AllOk;
    PartsLawful();
    CameFrom(Signed(4), s);
    var (version, u) := Signed(4).dec(s).value;
    var ((vin, vout, flags), w) := DecodeBody(u).value;
    BodyReencodes(u, vin, vout, flags, w);
    EndReencodes(version, vin, vout, flags, w, tx, t);
    EncodedThen(tx, t);
    assert tx.wit == [] ==> IsNull(tx.wit);
  }

  /** The exact reach of the round trip: not for a transaction with outputs and no inputs, whose encoding looks marked. */
  lemma RoundTripsExactly(tx: Tx, t: Bytes)
    requires Encodable(tx)
    ensures DecodeTx(EncodeTx(tx) + t) == Ok((Normalised(tx), t)) <==> tx.vin != [] || tx.vout == []
  {
    hide EncodeTx, DecodeTx, Encodable;
    if tx.vin != [] || tx.vout == [] {
      TxRoundTrips(tx, t);
    } else if DecodeTx(EncodeTx(tx) + t) == Ok((Normalised(tx), t)) {
      TxReencodes(EncodeTx(tx) + t, Normalised(tx), t);
    }
  }

  /** One output and no input, at work: the count of outputs reads as the flag, and the rest as an empty witness. */
  lemma OutputsAloneAreRefused(t: Bytes)
    ensures Encodable(Tx(1, [], [TxOut(0, [])], [], 0))
    ensures DecodeTx(EncodeTx(Tx(1, [], [TxOut(0, [])], [], 0)) + t) == Err(SuperfluousWitness)
  {
    var tx := Tx(1, [], [TxOut(0, [])], [], 0);
    OneOutput();
    OneOutputOk();
    EmptyVectors([]);
    hide Inputs, Outputs, EncodeTx, ToLE, Signed, Unsigned, DecodeBody, Lawful;
    EncodedThen(tx, t);
    var left := Zeros(7) + (ToLE(0, 4) + t);
    Regroup([1], [0] + ([0] + Zeros(7)), ToLE(0, 4) + t);
    Regroup([0], [0] + Zeros(7), ToLE(0, 4) + t);
    Regroup([0], Zeros(7), ToLE(0, 4) + t);
    PartsLawful();
    DecodesBack(Signed(4), 1, [0] + ([1] + ([0] + ([0] + left))));
    MarkedEmpty(left);
    NoWitnessToRead(left);
  }

  lemma NoWitnessToRead(s: Bytes)
    ensures DecodeEnd(1, [], [], 1, s) == Err(SuperfluousWitness)
  {
    hide Stacks;
  }

  lemma MarkedEmpty(left: Bytes)
    ensures DecodeBody([0] + ([1] + ([0] + ([0] + left)))) == Ok((([], [], 1), left))
  {
    var rest := [0] + ([0] + left);
    Marker([1] + rest);
    TakeAll([1], rest);
    Marker([0] + left);
    OutputsMarker(left);
    hide Inputs, Outputs, Take;
  }

  lemma OneOutputOk()
    ensures Outputs().ok([TxOut(0, [])]) && Signed(4).ok(1) && Unsigned(4).ok(0)
  {
    Pow256Values();
    hide Pow;
    assert TxOuts().ok(TxOut(0, []));
    hide TxOuts;
  }

  lemma OneOutput()
    ensures Outputs().enc([TxOut(0, [])]) == [1] + ([0] + ([0] + Zeros(7)))
  {
    var o := TxOut(0, []);
    ZeroOutput();
    hide TxOuts;
    assert [o][1..] == [];
    assert EncodeAll(TxOuts(), [o]) == TxOuts().enc(o) + EncodeAll(TxOuts(), []);
  }

  lemma ZeroOutput()
    ensures TxOuts().enc(TxOut(0, [])) == [0] + ([0] + Zeros(7))
  {
    PowPositive(256, 8);
    EightZeros();
    hide ToLE, Pow;
  }

  lemma EightZeros()
    ensures ToLE(0, 8) == [0, 0, 0, 0, 0, 0, 0, 0]
  {
    assert ToLE(0, 4) == [0, 0, 0, 0];
    assert ToLE(0, 8) == [0] + ([0] + ([0] + ([0] + ToLE(0, 4))));
  }

  lemma OutputsMarker(s: Bytes)
    ensures Outputs().dec([0] + s) == Ok(([], s))
  {
    ZeroSize(s);
    hide TxOuts, DecodeSize;
  }
}
