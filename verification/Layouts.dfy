/** The byte layouts of transactions, PSBT maps and derivation info, spelled out. */
module Layouts {
  import opened Core
  import opened Script
  import opened Serialize
  import opened Transaction
  import KeyMap
  import Derivation

  /** Four and eight bytes from the lowest. */
  function Four(n: nat): Bytes {
    [n % 256, n / 0x100 % 256, n / 0x1_0000 % 256, n / 0x100_0000 % 256]
  }

  function Eight(n: nat): Bytes {
    Four(n) + [n / 0x1_0000_0000 % 256, n / 0x100_0000_0000 % 256, n / 0x1_0000_0000_0000 % 256, n / 0x100_0000_0000_0000 % 256]
  }

  lemma IntegersAreLittleEndian(n: nat)
    ensures ToLE(n, 4) == Four(n) && ToLE(n, 8) == Eight(n)
  {
    LowBytes(n);
    hide ToLE;
  }

  lemma SignedIsFour(v: int)
    requires -0x8000_0000 <= v < 0x8000_0000
    ensures Signed(4).enc(v) == Four(if v < 0 then v + 0x1_0000_0000 else v)
  {
    assert Pow(256, 4) == 0x1_0000_0000;
    IntegersAreLittleEndian(if v < 0 then v + 0x1_0000_0000 else v);
    hide ToLE, Pow, Four;
  }

  lemma SignedIsEight(v: int)
    requires 0 <= v
    ensures Signed(8).enc(v) == Eight(v)
  {
    PowPositive(256, 8);
    IntegersAreLittleEndian(v);
    hide ToLE, Pow, Eight;
  }

  lemma ShortBytes(b: Bytes)
    requires |b| < 253
    ensures EncodeBytes(b) == [|b|] + b
  {
  }

  lemma OneOf<T>(c: Codec<T>, x: T)
    ensures Vector(c).enc([x]) == [1] + c.enc(x) && EncodeAll(c, [x]) == c.enc(x)
  {
    assert [x][1..] == [] && c.enc(x) + [] == c.enc(x);
    assert EncodeAll(c, [x]) == c.enc(x) + EncodeAll(c, []);
  }

  /** An input: the hash and index of what it spends, the script under its length, the sequence. */
  lemma InputLayout(h: Bytes, n: nat, s: Bytes, q: nat)
    requires |s| < 253
    ensures TxIns().enc(TxIn(OutPoint(h, n), s, q)) == h + Four(n) + ([|s|] + s + Four(q))
  {
    IntegersAreLittleEndian(n);
    IntegersAreLittleEndian(q);
    ShortBytes(s);
    hide ToLE, Four, EncodeBytes;
  }

  /** An output: the value and the script under its length. */
  lemma OutputLayout(a: nat, p: Bytes)
    requires |p| < 253
    ensures TxOuts().enc(TxOut(a, p)) == Eight(a) + ([|p|] + p)
  {
    SignedIsEight(a);
    ShortBytes(p);
    hide ToLE, Eight, EncodeBytes, Signed;
  }

  lemma PartsLayout(h: Bytes, n: nat, s: Bytes, q: nat, a: nat, p: Bytes, w: Bytes)
    requires |s| < 253 && |p| < 253 && |w| < 253
    ensures Inputs().enc([TxIn(OutPoint(h, n), s, q)]) == [1] + (h + Four(n) + ([|s|] + s + Four(q)))
    ensures Outputs().enc([TxOut(a, p)]) == [1] + (Eight(a) + ([|p|] + p))
    ensures EncodeAll(Stacks(), [[w]]) == [1] + ([|w|] + w)
  {
    InputLayout(h, n, s, q);
    OutputLayout(a, p);
    ShortBytes(w);
    OneOf(TxIns(), TxIn(OutPoint(h, n), s, q));
    OneOf(TxOuts(), TxOut(a, p));
    OneOf(VarBytes(), w);
    OneOf(Stacks(), [w]);
    hide Four, Eight, TxIns, TxOuts, EncodeBytes, EncodeAll, EncodeVector;
  }

  /** A transaction with and without a witness; negative versions are in two's complement. */
  lemma TransactionLayout(v: int, h: Bytes, n: nat, s: Bytes, q: nat, a: nat, p: Bytes, w: Bytes, l: nat)
    requires -0x8000_0000 <= v < 0x8000_0000 && |s| < 253 && |p| < 253 && |w| < 253
    ensures var version := Four(if v < 0 then v + 0x1_0000_0000 else v);
            var vin := [1] + (h + Four(n) + ([|s|] + s + Four(q)));
            var vout := [1] + (Eight(a) + ([|p|] + p));
            var ins, outs := [TxIn(OutPoint(h, n), s, q)], [TxOut(a, p)];
            && EncodeTx(Tx(v, ins, outs, [], l)) == version + vin + vout + Four(l)
            && EncodeTx(Tx(v, ins, outs, [[w]], l)) == version + [0] + [1] + vin + vout + ([1] + ([|w|] + w)) + Four(l)
  {
    hide ToLE, Four, Eight, Inputs, Outputs, Stacks, Signed, EncodeAll;
    SignedIsFour(v);
    PartsLayout(h, n, s, q, a, p, w);
    IntegersAreLittleEndian(l);
    assert [[w]][0] != [];
  }

  lemma KeyLayout(t: nat, k: Bytes, prefix: Bytes, sub: nat, d: Bytes, v: Bytes)
    requires t < 253 && sub < 253 && |prefix| < 253
    ensures KeyMap.EntryField(KeyMap.Entry(t, k, v)) == KeyMap.Field([t] + k, v)
    ensures KeyMap.ProprietaryField(prefix, KeyMap.Proprietary(sub, d, v)) == KeyMap.Field([0xfc] + ([|prefix|] + prefix + [sub] + d), v)
  {
    ShortBytes(prefix);
    hide EncodeBytes;
  }

  lemma FieldLayout(key: Bytes, value: Bytes)
    requires |key| < 253 && |value| < 253
    ensures KeyMap.FieldCodec().enc(KeyMap.Field(key, value)) == [|key|] + key + ([|value|] + value)
  {
    ShortBytes(key);
    ShortBytes(value);
    hide EncodeBytes;
  }

  lemma TwoFields(e: KeyMap.Entry, prefix: Bytes, x: KeyMap.Proprietary)
    ensures KeyMap.EncodeMap(KeyMap.Map([e], [(prefix, [x])], []))
         == KeyMap.FieldCodec().enc(KeyMap.EntryField(e)) + KeyMap.FieldCodec().enc(KeyMap.ProprietaryField(prefix, x)) + [0]
  {
    hide KeyMap.FieldCodec, KeyMap.EntryField, KeyMap.ProprietaryField;
    var c, f, g := KeyMap.FieldCodec(), KeyMap.EntryField(e), KeyMap.ProprietaryField(prefix, x);
    var groups := [(prefix, [x])];
    assert groups[1..] == [] && KeyMap.GroupFields(groups[1..]) == [];
    assert KeyMap.Fields(KeyMap.Map([e], groups, [])) == [f, g];
    assert [f, g][1..] == [g] && [g][1..] == [];
    assert EncodeAll(c, [g]) == c.enc(g) + EncodeAll(c, []) == c.enc(g);
    assert EncodeAll(c, [f, g]) == c.enc(f) + EncodeAll(c, [g]);
  }

  /** A map of one typed entry and one proprietary entry: keys and values under their lengths, and a zero. */
  lemma MapLayout(t: nat, k: Bytes, v: Bytes, prefix: Bytes, sub: nat, d: Bytes, u: Bytes)
    requires t < 253 && sub < 253 && |k| < 200 && |v| < 253 && |prefix| < 100 && |d| < 100 && |u| < 253
    ensures var key := [0xfc] + ([|prefix|] + prefix + [sub] + d);
            KeyMap.EncodeMap(KeyMap.Map([KeyMap.Entry(t, k, v)], [(prefix, [KeyMap.Proprietary(sub, d, u)])], [])) ==
              ([1 + |k|] + ([t] + k) + ([|v|] + v)) + ([3 + |prefix| + |d|] + key + ([|u|] + u)) + [0]
  {
    hide KeyMap.FieldCodec, KeyMap.EntryField, KeyMap.ProprietaryField, KeyMap.EncodeMap;
    TwoFields(KeyMap.Entry(t, k, v), prefix, KeyMap.Proprietary(sub, d, u));
    KeyLayout(t, k, prefix, sub, d, v);
    KeyLayout(t, k, prefix, sub, d, u);
    FieldLayout([t] + k, v);
    FieldLayout([0xfc] + ([|prefix|] + prefix + [sub] + d), u);
  }

  /** The fingerprint and the indexes, four bytes each. */
  lemma DerivationLayout(fp: Bytes, i: nat, j: nat)
    ensures Derivation.EncodeDerivation(Derivation.KeyDerivation(fp, [i, j])) == fp + (Four(i) + Four(j))
  {
    IntegersAreLittleEndian(i);
    IntegersAreLittleEndian(j);
    hide ToLE, Four;
    var c := Unsigned(4);
    assert [i, j][1..] == [j] && [j][1..] == [];
    assert EncodeAll(c, [j]) == c.enc(j) + EncodeAll(c, []) == c.enc(j);
    assert EncodeAll(c, [i, j]) == c.enc(i) + EncodeAll(c, [j]);
  }
}
