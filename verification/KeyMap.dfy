/** The key-value maps of a PSBT and the sorting of their entries by key type (bitcointx/core/psbt.py). */
module KeyMap {
  import opened Core
  import opened Serialize
  import opened Transaction
  import opened Stream

  const MAX_PSBT_MAP_ENTRIES := 10_000
  const PSBT_PROPRIETARY_TYPE := 0xfc

  datatype Entry = Entry(keyType: nat, keyData: Bytes, value: Bytes)

  datatype Proprietary = Proprietary(subtype: nat, keyData: Bytes, value: Bytes)

  /** A dictionary from prefixes to lists, in insertion order. */
  type Groups = seq<(Bytes, seq<Proprietary>)>

  /** What reading a map yields: the entries of known types, the proprietary groups and the entries of unknown types. */
  datatype Map = Map(known: seq<Entry>, groups: Groups, unknown: seq<Entry>)

  /** A key and its value as they stand in the bytes. */
  datatype Field = Field(key: Bytes, value: Bytes)

  function FieldCodec(): Codec<Field> {
    As(Both(VarBytes(), VarBytes()), (p: (Bytes, Bytes)) => Field(p.0, p.1), (x: Field) => (x.key, x.value))
  }

  function EntryField(e: Entry): Field {
    Field(CompactSize(e.keyType) + e.keyData, e.value)
  }

  function ProprietaryField(prefix: Bytes, p: Proprietary): Field {
    Field(CompactSize(PSBT_PROPRIETARY_TYPE) + (EncodeBytes(prefix) + CompactSize(p.subtype) + p.keyData), p.value)
  }

  function EntryFields(es: seq<Entry>): (s: seq<Field>)
    ensures |s| == |es| && forall i :: 0 <= i < |s| ==> s[i] == EntryField(es[i])
  {
    seq(|es|, i requires 0 <= i < |es| => EntryField(es[i]))
  }

  function ListFields(prefix: Bytes, ps: seq<Proprietary>): (s: seq<Field>)
    ensures |s| == |ps| && forall i :: 0 <= i < |s| ==> s[i] == ProprietaryField(prefix, ps[i])
  {
    seq(|ps|, i requires 0 <= i < |ps| => ProprietaryField(prefix, ps[i]))
  }

  function GroupFields(g: Groups): seq<Field> {
    if g == [] then [] else ListFields(g[0].0, g[0].1) + GroupFields(g[1..])
  }

  /** The fields of a map in the order they are written. */
  function Fields(m: Map): seq<Field> {
    EntryFields(m.known) + GroupFields(m.groups) + EntryFields(m.unknown)
  }

  function EncodeMap(m: Map): Bytes {
    EncodeAll(FieldCodec(), Fields(m)) + [0]
  }

  /** Dictionary append: to the list of the prefix, or as a new list at the end. */
  function AddProprietary(g: Groups, prefix: Bytes, p: Proprietary): Groups {
    if g == [] then [(prefix, [p])]
    else if g[0].0 == prefix then [(prefix, g[0].1 + [p])] + g[1..]
    else [g[0]] + AddProprietary(g[1..], prefix, p)
  }

  /** What one field adds to the map. */
  function Add(known: nat -> bool, m: Map, f: Field): Result<Map, Failure> {
    match DecodeSize(f.key, true)
    case Err(e) => Err(e)
    case Ok((keyType, keyData)) =>
      if keyType == PSBT_PROPRIETARY_TYPE then
        match DecodeBytes(keyData)
        case Err(e) => Err(e)
        case Ok((prefix, tail)) =>
          match DecodeSize(tail, true)
          case Err(e) => Err(e)
          case Ok((subtype, data)) => Ok(m.(groups := AddProprietary(m.groups, prefix, Proprietary(subtype, data, f.value))))
      else if known(keyType) then Ok(m.(known := m.known + [Entry(keyType, keyData, f.value)]))
      else Ok(m.(unknown := m.unknown + [Entry(keyType, keyData, f.value)]))
  }

  /** The reading loop; the key type is decoded before the value is read. */
  function ReadMap(known: nat -> bool, s: Bytes, seen: set<Bytes>, count: nat, m: Map): Decoded<Map>
    requires count <= MAX_PSBT_MAP_ENTRIES
    decreases MAX_PSBT_MAP_ENTRIES - count
  {
    match DecodeBytes(s)
    case Err(e) => Err(e)
    case Ok((key, t)) =>
      if key == [] then Ok((m, t))
      else if count + 1 > MAX_PSBT_MAP_ENTRIES then Err(TooManyEntries)
      else if key in seen then Err(DuplicateKey)
      else match DecodeSize(key, true)
        case Err(e) => Err(e)
        case Ok(_) =>
          match DecodeBytes(t)
          case Err(e) => Err(e)
          case Ok((value, u)) =>
            match Add(known, m, Field(key, value))
            case Err(e) => Err(e)
            case Ok(m') => ReadMap(known, u, seen + {key}, count + 1, m')
  }

  const EMPTY := Map([], [], [])

  function DecodeMap(known: nat -> bool, s: Bytes): Decoded<Map> {
    ReadMap(known, s, {}, 0, EMPTY)
  }

  function Feed(known: nat -> bool, m: Map, fs: seq<Field>): Result<Map, Failure>
    decreases |fs|
  {
    if fs == [] then Ok(m)
    else match Add(known, m, fs[0])
      case Err(e) => Err(e)
      case Ok(m') => Feed(known, m', fs[1..])
  }

  predicate FieldOk(f: Field) {
    f.key != [] && |f.key| <= MAX_SIZE && |f.value| <= MAX_SIZE
  }

  predicate Readable(fs: seq<Field>, seen: set<Bytes>) {
    && (forall i :: 0 <= i < |fs| ==> FieldOk(fs[i]) && fs[i].key !in seen)
    && forall i, j :: 0 <= i < j < |fs| ==> fs[i].key != fs[j].key
  }

  lemma ReadOneField(known: nat -> bool, f: Field, rest: Bytes, seen: set<Bytes>, count: nat, m: Map, m': Map)
    requires FieldOk(f) && f.key !in seen && count < MAX_PSBT_MAP_ENTRIES && Add(known, m, f) == Ok(m')
    ensures ReadMap(known, EncodeBytes(f.key) + (EncodeBytes(f.value) + rest), seen, count, m)
            == ReadMap(known, rest, seen + {f.key}, count + 1, m')
  {
    ReadOne(f, rest);
    assert DecodeSize(f.key, true).Ok?;
    hide DecodeBytes, Add, DecodeSize, EncodeBytes;
  }

  lemma ReadableRest(fs: seq<Field>, seen: set<Bytes>)
    requires fs != [] && Readable(fs, seen)
    ensures Readable(fs[1..], seen + {fs[0].key}) && FieldOk(fs[0]) && fs[0].key !in seen
  {
    hide FieldOk;
  }

  lemma ReadableAll(f: Field, rest: seq<Field>, seen: set<Bytes>)
    requires FieldOk(f) && f.key !in seen && Readable(rest, seen + {f.key})
    ensures Readable([f] + rest, seen)
  {
    hide FieldOk;
  }

  /** Reading a sequence of fields with new keys up to the separator is feeding them one by one. */
  lemma {:induction false} ReadIsFeed(known: nat -> bool, fs: seq<Field>, t: Bytes, seen: set<Bytes>, count: nat, m: Map, m': Map)
    requires Readable(fs, seen) && count + |fs| <= MAX_PSBT_MAP_ENTRIES && Feed(known, m, fs) == Ok(m')
    ensures ReadMap(known, EncodeAll(FieldCodec(), fs) + ([0] + t), seen, count, m) == Ok((m', t))
    decreases |fs|
  {
    hide DecodeBytes, Add, DecodeSize, EncodeBytes, Readable, FieldCodec;
    if fs == [] {
      Separator(t);
      assert EncodeAll(FieldCodec(), fs) + ([0] + t) == [0] + t;
    } else {
      var f := fs[0];
      ReadableRest(fs, seen);
      hide ReadMap;
      ReadIsFeed(known, fs[1..], t, seen + {f.key}, count + 1, Add(known, m, f).value, m');
      FirstField(fs, [0] + t);
      ReadOneField(known, f, EncodeAll(FieldCodec(), fs[1..]) + ([0] + t), seen, count, m, Add(known, m, f).value);
    }
  }

  lemma Separator(t: Bytes)
    ensures DecodeBytes([0] + t) == Ok(([], t))
  {
    ZeroSize(t);
    hide DecodeSize;
  }

  lemma FirstField(fs: seq<Field>, t: Bytes)
    requires fs != []
    ensures EncodeAll(FieldCodec(), fs) + t == EncodeBytes(fs[0].key) + (EncodeBytes(fs[0].value) + (EncodeAll(FieldCodec(), fs[1..]) + t))
  {
    hide EncodeBytes;
    Regroup(FieldCodec().enc(fs[0]), EncodeAll(FieldCodec(), fs[1..]), t);
    Regroup(EncodeBytes(fs[0].key), EncodeBytes(fs[0].value), EncodeAll(FieldCodec(), fs[1..]) + t);
  }

  lemma ReadOne(f: Field, rest: Bytes)
    requires FieldOk(f)
    ensures DecodeBytes(EncodeBytes(f.key) + (EncodeBytes(f.value) + rest)) == Ok((f.key, EncodeBytes(f.value) + rest))
    ensures DecodeBytes(EncodeBytes(f.value) + rest) == Ok((f.value, rest))
  {
    hide EncodeBytes, DecodeBytes, Lawful;
    VarBytesLawful();
    DecodesBack(VarBytes(), f.key, EncodeBytes(f.value) + rest);
    DecodesBack(VarBytes(), f.value, rest);
  }

  /** Whatever is read is a sequence of fields with different keys, up to the first separator. */
  lemma {:induction false} ReadCameFrom(known: nat -> bool, s: Bytes, seen: set<Bytes>, count: nat, m: Map, m': Map, t: Bytes) returns (fs: seq<Field>)
    requires count <= MAX_PSBT_MAP_ENTRIES && ReadMap(known, s, seen, count, m) == Ok((m', t))
    ensures Readable(fs, seen) && count + |fs| <= MAX_PSBT_MAP_ENTRIES && Feed(known, m, fs) == Ok(m')
    ensures s == EncodeAll(FieldCodec(), fs) + ([0] + t)
    decreases MAX_PSBT_MAP_ENTRIES - count
  {
    hide Add, EncodeBytes, DecodeBytes, DecodeSize, Lawful, Readable, FieldCodec;
    VarBytesLawful();
    CameFrom(VarBytes(), s);
    var (key, u) := DecodeBytes(s).value;
    if key == [] {
      fs := [];
      EmptyBytes();
      NoFields(seen);
      assert EncodeAll(FieldCodec(), fs) + ([0] + t) == [0] + t;
    } else {
      CameFrom(VarBytes(), u);
      var (value, v) := DecodeBytes(u).value;
      var f := Field(key, value);
      var rest := ReadCameFrom(known, v, seen + {key}, count + 1, Add(known, m, f).value, m', t);
      fs := [f] + rest;
      ReadableAll(f, rest, seen);
      FirstField(fs, [0] + t);
      assert fs[1..] == rest;
    }
  }

  lemma NoFields(seen: set<Bytes>)
    ensures Readable([], seen)
  {
  }

  lemma EmptyBytes()
    ensures EncodeBytes([]) == [0]
  {
  }

  /** A field of an entry adds that entry; a proprietary field adds to its group. */
  lemma AddEntry(known: nat -> bool, m: Map, e: Entry)
    requires e.keyType <= 0xffff_ffff_ffff_ffff && e.keyType != PSBT_PROPRIETARY_TYPE
    ensures Add(known, m, EntryField(e)) == Ok(if known(e.keyType) then m.(known := m.known + [e]) else m.(unknown := m.unknown + [e]))
  {
    hide CompactSize, DecodeSize, Lawful;
    VarIntLawful(true);
    DecodesBack(VarInt(true), e.keyType, e.keyData);
  }

  lemma AddOwn(known: nat -> bool, m: Map, prefix: Bytes, p: Proprietary)
    requires |prefix| <= MAX_SIZE && p.subtype <= 0xffff_ffff_ffff_ffff
    ensures Add(known, m, ProprietaryField(prefix, p)) == Ok(m.(groups := AddProprietary(m.groups, prefix, p)))
  {
    hide CompactSize, DecodeSize, Lawful, EncodeBytes, DecodeBytes;
    VarIntLawful(true);
    VarBytesLawful();
    var tail := CompactSize(p.subtype) + p.keyData;
    Regroup(EncodeBytes(prefix), CompactSize(p.subtype), p.keyData);
    DecodesBack(VarInt(true), PSBT_PROPRIETARY_TYPE, EncodeBytes(prefix) + tail);
    DecodesBack(VarBytes(), prefix, tail);
    DecodesBack(VarInt(true), p.subtype, p.keyData);
  }

  /** Every field is one of the two kinds. */
  lemma AddCases(known: nat -> bool, m: Map, f: Field, m': Map)
    requires Add(known, m, f) == Ok(m')
    ensures || (exists e :: IsEntry(f, e) && m' == if known(e.keyType) then m.(known := m.known + [e]) else m.(unknown := m.unknown + [e]))
            || (exists prefix, p :: IsProprietary(f, prefix, p) && m' == m.(groups := AddProprietary(m.groups, prefix, p)))
  {
    hide CompactSize, DecodeSize, Lawful, EncodeBytes, DecodeBytes;
    VarIntLawful(true);
    VarBytesLawful();
    CameFrom(VarInt(true), f.key);
    var (keyType, keyData) := DecodeSize(f.key, true).value;
    if keyType == PSBT_PROPRIETARY_TYPE {
      CameFrom(VarBytes(), keyData);
      var (prefix, tail) := DecodeBytes(keyData).value;
      CameFrom(VarInt(true), tail);
      var (subtype, data) := DecodeSize(tail, true).value;
      Regroup(EncodeBytes(prefix), CompactSize(subtype), data);
      assert IsProprietary(f, prefix, Proprietary(subtype, data, f.value));
    } else {
      assert IsEntry(f, Entry(keyType, keyData, f.value));
    }
  }

  predicate IsEntry(f: Field, e: Entry) {
    f == EntryField(e) && e.keyType <= 0xffff_ffff_ffff_ffff && e.keyType != PSBT_PROPRIETARY_TYPE
  }

  predicate IsProprietary(f: Field, prefix: Bytes, p: Proprietary) {
    f == ProprietaryField(prefix, p) && |prefix| <= MAX_SIZE && p.subtype <= 0xffff_ffff_ffff_ffff
  }

  /** Two entries with the same key bytes have the same type and key data. */
  lemma KeyInjective(d: Entry, e: Entry)
    requires d.keyType <= 0xffff_ffff_ffff_ffff && e.keyType <= 0xffff_ffff_ffff_ffff
    requires EntryField(d).key == EntryField(e).key
    ensures d.keyType == e.keyType && d.keyData == e.keyData
  {
    hide CompactSize, DecodeSize, Lawful;
    VarIntLawful(true);
    DecodesBack(VarInt(true), d.keyType, d.keyData);
    DecodesBack(VarInt(true), e.keyType, e.keyData);
  }

  predicate GroupOk(g: (Bytes, seq<Proprietary>)) {
    && |g.0| <= MAX_SIZE && g.1 != []
    && forall i :: 0 <= i < |g.1| ==> g.1[i].subtype <= 0xffff_ffff_ffff_ffff
  }

  predicate GroupsOk(g: Groups) {
    && (forall i :: 0 <= i < |g| ==> GroupOk(g[i]))
    && forall i, j :: 0 <= i < j < |g| ==> g[i].0 != g[j].0
  }

  predicate EntryOk(e: Entry) {
    e.keyType <= 0xffff_ffff_ffff_ffff && e.keyType != PSBT_PROPRIETARY_TYPE
  }

  /** Every entry stands in the part of the map its key type belongs to, and no group is empty. */
  predicate Typed(known: nat -> bool, m: Map) {
    && (forall i :: 0 <= i < |m.known| ==> EntryOk(m.known[i]) && known(m.known[i].keyType))
    && (forall i :: 0 <= i < |m.unknown| ==> EntryOk(m.unknown[i]) && !known(m.unknown[i].keyType))
    && GroupsOk(m.groups)
  }

  lemma {:induction false} FeedAppend(known: nat -> bool, m: Map, a: seq<Field>, b: seq<Field>, mid: Map)
    requires Feed(known, m, a) == Ok(mid)
    ensures Feed(known, m, a + b) == Feed(known, mid, b)
    decreases |a|
  {
    hide Add;
    if a == [] {
      assert a + b == b;
    } else {
      assert (a + b)[1..] == a[1..] + b;
      FeedAppend(known, Add(known, m, a[0]).value, a[1..], b, mid);
    }
  }

  function WithEntries(m: Map, es: seq<Entry>, isKnown: bool): Map {
    if isKnown then m.(known := m.known + es) else m.(unknown := m.unknown + es)
  }

  lemma WithMore(m: Map, es: seq<Entry>, isKnown: bool)
    ensures WithEntries(m, [], isKnown) == m
    ensures es != [] ==> WithEntries(WithEntries(m, [es[0]], isKnown), es[1..], isKnown) == WithEntries(m, es, isKnown)
  {
    if es != [] {
      assert m.known + [es[0]] + es[1..] == m.known + es;
      assert m.unknown + [es[0]] + es[1..] == m.unknown + es;
    }
  }

  lemma {:induction false} FeedEntries(known: nat -> bool, m: Map, es: seq<Entry>, isKnown: bool)
    requires forall i :: 0 <= i < |es| ==> EntryOk(es[i]) && known(es[i].keyType) == isKnown
    ensures Feed(known, m, EntryFields(es)) == Ok(WithEntries(m, es, isKnown))
    decreases |es|
  {
    hide Add;
    WithMore(m, es, isKnown);
    if es != [] {
      AddEntry(known, m, es[0]);
      assert Add(known, m, EntryField(es[0])) == Ok(WithEntries(m, [es[0]], isKnown));
      hide WithEntries;
      FeedEntries(known, WithEntries(m, [es[0]], isKnown), es[1..], isKnown);
      assert EntryFields(es)[1..] == EntryFields(es[1..]);
    }
  }

  predicate NoPrefix(g: Groups, prefix: Bytes) {
    forall i :: 0 <= i < |g| ==> g[i].0 != prefix
  }

  lemma {:induction false} AddLast(g: Groups, prefix: Bytes, ps: seq<Proprietary>, p: Proprietary)
    requires NoPrefix(g, prefix)
    ensures AddProprietary(g, prefix, p) == g + [(prefix, [p])]
    ensures AddProprietary(g + [(prefix, ps)], prefix, p) == g + [(prefix, ps + [p])]
  {
    if g != [] {
      AddLast(g[1..], prefix, ps, p);
      assert (g + [(prefix, ps)])[1..] == g[1..] + [(prefix, ps)];
      assert g == [g[0]] + g[1..];
      assert [g[0]] + (g[1..] + [(prefix, ps + [p])]) == g + [(prefix, ps + [p])];
    }
  }

  lemma {:induction false} FeedList(known: nat -> bool, m: Map, g: Groups, prefix: Bytes, ps: seq<Proprietary>, n: nat)
    requires NoPrefix(g, prefix) && GroupOk((prefix, ps)) && 0 < n <= |ps|
    requires m.groups == g + [(prefix, ps[..n])]
    ensures Feed(known, m, ListFields(prefix, ps[n..])) == Ok(m.(groups := g + [(prefix, ps)]))
    decreases |ps| - n
  {
    hide Add, AddProprietary;
    if n == |ps| {
      assert ps[..n] == ps;
    } else {
      AddOwn(known, m, prefix, ps[n]);
      AddLast(g, prefix, ps[..n], ps[n]);
      assert ps[..n] + [ps[n]] == ps[..n + 1];
      FeedList(known, m.(groups := g + [(prefix, ps[..n + 1])]), g, prefix, ps, n + 1);
      assert ListFields(prefix, ps[n..])[1..] == ListFields(prefix, ps[n + 1..]);
    }
  }

  lemma FeedGroup(known: nat -> bool, m: Map, prefix: Bytes, ps: seq<Proprietary>)
    requires NoPrefix(m.groups, prefix) && GroupOk((prefix, ps))
    ensures Feed(known, m, ListFields(prefix, ps)) == Ok(m.(groups := m.groups + [(prefix, ps)]))
  {
    hide Add, AddProprietary;
    AddOwn(known, m, prefix, ps[0]);
    AddLast(m.groups, prefix, [], ps[0]);
    assert ps[..1] == [ps[0]];
    FeedList(known, m.(groups := m.groups + [(prefix, [ps[0]])]), m.groups, prefix, ps, 1);
    assert ListFields(prefix, ps)[1..] == ListFields(prefix, ps[1..]);
  }

  lemma {:induction false} FeedGroups(known: nat -> bool, m: Map, g: Groups, n: nat)
    requires GroupsOk(g) && n <= |g| && m.groups == g[..n]
    ensures Feed(known, m, GroupFields(g[n..])) == Ok(m.(groups := g))
    decreases |g| - n
  {
    hide GroupOk, Add, Feed;
    if n == |g| {
      assert g[..n] == g;
      EmptyFeed(known, m);
    } else {
      assert NoPrefix(g[..n], g[n].0);
      FeedGroup(known, m, g[n].0, g[n].1);
      var next := m.(groups := g[..n + 1]);
      assert g[..n] + [(g[n].0, g[n].1)] == g[..n + 1];
      FeedGroups(known, next, g, n + 1);
      assert g[n..][1..] == g[n + 1..];
      FeedAppend(known, m, ListFields(g[n].0, g[n].1), GroupFields(g[n + 1..]), next);
    }
  }

  lemma EmptyFeed(known: nat -> bool, m: Map)
    ensures Feed(known, m, []) == Ok(m)
  {
  }

  /** Feeding the written fields of a map rebuilds it. */
  lemma FeedFields(known: nat -> bool, m: Map)
    requires Typed(known, m)
    ensures Feed(known, EMPTY, Fields(m)) == Ok(m)
  {
    hide Feed, GroupFields, GroupsOk, EntryOk, EntryFields;
    var m1 := Map(m.known, [], []);
    var m2 := Map(m.known, m.groups, []);
    FeedEntries(known, EMPTY, m.known, true);
    assert [] + m.known == m.known;
    FeedEntries(known, m2, m.unknown, false);
    assert [] + m.unknown == m.unknown;
    hide Typed;
    FeedGroups(known, m1, m.groups, 0) by {
      assert Typed(known, m) ==> GroupsOk(m.groups) by { hide *; TypedGroups(known, m); }
      assert m.groups[..0] == [];
    }
    assert m.groups[0..] == m.groups;
    FeedAppend(known, EMPTY, EntryFields(m.known), GroupFields(m.groups), m1);
    FeedAppend(known, EMPTY, EntryFields(m.known) + GroupFields(m.groups), EntryFields(m.unknown), m2);
  }

  lemma TypedGroups(known: nat -> bool, m: Map)
    ensures Typed(known, m) ==> GroupsOk(m.groups)
  {
  }

  /** Within the size and entry limits and without a repeated key. */
  predicate Writable(known: nat -> bool, m: Map) {
    Typed(known, m) && Readable(Fields(m), {}) && |Fields(m)| <= MAX_PSBT_MAP_ENTRIES
  }

  /** A written map reads back as the same typed entries, groups and unknown list, up to the separator and no further. */
  lemma MapRoundTrips(known: nat -> bool, m: Map, t: Bytes)
    requires Writable(known, m)
    ensures DecodeMap(known, EncodeMap(m) + t) == Ok((m, t))
  {
    hide Typed, Readable, Fields, Feed, EncodeAll, FieldCodec, ReadMap;
    FeedFields(known, m);
    ReadIsFeed(known, Fields(m), t, {}, 0, EMPTY, m);
    Regroup(EncodeAll(FieldCodec(), Fields(m)), [0], t);
  }

  lemma EntryFieldsAppend(es: seq<Entry>, e: Entry)
    ensures EntryFields(es + [e]) == EntryFields(es) + [EntryField(e)]
  {
  }

  lemma AddLastMultiset<T>(a: seq<T>, b: seq<T>, c: seq<T>, x: T)
    ensures multiset(a + [x] + b + c) == multiset(a + b + c) + multiset{x}
    ensures multiset(a + (b + [x]) + c) == multiset(a + b + c) + multiset{x}
    ensures multiset(a + b + (c + [x])) == multiset(a + b + c) + multiset{x}
  {
  }

  lemma GroupFieldsCons(g: Groups)
    requires g != []
    ensures GroupFields(g) == ListFields(g[0].0, g[0].1) + GroupFields(g[1..])
  {
  }

  lemma ListFieldsAppend(prefix: Bytes, ps: seq<Proprietary>, p: Proprietary)
    ensures ListFields(prefix, ps + [p]) == ListFields(prefix, ps) + [ProprietaryField(prefix, p)]
  {
  }

  lemma FirstGroup(prefix: Bytes, p: Proprietary)
    ensures multiset(GroupFields([(prefix, [p])])) == multiset(GroupFields([])) + multiset{ProprietaryField(prefix, p)}
  {
    hide ProprietaryField;
    var x := ProprietaryField(prefix, p);
    GroupFieldsCons([(prefix, [p])]);
    NoGroups();
    assert [(prefix, [p])][1..] == [] && ListFields(prefix, [p]) == [x];
    assert [x] + [] == [x];
  }

  lemma LargerGroup(prefix: Bytes, ps: seq<Proprietary>, p: Proprietary, rest: Groups)
    ensures multiset(GroupFields([(prefix, ps + [p])] + rest)) == multiset(ListFields(prefix, ps) + GroupFields(rest)) + multiset{ProprietaryField(prefix, p)}
  {
    hide ProprietaryField, GroupFields, ListFields;
    var x := ProprietaryField(prefix, p);
    var l, r := ListFields(prefix, ps), GroupFields(rest);
    var h := [(prefix, ps + [p])] + rest;
    GroupFieldsCons(h);
    assert h[1..] == rest;
    ListFieldsAppend(prefix, ps, p);
  }

  /** A group gains exactly one field. */
  lemma {:induction false} GroupsGain(g: Groups, prefix: Bytes, p: Proprietary)
    ensures multiset(GroupFields(AddProprietary(g, prefix, p))) == multiset(GroupFields(g)) + multiset{ProprietaryField(prefix, p)}
  {
    hide ProprietaryField, ListFields, GroupFields;
    if g == [] {
      FirstGroup(prefix, p);
    } else {
      GroupFieldsCons(g);
      if g[0].0 == prefix {
        LargerGroup(prefix, g[0].1, p, g[1..]);
      } else {
        var h := AddProprietary(g, prefix, p);
        GroupFieldsCons(h);
        assert h[1..] == AddProprietary(g[1..], prefix, p);
        GroupsGain(g[1..], prefix, p);
      }
    }
  }

  lemma {:induction false} AddProprietaryKeeps(g: Groups, prefix: Bytes, p: Proprietary)
    requires GroupsOk(g) && |prefix| <= MAX_SIZE && p.subtype <= 0xffff_ffff_ffff_ffff
    ensures var h := AddProprietary(g, prefix, p);
            && GroupsOk(h)
            && (forall i :: 0 <= i < |h| ==> h[i].0 == prefix || !NoPrefix(g, h[i].0))
  {
    var h := AddProprietary(g, prefix, p);
    if g != [] && g[0].0 == prefix {
      hide NoPrefix;
      assert forall i :: 0 < i < |g| ==> h[i] == g[i];
      assert GroupOk(h[0]);
      PrefixesOf(g);
    } else if g != [] {
      AddProprietaryKeeps(g[1..], prefix, p);
      assert h[1..] == AddProprietary(g[1..], prefix, p);
      hide AddProprietary, GroupsOk;
      GroupsRest(g);
      GroupsCons(g, h, prefix);
    }
  }

  lemma PrefixesOf(g: Groups)
    ensures forall i :: 0 <= i < |g| ==> !NoPrefix(g, g[i].0)
  {
  }

  lemma GroupsRest(g: Groups)
    requires g != [] && GroupsOk(g)
    ensures GroupsOk(g[1..])
  {
    hide GroupOk;
  }

  lemma GroupsCons(g: Groups, h: Groups, prefix: Bytes)
    requires GroupsOk(g) && g != [] && h != [] && h[0] == g[0] && g[0].0 != prefix && GroupsOk(h[1..])
    requires forall i :: 0 <= i < |h[1..]| ==> h[1..][i].0 == prefix || !NoPrefix(g[1..], h[1..][i].0)
    ensures GroupsOk(h)
    ensures forall i :: 0 <= i < |h| ==> h[i].0 == prefix || !NoPrefix(g, h[i].0)
  {
    hide GroupOk;
    assert forall i :: 0 < i < |h| ==> h[i] == h[1..][i - 1];
    assert forall i :: 0 < i < |g| ==> g[i] == g[1..][i - 1];
    forall i | 0 < i < |h|
      ensures h[i].0 != g[0].0 && (h[i].0 == prefix || !NoPrefix(g, h[i].0))
    {
      if h[i].0 != prefix {
        assert !NoPrefix(g[1..], h[1..][i - 1].0);
        var j :| 0 <= j < |g[1..]| && g[1..][j].0 == h[1..][i - 1].0;
        assert g[j + 1].0 == h[i].0;
      }
    }
    assert !NoPrefix(g, g[0].0);
  }

  lemma AddEntryTyped(known: nat -> bool, m: Map, e: Entry, m': Map)
    requires Typed(known, m) && EntryOk(e)
    requires m' == if known(e.keyType) then m.(known := m.known + [e]) else m.(unknown := m.unknown + [e])
    ensures Typed(known, m')
  {
    hide GroupsOk, EntryOk;
  }

  lemma AddEntryKeeps(known: nat -> bool, m: Map, e: Entry, m': Map)
    requires m' == if known(e.keyType) then m.(known := m.known + [e]) else m.(unknown := m.unknown + [e])
    ensures multiset(Fields(m')) == multiset(Fields(m)) + multiset{EntryField(e)}
  {
    hide EntryField, GroupFields, EntryFields;
    EntryFieldsAppend(m.known, e);
    EntryFieldsAppend(m.unknown, e);
    AddLastMultiset(EntryFields(m.known), GroupFields(m.groups), EntryFields(m.unknown), EntryField(e));
  }

  lemma AddOwnKeeps(known: nat -> bool, m: Map, prefix: Bytes, p: Proprietary)
    requires Typed(known, m) && |prefix| <= MAX_SIZE && p.subtype <= 0xffff_ffff_ffff_ffff
    ensures var m' := m.(groups := AddProprietary(m.groups, prefix, p));
            Typed(known, m') && multiset(Fields(m')) == multiset(Fields(m)) + multiset{ProprietaryField(prefix, p)}
  {
    hide ProprietaryField, GroupsOk, GroupFields, EntryFields, AddProprietary, EntryOk;
    AddProprietaryKeeps(m.groups, prefix, p);
    GroupsGain(m.groups, prefix, p);
    var g, h := GroupFields(m.groups), GroupFields(AddProprietary(m.groups, prefix, p));
    hide Typed, NoPrefix;
    MiddleMultiset(EntryFields(m.known), g, h, EntryFields(m.unknown), ProprietaryField(prefix, p));
  }

  lemma MiddleMultiset<T>(a: seq<T>, g: seq<T>, h: seq<T>, c: seq<T>, x: T)
    requires multiset(h) == multiset(g) + multiset{x}
    ensures multiset(a + h + c) == multiset(a + g + c) + multiset{x}
  {
  }

  /** One field more: the map stays typed and has exactly one field more. */
  lemma AddKeeps(known: nat -> bool, m: Map, f: Field, m': Map)
    requires Typed(known, m) && Add(known, m, f) == Ok(m')
    ensures Typed(known, m') && multiset(Fields(m')) == multiset(Fields(m)) + multiset{f}
  {
    hide Add, EntryField, ProprietaryField, Typed, Fields, AddProprietary;
    AddCases(known, m, f, m');
    if e :| IsEntry(f, e) && m' == if known(e.keyType) then m.(known := m.known + [e]) else m.(unknown := m.unknown + [e]) {
      AddEntryTyped(known, m, e, m');
      AddEntryKeeps(known, m, e, m');
    } else {
      var prefix, p :| IsProprietary(f, prefix, p) && m' == m.(groups := AddProprietary(m.groups, prefix, p));
      AddOwnKeeps(known, m, prefix, p);
    }
  }

  lemma {:induction false} FeedKeeps(known: nat -> bool, m: Map, fs: seq<Field>, m': Map)
    requires Typed(known, m) && Feed(known, m, fs) == Ok(m')
    ensures Typed(known, m') && multiset(Fields(m')) == multiset(Fields(m)) + multiset(fs)
    decreases |fs|
  {
    hide Add, Typed, Fields;
    if fs != [] {
      var next := Add(known, m, fs[0]).value;
      AddKeeps(known, m, fs[0], next);
      FeedKeeps(known, next, fs[1..], m');
      assert fs == [fs[0]] + fs[1..];
    }
  }

  lemma RemoveOne<T>(fs: seq<T>, gs: seq<T>) returns (i: nat, rest: seq<T>)
    requires gs != [] && multiset(fs) == multiset(gs)
    ensures i < |fs| && fs[i] == gs[0] && rest == fs[..i] + fs[i + 1..]
    ensures multiset(rest) == multiset(gs[1..])
  {
    assert gs == [gs[0]] + gs[1..];
    assert gs[0] in multiset(fs);
    i :| 0 <= i < |fs| && fs[i] == gs[0];
    rest := fs[..i] + fs[i + 1..];
    assert fs == fs[..i] + [fs[i]] + fs[i + 1..];
    assert multiset(fs) == multiset(rest) + multiset{gs[0]};
    assert multiset(gs) == multiset(gs[1..]) + multiset{gs[0]};
    calc {
      multiset(rest);
      multiset(fs) - multiset{gs[0]};
      multiset(gs) - multiset{gs[0]};
      multiset(gs[1..]);
    }
  }

  lemma SameElements<T>(a: seq<T>, b: seq<T>, x: T)
    requires multiset(a) == multiset(b)
    ensures x in a <==> x in b
  {
    assert x in multiset(a) <==> x in multiset(b);
  }

  lemma ReadableWithout(fs: seq<Field>, i: nat, rest: seq<Field>)
    requires Readable(fs, {}) && i < |fs| && rest == fs[..i] + fs[i + 1..]
    ensures Readable(rest, {}) && forall x :: x in rest ==> x.key != fs[i].key
  {
    hide FieldOk;
    assert forall k :: 0 <= k < |rest| ==> rest[k] == if k < i then fs[k] else fs[k + 1];
  }

  /** Distinct keys do not depend on the order of the fields. */
  lemma {:induction false} ReadablePermutes(fs: seq<Field>, gs: seq<Field>)
    requires Readable(fs, {}) && multiset(fs) == multiset(gs)
    ensures Readable(gs, {})
    decreases |gs|
  {
    if gs != [] {
      var i, rest := RemoveOne(fs, gs);
      assert FieldOk(fs[i]);
      ReadableWithout(fs, i, rest);
      ReadablePermutes(rest, gs[1..]);
      forall j | 0 < j < |gs|
        ensures gs[j] == gs[1..][j - 1] && gs[j].key != gs[0].key
      {
        SameElements(rest, gs[1..], gs[1..][j - 1]);
      }
      hide FieldOk;
    }
  }

  /** Every map that is read could have been written, and holds exactly the fields that were read. */
  lemma MapCameFrom(known: nat -> bool, s: Bytes, m: Map, t: Bytes) returns (fs: seq<Field>)
    requires DecodeMap(known, s) == Ok((m, t))
    ensures Writable(known, m) && multiset(fs) == multiset(Fields(m))
    ensures s == EncodeAll(FieldCodec(), fs) + ([0] + t)
  {
    assert Typed(known, EMPTY) && Fields(EMPTY) == [];
    hide Typed, Readable, Feed, EncodeAll, FieldCodec, ReadMap, Fields;
    fs := ReadCameFrom(known, s, {}, 0, EMPTY, m, t);
    FeedKeeps(known, EMPTY, fs, m);
    ReadablePermutes(fs, Fields(m));
    SameSize(fs, Fields(m));
  }

  lemma SameSize<T>(a: seq<T>, b: seq<T>)
    requires multiset(a) == multiset(b)
    ensures |a| == |b|
  {
    assert |multiset(a)| == |a| && |multiset(b)| == |b|;
  }

  /** The exact reach of the round trip; a group without entries, for one, leaves nothing to read back. */
  lemma MapRoundTripsExactly(known: nat -> bool, m: Map, t: Bytes)
    ensures DecodeMap(known, EncodeMap(m) + t) == Ok((m, t)) <==> Writable(known, m)
  {
    hide DecodeMap, EncodeMap, Writable;
    if Writable(known, m) {
      MapRoundTrips(known, m, t);
    }
    if DecodeMap(known, EncodeMap(m) + t) == Ok((m, t)) {
      var fs := MapCameFrom(known, EncodeMap(m) + t, m, t);
    }
  }

  /** read_psbt_keymap on a stream. */
  method ReadKeymap(known: nat -> bool, f: ByteStream) returns (r: Result<Map, Failure>)
    requires f.Valid()
    modifies f`pos
    ensures f.Valid() && Agrees(r, f.Rest(), DecodeMap(known, old(f.Rest())))
  {
    hide DecodeBytes, DecodeSize, AddProprietary;
    var keysSeen: set<Bytes> := {};
    var m := EMPTY;
    var entryCount := 0;
    ghost var goal := DecodeMap(known, f.Rest());
    while true
      invariant f.Valid() && f.data == old(f.data) && entryCount <= MAX_PSBT_MAP_ENTRIES
      invariant goal == ReadMap(known, f.Rest(), keysSeen, entryCount, m)
      decreases MAX_PSBT_MAP_ENTRIES - entryCount
    {
      var key := ReadBytes(f);
      if key.Err? {
        return Err(key.error);
      }
      if key.value == [] {
        return Ok(m);
      }
      entryCount := entryCount + 1;
      if entryCount > MAX_PSBT_MAP_ENTRIES {
        return Err(TooManyEntries);
      }
      if key.value in keysSeen {
        return Err(DuplicateKey);
      }
      keysSeen := keysSeen + {key.value};
      var typed := DecodeSize(key.value, true);
      if typed.Err? {
        return Err(typed.error);
      }
      var value := ReadBytes(f);
      if value.Err? {
        return Err(value.error);
      }
      var added := Add(known, m, Field(key.value, value.value));
      if added.Err? {
        return Err(added.error);
      }
      m := added.value;
    }
  }

  /** Type and lengths fit the widest varint. */
  predicate FieldFits(keyType: nat, keyData: Bytes, value: Bytes) {
    keyType <= MAX_UINT64 && |CompactSize(keyType) + keyData| <= MAX_UINT64 && |value| <= MAX_UINT64
  }

  method WriteField(f: ByteStream, keyType: nat, keyData: Bytes, value: Bytes) returns (ok: bool)
    modifies f`data
    ensures Wrote(ok, FieldFits(keyType, keyData, value), old(f.data), f.data, FieldCodec().enc(EntryField(Entry(keyType, keyData, value))))
  {
    hide EncodeBytes, CompactSize;
    var key := new ByteStream([]);
    ok := WriteVarInt(key, keyType);
    if !ok {
      return;
    }
    key.Write(keyData);
    assert key.data == CompactSize(keyType) + keyData;
    ok := WriteBytes(f, key.data);
    if !ok {
      return;
    }
    ok := WriteBytes(f, value);
    assert ok ==> f.data == old(f.data) + (EncodeBytes(key.data) + EncodeBytes(value));
  }

  predicate EntriesFit(es: seq<Entry>) {
    forall i :: 0 <= i < |es| ==> FieldFits(es[i].keyType, es[i].keyData, es[i].value)
  }

  method WriteEntries(f: ByteStream, es: seq<Entry>) returns (ok: bool)
    modifies f`data
    ensures Wrote(ok, EntriesFit(es), old(f.data), f.data, EncodeAll(FieldCodec(), EntryFields(es)))
  {
    hide FieldCodec, EncodeAll, EntryField, FieldFits;
    NothingYet(FieldCodec(), EntryFields(es));
    for i := 0 to |es|
      invariant f.data == old(f.data) + EncodeAll(FieldCodec(), EntryFields(es)[..i])
      invariant forall j :: 0 <= j < i ==> FieldFits(es[j].keyType, es[j].keyData, es[j].value)
    {
      ok := WriteField(f, es[i].keyType, es[i].keyData, es[i].value);
      if !ok {
        return;
      }
      EncodeAllStep(FieldCodec(), EntryFields(es), i);
    }
    assert EntryFields(es)[..|es|] == EntryFields(es);
    ok := true;
  }

  /** The key data of a proprietary field. */
  function ProprietaryData(prefix: Bytes, p: Proprietary): Bytes {
    EncodeBytes(prefix) + CompactSize(p.subtype) + p.keyData
  }

  predicate ProprietaryFits(prefix: Bytes, p: Proprietary) {
    |prefix| <= MAX_UINT64 && p.subtype <= MAX_UINT64 && FieldFits(PSBT_PROPRIETARY_TYPE, ProprietaryData(prefix, p), p.value)
  }

  predicate ListFits(prefix: Bytes, ps: seq<Proprietary>) {
    forall i :: 0 <= i < |ps| ==> ProprietaryFits(prefix, ps[i])
  }

  method WriteProprietary(f: ByteStream, prefix: Bytes, p: Proprietary) returns (ok: bool)
    modifies f`data
    ensures Wrote(ok, ProprietaryFits(prefix, p), old(f.data), f.data, FieldCodec().enc(ProprietaryField(prefix, p)))
  {
    hide FieldCodec, EncodeBytes, CompactSize;
    var key := new ByteStream([]);
    ok := WriteBytes(key, prefix);
    if !ok {
      return;
    }
    ok := WriteVarInt(key, p.subtype);
    if !ok {
      return;
    }
    key.Write(p.keyData);
    assert key.data == ProprietaryData(prefix, p);
    ok := WriteField(f, PSBT_PROPRIETARY_TYPE, key.data, p.value);
  }

  method WriteList(f: ByteStream, prefix: Bytes, ps: seq<Proprietary>) returns (ok: bool)
    modifies f`data
    ensures Wrote(ok, ListFits(prefix, ps), old(f.data), f.data, EncodeAll(FieldCodec(), ListFields(prefix, ps)))
  {
    hide FieldCodec, EncodeAll, ProprietaryField, ProprietaryFits;
    NothingYet(FieldCodec(), ListFields(prefix, ps));
    for i := 0 to |ps|
      invariant f.data == old(f.data) + EncodeAll(FieldCodec(), ListFields(prefix, ps)[..i])
      invariant forall j :: 0 <= j < i ==> ProprietaryFits(prefix, ps[j])
    {
      ok := WriteProprietary(f, prefix, ps[i]);
      if !ok {
        return;
      }
      EncodeAllStep(FieldCodec(), ListFields(prefix, ps), i);
    }
    assert ListFields(prefix, ps)[..|ps|] == ListFields(prefix, ps);
    ok := true;
  }

  lemma {:induction false} EncodeAllAppend<T>(c: Codec<T>, a: seq<T>, b: seq<T>)
    ensures EncodeAll(c, a + b) == EncodeAll(c, a) + EncodeAll(c, b)
  {
    if a == [] {
      assert a + b == b;
    } else {
      assert (a + b)[1..] == a[1..] + b;
      EncodeAllAppend(c, a[1..], b);
    }
  }

  lemma {:induction false} GroupFieldsStep(g: Groups, i: nat)
    requires i < |g|
    ensures GroupFields(g[..i + 1]) == GroupFields(g[..i]) + ListFields(g[i].0, g[i].1)
  {
    hide ListFields;
    if i == 0 {
      assert g[..1][1..] == [] && GroupFields(g[..1]) == ListFields(g[0].0, g[0].1) + GroupFields([]);
    } else {
      assert g[..i + 1][1..] == g[1..][..i] && g[..i][1..] == g[1..][..i - 1];
      GroupFieldsStep(g[1..], i - 1);
      assert ListFields(g[0].0, g[0].1) + (GroupFields(g[1..][..i - 1]) + ListFields(g[i].0, g[i].1))
          == ListFields(g[0].0, g[0].1) + GroupFields(g[1..][..i - 1]) + ListFields(g[i].0, g[i].1);
    }
  }

  predicate GroupsFit(g: Groups) {
    forall i :: 0 <= i < |g| ==> ListFits(g[i].0, g[i].1)
  }

  method WriteGroups(f: ByteStream, g: Groups) returns (ok: bool)
    modifies f`data
    ensures Wrote(ok, GroupsFit(g), old(f.data), f.data, EncodeAll(FieldCodec(), GroupFields(g)))
  {
    hide FieldCodec, EncodeAll, ListFields, GroupFields, ListFits;
    var c := FieldCodec();
    NothingYet(c, GroupFields(g));
    assert g[..0] == [] && GroupFields(g[..0]) == [] by {
      NoGroups();
    }
    for i := 0 to |g|
      invariant f.data == old(f.data) + EncodeAll(c, GroupFields(g[..i]))
      invariant forall j :: 0 <= j < i ==> ListFits(g[j].0, g[j].1)
    {
      ok := WriteList(f, g[i].0, g[i].1);
      if !ok {
        return;
      }
      GroupFieldsStep(g, i);
      EncodeAllAppend(c, GroupFields(g[..i]), ListFields(g[i].0, g[i].1));
    }
    assert g[..|g|] == g;
    ok := true;
  }

  predicate MapFits(m: Map) {
    EntriesFit(m.known) && GroupsFit(m.groups) && EntriesFit(m.unknown)
  }

  /** A map is written as its known entries, the proprietary groups, the unknown entries and the separator, if every number fits. */
  method WriteMap(f: ByteStream, m: Map) returns (ok: bool)
    modifies f`data
    ensures Wrote(ok, MapFits(m), old(f.data), f.data, EncodeMap(m))
  {
    hide FieldCodec, EncodeAll, EntryFields, GroupFields, EntriesFit, GroupsFit;
    var c := FieldCodec();
    ok := WriteEntries(f, m.known);
    if !ok {
      return;
    }
    ok := WriteGroups(f, m.groups);
    if !ok {
      return;
    }
    ok := WriteEntries(f, m.unknown);
    if !ok {
      return;
    }
    f.Write([0]);
    EncodeAllAppend(c, EntryFields(m.known), GroupFields(m.groups));
    EncodeAllAppend(c, EntryFields(m.known) + GroupFields(m.groups), EntryFields(m.unknown));
    RegroupPlain(old(f.data), EncodeAll(c, EntryFields(m.known)), EncodeAll(c, GroupFields(m.groups)), EncodeAll(c, EntryFields(m.unknown)), [0]);
  }

  /** Every map that reads back is written without failure. */
  lemma WritableFits(known: nat -> bool, m: Map)
    requires Writable(known, m)
    ensures MapFits(m)
  {
    var fs := Fields(m);
    hide EntryFields, ListFields, GroupFields, CompactSize, EncodeBytes;
    forall i | 0 <= i < |m.known|
      ensures FieldFits(m.known[i].keyType, m.known[i].keyData, m.known[i].value)
    {
      assert fs[i] == EntryField(m.known[i]);
      assert FieldOk(fs[i]);
    }
    forall i | 0 <= i < |m.unknown|
      ensures FieldFits(m.unknown[i].keyType, m.unknown[i].keyData, m.unknown[i].value)
    {
      var at := |EntryFields(m.known)| + |GroupFields(m.groups)| + i;
      assert fs[at] == EntryField(m.unknown[i]);
      assert FieldOk(fs[at]);
    }
    forall i, j | 0 <= i < |m.groups| && 0 <= j < |m.groups[i].1|
      ensures ProprietaryFits(m.groups[i].0, m.groups[i].1[j])
    {
      var k := GroupFieldAt(m.groups, i, j);
      assert fs[|EntryFields(m.known)| + k] == GroupFields(m.groups)[k];
      assert FieldOk(fs[|EntryFields(m.known)| + k]);
      assert GroupOk(m.groups[i]);
    }
  }

  lemma {:induction false} GroupFieldAt(g: Groups, i: nat, j: nat) returns (k: nat)
    requires i < |g| && j < |g[i].1|
    ensures k < |GroupFields(g)| && GroupFields(g)[k] == ProprietaryField(g[i].0, g[i].1[j])
  {
    GroupFieldsCons(g);
    hide GroupFields, ProprietaryField;
    if i == 0 {
      k := j;
    } else {
      k := GroupFieldAt(g[1..], i - 1, j);
      k := |g[0].1| + k;
    }
  }

  /** A group without entries, at work: it is written as nothing and comes back as nothing. */
  lemma EmptyGroupIsLost(known: nat -> bool, t: Bytes)
    ensures DecodeMap(known, EncodeMap(Map([], [([1], [])], [])) + t) == Ok((Map([], [], []), t))
  {
    hide ReadMap, EncodeAll, FieldCodec;
    var m := Map([], [([1], [])], []);
    assert m.groups[1..] == [] && Fields(m) == Fields(EMPTY) by {
      assert ListFields([1], []) == [];
    }
    assert Writable(known, EMPTY);
    MapRoundTrips(known, EMPTY, t);
  }

  lemma NoGroups()
    ensures GroupFields([]) == []
  {
  }
}
