/** Manifests: a catalogue of names and a key-value map, carried in the content of a packet. */
module Manifests {
  import opened Names
  import opened Options
  import opened Tlv

  const MANIFEST_CATALOGUE: nat := 128
  const KEY_VALUE_PAIR: nat := 129
  const EQUALS: byte := 61
  const CONTENT_TYPE_MANIFEST: nat := 4

  datatype Pair = Pair(key: Bytes, value: Bytes)

  type Pairs = map<Bytes, Bytes>

  // ----- a map in key order -----

  predicate KeyLess(a: Bytes, b: Bytes) {
    Lex((x: byte, y: byte) => x < y, a, b)
  }

  lemma KeyOrder(a: Bytes, b: Bytes, c: Bytes)
    ensures !KeyLess(a, a) && (a == b || KeyLess(a, b) || KeyLess(b, a))
    ensures KeyLess(a, b) && KeyLess(b, c) ==> KeyLess(a, c)
  {
    var less := (x: byte, y: byte) => x < y;
    LexIrreflexive(less, a);
    LexTotal(less, a, b);
    if KeyLess(a, b) && KeyLess(b, c) { LexTransitive(less, a, b, c); }
  }

  /** The pairs of a map, in ascending order of keys. */
  ghost predicate IsListing(m: Pairs, ps: seq<Pair>) {
    && (forall p :: p in ps ==> p.key in m && m[p.key] == p.value)
    && (forall k :: k in m ==> Pair(k, m[k]) in ps)
    && (forall i, j :: 0 <= i < j < |ps| ==> KeyLess(ps[i].key, ps[j].key))
  }

  method GreatestKey(m: Pairs) returns (k: Bytes)
    requires m != map[]
    ensures k in m && forall j :: j in m && j != k ==> KeyLess(j, k)
  {
    var rest := m.Keys;
    assert rest == {} ==> m == map[];
    k :| k in rest;
    rest := rest - {k};
    while rest != {}
      invariant k in m && rest <= m.Keys
      invariant forall j :: j in m && j !in rest && j != k ==> KeyLess(j, k)
      decreases rest
    {
      var j :| j in rest;
      KeyOrder(j, k, k);
      if KeyLess(k, j) {
        forall i | i in m && i !in rest ensures i == k || KeyLess(i, j) { KeyOrder(i, k, j); }
        k := j;
      }
      rest := rest - {j};
    }
  }

  // ----- encoding -----

  function PairBlock(p: Pair): Block {
    Block(KEY_VALUE_PAIR, p.key + [EQUALS] + p.value)
  }

  function PairBlocks(ps: seq<Pair>): (bs: seq<Block>)
    ensures |bs| == |ps|
  {
    if ps == [] then [] else [PairBlock(ps[0])] + PairBlocks(ps[1..])
  }

  function NameBlocks(names: seq<Name>): (bs: seq<Block>)
    ensures |bs| == |names|
  {
    if names == [] then [] else [NameBlock(names[0])] + NameBlocks(names[1..])
  }

  function NameBytes(names: seq<Name>): Bytes {
    Encodings(NameBlocks(names))
  }

  function CatalogueBlock(names: seq<Name>): Block {
    Block(MANIFEST_CATALOGUE, NameBytes(names))
  }

  /** The catalogue, unless it is empty, then the pairs. */
  function ContentBlocks(names: seq<Name>, ps: seq<Pair>): seq<Block> {
    (if names == [] then [] else [CatalogueBlock(names)]) + PairBlocks(ps)
  }

  function Content(names: seq<Name>, ps: seq<Pair>): Bytes {
    Encodings(ContentBlocks(names, ps))
  }

  // ----- decoding -----

  function FirstEquals(s: Bytes): (k: nat)
    ensures k <= |s| && EQUALS !in s[..k] && (k < |s| ==> s[k] == EQUALS)
  {
    if s == [] || s[0] == EQUALS then 0
    else
      assert s == [s[0]] + s[1..];
      1 + FirstEquals(s[1..])
  }

  /** Without an equals sign, or with one at either end, there is no pair. */
  function ReadPair(s: Bytes): Option<Pair> {
    var index := FirstEquals(s);
    if index == |s| || index == 0 || index == |s| - 1 then None
    else Some(Pair(s[..index], s[index + 1..]))
  }

  datatype Decoded = Decoded(names: seq<Name>, pairs: Pairs, ok: bool)

  function AddName(r: Decoded, b: Block): Decoded {
    if b.typ != NAME then r
    else match ReadName(b)
         case None => r.(ok := false)
         case Some(n) => r.(names := r.names + [n])
  }

  /** Names until the first that does not parse; other elements are passed over. */
  function AddNames(r: Decoded, bs: seq<Block>): Decoded
    decreases bs
  {
    if bs == [] || !r.ok then r else AddNames(AddName(r, bs[0]), bs[1..])
  }

  function AddElement(r: Decoded, b: Block): Decoded {
    if b.typ == MANIFEST_CATALOGUE then
      match Parse(b.value)
      case None => r.(ok := false)
      case Some(bs) => AddNames(r, bs)
    else if b.typ == KEY_VALUE_PAIR then
      match ReadPair(b.value)
      case None => r
      case Some(p) => r.(pairs := r.pairs[p.key := p.value])
    else r
  }

  function AddElements(r: Decoded, bs: seq<Block>): Decoded
    decreases bs
  {
    if bs == [] || !r.ok then r else AddElements(AddElement(r, bs[0]), bs[1..])
  }

  /** What a manifest holding r holds after decoding this content. */
  function Decoding(r: Decoded, content: Bytes): Decoded {
    match Parse(content)
    case None => r.(ok := false)
    case Some(bs) => AddElements(r, bs)
  }

  // ----- round trip -----

  /** Pairs that survive: a key that is not empty and has no equals sign, and a value that is not empty. */
  predicate Survives(p: Pair) {
    p.key != [] && EQUALS !in p.key && p.value != []
  }

  ghost predicate AllFit(names: seq<Name>, m: Pairs) {
    && (forall n :: n in names ==> NameFits(n)) && Fits(CatalogueBlock(names))
    && (forall k :: k in m ==> Fits(PairBlock(Pair(k, m[k]))))
  }

  lemma ReadsPairIff(p: Pair)
    ensures ReadPair(PairBlock(p).value) == Some(p) <==> Survives(p)
    ensures ReadPair(PairBlock(p).value).Some? ==> Survives(ReadPair(PairBlock(p).value).value)
  {
    var s := PairBlock(p).value;
    var index := FirstEquals(s);
    assert s[|p.key|] == EQUALS;
    forall k | 0 <= k < index ensures s[k] != EQUALS { assert s[k] == s[..index][k]; }
    if index < |p.key| { assert s[index] == p.key[index] == EQUALS; }
    if EQUALS !in p.key {
      assert s[..index] == p.key && s[index + 1..] == p.value;
    }
    if 0 < index < |s| - 1 { assert EQUALS !in s[..index]; }
  }

  lemma AddsName(r: Decoded, n: Name)
    requires NameFits(n)
    ensures AddName(r, NameBlock(n)) == r.(names := r.names + [n])
  {
    ReadsName(n);
  }

  lemma {:induction false} AddsNames(r: Decoded, names: seq<Name>)
    requires r.ok && forall n :: n in names ==> NameFits(n)
    ensures AddNames(r, NameBlocks(names)) == r.(names := r.names + names)
    decreases names
  {
    hide NameFits, AddName;
    if names != [] {
      var bs, r1 := NameBlocks(names), AddName(r, NameBlock(names[0]));
      AddsName(r, names[0]);
      AddsNames(r1, names[1..]);
      assert bs[0] == NameBlock(names[0]) && bs[1..] == NameBlocks(names[1..]);
      assert r1.names + names[1..] == r.names + names;
    } else {
      assert r.names + names == r.names;
    }
  }

  /** What is left of the pairs, in the order they are read. */
  function Kept(m: Pairs, ps: seq<Pair>): Pairs
    decreases ps
  {
    if ps == [] then m
    else match ReadPair(PairBlock(ps[0]).value)
         case None => Kept(m, ps[1..])
         case Some(p) => Kept(m[p.key := p.value], ps[1..])
  }

  lemma {:induction false} AddsPairs(r: Decoded, ps: seq<Pair>)
    requires r.ok
    ensures AddElements(r, PairBlocks(ps)) == r.(pairs := Kept(r.pairs, ps))
    decreases ps
  {
    if ps != [] {
      AddsPairs(AddElement(r, PairBlock(ps[0])), ps[1..]);
      assert PairBlocks(ps)[1..] == PairBlocks(ps[1..]);
    }
  }

  lemma {:induction false} NameBlocksFit(names: seq<Name>)
    requires forall n :: n in names ==> NameFits(n)
    ensures forall b :: b in NameBlocks(names) ==> Fits(b)
  {
    if names != [] {
      assert names[0] in names;
      NameBlocksFit(names[1..]);
    }
  }

  lemma {:induction false} PairBlocksFit(ps: seq<Pair>)
    requires forall p :: p in ps ==> Fits(PairBlock(p))
    ensures forall b :: b in PairBlocks(ps) ==> Fits(b)
  {
    if ps != [] { PairBlocksFit(ps[1..]); }
  }

  /** Decoding what was encoded adds the catalogue in order, and the pairs as far as they survive. */
  lemma DecodesContent(r: Decoded, names: seq<Name>, ps: seq<Pair>)
    requires r.ok && (forall n :: n in names ==> NameFits(n)) && Fits(CatalogueBlock(names))
    requires forall p :: p in ps ==> Fits(PairBlock(p))
    ensures Decoding(r, Content(names, ps)) == Decoded(r.names + names, Kept(r.pairs, ps), true)
  {
    var bs := ContentBlocks(names, ps);
    NameBlocksFit(names);
    PairBlocksFit(ps);
    ParsesEncodings(bs);
    if names == [] {
      assert bs == PairBlocks(ps) && r.names + names == r.names;
      AddsPairs(r, ps);
    } else {
      ParsesEncodings(NameBlocks(names));
      AddsNames(r, names);
      assert bs[1..] == PairBlocks(ps);
      AddsPairs(r.(names := r.names + names), ps);
    }
  }

  lemma {:induction false} KeptSurvivors(m: Pairs, ps: seq<Pair>, k: Bytes)
    requires k in Kept(m, ps)
    ensures (k in m && Kept(m, ps)[k] == m[k]) || Survives(Pair(k, Kept(m, ps)[k]))
    decreases ps
  {
    if ps != [] {
      ReadsPairIff(ps[0]);
      match ReadPair(PairBlock(ps[0]).value) {
        case None => KeptSurvivors(m, ps[1..], k);
        case Some(p) => KeptSurvivors(m[p.key := p.value], ps[1..], k);
      }
    }
  }

  lemma {:induction false} KeptAll(m: Pairs, ps: seq<Pair>)
    requires forall p :: p in ps ==> Survives(p)
    requires forall i, j :: 0 <= i < j < |ps| ==> ps[i].key != ps[j].key
    ensures forall k :: k in m && (forall p :: p in ps ==> p.key != k) ==> k in Kept(m, ps) && Kept(m, ps)[k] == m[k]
    ensures forall p :: p in ps ==> p.key in Kept(m, ps) && Kept(m, ps)[p.key] == p.value
    ensures forall k :: k in Kept(m, ps) ==> k in m || exists p :: p in ps && p.key == k
    decreases ps
  {
    hide Survives;
    if ps != [] {
      ReadsPairIff(ps[0]);
      KeptAll(m[ps[0].key := ps[0].value], ps[1..]);
      assert ps == [ps[0]] + ps[1..];
    }
  }

  lemma KeptIsAll(m: Pairs, ps: seq<Pair>, kept: Pairs)
    requires IsListing(m, ps)
    requires forall p :: p in ps ==> p.key in kept && kept[p.key] == p.value
    requires forall k :: k in kept ==> exists p :: p in ps && p.key == k
    ensures kept == m
  {
    forall k | k in m ensures k in kept && kept[k] == m[k] { assert Pair(k, m[k]) in ps; }
  }

  /** The map comes back exactly when all its pairs survive. */
  lemma RoundTripIff(names: seq<Name>, m: Pairs, ps: seq<Pair>)
    requires IsListing(m, ps) && AllFit(names, m)
    ensures var r := Decoding(Decoded([], map[], true), Content(names, ps));
      && r.ok && r.names == names
      && (r.pairs == m <==> forall k :: k in m ==> Survives(Pair(k, m[k])))
  {
    forall p | p in ps ensures Fits(PairBlock(p)) { assert p == Pair(p.key, m[p.key]); }
    DecodesContent(Decoded([], map[], true), names, ps);
    var kept := Kept(map[], ps);
    if kept == m {
      forall k | k in m ensures Survives(Pair(k, m[k])) { KeptSurvivors(map[], ps, k); }
    }
    if forall k :: k in m ==> Survives(Pair(k, m[k])) {
      forall i, j | 0 <= i < j < |ps| ensures ps[i].key != ps[j].key { KeyOrder(ps[i].key, ps[j].key, ps[i].key); }
      KeptAll(map[], ps);
      KeptIsAll(m, ps, kept);
    }
  }

  lemma {:induction false} ListingIsUnique(m: Pairs, a: seq<Pair>, b: seq<Pair>)
    requires IsListing(m, a) && IsListing(m, b)
    ensures a == b
    decreases |a|
  {
    ListingIsEmptyIff(m, a);
    ListingIsEmptyIff(m, b);
    if m != map[] {
      GreatestIsLast(m, a, b);
      ListingIsUnique(m - {a[|a| - 1].key}, a[..|a| - 1], b[..|b| - 1]);
      SameInitAndLast(a, b);
    }
  }

  lemma SameInitAndLast(a: seq<Pair>, b: seq<Pair>)
    requires a != [] && b != [] && a[..|a| - 1] == b[..|b| - 1] && a[|a| - 1] == b[|b| - 1]
    ensures a == b
  {
    assert a == a[..|a| - 1] + [a[|a| - 1]] && b == b[..|b| - 1] + [b[|b| - 1]];
  }

  lemma ListingIsEmptyIff(m: Pairs, ps: seq<Pair>)
    requires IsListing(m, ps)
    ensures m == map[] <==> ps == []
  {
    assert ps != [] ==> ps[0] in ps;
  }

  lemma GreatestIsLast(m: Pairs, a: seq<Pair>, b: seq<Pair>)
    requires IsListing(m, a) && IsListing(m, b) && m != map[]
    ensures a != [] && b != [] && a[|a| - 1] == b[|b| - 1]
    ensures IsListing(m - {a[|a| - 1].key}, a[..|a| - 1]) && IsListing(m - {a[|a| - 1].key}, b[..|b| - 1])
  {
    LastIsGreatest(m, a);
    LastIsGreatest(m, b);
    var k, l := a[|a| - 1].key, b[|b| - 1].key;
    KeyOrder(k, l, k);
  }

  lemma LastIsGreatest(m: Pairs, ps: seq<Pair>)
    requires IsListing(m, ps) && m != map[]
    ensures ps != [] && ps[|ps| - 1].key in m && ps[|ps| - 1].value == m[ps[|ps| - 1].key]
    ensures forall k :: k in m && k != ps[|ps| - 1].key ==> KeyLess(k, ps[|ps| - 1].key)
    ensures IsListing(m - {ps[|ps| - 1].key}, ps[..|ps| - 1])
  {
    ListingIsEmptyIff(m, ps);
    var n := |ps| - 1;
    var last := ps[n];
    assert last in ps;
    KeyOrder(last.key, last.key, last.key);
    forall k | k in m && k != last.key ensures KeyLess(k, last.key) && Pair(k, m[k]) in ps[..n] {
      var i :| 0 <= i < |ps| && ps[i] == Pair(k, m[k]);
      assert ps[..n][i] == ps[i];
    }
    forall p | p in ps[..n] ensures p.key in m && p.key != last.key && m[p.key] == p.value {
      var i :| 0 <= i < n && ps[i] == p;
      assert ps[i] in ps && KeyLess(ps[i].key, ps[n].key);
    }
  }

  // ----- the object -----

  class Manifest {
    var contentType: nat
    var content: Bytes
    var catalogueNames: seq<Name>
    var keyValuePairs: Pairs

    constructor ()
      ensures contentType == CONTENT_TYPE_MANIFEST && content == [] && catalogueNames == [] && keyValuePairs == map[]
    {
      contentType, content, catalogueNames, keyValuePairs := CONTENT_TYPE_MANIFEST, [], [], map[];
    }

    method AddKeyValuePair(key: Bytes, value: Bytes)
      modifies this`keyValuePairs
      ensures keyValuePairs == old(keyValuePairs)[key := value]
    {
      keyValuePairs := keyValuePairs[key := value];
    }

    method AddNameToCatalogue(name: Name)
      modifies this`catalogueNames
      ensures catalogueNames == old(catalogueNames) + [name]
    {
      catalogueNames := catalogueNames + [name];
    }

    /** Pairs from the last key to the first, then names from the last to the first, then the catalogue's
        head: back to front, this writes the content. */
    method WireEncode(encoder: Encoder) returns (totalLength: nat, ghost ps: seq<Pair>)
      modifies encoder
      ensures IsListing(keyValuePairs, ps) && totalLength == |Content(catalogueNames, ps)|
      ensures Wrote(encoder.isEstimator, old(encoder.bytes), encoder.bytes, Content(catalogueNames, ps))
    {
      totalLength, ps := WritePairs(encoder);
      ghost var middle := encoder.bytes;
      var catalogueLength := WriteCatalogue(encoder);
      totalLength := totalLength + catalogueLength;
      ContentIs(catalogueNames, ps);
      WroteBoth(encoder.isEstimator, old(encoder.bytes), middle, encoder.bytes,
                Encodings(PairBlocks(ps)), CatalogueBytes(catalogueNames));
    }

    method WritePairs(encoder: Encoder) returns (totalLength: nat, ghost ps: seq<Pair>)
      modifies encoder
      ensures IsListing(keyValuePairs, ps) && totalLength == |Encodings(PairBlocks(ps))|
      ensures Wrote(encoder.isEstimator, old(encoder.bytes), encoder.bytes, Encodings(PairBlocks(ps)))
    {
      totalLength, ps := 0, [];
      var rest := keyValuePairs;
      while rest != map[]
        invariant IsTail(keyValuePairs, rest, ps)
        invariant totalLength == |Encodings(PairBlocks(ps))|
        invariant Wrote(encoder.isEstimator, old(encoder.bytes), encoder.bytes, Encodings(PairBlocks(ps)))
        decreases rest.Keys
      {
        var key := GreatestKey(rest);
        ghost var p, middle := Pair(key, rest[key]), encoder.bytes;
        var size := WritePair(encoder, Pair(key, rest[key]));
        totalLength := totalLength + size;
        WroteBoth(encoder.isEstimator, old(encoder.bytes), middle, encoder.bytes, Encodings(PairBlocks(ps)), Encoding(PairBlock(p)));
        PairsHead(p, ps);
        TailGrows(keyValuePairs, rest, ps, key);
        ps := [p] + ps;
        rest := rest - {key};
      }
      assert keyValuePairs - rest.Keys == keyValuePairs;
    }

    method WritePair(encoder: Encoder, p: Pair) returns (size: nat)
      modifies encoder
      ensures size == |Encoding(PairBlock(p))|
      ensures Wrote(encoder.isEstimator, old(encoder.bytes), encoder.bytes, Encoding(PairBlock(p)))
    {
      var keyValue := p.key + [EQUALS] + p.value;
      size := encoder.PrependBlock(Block(KEY_VALUE_PAIR, keyValue));
    }

    method WriteCatalogue(encoder: Encoder) returns (totalLength: nat)
      modifies encoder
      ensures totalLength == |CatalogueBytes(catalogueNames)|
      ensures Wrote(encoder.isEstimator, old(encoder.bytes), encoder.bytes, CatalogueBytes(catalogueNames))
    {
      ghost var names := NameBytes(catalogueNames);
      var catalogueLength := WriteNames(encoder);
      totalLength := catalogueLength;
      if catalogueLength > 0 {
        ghost var middle := encoder.bytes;
        var size := encoder.PrependHead(MANIFEST_CATALOGUE, catalogueLength);
        totalLength := totalLength + size;
        WroteBoth(encoder.isEstimator, old(encoder.bytes), middle, encoder.bytes,
                  names, VarNumber(MANIFEST_CATALOGUE) + VarNumber(|names|));
      }
    }

    method WriteNames(encoder: Encoder) returns (catalogueLength: nat)
      modifies encoder
      ensures catalogueLength == |NameBytes(catalogueNames)|
      ensures Wrote(encoder.isEstimator, old(encoder.bytes), encoder.bytes, NameBytes(catalogueNames))
    {
      catalogueLength := 0;
      var i := |catalogueNames|;
      ghost var rest: seq<Name> := [];
      while i > 0
        invariant 0 <= i <= |catalogueNames| && rest == catalogueNames[i..] && catalogueLength == |NameBytes(rest)|
        invariant Wrote(encoder.isEstimator, old(encoder.bytes), encoder.bytes, NameBytes(rest))
      {
        i := i - 1;
        var name := catalogueNames[i];
        catalogueLength := WriteName(encoder, name, catalogueLength, rest, old(encoder.bytes));
        OneMore(catalogueNames, i);
        rest := [name] + rest;
      }
      OneMore(catalogueNames, 0);
    }

    method WriteName(encoder: Encoder, name: Name, length: nat, ghost rest: seq<Name>, ghost before: Bytes)
      returns (catalogueLength: nat)
      requires length == |NameBytes(rest)| && Wrote(encoder.isEstimator, before, encoder.bytes, NameBytes(rest))
      modifies encoder
      ensures catalogueLength == |NameBytes([name] + rest)|
      ensures Wrote(encoder.isEstimator, before, encoder.bytes, NameBytes([name] + rest))
    {
      ghost var middle := encoder.bytes;
      var blockSize := encoder.PrependBlock(NameBlock(name));
      catalogueLength := length + blockSize;
      WroteBoth(encoder.isEstimator, before, middle, encoder.bytes, NameBytes(rest), Encoding(NameBlock(name)));
      NamesHead(name, rest);
    }

    /** The content becomes what is encoded; the buffer is exactly as large as estimated. */
    method Encode() returns (estimatedSize: nat, ghost ps: seq<Pair>)
      modifies this`content, this`contentType
      ensures IsListing(keyValuePairs, ps) && content == Content(catalogueNames, ps) && estimatedSize == |content|
      ensures contentType == CONTENT_TYPE_MANIFEST
    {
      var estimator := new Encoder(true);
      estimatedSize, ps := WireEncode(estimator);
      var buffer := new Encoder(false);
      var size;
      ghost var qs;
      size, qs := WireEncode(buffer);
      ListingIsUnique(keyValuePairs, ps, qs);
      contentType, content := CONTENT_TYPE_MANIFEST, buffer.bytes;
    }

    ghost function State(ok: bool): Decoded
      reads this
    {
      Decoded(catalogueNames, keyValuePairs, ok)
    }

    /** Adds what the content holds; ok is false where the code throws, keeping what was added before. */
    method Decode() returns (ok: bool)
      modifies this`catalogueNames, this`keyValuePairs
      ensures State(ok) == Decoding(old(State(true)), content)
    {
      match Parse(content) {
        case None => return false;
        case Some(bs) =>
          ok := true;
          for i := 0 to |bs|
            invariant ok && AddElements(State(true), bs[i..]) == AddElements(old(State(true)), bs)
          {
            assert bs[i..][0] == bs[i] && bs[i..][1..] == bs[i + 1..];
            ok := DecodeElement(bs[i]);
            if !ok {
              return;
            }
          }
      }
    }

    method DecodeElement(b: Block) returns (ok: bool)
      modifies this`catalogueNames, this`keyValuePairs
      ensures State(ok) == AddElement(old(State(true)), b)
    {
      ok := true;
      if b.typ == MANIFEST_CATALOGUE {
        match Parse(b.value) {
          case None => ok := false;
          case Some(names) => ok := DecodeCatalogue(names);
        }
      } else if b.typ == KEY_VALUE_PAIR {
        var index := FirstEquals(b.value);
        if index != |b.value| && index != 0 && index != |b.value| - 1 {
          AddKeyValuePair(b.value[..index], b.value[index + 1..]);
        }
      }
    }

    method DecodeCatalogue(bs: seq<Block>) returns (ok: bool)
      modifies this`catalogueNames
      ensures State(ok) == AddNames(old(State(true)), bs)
    {
      ok := true;
      for i := 0 to |bs|
        invariant ok && AddNames(State(true), bs[i..]) == AddNames(old(State(true)), bs)
      {
        assert bs[i..][0] == bs[i] && bs[i..][1..] == bs[i + 1..];
        if bs[i].typ == NAME {
          match ReadName(bs[i]) {
            case None => return false;
            case Some(name) => AddNameToCatalogue(name);
          }
        }
      }
    }
  }

  /** These pairs, in order, are those of m whose keys are not in rest, which come before them. */
  ghost predicate IsTail(m: Pairs, rest: Pairs, ps: seq<Pair>) {
    && (forall k :: k in rest ==> k in m && rest[k] == m[k])
    && IsListing(m - rest.Keys, ps)
    && (forall p, k :: p in ps && k in rest ==> KeyLess(k, p.key))
  }

  lemma TailGrows(m: Pairs, rest: Pairs, ps: seq<Pair>, key: Bytes)
    requires IsTail(m, rest, ps) && key in rest && forall j :: j in rest && j != key ==> KeyLess(j, key)
    ensures IsTail(m, rest - {key}, [Pair(key, rest[key])] + ps)
  {
    var p, more := Pair(key, rest[key]), m - (rest - {key}).Keys;
    assert more == (m - rest.Keys)[key := rest[key]];
    var qs := [p] + ps;
    forall i, j | 0 <= i < j < |qs| ensures KeyLess(qs[i].key, qs[j].key) {
      assert qs[j] == ps[j - 1] && ps[j - 1] in ps;
    }
  }

  lemma PairsHead(p: Pair, ps: seq<Pair>)
    ensures Encodings(PairBlocks([p] + ps)) == Encoding(PairBlock(p)) + Encodings(PairBlocks(ps))
  {
    assert ([p] + ps)[1..] == ps;
    EncodingsHead(PairBlock(p), PairBlocks(ps));
  }

  lemma OneMore(names: seq<Name>, i: nat)
    ensures i < |names| ==> names[i..] == [names[i]] + names[i + 1..]
    ensures names[0..] == names
  {}

  lemma NamesHead(n: Name, names: seq<Name>)
    ensures NameBytes([n] + names) == Encoding(NameBlock(n)) + NameBytes(names)
  {
    assert ([n] + names)[1..] == names;
    EncodingsHead(NameBlock(n), NameBlocks(names));
  }

  /** An empty catalogue is not written. */
  function CatalogueBytes(names: seq<Name>): Bytes {
    if NameBytes(names) == [] then [] else Encoding(CatalogueBlock(names))
  }

  lemma ContentIs(names: seq<Name>, ps: seq<Pair>)
    ensures Content(names, ps) == CatalogueBytes(names) + Encodings(PairBlocks(ps))
  {
    if names != [] {
      EncodingsHead(CatalogueBlock(names), PairBlocks(ps));
    } else {
      assert ContentBlocks(names, ps) == PairBlocks(ps);
    }
  }

  /** A manifest filled, encoded, and decoded by its receiver: the catalogue arrives in order, and the map
      arrives exactly when all its pairs survive. */
  method Transfer(names: seq<Name>, pairs: Pairs) returns (names': seq<Name>, pairs': Pairs, ok: bool)
    requires AllFit(names, pairs)
    ensures ok && names' == names
    ensures pairs' == pairs <==> forall k :: k in pairs ==> Survives(Pair(k, pairs[k]))
  {
    var sent := new Manifest();
    sent.catalogueNames, sent.keyValuePairs := names, pairs;
    ghost var ps;
    var estimatedSize;
    estimatedSize, ps := sent.Encode();
    var received := new Manifest();
    received.content := sent.content;
    ok := received.Decode();
    names', pairs' := received.catalogueNames, received.keyValuePairs;
    RoundTripIff(names, pairs, ps);
  }
}
