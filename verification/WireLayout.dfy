/** Manifests and repo commands, byte by byte. */
module WireLayout {
  import opened Names
  import opened Options
  import opened Tlv
  import opened Manifests
  import opened RepoCommands

  // ----- elements -----

  /** Type, length, value; the types used here take one byte. */
  function Element(typ: byte, value: Bytes): Bytes {
    [typ] + VarNumber(|value|) + value
  }

  function Elements(name: Name): Bytes {
    if name == [] then []
    else VarNumber(name[0].typ) + VarNumber(|name[0].value|) + name[0].value + Elements(name[1..])
  }

  lemma {:induction false} NameValue(name: Name)
    ensures NameBlock(name).value == Elements(name)
  {
    if name != [] {
      NameValue(name[1..]);
      assert ComponentBlocks(name) == [ComponentBlock(name[0])] + ComponentBlocks(name[1..]);
      EncodingsHead(ComponentBlock(name[0]), ComponentBlocks(name[1..]));
    }
  }

  lemma NameLayout(name: Name)
    ensures Encoding(NameBlock(name)) == Element(7, Elements(name))
  {
    NameValue(name);
  }

  // ----- manifests -----

  function NameList(names: seq<Name>): Bytes {
    if names == [] then [] else Element(7, Elements(names[0])) + NameList(names[1..])
  }

  /** Key, equals sign, value. */
  function KeyValues(ps: seq<Pair>): Bytes {
    if ps == [] then [] else Element(129, ps[0].key + [61] + ps[0].value) + KeyValues(ps[1..])
  }

  lemma {:induction false} NamesLayout(names: seq<Name>)
    ensures NameBytes(names) == NameList(names)
  {
    if names != [] {
      NameLayout(names[0]);
      NamesLayout(names[1..]);
      NamesHead(names[0], names[1..]);
      assert names == [names[0]] + names[1..];
    }
  }

  lemma {:induction false} PairsLayout(ps: seq<Pair>)
    ensures Encodings(PairBlocks(ps)) == KeyValues(ps)
  {
    if ps != [] {
      PairsLayout(ps[1..]);
      PairsHead(ps[0], ps[1..]);
      assert ps == [ps[0]] + ps[1..];
    }
  }

  /** The content of a manifest: the catalogue of names, unless it is empty, then the pairs. */
  lemma ManifestLayout(names: seq<Name>, ps: seq<Pair>)
    ensures Content(names, ps) == (if names == [] then [] else Element(128, NameList(names))) + KeyValues(ps)
  {
    NamesLayout(names);
    PairsLayout(ps);
    ContentIs(names, ps);
    assert names != [] ==> |NameBytes(names)| > 0;
  }

  /** A catalogue of 300 bytes. */
  lemma LongCatalogue(names: seq<Name>, ps: seq<Pair>)
    requires |NameList(names)| == 300
    ensures |Content(names, ps)| >= 304 && Content(names, ps)[..4] == [128, 253, 1, 44]
  {
    ManifestLayout(names, ps);
    VarNumberBytes(300);
    assert Element(128, NameList(names))[..4] == [128, 253, 1, 44];
  }

  // ----- repo commands -----

  function Integer(typ: byte, n: Option<uint64>): Bytes {
    match n case None => [] case Some(x) => Element(typ, NonNegativeInteger(x))
  }

  /** A negative duration travels as its two's complement. */
  function Milliseconds(typ: byte, t: Option<int64>): Bytes {
    match t
    case None => []
    case Some(x) => Element(typ, NonNegativeInteger(if x >= 0 then x else 0x1_0000_0000_0000_0000 + x))
  }

  function Blocks(f: Fields): Bytes {
    Integer(204, f.startBlockId) + (Integer(205, f.endBlockId) + Integer(206, f.processId))
  }

  function Limits(f: Fields): Bytes {
    Milliseconds(12, f.interestLifetime) + (Milliseconds(212, f.watchTimeout) + Integer(211, f.maxInterestNum))
  }

  function NameAndSelectors(f: Fields): Bytes {
    (match f.name case None => [] case Some(n) => Element(7, Elements(n))) +
    (if f.selectors == [] then [] else Element(9, f.selectors))
  }

  function Parameters(f: Fields): Bytes {
    NameAndSelectors(f) + (Limits(f) + Blocks(f))
  }

  /** One field in front of the others. */
  lemma SlotLayout(slots: seq<Slot>, k: nat)
    requires k < |slots| && slots[k].typ < 253
    ensures SlotBytes(slots[k..]) ==
      (match slots[k].value case None => [] case Some(v) => Element(slots[k].typ as byte, v)) + SlotBytes(slots[k + 1..])
  {
    SlotsHead(slots[k], slots[k + 1..]);
    assert slots[k..] == [slots[k]] + slots[k + 1..];
  }

  lemma ThreeSlots(slots: seq<Slot>, k: nat, a: Bytes, b: Bytes, c: Bytes)
    requires k + 3 <= |slots|
    requires SlotBytes(slots[k..]) == a + SlotBytes(slots[k + 1..])
    requires SlotBytes(slots[k + 1..]) == b + SlotBytes(slots[k + 2..])
    requires SlotBytes(slots[k + 2..]) == c + SlotBytes(slots[k + 3..])
    ensures SlotBytes(slots[k..]) == a + (b + c) + SlotBytes(slots[k + 3..])
  {}

  lemma BlocksLayout(f: Fields)
    ensures SlotBytes(Slots(f)[5..]) == Blocks(f)
  {
    hide SlotBytes, Element, NonNegativeInteger;
    var slots := Slots(f);
    SlotLayout(slots, 5);
    SlotLayout(slots, 6);
    SlotLayout(slots, 7);
    NoSlots(slots[8..]);
    ThreeSlots(slots, 5, Integer(204, f.startBlockId), Integer(205, f.endBlockId), Integer(206, f.processId));
  }

  lemma NoSlots(slots: seq<Slot>)
    requires slots == []
    ensures SlotBytes(slots) == []
  {}

  lemma LimitsLayout(f: Fields)
    ensures SlotBytes(Slots(f)[2..]) == Limits(f) + Blocks(f)
  {
    hide SlotBytes, Element, NonNegativeInteger, Blocks;
    var slots := Slots(f);
    BlocksLayout(f);
    SlotLayout(slots, 2);
    SlotLayout(slots, 3);
    SlotLayout(slots, 4);
    ThreeSlots(slots, 2, Milliseconds(12, f.interestLifetime), Milliseconds(212, f.watchTimeout),
               Integer(211, f.maxInterestNum));
  }

  /** The fields that are set, each under its type number, in this order. */
  lemma CommandLayout(f: Fields)
    ensures Encoding(CommandBlock(f)) == Element(201, Parameters(f))
  {
    hide Encodings, Limits, Blocks, NonNegativeInteger;
    var slots := Slots(f);
    if f.name.Some? { NameValue(f.name.value); }
    LimitsLayout(f);
    SlotLayout(slots, 0);
    SlotLayout(slots, 1);
    assert slots[0..] == slots;
    assert SlotBytes(slots) == NameAndSelectors(f) + SlotBytes(slots[2..]);
  }

  // ----- two examples -----

  const A := Component(8, [65])

  /** /A as name, and numbers of all sizes. */
  function Sample(): Fields {
    Fields(Some([A]), [], Some(300), Some(70000), Some(0x1_0000_0002), Some(9), Some(-1), Some(4000))
  }

  lemma SampleNumbers()
    ensures NonNegativeInteger(300) == [1, 44] && NonNegativeInteger(70000) == [0, 1, 17, 112]
    ensures NonNegativeInteger(0x1_0000_0002) == [0, 0, 0, 1, 0, 0, 0, 2] && NonNegativeInteger(9) == [9]
    ensures NonNegativeInteger(0xFFFF_FFFF_FFFF_FFFF) == [255, 255, 255, 255, 255, 255, 255, 255]
    ensures NonNegativeInteger(4000) == [15, 160]
  {
    hide NonNegativeInteger;
    NonNegativeIntegerBytes(300);
    NonNegativeIntegerBytes(70000);
    NonNegativeIntegerBytes(0x1_0000_0002);
    NonNegativeIntegerBytes(9);
    NonNegativeIntegerBytes(0xFFFF_FFFF_FFFF_FFFF);
    NonNegativeIntegerBytes(4000);
  }

  lemma ShortElement(typ: byte, value: Bytes)
    requires |value| < 253
    ensures Element(typ, value) == [typ, |value| as byte] + value
  {}

  lemma OneElement()
    ensures Elements([A]) == [8, 1, 65]
  {
    assert [A][1..] == [];
  }

  lemma SampleNames()
    ensures NameAndSelectors(Sample()) == [7, 3, 8, 1, 65]
  {
    hide Element;
    OneElement();
    ShortElement(7, [8, 1, 65]);
  }

  lemma SampleLimits()
    ensures Limits(Sample()) == [12, 2, 15, 160] + ([212, 8, 255, 255, 255, 255, 255, 255, 255, 255] + [211, 1, 9])
  {
    hide NonNegativeInteger, Element;
    SampleNumbers();
    ShortElement(12, [15, 160]);
    ShortElement(212, [255, 255, 255, 255, 255, 255, 255, 255]);
    ShortElement(211, [9]);
  }

  lemma SampleBlocks()
    ensures Blocks(Sample()) == [204, 2, 1, 44] + ([205, 4, 0, 1, 17, 112] + [206, 8, 0, 0, 0, 1, 0, 0, 0, 2])
  {
    hide NonNegativeInteger, Element;
    SampleNumbers();
    ShortElement(204, [1, 44]);
    ShortElement(205, [0, 1, 17, 112]);
    ShortElement(206, [0, 0, 0, 1, 0, 0, 0, 2]);
  }

  /** What the objects write: a command. */
  method EncodedCommand() returns (wire: Bytes)
    ensures wire == [201, 42] + ([7, 3, 8, 1, 65] +
      (([12, 2, 15, 160] + ([212, 8, 255, 255, 255, 255, 255, 255, 255, 255] + [211, 1, 9])) +
       ([204, 2, 1, 44] + ([205, 4, 0, 1, 17, 112] + [206, 8, 0, 0, 0, 1, 0, 0, 0, 2]))))
  {
    hide Encoding, CommandBlock, NameAndSelectors, Limits, Blocks, Element, Slots;
    var command := Filled(Sample());
    var buffer := new Encoder(false);
    var _ := command.WireEncodeTo(buffer);
    wire := buffer.bytes;
    CommandLayout(Sample());
    SampleNames();
    SampleLimits();
    SampleBlocks();
    ShortElement(201, Parameters(Sample()));
    assert Encoding(CommandBlock(Sample())) + [] == Encoding(CommandBlock(Sample()));
  }

  /** And a manifest. */
  method EncodedManifest() returns (contentType: nat, content: Bytes)
    ensures contentType == 4
    ensures content == [128, 5, 7, 3, 8, 1, 65] + [129, 3, 107, 61, 118]
  {
    hide Content, Elements, NameList, KeyValues, Element;
    var manifest := new Manifest();
    manifest.AddNameToCatalogue([A]);
    manifest.AddKeyValuePair([107], [118]);
    ghost var ps;
    var size;
    size, ps := manifest.Encode();
    contentType, content := manifest.contentType, manifest.content;
    assert manifest.catalogueNames == [[A]] && manifest.keyValuePairs == map[[107] := [118]];
    OnePair(manifest.keyValuePairs, ps);
    ManifestLayout([[A]], ps);
    SampleCatalogue();
    ShortElement(128, [7, 3, 8, 1, 65]);
  }

  lemma SampleCatalogue()
    ensures NameList([[A]]) == [7, 3, 8, 1, 65]
    ensures KeyValues([Pair([107], [118])]) == [129, 3, 107, 61, 118]
  {
    OneElement();
    assert [[A]][1..] == [];
    assert [Pair([107], [118])][1..] == [];
  }

  lemma OnePair(m: Pairs, ps: seq<Pair>)
    requires m == map[[107] := [118]] && IsListing(m, ps)
    ensures ps == [Pair([107], [118])]
  {
    var k: Bytes := [107];
    assert k in m && Pair(k, m[k]) in ps;
    forall j | 0 <= j < |ps| ensures ps[j] == Pair([107], [118]) { assert ps[j] in ps; }
    KeyOrder(k, k, k);
    assert |ps| > 1 ==> KeyLess(ps[0].key, ps[1].key);
  }
}
