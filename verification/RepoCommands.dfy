/** Parameters of repo commands: seven optional fields and selectors, and their wire form. */
module RepoCommands {
  import opened Names
  import opened Options
  import opened Tlv

  const SELECTORS: nat := 9
  const INTEREST_LIFETIME: nat := 12
  const REPO_COMMAND_PARAMETER: nat := 201
  const START_BLOCK_ID: nat := 204
  const END_BLOCK_ID: nat := 205
  const PROCESS_ID: nat := 206
  const MAX_INTEREST_NUM: nat := 211
  const WATCH_TIMEOUT: nat := 212

  type int64 = x: int | -0x8000_0000_0000_0000 <= x < 0x8000_0000_0000_0000

  /** Durations are signed counts of milliseconds, but travel as unsigned numbers. */
  function ToUnsigned(x: int64): uint64 {
    if x < 0 then x + TWO_64 else x
  }

  function Counts(t: Option<int64>): Option<uint64> {
    match t case None => None case Some(x) => Some(ToUnsigned(x))
  }

  function FromUnsigned(x: uint64): int64 {
    if x >= 0x8000_0000_0000_0000 then x - TWO_64 else x
  }

  /** Selectors are given by the bytes of their elements, none when they are empty. */
  datatype Fields = Fields(
    name: Option<Name>, selectors: Bytes,
    startBlockId: Option<uint64>, endBlockId: Option<uint64>, processId: Option<uint64>,
    maxInterestNum: Option<uint64>, watchTimeout: Option<int64>, interestLifetime: Option<int64>)

  // ----- wire form -----

  /** A place for a field, in the order of the wire form. */
  datatype Slot = Slot(typ: nat, value: Option<Bytes>)

  function Number(typ: nat, n: Option<uint64>): Slot {
    Slot(typ, match n case None => None case Some(x) => Some(NonNegativeInteger(x)))
  }

  function Duration(typ: nat, t: Option<int64>): Slot {
    Number(typ, Counts(t))
  }

  function Slots(f: Fields): (r: seq<Slot>)
    ensures |r| == 8
  {
    [ Slot(NAME, match f.name case None => None case Some(n) => Some(NameBlock(n).value)),
      Slot(SELECTORS, if f.selectors == [] then None else Some(f.selectors)),
      Duration(INTEREST_LIFETIME, f.interestLifetime), Duration(WATCH_TIMEOUT, f.watchTimeout),
      Number(MAX_INTEREST_NUM, f.maxInterestNum), Number(START_BLOCK_ID, f.startBlockId),
      Number(END_BLOCK_ID, f.endBlockId), Number(PROCESS_ID, f.processId) ]
  }

  function Present(slots: seq<Slot>): seq<Block> {
    if slots == [] then []
    else match slots[0].value
         case None => Present(slots[1..])
         case Some(v) => [Block(slots[0].typ, v)] + Present(slots[1..])
  }

  function CommandBlock(f: Fields): Block {
    Block(REPO_COMMAND_PARAMETER, Encodings(Present(Slots(f))))
  }

  // ----- reading it -----

  /** The first element of a type. */
  function Find(bs: seq<Block>, typ: nat): (r: Option<Block>)
    ensures r.Some? ==> r.value in bs && r.value.typ == typ
    ensures r.None? ==> forall b :: b in bs ==> b.typ != typ
  {
    if bs == [] then None
    else if bs[0].typ == typ then Some(bs[0])
    else Find(bs[1..], typ)
  }

  /** The field's number, if it is there; None when it is there but malformed. */
  function ReadNumber(bs: seq<Block>, typ: nat): Option<Option<uint64>> {
    match Find(bs, typ)
    case None => Some(None)
    case Some(b) =>
      match ReadNonNegativeInteger(b.value)
      case None => None
      case Some(n) => Some(Some(n))
  }

  function ReadDuration(bs: seq<Block>, typ: nat): Option<Option<int64>> {
    match ReadNumber(bs, typ)
    case None => None
    case Some(None) => Some(None)
    case Some(Some(n)) => Some(Some(FromUnsigned(n)))
  }

  function ReadOptionalName(bs: seq<Block>): Option<Option<Name>> {
    match Find(bs, NAME)
    case None => Some(None)
    case Some(b) => match ReadName(b) case None => None case Some(n) => Some(Some(n))
  }

  function ReadSelectors(bs: seq<Block>): Bytes {
    match Find(bs, SELECTORS) case None => [] case Some(b) => b.value
  }

  function ReadFields(bs: seq<Block>): Option<Fields> {
    var name, start, end := ReadOptionalName(bs), ReadNumber(bs, START_BLOCK_ID), ReadNumber(bs, END_BLOCK_ID);
    var process, max := ReadNumber(bs, PROCESS_ID), ReadNumber(bs, MAX_INTEREST_NUM);
    var watch, lifetime := ReadDuration(bs, WATCH_TIMEOUT), ReadDuration(bs, INTEREST_LIFETIME);
    if name.Some? && start.Some? && end.Some? && process.Some? && max.Some? && watch.Some? && lifetime.Some? then
      Some(Fields(name.value, ReadSelectors(bs), start.value, end.value, process.value, max.value, watch.value, lifetime.value))
    else None
  }

  /** None where the code throws. */
  function ReadCommand(b: Block): Option<Fields> {
    match Parse(b.value)
    case None => None
    case Some(bs) => if b.typ != REPO_COMMAND_PARAMETER then None else ReadFields(bs)
  }

  // ----- round trip -----

  ghost predicate FieldsFit(f: Fields) {
    && (f.name.Some? ==> NameFits(f.name.value)) && |f.selectors| < TWO_64
    && Fits(CommandBlock(f))
  }

  ghost predicate DifferentTypes(slots: seq<Slot>) {
    forall i, j :: 0 <= i < j < |slots| ==> slots[i].typ != slots[j].typ
  }

  lemma {:induction false} PresentTypes(slots: seq<Slot>, b: Block)
    requires b in Present(slots)
    ensures exists k :: 0 <= k < |slots| && slots[k].typ == b.typ && slots[k].value == Some(b.value)
  {
    if slots[0].value == Some(b.value) && slots[0].typ == b.typ {
    } else {
      PresentTypes(slots[1..], b);
      var k :| 0 <= k < |slots| - 1 && slots[1..][k].typ == b.typ && slots[1..][k].value == Some(b.value);
      assert slots[k + 1] == slots[1..][k];
    }
  }

  /** Each field is found in its own place. */
  lemma {:induction false} FindsSlot(slots: seq<Slot>, k: nat)
    requires DifferentTypes(slots) && k < |slots|
    ensures Find(Present(slots), slots[k].typ) ==
      match slots[k].value case None => None case Some(v) => Some(Block(slots[k].typ, v))
  {
    assert forall i :: 0 <= i < |slots| - 1 ==> slots[1..][i] == slots[i + 1];
    if k > 0 {
      FindsSlot(slots[1..], k - 1);
      if slots[0].value.Some? {
        assert Present(slots)[1..] == Present(slots[1..]);
      }
    } else {
      var found := Find(Present(slots[1..]), slots[0].typ);
      if found.Some? {
        PresentTypes(slots[1..], found.value);
      }
    }
  }

  lemma ReadsNumber(slots: seq<Slot>, k: nat, n: Option<uint64>)
    requires DifferentTypes(slots) && k < |slots| && slots[k] == Number(slots[k].typ, n)
    ensures ReadNumber(Present(slots), slots[k].typ) == Some(n)
  {
    FindsSlot(slots, k);
    if n.Some? { ReadsNonNegativeInteger(n.value); }
  }

  lemma ReadsDuration(slots: seq<Slot>, k: nat, t: Option<int64>)
    requires DifferentTypes(slots) && k < |slots| && slots[k] == Duration(slots[k].typ, t)
    ensures ReadDuration(Present(slots), slots[k].typ) == Some(t)
  {
    hide ReadNumber, DifferentTypes, Present;
    ReadsNumber(slots, k, Counts(t));
  }

  lemma ReadsNameField(f: Fields)
    requires f.name.Some? ==> NameFits(f.name.value)
    ensures DifferentTypes(Slots(f))
    ensures ReadOptionalName(Present(Slots(f))) == Some(f.name) && ReadSelectors(Present(Slots(f))) == f.selectors
  {
    FindsSlot(Slots(f), 0);
    FindsSlot(Slots(f), 1);
    if f.name.Some? { ReadsName(f.name.value); }
  }

  lemma ReadsFields(f: Fields)
    requires f.name.Some? ==> NameFits(f.name.value)
    ensures ReadFields(Present(Slots(f))) == Some(f)
  {
    var slots := Slots(f);
    ReadsNameField(f);
    ReadsDuration(slots, 2, f.interestLifetime);
    ReadsDuration(slots, 3, f.watchTimeout);
    ReadsNumber(slots, 4, f.maxInterestNum);
    ReadsNumber(slots, 5, f.startBlockId);
    ReadsNumber(slots, 6, f.endBlockId);
    ReadsNumber(slots, 7, f.processId);
  }

  lemma SlotsFit(f: Fields)
    requires FieldsFit(f)
    ensures forall b :: b in Present(Slots(f)) ==> Fits(b)
  {
    forall b | b in Present(Slots(f)) ensures Fits(b) {
      PresentTypes(Slots(f), b);
    }
  }

  /** Every combination of fields comes back from its wire form. */
  lemma CommandRoundTrip(f: Fields)
    requires FieldsFit(f)
    ensures ReadCommand(CommandBlock(f)) == Some(f)
  {
    SlotsFit(f);
    ParsesEncodings(Present(Slots(f)));
    ReadsFields(f);
  }

  // ----- writing it -----

  /** The wire bytes of some slots. */
  function SlotBytes(slots: seq<Slot>): Bytes {
    Encodings(Present(slots))
  }

  lemma SlotsHead(slot: Slot, rest: seq<Slot>)
    ensures SlotBytes([slot] + rest) ==
      (match slot.value case None => [] case Some(v) => Encoding(Block(slot.typ, v))) + SlotBytes(rest)
  {
    assert ([slot] + rest)[1..] == rest;
    match slot.value {
      case None => assert SlotBytes([slot] + rest) == SlotBytes(rest);
      case Some(v) => EncodingsHead(Block(slot.typ, v), Present(rest));
    }
  }

  /** One field in front of the others; nothing when it is absent. */
  method WriteSlot(encoder: Encoder, typ: nat, value: Option<Bytes>, length: nat, ghost rest: seq<Slot>, ghost before: Bytes)
    returns (totalLength: nat)
    requires length == |SlotBytes(rest)| && Wrote(encoder.isEstimator, before, encoder.bytes, SlotBytes(rest))
    modifies encoder
    ensures totalLength == |SlotBytes([Slot(typ, value)] + rest)|
    ensures Wrote(encoder.isEstimator, before, encoder.bytes, SlotBytes([Slot(typ, value)] + rest))
  {
    SlotsHead(Slot(typ, value), rest);
    totalLength := length;
    match value {
      case None =>
      case Some(v) =>
        ghost var middle := encoder.bytes;
        var size := encoder.PrependBlock(Block(typ, v));
        totalLength := totalLength + size;
        WroteBoth(encoder.isEstimator, before, middle, encoder.bytes, SlotBytes(rest), Encoding(Block(typ, v)));
    }
  }

  method WriteNumber(encoder: Encoder, typ: nat, n: Option<uint64>, length: nat, ghost rest: seq<Slot>, ghost before: Bytes)
    returns (totalLength: nat)
    requires length == |SlotBytes(rest)| && Wrote(encoder.isEstimator, before, encoder.bytes, SlotBytes(rest))
    modifies encoder
    ensures totalLength == |SlotBytes([Number(typ, n)] + rest)|
    ensures Wrote(encoder.isEstimator, before, encoder.bytes, SlotBytes([Number(typ, n)] + rest))
  {
    SlotsHead(Number(typ, n), rest);
    totalLength := length;
    match n {
      case None =>
      case Some(x) =>
        ghost var middle := encoder.bytes;
        var size := PrependNumber(encoder, typ, x);
        totalLength := totalLength + size;
        WroteBoth(encoder.isEstimator, before, middle, encoder.bytes, SlotBytes(rest), Encoding(NumberBlock(typ, x)));
    }
  }

  function NumberBlock(typ: nat, x: uint64): Block {
    Block(typ, NonNegativeInteger(x))
  }

  /** The number, then its size and its type, each in front of the last. */
  method PrependNumber(encoder: Encoder, typ: nat, x: uint64) returns (size: nat)
    modifies encoder
    ensures size == |Encoding(NumberBlock(typ, x))|
    ensures Wrote(encoder.isEstimator, old(encoder.bytes), encoder.bytes, Encoding(NumberBlock(typ, x)))
  {
    var variableLength := encoder.PrependNonNegativeInteger(x);
    ghost var middle := encoder.bytes;
    size := encoder.PrependHead(typ, variableLength);
    size := size + variableLength;
    WroteBoth(encoder.isEstimator, old(encoder.bytes), middle, encoder.bytes,
              NonNegativeInteger(x), VarNumber(typ) + VarNumber(variableLength));
  }

  // ----- the object -----

  class RepoCommandParameter {
    var name: Option<Name>
    var selectors: Bytes
    var startBlockId: Option<uint64>
    var endBlockId: Option<uint64>
    var processId: Option<uint64>
    var maxInterestNum: Option<uint64>
    var watchTimeout: Option<int64>
    var interestLifetime: Option<int64>
    var wire: Option<Block>       // remembered by encoding and decoding, forgotten by setters

    ghost function Value(): Fields
      reads this
    {
      Fields(name, selectors, startBlockId, endBlockId, processId, maxInterestNum, watchTimeout, interestLifetime)
    }

    /** A remembered wire form is one of the current fields. */
    ghost predicate Valid()
      reads this
    {
      wire.Some? ==> ReadCommand(wire.value) == Some(Value())
    }

    constructor ()
      ensures Valid() && Value() == Fields(None, [], None, None, None, None, None, None)
    {
      name, selectors, startBlockId, endBlockId, processId := None, [], None, None, None;
      maxInterestNum, watchTimeout, interestLifetime, wire := None, None, None, None;
    }

    method SetName(n: Name)
      modifies this
      ensures Valid() && Value() == old(Value()).(name := Some(n))
    {
      name, wire := Some(n), None;
    }

    method SetSelectors(s: Bytes)
      modifies this
      ensures Valid() && Value() == old(Value()).(selectors := s)
    {
      selectors, wire := s, None;
    }

    method SetStartBlockId(n: uint64)
      modifies this
      ensures Valid() && Value() == old(Value()).(startBlockId := Some(n))
    {
      startBlockId, wire := Some(n), None;
    }

    method SetEndBlockId(n: uint64)
      modifies this
      ensures Valid() && Value() == old(Value()).(endBlockId := Some(n))
    {
      endBlockId, wire := Some(n), None;
    }

    method SetProcessId(n: uint64)
      modifies this
      ensures Valid() && Value() == old(Value()).(processId := Some(n))
    {
      processId, wire := Some(n), None;
    }

    method SetMaxInterestNum(n: uint64)
      modifies this
      ensures Valid() && Value() == old(Value()).(maxInterestNum := Some(n))
    {
      maxInterestNum, wire := Some(n), None;
    }

    method SetWatchTimeout(t: int64)
      modifies this
      ensures Valid() && Value() == old(Value()).(watchTimeout := Some(t))
    {
      watchTimeout, wire := Some(t), None;
    }

    method SetInterestLifetime(t: int64)
      modifies this
      ensures Valid() && Value() == old(Value()).(interestLifetime := Some(t))
    {
      interestLifetime, wire := Some(t), None;
    }

    /** Field by field, from the last to the first, then the head. */
    method WireEncodeTo(encoder: Encoder) returns (totalLength: nat)
      modifies encoder
      ensures totalLength == |Encoding(CommandBlock(Value()))|
      ensures Wrote(encoder.isEstimator, old(encoder.bytes), encoder.bytes, Encoding(CommandBlock(Value())))
    {
      totalLength := WriteFields(encoder);
      ghost var middle, fields := encoder.bytes, SlotBytes(Slots(Value()));
      var size := encoder.PrependHead(REPO_COMMAND_PARAMETER, totalLength);
      totalLength := totalLength + size;
      WroteBoth(encoder.isEstimator, old(encoder.bytes), middle, encoder.bytes,
                fields, VarNumber(REPO_COMMAND_PARAMETER) + VarNumber(|fields|));
    }

    method WriteFields(encoder: Encoder) returns (length: nat)
      modifies encoder
      ensures length == |SlotBytes(Slots(Value()))|
      ensures Wrote(encoder.isEstimator, old(encoder.bytes), encoder.bytes, SlotBytes(Slots(Value())))
    {
      hide SlotBytes, Wrote;
      ghost var s, before := Slots(Value()), encoder.bytes;
      length := WriteIds(encoder);
      length := WriteLimits(encoder, length, s[5..], before);
      var elements := if selectors == [] then None else Some(selectors);
      length := WriteSlot(encoder, SELECTORS, elements, length, s[2..], before);
      assert [Slot(SELECTORS, elements)] + s[2..] == s[1..];
      var components := match name case None => None case Some(n) => Some(NameBlock(n).value);
      length := WriteSlot(encoder, NAME, components, length, s[1..], before);
      assert [Slot(NAME, components)] + s[1..] == s;
    }

    method WriteIds(encoder: Encoder) returns (length: nat)
      modifies encoder
      ensures length == |SlotBytes(Slots(Value())[5..])|
      ensures Wrote(encoder.isEstimator, old(encoder.bytes), encoder.bytes, SlotBytes(Slots(Value())[5..]))
    {
      ghost var s, before := Slots(Value()), encoder.bytes;
      length := WriteNumber(encoder, PROCESS_ID, processId, 0, [], before);
      assert [Number(PROCESS_ID, processId)] + [] == s[7..];
      length := WriteNumber(encoder, END_BLOCK_ID, endBlockId, length, s[7..], before);
      assert [Number(END_BLOCK_ID, endBlockId)] + s[7..] == s[6..];
      length := WriteNumber(encoder, START_BLOCK_ID, startBlockId, length, s[6..], before);
      assert [Number(START_BLOCK_ID, startBlockId)] + s[6..] == s[5..];
    }

    method WriteLimits(encoder: Encoder, length0: nat, ghost rest: seq<Slot>, ghost before: Bytes) returns (length: nat)
      requires length0 == |SlotBytes(rest)| && Wrote(encoder.isEstimator, before, encoder.bytes, SlotBytes(rest))
      requires rest == Slots(Value())[5..]
      modifies encoder
      ensures length == |SlotBytes(Slots(Value())[2..])|
      ensures Wrote(encoder.isEstimator, before, encoder.bytes, SlotBytes(Slots(Value())[2..]))
    {
      ghost var s := Slots(Value());
      length := WriteNumber(encoder, MAX_INTEREST_NUM, maxInterestNum, length0, rest, before);
      assert [Number(MAX_INTEREST_NUM, maxInterestNum)] + rest == s[4..];
      length := WriteNumber(encoder, WATCH_TIMEOUT, Counts(watchTimeout), length, s[4..], before);
      assert [Duration(WATCH_TIMEOUT, watchTimeout)] + s[4..] == s[3..];
      length := WriteNumber(encoder, INTEREST_LIFETIME, Counts(interestLifetime), length, s[3..], before);
      assert [Duration(INTEREST_LIFETIME, interestLifetime)] + s[3..] == s[2..];
    }

    /** The remembered wire form, or a new one.  It reads back as the current fields, except when it is
        remembered from a block whose decoding failed.  The buffer is exactly as large as estimated. */
    method WireEncode() returns (b: Block)
      requires wire.None? ==> FieldsFit(Value())
      modifies this`wire
      ensures wire == Some(b) && Value() == old(Value())
      ensures ReadCommand(b) == Some(Value()) <==> old(Valid())
      ensures old(wire).Some? ==> Some(b) == old(wire)
      ensures old(wire).None? ==> b == CommandBlock(Value())
    {
      if wire.Some? {
        return wire.value;
      }
      var estimator := new Encoder(true);
      var estimatedSize := WireEncodeTo(estimator);
      var buffer := new Encoder(false);
      var size := WireEncodeTo(buffer);
      assert estimatedSize == size == |buffer.bytes|;
      CommandRoundTrip(Value());
      ReadsBlock(CommandBlock(Value()), []);
      assert buffer.bytes + [] == buffer.bytes;
      b := ReadBlock(buffer.bytes).value.0;
      wire := Some(b);
    }

    /** Takes over whatever the block holds; ok is false where the code throws. */
    method WireDecode(b: Block) returns (ok: bool)
      modifies this
      ensures wire == Some(b) && (ok <==> ReadCommand(b).Some?)
      ensures ok ==> Valid() && Some(Value()) == ReadCommand(b)
    {
      name, startBlockId, endBlockId, processId := None, None, None, None;
      maxInterestNum, watchTimeout, interestLifetime := None, None, None;
      wire := Some(b);
      match Parse(b.value) {
        case None => return false;
        case Some(bs) =>
          if b.typ != REPO_COMMAND_PARAMETER {
            return false;
          }
          ok := DecodeElements(bs);
      }
    }

    /** Field by field, until the first that is malformed. */
    method DecodeElements(bs: seq<Block>) returns (ok: bool)
      requires Value() == Fields(None, selectors, None, None, None, None, None, None)
      modifies this
      ensures wire == old(wire) && (ok <==> ReadFields(bs).Some?)
      ensures ok ==> Some(Value()) == ReadFields(bs)
    {
      hide ReadName, ReadNumber, ReadDuration;
      ok := false;
      match Find(bs, NAME) {
        case None =>
        case Some(val) =>
          match ReadName(val) {
            case None => return;
            case Some(n) => name := Some(n);
          }
      }
      match Find(bs, SELECTORS) {
        case None => selectors := [];
        case Some(val) => selectors := val.value;
      }
      var start := ReadNumber(bs, START_BLOCK_ID);
      if start.None? { return; }
      startBlockId := start.value;
      var end := ReadNumber(bs, END_BLOCK_ID);
      if end.None? { return; }
      endBlockId := end.value;
      var process := ReadNumber(bs, PROCESS_ID);
      if process.None? { return; }
      processId := process.value;
      var max := ReadNumber(bs, MAX_INTEREST_NUM);
      if max.None? { return; }
      maxInterestNum := max.value;
      var watch := ReadDuration(bs, WATCH_TIMEOUT);
      if watch.None? { return; }
      watchTimeout := watch.value;
      var lifetime := ReadDuration(bs, INTEREST_LIFETIME);
      if lifetime.None? { return; }
      interestLifetime := lifetime.value;
      ok := true;
    }
  }

  /** A new object with these fields set. */
  method Filled(f: Fields) returns (p: RepoCommandParameter)
    ensures fresh(p) && p.Valid() && p.Value() == f
  {
    p := new RepoCommandParameter();
    p.SetSelectors(f.selectors);
    if f.name.Some? { p.SetName(f.name.value); }
    if f.startBlockId.Some? { p.SetStartBlockId(f.startBlockId.value); }
    if f.endBlockId.Some? { p.SetEndBlockId(f.endBlockId.value); }
    assert p.Value() == Fields(f.name, f.selectors, f.startBlockId, f.endBlockId, None, None, None, None);
    if f.processId.Some? { p.SetProcessId(f.processId.value); }
    if f.maxInterestNum.Some? { p.SetMaxInterestNum(f.maxInterestNum.value); }
    if f.watchTimeout.Some? { p.SetWatchTimeout(f.watchTimeout.value); }
    if f.interestLifetime.Some? { p.SetInterestLifetime(f.interestLifetime.value); }
  }

  /** Fields set on one object, encoded, and decoded into another one. */
  method Transfer(f: Fields) returns (g: Option<Fields>)
    requires FieldsFit(f)
    ensures g == Some(f)
  {
    var sent := Filled(f);
    var b := sent.WireEncode();
    var received := new RepoCommandParameter();
    var ok := received.WireDecode(b);
    g := if !ok then None else Some(Fields(
      received.name, received.selectors, received.startBlockId, received.endBlockId, received.processId,
      received.maxInterestNum, received.watchTimeout, received.interestLifetime));
  }
}
