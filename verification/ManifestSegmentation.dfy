/** Segmentation with inlined manifests: groups of data packets, each catalogued by the manifest numbered right
    below the group.  A manifest's size grows with its catalogue; when it would get too large, a new group begins. */
module ManifestSegmentation {
  import opened Names
  import opened Options
  import opened RdrModel
  import opened RdrPlain
  import opened Segmentation

  const DEFAULT_KEY_LOCATOR_SIZE: nat := 256

  datatype Output =
    | DataOut(number: nat, finalBlockId: nat, content: seq<byte>, keyLocator: nat)
    | ManifestOut(number: nat, finalBlockId: nat, catalogue: seq<CatalogueEntry>)

  /** The encoded sizes the producer looks at, by segment number, and the implicit digest of a signed packet. */
  datatype Wire = Wire(nameSize: nat -> nat, entrySize: nat -> nat, signatureSize: nat, packetSize: nat,
                       digestOf: Output -> Digest)

  // ----- the layout of a publication -----

  function Sum(groups: seq<nat>): nat {
    if groups == [] then 0 else Sum(groups[..|groups| - 1]) + groups[|groups| - 1]
  }

  /** The k-th data packet of n, in group g (from 0): its number, final block number and manifest follow. */
  function DataPacket(chunks: seq<seq<byte>>, g: nat, first: nat, k: nat): Output
    requires first <= k < |chunks|
  {
    DataOut(k + g + 1, |chunks| + g, chunks[k], first + g)
  }

  /** The first count data packets of group g, which begins with data packet first. */
  function GroupData(chunks: seq<seq<byte>>, g: nat, first: nat, count: nat): (r: seq<Output>)
    requires first + count <= |chunks|
    ensures |r| == count
  {
    seq(count, j requires 0 <= j < count => DataPacket(chunks, g, first, first + j))
  }

  function GroupCatalogue(wire: Wire, chunks: seq<seq<byte>>, g: nat, first: nat, count: nat): (r: seq<CatalogueEntry>)
    requires first + count <= |chunks|
    ensures |r| == count
  {
    seq(count, j requires 0 <= j < count =>
      CatalogueEntry(first + j + g + 1, wire.digestOf(DataPacket(chunks, g, first, first + j))))
  }

  function Manifest(wire: Wire, chunks: seq<seq<byte>>, g: nat, first: nat, count: nat): Output
    requires first + count <= |chunks|
  {
    ManifestOut(first + g, |chunks| + g, GroupCatalogue(wire, chunks, g, first, count))
  }

  /** Everything published for the given group sizes, in the order it leaves the producer. */
  function Layout(wire: Wire, chunks: seq<seq<byte>>, groups: seq<nat>): seq<Output>
    requires Sum(groups) <= |chunks|
  {
    if groups == [] then []
    else
      var g, before := |groups| - 1, groups[..|groups| - 1];
      var first, count := Sum(before), groups[|groups| - 1];
      Layout(wire, chunks, before) + GroupData(chunks, g, first, count) + [Manifest(wire, chunks, g, first, count)]
  }

  ghost predicate IsGrouping(groups: seq<nat>, n: nat) {
    Sum(groups) == n && forall k :: 0 <= k < |groups| ==> groups[k] > 0
  }

  // ----- where groups end -----

  function CatalogueSizes(wire: Wire, catalogue: seq<CatalogueEntry>): nat {
    if catalogue == [] then 0
    else CatalogueSizes(wire, catalogue[..|catalogue| - 1]) + wire.entrySize(catalogue[|catalogue| - 1].segment)
  }

  /** The sizes of the first count entries after a manifest. */
  function EntrySizes(wire: Wire, manifest: nat, count: nat): nat {
    if count == 0 then 0 else EntrySizes(wire, manifest, count - 1) + wire.entrySize(manifest + count)
  }

  function EstimatedSize(wire: Wire, manifest: nat, count: nat): nat {
    wire.nameSize(manifest) + EntrySizes(wire, manifest, count) + DEFAULT_KEY_LOCATOR_SIZE
  }

  lemma {:induction false} SizesOfCatalogue(wire: Wire, chunks: seq<seq<byte>>, g: nat, first: nat, count: nat)
    requires first + count <= |chunks|
    ensures CatalogueSizes(wire, GroupCatalogue(wire, chunks, g, first, count)) == EntrySizes(wire, first + g, count)
  {
    if count > 0 {
      SizesOfCatalogue(wire, chunks, g, first, count - 1);
      var catalogue := GroupCatalogue(wire, chunks, g, first, count);
      assert catalogue[..count - 1] == GroupCatalogue(wire, chunks, g, first, count - 1);
    }
  }

  /** After the count-th packet of a group: its manifest, which does not list that packet yet, has no room for two
      more full names. */
  predicate EndsGroup(wire: Wire, manifest: nat, count: nat)
    requires 1 <= count
  {
    EstimatedSize(wire, manifest, count - 1) + 2 * (wire.nameSize(manifest + count) + wire.signatureSize) > wire.packetSize
  }

  /** A group ends with the first packet that leaves no such room. */
  ghost predicate RoomUntil(wire: Wire, manifest: nat, count: nat) {
    forall j :: 1 <= j < count ==> !EndsGroup(wire, manifest, j)
  }

  ghost predicate AllEnd(wire: Wire, groups: seq<nat>)
    requires IsGrouping(groups, Sum(groups))
    decreases |groups|
  {
    groups == [] ||
    (var g, before := |groups| - 1, groups[..|groups| - 1];
     && AllEnd(wire, before)
     && RoomUntil(wire, Sum(before) + g, groups[g]) && EndsGroup(wire, Sum(before) + g, groups[g]))
  }

  /** Every group but the last ends where its manifest runs out of room; the last one ends with the content. */
  ghost predicate CutWhereFull(wire: Wire, groups: seq<nat>)
    requires IsGrouping(groups, Sum(groups))
  {
    groups != [] ==>
      var g, before := |groups| - 1, groups[..|groups| - 1];
      AllEnd(wire, before) && RoomUntil(wire, Sum(before) + g, groups[g])
  }

  /** So a manifest that lists at least two packets is estimated to fit, when its last two entries are no larger
      than the full name they were estimated by. */
  lemma ManifestFits(wire: Wire, manifest: nat, count: nat)
    requires 2 <= count && RoomUntil(wire, manifest, count)
    requires forall n :: manifest + count - 1 <= n <= manifest + count ==>
      wire.entrySize(n) <= wire.nameSize(manifest + count - 1) + wire.signatureSize
    ensures EstimatedSize(wire, manifest, count) <= wire.packetSize
  {
    assert !EndsGroup(wire, manifest, count - 1);
    assert EntrySizes(wire, manifest, count) ==
      EntrySizes(wire, manifest, count - 2) + wire.entrySize(manifest + count - 1) + wire.entrySize(manifest + count);
  }

  // ----- the producer's loop -----

  method EstimateManifestSize(wire: Wire, manifest: Output) returns (size: nat)
    requires manifest.ManifestOut?
    ensures size == wire.nameSize(manifest.number) + CatalogueSizes(wire, manifest.catalogue) + DEFAULT_KEY_LOCATOR_SIZE
  {
    size := wire.nameSize(manifest.number);
    for k := 0 to |manifest.catalogue|
      invariant size == wire.nameSize(manifest.number) + CatalogueSizes(wire, manifest.catalogue[..k])
    {
      assert manifest.catalogue[..k + 1][..k] == manifest.catalogue[..k];
      size := size + wire.entrySize(manifest.catalogue[k].segment);
    }
    assert manifest.catalogue[..|manifest.catalogue|] == manifest.catalogue;
    size := size + DEFAULT_KEY_LOCATOR_SIZE;
  }

  /** The closed groups, all of them out. */
  ghost predicate Closed(wire: Wire, chunks: seq<seq<byte>>, closed: seq<Output>, groups: seq<nat>, first: nat) {
    && IsGrouping(groups, first) && first <= |chunks| && AllEnd(wire, groups) && closed == Layout(wire, chunks, groups)
  }

  /** The group being filled: its data packets are out after those of the closed groups, its manifest is not. */
  ghost predicate Follows(chunks: seq<seq<byte>>, closed: seq<Output>, out: seq<Output>, g: nat, first: nat, count: nat)
    requires first + count <= |chunks|
  {
    |out| == |closed| + count && out[..|closed|] == closed && out[|closed|..] == GroupData(chunks, g, first, count)
  }

  lemma CloseGroup(wire: Wire, chunks: seq<seq<byte>>, closed: seq<Output>, out: seq<Output>, groups: seq<nat>, first: nat, count: nat)
    requires first + count <= |chunks| && count > 0
    requires Closed(wire, chunks, closed, groups, first) && Follows(chunks, closed, out, |groups|, first, count)
    requires RoomUntil(wire, first + |groups|, count) && EndsGroup(wire, first + |groups|, count)
    ensures Closed(wire, chunks, out + [Manifest(wire, chunks, |groups|, first, count)], groups + [count], first + count)
  {
    assert (groups + [count])[..|groups|] == groups;
    assert out == closed + GroupData(chunks, |groups|, first, count);
  }

  lemma CloseLastGroup(wire: Wire, chunks: seq<seq<byte>>, closed: seq<Output>, out: seq<Output>, groups: seq<nat>, first: nat, count: nat)
    requires first + count == |chunks| && count > 0
    requires Closed(wire, chunks, closed, groups, first) && Follows(chunks, closed, out, |groups|, first, count)
    requires RoomUntil(wire, first + |groups|, count)
    ensures var groups' := groups + [count];
      && IsGrouping(groups', |chunks|) && CutWhereFull(wire, groups')
      && out + [Manifest(wire, chunks, |groups|, first, count)] == Layout(wire, chunks, groups')
  {
    assert (groups + [count])[..|groups|] == groups;
    assert out == closed + GroupData(chunks, |groups|, first, count);
  }

  lemma DataNext(chunks: seq<seq<byte>>, g: nat, first: nat, count: nat)
    requires first + count < |chunks|
    ensures GroupData(chunks, g, first, count + 1) ==
      GroupData(chunks, g, first, count) + [DataPacket(chunks, g, first, first + count)]
  {}

  lemma CatalogueNext(wire: Wire, chunks: seq<seq<byte>>, g: nat, first: nat, count: nat)
    requires first + count < |chunks|
    ensures GroupCatalogue(wire, chunks, g, first, count + 1) == GroupCatalogue(wire, chunks, g, first, count) +
      [CatalogueEntry(first + count + g + 1, wire.digestOf(DataPacket(chunks, g, first, first + count)))]
  {}

  lemma NothingFollows(chunks: seq<seq<byte>>, out: seq<Output>, g: nat, first: nat)
    requires first <= |chunks|
    ensures Follows(chunks, out, out, g, first, 0)
  {}

  lemma OutGrows(chunks: seq<seq<byte>>, closed: seq<Output>, out: seq<Output>, g: nat, first: nat, count: nat, d: Output)
    requires first + count < |chunks| && Follows(chunks, closed, out, g, first, count)
    requires d == DataPacket(chunks, g, first, first + count)
    ensures Follows(chunks, closed, out + [d], g, first, count + 1)
  {
    DataNext(chunks, g, first, count);
  }

  /** Whether the manifest would get too large for two more full names. */
  method IsManifestFull(wire: Wire, manifest: Output, number: nat) returns (full: bool)
    requires manifest.ManifestOut?
    ensures full == (wire.nameSize(manifest.number) + CatalogueSizes(wire, manifest.catalogue) + DEFAULT_KEY_LOCATOR_SIZE
                     + 2 * (wire.nameSize(number) + wire.signatureSize) > wire.packetSize)
  {
    var manifestSize := EstimateManifestSize(wire, manifest);
    var fullNameSize := wire.nameSize(number) + wire.signatureSize;
    full := manifestSize + 2 * fullNameSize > wire.packetSize;
  }

  /** The next data packet goes out and is listed in the manifest, which may be full then. */
  method PackageSegment(wire: Wire, content: seq<byte>, numberOfSegments: nat, manifest: Output,
                        currentSegment: nat, packagedSegments: nat, out: seq<Output>,
                        ghost chunks: seq<seq<byte>>, ghost closed: seq<Output>, ghost g: nat, ghost first: nat, ghost count: nat)
    returns (out': seq<Output>, manifest': Output, full: bool)
    requires packagedSegments == first + count < |chunks| == numberOfSegments && currentSegment == packagedSegments + g + 1
    requires content == chunks[packagedSegments]
    requires manifest == Manifest(wire, chunks, g, first, count) && Follows(chunks, closed, out, g, first, count)
    requires RoomUntil(wire, first + g, count) && (count > 0 ==> !EndsGroup(wire, first + g, count))
    ensures RoomUntil(wire, first + g, count + 1) && full == EndsGroup(wire, first + g, count + 1)
    ensures Follows(chunks, closed, out', g, first, count + 1)
    ensures manifest' == Manifest(wire, chunks, g, first, count + 1)
  {
    var dataSegment :=
      DataOut(currentSegment, currentSegment + numberOfSegments - packagedSegments - 1, content, manifest.number);
    out' := out + [dataSegment];
    OutGrows(chunks, closed, out, g, first, count, dataSegment);
    full := IsManifestFull(wire, manifest, currentSegment);
    SizesOfCatalogue(wire, chunks, g, first, count);
    CatalogueNext(wire, chunks, g, first, count);
    manifest' := manifest.(catalogue := manifest.catalogue + [CatalogueEntry(currentSegment, wire.digestOf(dataSegment))]);
  }

  /** The previous manifest goes out, if there is one, and a new one begins. */
  method OpenManifest(wire: Wire, numberOfSegments: nat, manifest: Option<Output>,
                      currentSegment: nat, packagedSegments: nat, out0: seq<Output>, ghost chunks: seq<seq<byte>>,
                      ghost closed0: seq<Output>, ghost groups0: seq<nat>, ghost first: nat, ghost count0: nat)
    returns (newest: Output, out: seq<Output>, ghost groups: seq<nat>)
    requires packagedSegments == first + count0 < |chunks| == numberOfSegments
    requires Closed(wire, chunks, closed0, groups0, first) && Follows(chunks, closed0, out0, |groups0|, first, count0)
    requires RoomUntil(wire, first + |groups0|, count0)
    requires manifest.None? ==> groups0 == [] && count0 == 0 && currentSegment == 0
    requires manifest.Some? ==>
      && count0 > 0 && manifest.value == Manifest(wire, chunks, |groups0|, first, count0)
      && currentSegment == packagedSegments + |groups0| + 1 && EndsGroup(wire, first + |groups0|, count0)
    ensures Closed(wire, chunks, out, groups, packagedSegments) && currentSegment == packagedSegments + |groups|
    ensures newest == Manifest(wire, chunks, |groups|, packagedSegments, 0)
    ensures Follows(chunks, out, out, |groups|, packagedSegments, 0) && RoomUntil(wire, packagedSegments + |groups|, 0)
  {
    out, groups := out0, groups0;
    if manifest.Some? {
      CloseGroup(wire, chunks, closed0, out, groups, first, count0);
      out := out + [manifest.value];
      groups := groups + [count0];
    }
    NothingFollows(chunks, out, |groups|, packagedSegments);
    newest := ManifestOut(currentSegment, currentSegment + numberOfSegments - packagedSegments, []);
  }

  // ----- what the layout means -----

  function Numbered(out: seq<Output>, x: nat): nat {
    if out == [] then 0
    else Numbered(out[..|out| - 1], x) + if out[|out| - 1].number == x then 1 else 0
  }

  lemma {:induction false} NumberedSplit(a: seq<Output>, b: seq<Output>, x: nat)
    ensures Numbered(a + b, x) == Numbered(a, x) + Numbered(b, x)
  {
    if b == [] {
      assert a + b == a;
    } else {
      NumberedSplit(a, b[..|b| - 1], x);
      assert (a + b)[..|a + b| - 1] == a + b[..|b| - 1];
    }
  }

  lemma {:induction false} GroupNumbers(chunks: seq<seq<byte>>, g: nat, first: nat, count: nat, x: nat)
    requires first + count <= |chunks|
    ensures Numbered(GroupData(chunks, g, first, count), x) == if first + g < x <= first + g + count then 1 else 0
  {
    if count > 0 {
      var all := GroupData(chunks, g, first, count);
      assert all[..count - 1] == GroupData(chunks, g, first, count - 1);
      assert all[count - 1] == DataPacket(chunks, g, first, first + count - 1);
      GroupNumbers(chunks, g, first, count - 1, x);
    }
  }

  /** Packet numbers are exactly 0 .. n + G - 1, each used once. */
  lemma {:induction false} NumbersAreExact(wire: Wire, chunks: seq<seq<byte>>, groups: seq<nat>, x: nat)
    requires Sum(groups) <= |chunks|
    ensures Numbered(Layout(wire, chunks, groups), x) == if x < Sum(groups) + |groups| then 1 else 0
  {
    if groups != [] {
      var g, before := |groups| - 1, groups[..|groups| - 1];
      var first, count := Sum(before), groups[|groups| - 1];
      var data, last := GroupData(chunks, g, first, count), [Manifest(wire, chunks, g, first, count)];
      NumbersAreExact(wire, chunks, before, x);
      GroupNumbers(chunks, g, first, count, x);
      NumberedSplit(Layout(wire, chunks, before) + data, last, x);
      NumberedSplit(Layout(wire, chunks, before), data, x);
      assert last[..0] == [];
    }
  }

  function DataContents(out: seq<Output>): seq<byte> {
    if out == [] then []
    else DataContents(out[..|out| - 1]) + if out[|out| - 1].DataOut? then out[|out| - 1].content else []
  }

  lemma {:induction false} GroupContents(
      chunks: seq<seq<byte>>, out: seq<Output>, all: seq<Output>, g: nat, first: nat, count: nat)
    requires first + count <= |chunks| && DataContents(out) == Flatten(chunks[..first])
    requires all == out + GroupData(chunks, g, first, count)
    ensures DataContents(all) == Flatten(chunks[..first + count])
  {
    hide Flatten, GroupData, DataContents;
    if count == 0 {
      assert GroupData(chunks, g, first, count) == [];
      assert all == out;
    } else {
      var init, d := all[..|all| - 1], DataPacket(chunks, g, first, first + count - 1);
      DataNext(chunks, g, first, count - 1);
      assert all == out + GroupData(chunks, g, first, count - 1) + [d];
      assert init == out + GroupData(chunks, g, first, count - 1);
      GroupContents(chunks, out, init, g, first, count - 1);
      FlattenNext(chunks, first + count - 1);
      ContentsNext(init, d);
    }
  }

  lemma ContentsNext(out: seq<Output>, d: Output)
    requires d.DataOut?
    ensures DataContents(out + [d]) == DataContents(out) + d.content
  {
    assert (out + [d])[..|out|] == out;
  }

  /** The data contents, in the order they are sent, make up the buffer. */
  lemma {:induction false} ContentsMakeUpBuffer(wire: Wire, chunks: seq<seq<byte>>, groups: seq<nat>)
    requires Sum(groups) <= |chunks|
    ensures DataContents(Layout(wire, chunks, groups)) == Flatten(chunks[..Sum(groups)])
  {
    if groups != [] {
      var g, before := |groups| - 1, groups[..|groups| - 1];
      var first, count := Sum(before), groups[|groups| - 1];
      ContentsMakeUpBuffer(wire, chunks, before);
      var out := Layout(wire, chunks, groups);
      var data := out[..|out| - 1];
      assert data == Layout(wire, chunks, before) + GroupData(chunks, g, first, count);
      GroupContents(chunks, Layout(wire, chunks, before), data, g, first, count);
    }
  }

  /** Where an output belongs: its group, and for data its index. */
  ghost predicate BelongsTo(wire: Wire, chunks: seq<seq<byte>>, groups: seq<nat>, o: Output, g: nat)
    requires Sum(groups) <= |chunks|
  {
    && g < |groups| && Sum(groups[..g]) + groups[g] <= |chunks|
    && (o == Manifest(wire, chunks, g, Sum(groups[..g]), groups[g]) ||
        exists k :: Sum(groups[..g]) <= k < Sum(groups[..g]) + groups[g] && o == DataPacket(chunks, g, Sum(groups[..g]), k))
  }

  lemma {:induction false} SumPrefix(groups: seq<nat>, g: nat, h: nat)
    requires g <= h <= |groups|
    ensures Sum(groups[..g]) <= Sum(groups[..h])
    ensures g < h ==> Sum(groups[..g]) + groups[g] <= Sum(groups[..h])
    decreases h
  {
    if g < h {
      SumPrefix(groups, g, h - 1);
      assert groups[..h][..h - 1] == groups[..h - 1];
    }
  }

  lemma {:induction false} OutputsBelong(wire: Wire, chunks: seq<seq<byte>>, groups: seq<nat>, o: Output) returns (g: nat)
    requires Sum(groups) <= |chunks| && o in Layout(wire, chunks, groups)
    ensures BelongsTo(wire, chunks, groups, o, g)
  {
    var last, before := |groups| - 1, groups[..|groups| - 1];
    var first, count := Sum(before), groups[last];
    if o in Layout(wire, chunks, before) {
      g := OutputsBelong(wire, chunks, before, o);
      assert before[..g] == groups[..g];
    } else {
      g := last;
      assert groups[..last] == before;
      if o != Manifest(wire, chunks, last, first, count) {
        var j :| 0 <= j < count && GroupData(chunks, last, first, count)[j] == o;
        assert o == DataPacket(chunks, last, first, first + j);
      }
    }
  }

  lemma {:induction false} ManifestIsOut(wire: Wire, chunks: seq<seq<byte>>, groups: seq<nat>, g: nat)
    requires Sum(groups) <= |chunks| && g < |groups|
    ensures Sum(groups[..g]) + groups[g] <= |chunks|
    ensures Manifest(wire, chunks, g, Sum(groups[..g]), groups[g]) in Layout(wire, chunks, groups)
  {
    hide GroupData, GroupCatalogue;
    SumPrefix(groups, g, |groups|);
    assert groups[..|groups|] == groups;
    var before := groups[..|groups| - 1];
    if g < |groups| - 1 {
      ManifestIsOut(wire, chunks, before, g);
      assert before[..g] == groups[..g];
    } else {
      assert groups[..g] == before;
    }
  }

  /** The manifest lists the packet under its number and with its digest. */
  ghost predicate Lists(wire: Wire, m: Output, d: Output) {
    m.ManifestOut? && exists j :: 0 <= j < |m.catalogue| && m.catalogue[j] == CatalogueEntry(d.number, wire.digestOf(d))
  }

  ghost predicate Mentions(m: Output, number: nat) {
    m.ManifestOut? && exists j :: 0 <= j < |m.catalogue| && m.catalogue[j].segment == number
  }

  /** Every data packet is listed by the published manifest its KeyLocator names, which is numbered below it. */
  lemma ListedByItsManifest(wire: Wire, chunks: seq<seq<byte>>, groups: seq<nat>, d: Output) returns (m: Output)
    requires Sum(groups) <= |chunks| && d in Layout(wire, chunks, groups) && d.DataOut?
    ensures m in Layout(wire, chunks, groups) && Lists(wire, m, d)
    ensures m.number == d.keyLocator < d.number && m.finalBlockId == d.finalBlockId
  {
    var g := OutputsBelong(wire, chunks, groups, d);
    ManifestIsOut(wire, chunks, groups, g);
    var first := Sum(groups[..g]);
    m := Manifest(wire, chunks, g, first, groups[g]);
    var k :| first <= k < first + groups[g] && d == DataPacket(chunks, g, first, k);
    assert m.catalogue[k - first] == CatalogueEntry(d.number, wire.digestOf(d));
  }

  /** No other manifest mentions it, and no manifest is numbered between the two: it is the nearest one below. */
  lemma ListedByNoOther(wire: Wire, chunks: seq<seq<byte>>, groups: seq<nat>, d: Output, m: Output)
    requires Sum(groups) <= |chunks| && d in Layout(wire, chunks, groups) && d.DataOut?
    requires m in Layout(wire, chunks, groups) && m.ManifestOut?
    requires Mentions(m, d.number) || d.keyLocator < m.number < d.number
    ensures m.number == d.keyLocator
  {
    var g := OutputsBelong(wire, chunks, groups, d);
    var h := OutputsBelong(wire, chunks, groups, m);
    var first, other := Sum(groups[..g]), Sum(groups[..h]);
    var k :| first <= k < first + groups[g] && d == DataPacket(chunks, g, first, k);
    if g < h {
      SumPrefix(groups, g, h);
    } else if h < g {
      SumPrefix(groups, h, g);
    }
    if Mentions(m, d.number) {
      var j :| 0 <= j < |m.catalogue| && m.catalogue[j].segment == d.number;
      assert m.catalogue[j].segment == other + j + h + 1;
    }
  }

  /** Final block numbers never exceed the true last number n + G - 1, and are exact in the last group. */
  lemma FinalBlockIds(wire: Wire, chunks: seq<seq<byte>>, groups: seq<nat>, o: Output)
    requires IsGrouping(groups, |chunks|) && o in Layout(wire, chunks, groups)
    ensures o.finalBlockId <= |chunks| + |groups| - 1 && o.number <= |chunks| + |groups| - 1
    ensures o.number >= Sum(groups[..|groups| - 1]) + |groups| - 1 <==> o.finalBlockId == |chunks| + |groups| - 1
  {
    var g := OutputsBelong(wire, chunks, groups, o);
    SumPrefix(groups, g, |groups|);
    assert groups[..|groups|] == groups;
    if g < |groups| - 1 { SumPrefix(groups, g, |groups| - 1); }
  }

  // ----- groups are neither too long nor too short -----

  /** With these entries and two more full names of this number, the manifest is estimated to exceed the packet. */
  predicate IsFull(wire: Wire, m: Output, entries: seq<CatalogueEntry>, number: nat) {
    wire.nameSize(m.number) + CatalogueSizes(wire, entries) + 256 + 2 * (wire.nameSize(number) + wire.signatureSize)
      > wire.packetSize
  }

  lemma {:induction false} SizesAddUp(wire: Wire, a: seq<CatalogueEntry>, b: seq<CatalogueEntry>)
    ensures CatalogueSizes(wire, a + b) == CatalogueSizes(wire, a) + CatalogueSizes(wire, b)
    ensures |b| == 1 ==> CatalogueSizes(wire, b) == wire.entrySize(b[0].segment)
  {
    if b == [] {
      assert a + b == a;
    } else {
      SizesAddUp(wire, a, b[..|b| - 1]);
      assert (a + b)[..|a + b| - 1] == a + b[..|b| - 1];
    }
  }

  lemma {:induction false} GroupEnds(wire: Wire, groups: seq<nat>, g: nat)
    requires IsGrouping(groups, Sum(groups)) && AllEnd(wire, groups) && g < |groups|
    ensures RoomUntil(wire, Sum(groups[..g]) + g, groups[g]) && EndsGroup(wire, Sum(groups[..g]) + g, groups[g])
  {
    var before := groups[..|groups| - 1];
    if g < |groups| - 1 {
      GroupEnds(wire, before, g);
      assert before[..g] == groups[..g];
    }
  }

  lemma EndsIsFull(wire: Wire, chunks: seq<seq<byte>>, g: nat, first: nat, count: nat, j: nat)
    requires first + count <= |chunks| && 1 <= j <= count
    ensures var m := Manifest(wire, chunks, g, first, count);
      EndsGroup(wire, first + g, j) <==> IsFull(wire, m, m.catalogue[..j - 1], m.catalogue[j - 1].segment)
  {
    SizesOfCatalogue(wire, chunks, g, first, j - 1);
    var catalogue := GroupCatalogue(wire, chunks, g, first, count);
    assert catalogue[..j - 1] == GroupCatalogue(wire, chunks, g, first, j - 1);
  }

  /** A published manifest, unless it is the last one, was closed because it was full without its last entry; and
      none was full before. */
  lemma ClosedWhenFull(wire: Wire, chunks: seq<seq<byte>>, out: seq<Output>, groups: seq<nat>, g: nat) returns (m: Output)
    requires IsPublication(wire, chunks, out, groups) && g < |groups|
    ensures m in out && m.ManifestOut? && |m.catalogue| == groups[g] && m.number == Sum(groups[..g]) + g
    ensures g < |groups| - 1 ==>
      var last := |m.catalogue| - 1; last >= 0 && IsFull(wire, m, m.catalogue[..last], m.catalogue[last].segment)
    ensures forall j :: 0 <= j < |m.catalogue| - 1 ==> !IsFull(wire, m, m.catalogue[..j], m.catalogue[j].segment)
  {
    hide Layout, EndsGroup, IsFull, RoomUntil, AllEnd;
    var first, count := Sum(groups[..g]), groups[g];
    ManifestIsOut(wire, chunks, groups, g);
    m := Manifest(wire, chunks, g, first, count);
    GroupIsCut(wire, groups, g);
    FullAtTheEnd(wire, chunks, g, first, count);
  }

  lemma GroupIsCut(wire: Wire, groups: seq<nat>, g: nat)
    requires IsGrouping(groups, Sum(groups)) && CutWhereFull(wire, groups) && g < |groups|
    ensures RoomUntil(wire, Sum(groups[..g]) + g, groups[g])
    ensures g < |groups| - 1 ==> EndsGroup(wire, Sum(groups[..g]) + g, groups[g])
  {
    hide EndsGroup, RoomUntil;
    if g < |groups| - 1 {
      var before := groups[..|groups| - 1];
      GroupEnds(wire, before, g);
      assert before[..g] == groups[..g];
    }
  }

  lemma FullAtTheEnd(wire: Wire, chunks: seq<seq<byte>>, g: nat, first: nat, count: nat)
    requires first + count <= |chunks| && count > 0 && RoomUntil(wire, first + g, count)
    ensures var m := Manifest(wire, chunks, g, first, count);
      && (EndsGroup(wire, first + g, count) ==> IsFull(wire, m, m.catalogue[..count - 1], m.catalogue[count - 1].segment))
      && forall j :: 0 <= j < count - 1 ==> !IsFull(wire, m, m.catalogue[..j], m.catalogue[j].segment)
  {
    hide EndsGroup, IsFull;
    var m := Manifest(wire, chunks, g, first, count);
    EndsIsFull(wire, chunks, g, first, count, count);
    forall j | 0 <= j < count - 1 ensures !IsFull(wire, m, m.catalogue[..j], m.catalogue[j].segment) {
      EndsIsFull(wire, chunks, g, first, count, j + 1);
      assert !EndsGroup(wire, first + g, j + 1);
    }
  }

  // ----- segmentation with inlined manifests -----

  /** The groups of a publication: all pieces are out, and every group but the last ends where its manifest is full. */
  ghost predicate IsPublication(wire: Wire, chunks: seq<seq<byte>>, out: seq<Output>, groups: seq<nat>) {
    IsGrouping(groups, |chunks|) && out == Layout(wire, chunks, groups) && CutWhereFull(wire, groups)
  }

  /** What produce publishes: the pieces of the buffer in groups, each followed by its manifest; an empty buffer
      is not published. */
  method SegmentWithManifests(wire: Wire, buf: seq<byte>, free: nat) returns (out: seq<Output>, ghost groups: seq<nat>)
    requires free > 0
    ensures buf == [] ==> out == []
    ensures buf != [] ==> IsPublication(wire, Chunks(buf, free), out, groups)
    ensures DataContents(out) == buf
  {
    if buf == [] {
      out, groups := [], [];
    } else {
      out, groups := PackageAll(wire, buf, free);
      PublicationIsBuffer(wire, buf, free, out, groups);
    }
  }

  lemma PublicationIsBuffer(wire: Wire, buf: seq<byte>, free: nat, out: seq<Output>, groups: seq<nat>)
    requires free > 0 && IsPublication(wire, Chunks(buf, free), out, groups)
    ensures DataContents(out) == buf
  {
    var chunks := Chunks(buf, free);
    ContentsMakeUpBuffer(wire, chunks, groups);
    assert chunks[..|chunks|] == chunks;
    ChunksMakeUpBuffer(buf, free);
  }

  lemma NothingPackaged(wire: Wire, chunks: seq<seq<byte>>)
    ensures Closed(wire, chunks, [], [], 0)
    ensures Follows(chunks, [], [], 0, 0, 0) && RoomUntil(wire, 0, 0)
  {}

  method PackageAll(wire: Wire, buf: seq<byte>, free: nat) returns (out: seq<Output>, ghost groups: seq<nat>)
    requires free > 0 && buf != []
    ensures IsPublication(wire, Chunks(buf, free), out, groups)
  {
    hide Closed, Follows, EndsGroup, Chunks, RoomUntil;
    out, groups := [], [];
    ghost var chunks := Chunks(buf, free);
    var numberOfSegments := CountSegments(|buf|, free);
    NumberOfChunks(buf, free);
    assert buf[0..] == buf;
    NothingPackaged(wire, chunks);
    var bytesPackaged, currentSegment, packagedSegments := 0, 0, 0;
    var needManifestSegment := true;
    var manifest: Option<Output> := None;
    ghost var g, count, first, closed: seq<Output> := 0, 0, 0, [];
    while packagedSegments < numberOfSegments
      invariant packagedSegments <= numberOfSegments == |chunks| && packagedSegments == first + count && g == |groups|
      invariant packagedSegments < numberOfSegments ==> IsCut(buf, free, packagedSegments, bytesPackaged)
      invariant Closed(wire, chunks, closed, groups, first) && Follows(chunks, closed, out, g, first, count)
      invariant RoomUntil(wire, first + g, count)
      invariant manifest.None? ==> groups == [] && first == count == 0 && needManifestSegment && currentSegment == 0
      invariant manifest.Some? ==> count > 0 && currentSegment == packagedSegments + g + 1
      invariant manifest.Some? ==> manifest.value == Manifest(wire, chunks, g, first, count)
      invariant manifest.Some? ==> needManifestSegment == EndsGroup(wire, first + g, count)
    {
      if needManifestSegment {
        var newest;
        newest, out, groups :=
          OpenManifest(wire, numberOfSegments, manifest, currentSegment, packagedSegments, out, chunks, closed, groups, first, count);
        g, closed, first, count := |groups|, out, packagedSegments, 0;
        manifest := Some(newest);
        needManifestSegment := false;
        currentSegment := currentSegment + 1;
      }
      var content, listed;
      content, bytesPackaged :=
        CutNext(buf, free, packagedSegments == numberOfSegments - 1, bytesPackaged, packagedSegments);
      out, listed, needManifestSegment :=
        PackageSegment(wire, content, numberOfSegments, manifest.value, currentSegment, packagedSegments, out,
                       chunks, closed, g, first, count);
      manifest := Some(listed);
      currentSegment, packagedSegments := currentSegment + 1, packagedSegments + 1;
      count := count + 1;
    }
    CloseLastGroup(wire, chunks, closed, out, groups, first, count);
    out := out + [manifest.value];
    groups := groups + [count];
  }
}
