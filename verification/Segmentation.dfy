/** The producer's segmentation of a buffer: plain, and with inlined manifests. */
module Segmentation {
  import opened Names
  import opened Options
  import opened RdrModel
  import opened RdrPlain

  // ----- the pieces -----

  /** The buffer in pieces of the free space, the last one being what is left. */
  function Chunks(buf: seq<byte>, free: nat): (chunks: seq<seq<byte>>)
    requires free > 0
    ensures chunks != []
    decreases |buf|
  {
    if |buf| <= free then [buf] else [buf[..free]] + Chunks(buf[free..], free)
  }

  lemma {:induction false} FlattenCons(c: seq<byte>, chunks: seq<seq<byte>>)
    ensures Flatten([c] + chunks) == c + Flatten(chunks)
  {
    var all := [c] + chunks;
    if chunks == [] {
      assert all[..0] == [];
    } else {
      FlattenCons(c, chunks[..|chunks| - 1]);
      assert all[..|all| - 1] == [c] + chunks[..|chunks| - 1];
    }
  }

  /** The pieces make up the buffer, and each fits the free space; only the last may be shorter. */
  lemma {:induction false} ChunksMakeUpBuffer(buf: seq<byte>, free: nat)
    requires free > 0
    ensures Flatten(Chunks(buf, free)) == buf
    ensures forall k :: 0 <= k < |Chunks(buf, free)| - 1 ==> |Chunks(buf, free)[k]| == free
    ensures |Chunks(buf, free)[|Chunks(buf, free)| - 1]| <= free
    decreases |buf|
  {
    if |buf| <= free {
      assert [buf][..0] == [];
    } else {
      ChunksMakeUpBuffer(buf[free..], free);
      FlattenCons(buf[..free], Chunks(buf[free..], free));
    }
  }

  /** The source's count: the quotient, at least one, plus one when that is not enough. */
  function NumberOfSegments(size: nat, free: nat): nat
    requires free > 0
  {
    var quotient := size / free;
    var n := if quotient == 0 then 1 else quotient;
    if free * n < size then n + 1 else n
  }

  lemma MultipleIsLarge(free: nat, k: int)
    requires free > 0 && k >= 1
    ensures free * k >= free
  {}

  lemma QuotientIsUnique(free: nat, a: int, b: int, r: nat, s: nat)
    requires free > 0 && r < free && s < free && free * a + r == free * b + s
    ensures a == b
  {
    assert free * (b - a) == free * b - free * a && free * (a - b) == free * a - free * b;
    if a < b { MultipleIsLarge(free, b - a); }
    if b < a { MultipleIsLarge(free, a - b); }
  }

  lemma QuotientStep(size: nat, free: nat)
    requires free > 0 && size > free
    ensures size / free == (size - free) / free + 1
  {
    var q, r := (size - free) / free, (size - free) % free;
    assert free * (q + 1) == free * q + free;
    QuotientIsUnique(free, size / free, q + 1, size % free, r);
  }

  lemma {:induction false} NumberOfChunks(buf: seq<byte>, free: nat)
    requires free > 0
    ensures |Chunks(buf, free)| == NumberOfSegments(|buf|, free)
    decreases |buf|
  {
    hide NumberOfSegments;
    if |buf| > free {
      NumberOfChunks(buf[free..], free);
      OneMoreSegment(|buf|, free);
    } else {
      OneSegment(|buf|, free);
    }
  }

  lemma OneMoreSegment(size: nat, free: nat)
    requires 0 < free < size
    ensures NumberOfSegments(size, free) == NumberOfSegments(size - free, free) + 1
  {
    QuotientStep(size, free);
    var q := (size - free) / free;
    assert free * (q + 1) == free * q + free;
  }

  lemma OneSegment(size: nat, free: nat)
    requires size <= free && free > 0
    ensures NumberOfSegments(size, free) == 1
  {
    assert size / free == 0 || size == free;
  }

  // ----- the producer's cut -----

  method CountSegments(size: nat, free: nat) returns (numberOfSegments: nat)
    requires free > 0
    ensures numberOfSegments == NumberOfSegments(size, free)
  {
    numberOfSegments := size / free;
    if numberOfSegments == 0 {
      numberOfSegments := numberOfSegments + 1;
    }
    if free * numberOfSegments < size {
      numberOfSegments := numberOfSegments + 1;
    }
  }

  /** The first i pieces of the buffer take up that many bytes. */
  ghost predicate IsCut(buf: seq<byte>, free: nat, i: nat, bytesPackaged: nat)
    requires free > 0
  {
    bytesPackaged <= |buf| && i < |Chunks(buf, free)| && Chunks(buf, free)[i..] == Chunks(buf[bytesPackaged..], free)
  }

  /** The next piece, and how many bytes are packaged then: the free space, or all that is left for the last one. */
  method CutNext(buf: seq<byte>, free: nat, isLast: bool, bytesPackaged: nat, ghost i: nat)
    returns (content: seq<byte>, bytesPackaged': nat)
    requires free > 0 && IsCut(buf, free, i, bytesPackaged) && isLast == (i == |Chunks(buf, free)| - 1)
    ensures content == Chunks(buf, free)[i]
    ensures if isLast then bytesPackaged' == |buf| else IsCut(buf, free, i + 1, bytesPackaged')
  {
    ghost var rest := buf[bytesPackaged..];
    assert Chunks(rest, free)[0] == Chunks(buf, free)[i];
    if isLast {
      content, bytesPackaged' := buf[bytesPackaged..], |buf|;
    } else {
      assert |Chunks(rest, free)| > 1;
      assert rest[..free] == buf[bytesPackaged..bytesPackaged + free];
      assert rest[free..] == buf[bytesPackaged + free..];
      assert Chunks(buf, free)[i + 1..] == Chunks(rest, free)[1..];
      content, bytesPackaged' := buf[bytesPackaged..bytesPackaged + free], bytesPackaged + free;
    }
  }

  // ----- plain segmentation -----

  /** A published data segment of plain segmentation. */
  datatype Segment = Segment(number: nat, finalBlockId: nat, content: seq<byte>)

  /** Plain segmentation, as produce does it: every packet carries the same final block number; an empty buffer
      is not published. */
  method SegmentPlainly(buf: seq<byte>, free: nat) returns (segments: seq<Segment>)
    requires free > 0
    ensures buf == [] ==> segments == []
    ensures buf != [] ==> |segments| == |Chunks(buf, free)|
    ensures forall k :: 0 <= k < |segments| ==> segments[k] == Segment(k, |segments| - 1, Chunks(buf, free)[k])
  {
    segments := [];
    if buf == [] {
      return;
    }
    var numberOfSegments := CountSegments(|buf|, free);
    NumberOfChunks(buf, free);
    assert buf[0..] == buf;
    var bytesPackaged := 0;
    for i := 0 to numberOfSegments
      invariant |segments| == i && (i < numberOfSegments ==> IsCut(buf, free, i, bytesPackaged))
      invariant forall k :: 0 <= k < i ==> segments[k] == Segment(k, numberOfSegments - 1, Chunks(buf, free)[k])
    {
      var content;
      content, bytesPackaged := CutNext(buf, free, i == numberOfSegments - 1, bytesPackaged, i);
      segments := segments + [Segment(i, numberOfSegments - 1, content)];
    }
  }

  ghost predicate Carries(d: Packet, s: Segment) {
    d.contentType == Blob && d.segment == s.number && d.content == s.content && d.finalBlockId == Some(s.finalBlockId)
  }

  /** The packets the retrieval proofs call genuine are those that carry one of the published segments. */
  lemma CarriedIsGenuine(buf: seq<byte>, free: nat, segments: seq<Segment>, d: Packet)
    requires free > 0 && |segments| == |Chunks(buf, free)|
    requires forall k :: 0 <= k < |segments| ==> segments[k] == Segment(k, |segments| - 1, Chunks(buf, free)[k])
    ensures Genuine(Chunks(buf, free), d) <==> exists s :: s in segments && Carries(d, s)
  {
    if Genuine(Chunks(buf, free), d) {
      assert segments[d.segment] in segments && Carries(d, segments[d.segment]);
    }
  }

  /** From the producer's buffer to the consumer's callback: whatever the network does with the segments of a
      buffer, the callback is called at most once, with exactly that buffer. */
  lemma EndToEnd(cfg: Config, buf: seq<byte>, free: nat, events: seq<Event>)
    requires free > 0 && |Chunks(buf, free)| <= 0x8000_0000 && cfg.maxWindow >= 1
    requires IsRun(cfg, events) && AllAuthentic(cfg, Chunks(buf, free), events)
    ensures Run(cfg, events).payloads == [] || Run(cfg, events).payloads == [buf]
  {
    ChunksMakeUpBuffer(buf, free);
    DeliversTheBufferOrNothing(cfg, Chunks(buf, free), events);
  }
}
