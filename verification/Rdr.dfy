/** The retrieval object: its handlers update the fields in place, each as the step machine says. */
module Rdr {
  import opened Names
  import opened Options
  import opened LossDetector
  import M = RdrModel
  import opened RdrChecks
  import opened RdrModel

  class ReliableDataRetrieval {
    const cfg: Config

    var isRunning: bool
    var isFinalBlockNumberDiscovered: bool
    var finalBlockNumber: nat
    var lastReassembledSegment: nat
    var contentBuffer: seq<byte>
    var currentWindowSize: int
    var interestsInFlight: int
    var segNumber: nat
    var interestRetransmissions: map<nat, int>
    var receiveBuffer: map<nat, Packet>
    var unverifiedSegments: map<nat, Packet>
    var verifiedManifests: map<nat, Packet>
    var receivedSegments: set<nat>
    var fastRetxSegments: set<nat>

    // the face, the scheduler and the application
    var pending: multiset<Interest>
    var timers: multiset<Interest>
    var requests: seq<nat>
    var payloads: seq<seq<byte>>
    ghost var copied: seq<Packet>

    ghost function S(): State
      reads this
    {
      State(isRunning, isFinalBlockNumberDiscovered, finalBlockNumber, lastReassembledSegment, contentBuffer,
            currentWindowSize, interestsInFlight, segNumber, interestRetransmissions, receiveBuffer,
            unverifiedSegments, verifiedManifests, receivedSegments, fastRetxSegments,
            pending, timers, requests, payloads, copied)
    }

    /** Between events the loss detector is settled. */
    ghost predicate Valid()
      reads this
    {
      Settled(receivedSegments, fastRetxSegments)
    }

    constructor (cfg: Config)
      ensures this.cfg == cfg && S() == Constructed() && Valid()
    {
      this.cfg := cfg;
      isRunning, isFinalBlockNumberDiscovered, finalBlockNumber := false, false, MAX_SEGMENT;
      lastReassembledSegment, contentBuffer, currentWindowSize, interestsInFlight, segNumber := 0, [], 0, 0, 0;
      interestRetransmissions, receiveBuffer, unverifiedSegments, verifiedManifests := map[], map[], map[], map[];
      receivedSegments, fastRetxSegments := {}, {};
      pending, timers, requests, payloads, copied := multiset{}, multiset{}, [], [], [];
      new;
      RequestedOnce([]);
    }

    method Start()
      modifies this
      ensures S() == M.Start(cfg, old(S())) && (old(Valid()) ==> Valid())
    {
      ResetCounters();
      ResetContent();
      ResetBuffers();
      SendInterest();
    }

    method ResetCounters()
      modifies this
      ensures S() == old(S()).(running := true, finalKnown := false, finalBlock := MAX_SEGMENT, segNumber := 0)
    {
      isRunning := true;
      isFinalBlockNumberDiscovered := false;
      finalBlockNumber := MAX_SEGMENT;
      segNumber := 0;
    }

    method ResetContent()
      modifies this
      ensures S() == old(S()).(inFlight := 0, lastReassembled := 0, contentBuffer := [], copied := [])
    {
      interestsInFlight := 0;
      lastReassembledSegment := 0;
      contentBuffer := [];
      copied := [];
    }

    method ResetBuffers()
      modifies this
      ensures S() == old(S()).(retx := map[], receiveBuffer := map[], unverified := map[], manifests := map[])
    {
      interestRetransmissions := map[];
      receiveBuffer := map[];
      unverifiedSegments := map[];
      verifiedManifests := map[];
    }

    /** Hands an Interest to the face. */
    method ExpressInterest(i: Interest)
      modifies this
      ensures S() == old(S()).(pending := old(pending) + multiset{i}, requests := old(requests) + [i.segment])
    {
      pending := pending + multiset{i};
      requests := requests + [i.segment];
    }

    method SendInterest()
      modifies this
      ensures S() == M.SendInterest(cfg, old(S()))
    {
      interestsInFlight := interestsInFlight + 1;
      interestRetransmissions := interestRetransmissions[segNumber := 0];
      ExpressInterest(Interest(segNumber, cfg.exclude, None));
      segNumber := segNumber + 1;
    }

    function RetxOf(s: nat): int
      reads this
    {
      if s in interestRetransmissions then interestRetransmissions[s] else 0
    }

    method Retransmit(i: Interest)
      modifies this
      ensures S() == Express(old(S()), i)
    {
      interestsInFlight := interestsInFlight + 1;
      interestRetransmissions := interestRetransmissions[i.segment := RetxOf(i.segment) + 1];
      ExpressInterest(i);
    }

    method FillWindow()
      modifies this
      ensures S() == M.FillWindow(cfg, old(S()))
      ensures receivedSegments == old(receivedSegments) && fastRetxSegments == old(fastRetxSegments)
    {
      while interestsInFlight < currentWindowSize
        invariant M.FillWindow(cfg, S()) == M.FillWindow(cfg, old(S()))
        invariant receivedSegments == old(receivedSegments) && fastRetxSegments == old(fastRetxSegments)
        decreases currentWindowSize - interestsInFlight
      {
        if isFinalBlockNumberDiscovered {
          if segNumber <= finalBlockNumber {
            SendInterest();
          } else {
            break;
          }
        } else {
          SendInterest();
        }
      }
    }

    method RetransmitInterestWithExclude(i: Interest, d: Packet) returns (ok: bool)
      modifies this
      ensures S() == M.RetransmitWithExclude(cfg, old(S()), i, d)
      ensures receivedSegments == old(receivedSegments) && fastRetxSegments == old(fastRetxSegments)
    {
      unverifiedSegments := unverifiedSegments - {i.segment};
      if RetxOf(i.segment) < cfg.maxRetx {
        if |i.exclude| < cfg.maxExcluded {
          if !isRunning {
            return false;
          }
          Retransmit(Interest(i.segment, i.exclude + {d.digest}, None));
        } else {
          isRunning := false;
          return false;
        }
      } else {
        isRunning := false;
        return false;
      }
      return true;
    }

    method GetDigestFromManifest(manifest: Packet, d: Packet) returns (digest: Option<Digest>)
      ensures digest == Catalogued(manifest.catalogue, d.segment)
      ensures digest.None? ==> forall k :: 0 <= k < |manifest.catalogue| ==> manifest.catalogue[k].segment != d.segment
      ensures digest.Some? ==> IsListed(manifest, d.(digest := digest.value))
    {
      CataloguedAt(manifest.catalogue, d.segment);
      var k := 0;
      while k < |manifest.catalogue|
        invariant 0 <= k <= |manifest.catalogue|
        invariant Catalogued(manifest.catalogue, d.segment) == Catalogued(manifest.catalogue[k..], d.segment)
      {
        if manifest.catalogue[k].segment == d.segment {
          return Some(manifest.catalogue[k].digest);
        }
        k := k + 1;
      }
      return None;
    }

    method VerifySegmentWithManifest(manifest: Packet, d: Packet) returns (result: bool)
      ensures result == VerifiedBy(manifest, d) && (result <==> IsListed(manifest, d))
    {
      VerifiedByIff(manifest, d);
      result := false;
      var k := 0;
      while k < |manifest.catalogue|
        invariant 0 <= k <= |manifest.catalogue| && !result
        invariant Catalogued(manifest.catalogue, d.segment) == Catalogued(manifest.catalogue[k..], d.segment)
      {
        if manifest.catalogue[k].segment == d.segment {
          result := d.digest == manifest.catalogue[k].digest;
          return;
        }
        k := k + 1;
      }
    }

    method RetransmitInterestWithDigest(i: Interest, d: Packet, manifest: Packet) returns (ok: bool)
      modifies this
      ensures S() == M.RetransmitWithDigest(cfg, old(S()), i, d, manifest)
      ensures receivedSegments == old(receivedSegments) && fastRetxSegments == old(fastRetxSegments)
    {
      unverifiedSegments := unverifiedSegments - {i.segment};
      if RetxOf(i.segment) < cfg.maxRetx {
        var implicitDigest := GetDigestFromManifest(manifest, d);
        if implicitDigest.None? {
          isRunning := false;
          return false;
        }
        if !isRunning {
          return false;
        }
        Retransmit(Interest(i.segment, cfg.exclude, implicitDigest));
      } else {
        isRunning := false;
        return false;
      }
      return true;
    }

    /** Fired by the scheduler after a nack with a delay. */
    method RetransmitFreshInterest(i: Interest)
      modifies this
      ensures S() == M.RetransmitFresh(cfg, old(S()), i)
      ensures receivedSegments == old(receivedSegments) && fastRetxSegments == old(fastRetxSegments)
    {
      if RetxOf(i.segment) < cfg.maxRetx {
        if isRunning {
          Retransmit(Interest(i.segment, i.exclude, None));
        }
      } else {
        isRunning := false;
      }
    }

    // ----- loss detection -----

    method FastRetransmit(i: Interest, s: nat)
      modifies this
      ensures S() == M.FastRetransmit(cfg, old(S()), i, s)
    {
      if RetxOf(s) < cfg.maxRetx {
        if !isRunning {
          return;
        }
        Retransmit(Interest(s, i.exclude, None));
      }
    }

    /** One missing segment against the received ones above it; it is requested when the counter reaches three. */
    method ScanAbove(i: Interest, s: nat, highest: nat)
      requires IsHighest(receivedSegments, highest) && s <= highest && s !in receivedSegments && s !in fastRetxSegments
      requires Above(receivedSegments, s) <= FAST_RETX_CONDITION
      modifies this
      ensures if Above(old(receivedSegments), s) >= FAST_RETX_CONDITION
        then S() == M.FastRetransmit(cfg, old(S()).(marked := old(fastRetxSegments) + {s}), i, s)
        else S() == old(S())
    {
      var nOutOfOrderSegments: uint8 := 0;
      ghost var received := receivedSegments;
      var j := s;
      BetweenStart(received, s);
      while j <= highest
        invariant s <= j <= highest + 1
        invariant nOutOfOrderSegments as int == Between(received, s, j)
        invariant receivedSegments == received
        invariant if nOutOfOrderSegments as int >= FAST_RETX_CONDITION
          then S() == M.FastRetransmit(cfg, old(S()).(marked := old(fastRetxSegments) + {s}), i, s)
          else S() == old(S())
      {
        BetweenNext(received, s, j);
        BetweenAtMostAbove(received, s, j + 1);
        if j in receivedSegments {
          nOutOfOrderSegments := nOutOfOrderSegments + 1;
          if nOutOfOrderSegments as int == FAST_RETX_CONDITION {
            fastRetxSegments := fastRetxSegments + {s};
            FastRetransmit(i, s);
          }
        }
        j := j + 1;
      }
      BetweenAll(received, s, highest);
    }

    /** One segment of the scan: nothing happens unless it is missing, unmarked and lost. */
    method Scan(i: Interest, s: nat, highest: nat)
      requires IsHighest(receivedSegments, highest) && s <= highest
      requires s !in receivedSegments && s !in fastRetxSegments ==> Above(receivedSegments, s) <= FAST_RETX_CONDITION
      modifies this
      ensures S() == if IsLost(old(receivedSegments), old(fastRetxSegments), s)
        then M.FastRetransmit(cfg, old(S()).(marked := old(fastRetxSegments) + {s}), i, s) else old(S())
    {
      if s !in receivedSegments {
        if s !in fastRetxSegments {
          ScanAbove(i, s, highest);
        }
      }
    }

    method ScanNext(i: Interest, s: nat, highest: nat,
                    ghost base: State, ghost ideal: State, ghost now: set<nat>, ghost kept: set<nat>, ghost lost: seq<nat>)
      returns (ghost ideal': State, ghost lost': seq<nat>)
      requires IsHighest(receivedSegments, highest) && s <= highest && receivedSegments == now
      requires s !in receivedSegments && s !in fastRetxSegments ==> Above(receivedSegments, s) <= FAST_RETX_CONDITION
      requires lost == LostBelow(now, kept, s) && fastRetxSegments == kept + SetOf(lost)
      requires ideal == FastRetransmitAll(cfg, base, i, lost) && S() == ideal.(marked := fastRetxSegments)
      modifies this
      ensures receivedSegments == now && fastRetxSegments == kept + SetOf(lost') && lost' == LostBelow(now, kept, s + 1)
      ensures ideal' == FastRetransmitAll(cfg, base, i, lost') && S() == ideal'.(marked := fastRetxSegments)
    {
      MarksDoNotMatter(cfg, ideal, i, s, fastRetxSegments + {s});
      Scan(i, s, highest);
      ideal', lost' := NextLost(cfg, base, ideal, i, now, kept, lost, s);
    }

    /** The outer loop, over all segments up to the highest received one. */
    method ScanAll(i: Interest, highest: nat, ghost base: State)
      requires IsHighest(receivedSegments, highest)
      requires forall s: nat :: s !in receivedSegments && s !in fastRetxSegments ==> Above(receivedSegments, s) <= FAST_RETX_CONDITION
      requires S() == base.(marked := fastRetxSegments)
      modifies this
      ensures var lost := LostBelow(old(receivedSegments), old(fastRetxSegments), highest);
        fastRetxSegments == old(fastRetxSegments) + SetOf(lost) &&
        S() == FastRetransmitAll(cfg, base, i, lost).(marked := fastRetxSegments)
    {
      ghost var now, kept := receivedSegments, fastRetxSegments;
      ghost var ideal, lost := base, [];
      var s := 0;
      while s <= highest
        invariant 0 <= s <= highest + 1 && receivedSegments == now
        invariant lost == LostBelow(now, kept, s) && fastRetxSegments == kept + SetOf(lost)
        invariant ideal == FastRetransmitAll(cfg, base, i, lost) && S() == ideal.(marked := fastRetxSegments)
        decreases highest + 1 - s
      {
        ideal, lost := ScanNext(i, s, highest, base, ideal, now, kept, lost);
        s := s + 1;
      }
      assert lost == LostBelow(now, kept, highest);
    }

    method CheckFastRetransmissionConditions(i: Interest)
      requires Valid()
      modifies this
      ensures S() == M.CheckFastRetransmission(cfg, old(S()), i) && Valid()
    {
      ghost var was, marks := old(S()), MarkedAfter(receivedSegments, fastRetxSegments, i.segment);
      receivedSegments := receivedSegments + {i.segment};
      fastRetxSegments := fastRetxSegments - {i.segment};
      var highest := HighestOf(receivedSegments);
      HighestIsUnique(receivedSegments, highest, HighestSpec(receivedSegments));
      forall s: nat | s !in receivedSegments && s !in fastRetxSegments
        ensures Above(receivedSegments, s) <= FAST_RETX_CONDITION
      {
        CounterStaysLow(was.received, was.marked, i.segment, s);
      }
      ghost var base := was.(received := receivedSegments, marked := marks);
      ScanAll(i, highest, base);
      AllKeepMarks(cfg, base, i, Exposed(was.received, was.marked, i.segment));
      ArrivalSettles(was.received, was.marked, i.segment);
    }

    // ----- reassembly -----

    method CopyContent(d: Packet)
      modifies this
      ensures S() == M.CopyContent(old(S()), d)
    {
      contentBuffer := contentBuffer + d.content;
      copied := copied + [d];
      if d.segment == finalBlockNumber || !isRunning {
        Deliver();
      }
    }

    method Deliver()
      modifies this
      ensures S() == old(S()).(pending := multiset{}, timers := multiset{},
                               payloads := old(payloads) + [old(contentBuffer)], running := false)
    {
      RemoveAllPending();
      payloads := payloads + [contentBuffer];
      isRunning := false;
    }

    method RemoveAllPending()
      modifies this
      ensures S() == old(S()).(pending := multiset{}, timers := multiset{})
    {
      pending := multiset{};
      timers := multiset{};
    }

    method EraseHead()
      modifies this
      ensures S() == old(S()).(receiveBuffer := old(receiveBuffer) - {old(lastReassembledSegment)},
                               lastReassembled := old(lastReassembledSegment) + 1)
    {
      receiveBuffer := receiveBuffer - {lastReassembledSegment};
      lastReassembledSegment := lastReassembledSegment + 1;
    }

    method Reassemble()
      modifies this
      ensures S() == M.Reassemble(old(S()))
      ensures receivedSegments == old(receivedSegments) && fastRetxSegments == old(fastRetxSegments)
    {
      while lastReassembledSegment in receiveBuffer
        invariant M.Reassemble(S()) == M.Reassemble(old(S()))
        invariant receivedSegments == old(receivedSegments) && fastRetxSegments == old(fastRetxSegments)
        decreases |receiveBuffer|
      {
        ghost var before := S();
        var head := receiveBuffer[lastReassembledSegment];
        if head.contentType == Blob {
          CopyContent(head);
        }
        EraseHead();
        ReassembleNext(before, S());
      }
    }

    method DiscoverFinal(d: Packet)
      modifies this`isFinalBlockNumberDiscovered, this`finalBlockNumber
      ensures S() == FinalFrom(old(S()), d)
    {
      if d.finalBlockId.Some? {
        isFinalBlockNumberDiscovered := true;
        finalBlockNumber := d.finalBlockId.value;
      }
    }

    // ----- arriving packets -----

    method GrowWindow()
      modifies this`currentWindowSize
      ensures S() == old(S()).(window := Grown(cfg, old(currentWindowSize)))
    {
      if currentWindowSize < cfg.maxWindow {
        currentWindowSize := currentWindowSize + 1;
      }
    }

    method ShrinkWindow()
      modifies this`currentWindowSize
      ensures S() == old(S()).(window := Shrunk(cfg, old(currentWindowSize)))
    {
      if currentWindowSize > cfg.minWindow {
        currentWindowSize := Half(currentWindowSize);
      }
    }

    method AcceptContent(i: Interest, d: Packet)
      requires Valid()
      modifies this
      ensures S() == M.AcceptContent(cfg, old(S()), i, d) && Valid()
    {
      CheckFastRetransmissionConditions(i);
      GrowWindow();
      DiscoverFinal(d);
      receiveBuffer := receiveBuffer[d.segment := d];
      Reassemble();
    }

    method OnContentData(i: Interest, d: Packet)
      requires Valid()
      modifies this
      ensures S() == M.OnContentData(cfg, old(S()), i, d) && Valid()
    {
      var isDataSecure := false;
      if cfg.verify.None? {
        isDataSecure := !d.digestSigned || d.digestValid;
        if !isDataSecure {
          var _ := RetransmitInterestWithExclude(i, d);
        }
      } else if d.locator.NoLocator? {
        var _ := RetransmitInterestWithExclude(i, d);
        return;
      } else if d.locator.ManifestName? {
        if d.locator.segment !in verifiedManifests {
          if d.segment !in unverifiedSegments {
            unverifiedSegments := unverifiedSegments[d.segment := d];
          }
        } else {
          isDataSecure := VerifySegmentWithManifest(verifiedManifests[d.locator.segment], d);
          if !isDataSecure {
            var _ := RetransmitInterestWithDigest(i, d, verifiedManifests[d.locator.segment]);
          }
        }
      } else {
        isDataSecure := cfg.verify.value(d);
        if !isDataSecure {
          var _ := RetransmitInterestWithExclude(i, d);
        }
      }
      if isDataSecure {
        AcceptContent(i, d);
      }
    }

    method CheckParked(i: Interest, manifest: Packet, d: Packet)
      modifies this
      ensures S() == M.CheckParked(cfg, old(S()), i, manifest, d)
      ensures receivedSegments == old(receivedSegments) && fastRetxSegments == old(fastRetxSegments)
    {
      var verified := VerifySegmentWithManifest(manifest, d);
      if verified {
        DiscoverFinal(d);
        receiveBuffer := receiveBuffer[d.segment := d];
        Reassemble();
      } else {
        var _ := RetransmitInterestWithDigest(i, manifest, manifest);
      }
    }

    method OnManifestData(i: Interest, d: Packet)
      requires Valid()
      modifies this
      ensures S() == M.OnManifestData(cfg, old(S()), i, d) && Valid()
    {
      hide M.CheckAllParked, M.CheckFastRetransmission, M.RetransmitWithExclude, IsSecure;
      if !isRunning {
        return;
      }
      if IsSecure(cfg, d) {
        CheckFastRetransmissionConditions(i);
        GrowWindow();
        if d.segment !in verifiedManifests {
          verifiedManifests := verifiedManifests[d.segment := d];
        }
        receiveBuffer := receiveBuffer[d.segment := d];
        CheckAllParked(i, d);
      } else {
        var _ := RetransmitInterestWithExclude(i, d);
      }
    }

    /** The parked segment with the given number, then the next number to look at. */
    method CheckNextParked(i: Interest, manifest: Packet, ghost from: nat, key: nat) returns (next: nat)
      requires isRunning && IsNextKey(unverifiedSegments, from, key)
      modifies this
      ensures next == key + 1
      ensures M.CheckAllParked(cfg, S(), i, manifest, next) == M.CheckAllParked(cfg, old(S()), i, manifest, from)
      ensures KeysFrom(unverifiedSegments, next) < KeysFrom(old(unverifiedSegments), from)
      ensures receivedSegments == old(receivedSegments) && fastRetxSegments == old(fastRetxSegments)
    {
      CheckAllParkedNext(cfg, S(), i, manifest, from, key);
      CheckParked(i, manifest, unverifiedSegments[key]);
      next := key + 1;
    }

    method CheckAllParked(i: Interest, manifest: Packet)
      modifies this
      ensures S() == M.CheckAllParked(cfg, old(S()), i, manifest, 0)
      ensures receivedSegments == old(receivedSegments) && fastRetxSegments == old(fastRetxSegments)
    {
      ghost var result := M.CheckAllParked(cfg, S(), i, manifest, 0);
      var from := 0;
      var key := NextKey(unverifiedSegments, from);
      while key.Some?
        invariant M.CheckAllParked(cfg, S(), i, manifest, from) == result
        invariant key.Some? ==> IsNextKey(unverifiedSegments, from, key.value)
        invariant key.None? ==> forall k :: k in unverifiedSegments ==> k < from
        invariant receivedSegments == old(receivedSegments) && fastRetxSegments == old(fastRetxSegments)
        decreases KeysFrom(unverifiedSegments, from)
      {
        if !isRunning {
          break;
        }
        from := CheckNextParked(i, manifest, from, key.value);
        key := NextKey(unverifiedSegments, from);
      }
      CheckAllParkedEnd(cfg, S(), i, manifest, from);
    }

    method OnNackData(i: Interest, d: Packet)
      requires Valid()
      modifies this
      ensures S() == M.OnNackData(cfg, old(S()), i, d) && Valid()
    {
      hide M.CheckFastRetransmission, M.RetransmitWithExclude, IsSecure;
      if !isRunning {
        return;
      }
      if isFinalBlockNumberDiscovered {
        if d.nackSegment > finalBlockNumber {
          return;
        }
      }
      if IsSecure(cfg, d) {
        CheckFastRetransmissionConditions(i);
        ShrinkWindow();
        match d.nackCode {
          case DataNotAvailable => isRunning := false;
          case ProducerDelay => timers := timers + multiset{i};
          case _ =>
        }
      } else {
        var _ := RetransmitInterestWithExclude(i, d);
      }
    }

    method Dispatch(i: Interest, d: Packet)
      requires Valid()
      modifies this
      ensures S() == M.Dispatch(cfg, old(S()), i, d) && Valid()
    {
      match d.contentType {
        case Manifest => OnManifestData(i, d);
        case Nack => OnNackData(i, d);
        case Blob => OnContentData(i, d);
        case OtherType =>
      }
    }

    /** The first answer opens the window to the whole rest, up to the maximum. */
    method OpenWindow()
      modifies this`currentWindowSize
      ensures S() == old(S()).(window := FirstWindow(cfg, old(S())))
    {
      currentWindowSize := ToInt(finalBlockNumber);
      if currentWindowSize > cfg.maxWindow {
        currentWindowSize := cfg.maxWindow;
      }
    }

    method OnData(i: Interest, d: Packet)
      requires Valid()
      modifies this
      ensures S() == M.OnData(cfg, old(S()), i, d) && Valid()
    {
      hide M.Dispatch, M.FillWindow, M.FirstWindow;
      if !isRunning {
        return;
      }
      interestsInFlight := interestsInFlight - 1;
      if i.implicitDigest.Some? {
        return;  // the last component is not a segment number: the handler fails here
      }
      Dispatch(i, d);
      if i.segment == 0 {
        OpenWindow();
        FillWindow();
      } else if isRunning {
        FillWindow();
      }
    }

    method OnTimeout(i: Interest)
      requires Valid()
      modifies this
      ensures S() == M.OnTimeout(cfg, old(S()), i) && Valid()
    {
      hide M.Reassemble;
      if !isRunning {
        return;
      }
      interestsInFlight := interestsInFlight - 1;
      if i.implicitDigest.Some? {
        return;  // the last component is not a segment number: the handler fails here
      }
      if isFinalBlockNumberDiscovered {
        if i.segment > finalBlockNumber {
          return;
        }
      }
      ShrinkWindow();
      if RetxOf(i.segment) < cfg.maxRetx {
        Retransmit(Interest(i.segment, i.exclude, None));
      } else {
        GiveUp();
      }
    }

    method GiveUp()
      requires Valid()
      modifies this
      ensures S() == M.Reassemble(old(S()).(running := false)) && Valid()
    {
      isRunning := false;
      Reassemble();
    }

    method TakeTimer(i: Interest)
      modifies this
      ensures S() == old(S()).(timers := old(timers) - multiset{i})
    {
      timers := timers - multiset{i};
    }

    /** The face forgets an Interest it has an answer for. */
    method TakePending(i: Interest)
      modifies this
      ensures S() == old(S()).(pending := old(pending) - multiset{i})
    {
      pending := pending - multiset{i};
    }

    /** The environment's next move. */
    method Handle(ev: Event)
      requires Valid() && Enabled(S(), ev)
      modifies this
      ensures S() == Step(cfg, old(S()), ev) && Valid()
    {
      match ev {
        case DataArrives(i, d) =>
          TakePending(i);
          OnData(i, d);
        case TimesOut(i) =>
          TakePending(i);
          OnTimeout(i);
        case NetworkNack(i) =>
          TakePending(i);
          OnTimeout(i);
        case TimerFires(i) =>
          TakeTimer(i);
          RetransmitFreshInterest(i);
      }
    }
  }

  /** A whole run of a fresh object. */
  method Retrieve(cfg: Config, events: seq<Event>) returns (rdr: ReliableDataRetrieval)
    requires IsRun(cfg, events)
    ensures rdr.S() == Run(cfg, events) && rdr.cfg == cfg
  {
    rdr := new ReliableDataRetrieval(cfg);
    rdr.Start();
    assert events[..0] == [];
    for n := 0 to |events|
      invariant rdr.S() == Run(cfg, events[..n]) && rdr.Valid() && rdr.cfg == cfg
      invariant fresh(rdr)
    {
      assert events[..n + 1][..n] == events[..n];
      rdr.Handle(events[n]);
    }
    assert events[..|events|] == events;
  }

  method NextKey(m: map<nat, Packet>, from: nat) returns (r: Option<nat>)
    ensures r.Some? ==> IsNextKey(m, from, r.value)
    ensures r.None? ==> forall k :: k in m ==> k < from
  {
    r := None;
    var rest := m.Keys;
    while rest != {}
      invariant rest <= m.Keys
      invariant r.Some? ==> r.value in m && r.value >= from
      invariant r.Some? ==> forall k :: k in m && k !in rest && k >= from ==> k >= r.value
      invariant r.None? ==> forall k :: k in m && k !in rest ==> k < from
      decreases rest
    {
      var k :| k in rest;
      if k >= from && (r.None? || k < r.value) {
        r := Some(k);
      }
      rest := rest - {k};
    }
  }

  lemma CheckAllParkedEnd(cfg: Config, st: State, i: Interest, manifest: Packet, from: nat)
    requires !st.running || forall k :: k in st.unverified ==> k < from
    ensures M.CheckAllParked(cfg, st, i, manifest, from) == st
  {}

  lemma {:induction false} AllKeepMarks(cfg: Config, st: State, i: Interest, lost: seq<nat>)
    ensures FastRetransmitAll(cfg, st, i, lost).marked == st.marked
    ensures FastRetransmitAll(cfg, st, i, lost).received == st.received
    decreases |lost|
  {
    if lost != [] { AllKeepMarks(cfg, st, i, lost[..|lost| - 1]); }
  }

  /** One segment of the scan against the list of lost segments. */
  ghost method NextLost(cfg: Config, base: State, ideal: State, i: Interest, now: set<nat>, kept: set<nat>, lost: seq<nat>, s: nat)
    returns (ideal': State, lost': seq<nat>)
    requires lost == LostBelow(now, kept, s) && ideal == FastRetransmitAll(cfg, base, i, lost)
    ensures lost' == LostBelow(now, kept, s + 1) && ideal' == FastRetransmitAll(cfg, base, i, lost')
    ensures SetOf(lost') == if IsLost(now, kept, s) then SetOf(lost) + {s} else SetOf(lost)
    ensures ideal' == if IsLost(now, kept, s) then M.FastRetransmit(cfg, ideal, i, s) else ideal
    ensures ideal'.marked == ideal.marked
  {
    ideal', lost' := ideal, lost;
    if IsLost(now, kept, s) {
      lost' := lost + [s];
      ideal' := M.FastRetransmit(cfg, ideal, i, s);
      FastRetransmitNext(cfg, base, i, lost, s);
    }
  }

  lemma FastRetransmitNext(cfg: Config, base: State, i: Interest, lost: seq<nat>, s: nat)
    ensures FastRetransmitAll(cfg, base, i, lost + [s]) == M.FastRetransmit(cfg, FastRetransmitAll(cfg, base, i, lost), i, s)
  {
    assert (lost + [s])[..|lost|] == lost;
  }

  lemma MarksDoNotMatter(cfg: Config, st: State, i: Interest, s: nat, m: set<nat>)
    ensures M.FastRetransmit(cfg, st.(marked := m), i, s) == M.FastRetransmit(cfg, st, i, s).(marked := m)
  {
    assert Retx(st.(marked := m), s) == Retx(st, s);
  }
}
