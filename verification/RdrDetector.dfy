/** The loss detector over whole runs of reliable retrieval, in both modes and with any packets. */
module RdrDetector {
  import opened Lists
  import opened LossDetector
  import opened RdrModel

  /** The answers that the detector is told of. */
  ghost predicate IsChecked(cfg: Config, st: State, ev: Event) {
    ev.DataArrives? && st.running && ev.i.implicitDigest.None? &&
    match ev.d.contentType
    case Manifest => IsSecure(cfg, ev.d)
    case Nack => IsSecure(cfg, ev.d) && !(st.finalKnown && ev.d.nackSegment > st.finalBlock)
    case Blob =>
      if cfg.verify.Some? && !ev.d.locator.KeyName? then
        ev.d.locator.ManifestName? && ev.d.locator.segment in st.manifests &&
        VerifiedBy(st.manifests[ev.d.locator.segment], ev.d)
      else IsSecure(cfg, ev.d)
    case OtherType => false
  }

  ghost predicate SameMarks(st: State, st': State) {
    st'.received == st.received && st'.marked == st.marked
  }

  lemma {:induction false} FillKeepsMarks(cfg: Config, st: State)
    ensures SameMarks(st, FillWindow(cfg, st))
    decreases st.window - st.inFlight
  {
    if MaySend(st) { FillKeepsMarks(cfg, SendInterest(cfg, st)); }
  }

  lemma {:induction false} FastAllKeepsMarks(cfg: Config, st: State, i: Interest, lost: seq<nat>)
    ensures SameMarks(st, FastRetransmitAll(cfg, st, i, lost))
    decreases |lost|
  {
    if lost != [] { FastAllKeepsMarks(cfg, st, i, lost[..|lost| - 1]); }
  }

  lemma {:induction false} ReassembleKeepsMarks(st: State)
    ensures SameMarks(st, Reassemble(st))
    decreases |st.receiveBuffer|
  {
    if st.lastReassembled in st.receiveBuffer {
      ReassembleKeepsMarks(MoveHead(st));
    }
  }

  lemma ParkedKeepsMarks(cfg: Config, st: State, i: Interest, manifest: Packet, d: Packet)
    ensures SameMarks(st, CheckParked(cfg, st, i, manifest, d))
  {
    if VerifiedBy(manifest, d) {
      var st1 := FinalFrom(st, d);
      ReassembleKeepsMarks(st1.(receiveBuffer := st1.receiveBuffer[d.segment := d]));
    }
  }

  lemma {:induction false} AllParkedKeepsMarks(cfg: Config, st: State, i: Interest, manifest: Packet, from: nat, result: State)
    requires result == CheckAllParked(cfg, st, i, manifest, from)
    ensures SameMarks(st, result)
    decreases KeysFrom(st.unverified, from)
  {
    hide CheckParked, NextKeyOf;
    var k := NextKeyOf(st.unverified, from);
    if st.running && k.Some? {
      var next := CheckParked(cfg, st, i, manifest, st.unverified[k.value]);
      ParkedKeepsMarks(cfg, st, i, manifest, st.unverified[k.value]);
      CheckAllParkedNext(cfg, st, i, manifest, from, k.value);
      AllParkedKeepsMarks(cfg, next, i, manifest, k.value + 1, result);
    }
  }

  /** The detector's sets after an arrival. */
  ghost predicate Marked(st: State, segment: nat, st': State) {
    st'.received == st.received + {segment} && st'.marked == MarkedAfter(st.received, st.marked, segment)
  }

  lemma CheckMarks(cfg: Config, st: State, i: Interest)
    ensures Marked(st, i.segment, CheckFastRetransmission(cfg, st, i))
  {
    FastAllKeepsMarks(cfg,
      st.(received := st.received + {i.segment}, marked := MarkedAfter(st.received, st.marked, i.segment)), i,
      Exposed(st.received, st.marked, i.segment));
  }

  lemma AcceptMarks(cfg: Config, st: State, i: Interest, d: Packet)
    ensures Marked(st, i.segment, AcceptContent(cfg, st, i, d))
  {
    CheckMarks(cfg, st, i);
    var st1 := CheckFastRetransmission(cfg, st, i);
    var st2 := FinalFrom(st1.(window := Grown(cfg, st1.window)), d);
    ReassembleKeepsMarks(st2.(receiveBuffer := st2.receiveBuffer[d.segment := d]));
  }

  lemma ManifestMarks(cfg: Config, st: State, i: Interest, d: Packet)
    requires st.running && IsSecure(cfg, d)
    ensures Marked(st, i.segment, OnManifestData(cfg, st, i, d))
  {
    CheckMarks(cfg, st, i);
    var st1 := CheckFastRetransmission(cfg, st, i);
    var st2 := st1.(window := Grown(cfg, st1.window),
                    manifests := if d.segment in st1.manifests then st1.manifests else st1.manifests[d.segment := d],
                    receiveBuffer := st1.receiveBuffer[d.segment := d]);
    AllParkedKeepsMarks(cfg, st2, i, d, 0, OnManifestData(cfg, st, i, d));
  }

  lemma RejectKeepsMarks(cfg: Config, st: State, i: Interest, d: Packet, manifest: Packet)
    ensures SameMarks(st, RetransmitWithExclude(cfg, st, i, d))
    ensures SameMarks(st, RetransmitWithDigest(cfg, st, i, d, manifest))
  {}

  lemma NackMarks(cfg: Config, st: State, i: Interest, d: Packet, st': State)
    requires st.running && d.contentType == Nack && st' == OnNackData(cfg, st, i, d)
    ensures if IsSecure(cfg, d) && !(st.finalKnown && d.nackSegment > st.finalBlock)
      then Marked(st, i.segment, st') else SameMarks(st, st')
  {
    hide CheckFastRetransmission, MarkedAfter, IsSecure, Shrunk, RetransmitWithExclude;
    if IsSecure(cfg, d) && !(st.finalKnown && d.nackSegment > st.finalBlock) {
      var st1 := CheckFastRetransmission(cfg, st, i);
      assert SameMarks(st1, st');
      CheckMarks(cfg, st, i);
    } else {
      RejectKeepsMarks(cfg, st, i, d, d);
    }
  }

  lemma ContentMarks(cfg: Config, st: State, i: Interest, d: Packet, st': State)
    requires st.running && i.implicitDigest.None? && d.contentType == Blob && st' == OnContentData(cfg, st, i, d)
    ensures if IsChecked(cfg, st, DataArrives(i, d)) then Marked(st, i.segment, st') else SameMarks(st, st')
  {
    hide AcceptContent, RetransmitWithExclude, RetransmitWithDigest, Marked, IsSecure, VerifiedBy;
    AcceptMarks(cfg, st, i, d);
    forall manifest: Packet ensures SameMarks(st, RetransmitWithDigest(cfg, st, i, d, manifest)) {
      RejectKeepsMarks(cfg, st, i, d, manifest);
    }
    RejectKeepsMarks(cfg, st, i, d, d);
  }

  lemma DispatchMarks(cfg: Config, st: State, i: Interest, d: Packet, st': State)
    requires st.running && i.implicitDigest.None? && st' == Dispatch(cfg, st, i, d)
    ensures if IsChecked(cfg, st, DataArrives(i, d)) then Marked(st, i.segment, st') else SameMarks(st, st')
  {
    match d.contentType {
      case OtherType =>
      case Nack => NackMarks(cfg, st, i, d, st');
      case Manifest => if IsSecure(cfg, d) { ManifestMarks(cfg, st, i, d); }
      case Blob => ContentMarks(cfg, st, i, d, st');
    }
  }

  lemma DataMarks(cfg: Config, st: State, i: Interest, d: Packet, st': State)
    requires st' == Step(cfg, st, DataArrives(i, d))
    ensures if IsChecked(cfg, st, DataArrives(i, d)) then Marked(st, i.segment, st') else SameMarks(st, st')
  {
    hide Dispatch, FillWindow, FirstWindow, MarkedAfter, IsSecure, VerifiedBy;
    if st.running && i.implicitDigest.None? {
      var st1 := st.(pending := st.pending - multiset{i}, inFlight := st.inFlight - 1);
      var st2 := Dispatch(cfg, st1, i, d);
      DispatchMarks(cfg, st1, i, d, st2);
      FillKeepsMarks(cfg, if i.segment == 0 then st2.(window := FirstWindow(cfg, st2)) else st2);
    }
  }

  lemma TimeoutKeepsMarks(cfg: Config, st: State, i: Interest)
    ensures SameMarks(st, OnTimeout(cfg, st, i))
  {
    hide Reassemble, Shrunk, Retx;
    ReassembleKeepsMarks(st.(inFlight := st.inFlight - 1, window := Shrunk(cfg, st.window), running := false));
  }

  lemma StepMarks(cfg: Config, st: State, ev: Event, st': State)
    requires st' == Step(cfg, st, ev)
    ensures if IsChecked(cfg, st, ev) then Marked(st, ev.i.segment, st') else SameMarks(st, st')
  {
    hide MarkedAfter, OnTimeout, OnData;
    match ev {
      case DataArrives(i, d) => DataMarks(cfg, st, i, d, st');
      case TimesOut(i) => TimeoutKeepsMarks(cfg, st.(pending := st.pending - multiset{i}), i);
      case NetworkNack(i) => TimeoutKeepsMarks(cfg, st.(pending := st.pending - multiset{i}), i);
      case TimerFires(i) =>
    }
  }

  // ----- whole runs -----

  /** The segments of the answers the detector was told of, in order. */
  ghost function Checked(cfg: Config, events: seq<Event>): seq<nat> {
    if events == [] then []
    else
      var n := |events| - 1;
      var before := Checked(cfg, events[..n]);
      if IsChecked(cfg, Run(cfg, events[..n]), events[n]) then before + [events[n].i.segment] else before
  }

  /** The segments handed to fast retransmission, in order; each is requested again within its allowance. */
  ghost function FastRetransmitted(cfg: Config, events: seq<Event>): seq<nat> {
    if events == [] then []
    else
      var n := |events| - 1;
      var st, before := Run(cfg, events[..n]), FastRetransmitted(cfg, events[..n]);
      if IsChecked(cfg, st, events[n]) then before + Exposed(st.received, st.marked, events[n].i.segment) else before
  }

  ghost predicate Agrees(st: State, fast: seq<nat>, arrivals: seq<nat>) {
    var h := Lifetime(arrivals);
    st.received == h.received && st.marked == h.marked && fast == h.requested
  }

  lemma AgreesNext(st: State, fast: seq<nat>, arrivals: seq<nat>, segment: nat, st': State, fast': seq<nat>, arrivals': seq<nat>)
    requires Agrees(st, fast, arrivals) && Marked(st, segment, st')
    requires fast' == fast + Exposed(st.received, st.marked, segment) && arrivals' == arrivals + [segment]
    ensures Agrees(st', fast', arrivals')
  {
    assert arrivals'[..|arrivals|] == arrivals;
  }

  lemma AgreesStill(st: State, st': State, fast: seq<nat>, arrivals: seq<nat>)
    requires Agrees(st, fast, arrivals) && SameMarks(st, st')
    ensures Agrees(st', fast, arrivals)
  {}

  /** An object's detector is that of the arrivals it was told of. */
  lemma {:induction false} RunIsLifetime(cfg: Config, events: seq<Event>)
    ensures Agrees(Run(cfg, events), FastRetransmitted(cfg, events), Checked(cfg, events))
  {
    if events != [] {
      var n := |events| - 1;
      var st, fast, arrivals := Run(cfg, events[..n]), FastRetransmitted(cfg, events[..n]), Checked(cfg, events[..n]);
      var st', fast', arrivals' := Run(cfg, events), FastRetransmitted(cfg, events), Checked(cfg, events);
      RunIsLifetime(cfg, events[..n]);
      StepMarks(cfg, st, events[n], st');
      if IsChecked(cfg, st, events[n]) {
        AgreesNext(st, fast, arrivals, events[n].i.segment, st', fast', arrivals');
      } else {
        AgreesStill(st, st', fast, arrivals);
      }
    }
  }

  /** Over every run, in both modes: no segment is fast-retransmitted twice, and between events no missing
      unmarked segment has three received ones above it. */
  lemma FastRetransmittedOnce(cfg: Config, events: seq<Event>)
    ensures NoRepeats(FastRetransmitted(cfg, events))
    ensures Settled(Run(cfg, events).received, Run(cfg, events).marked)
  {
    RunIsLifetime(cfg, events);
    RequestedOnce(Checked(cfg, events));
  }
}
