/** Retrieval of content published with inlined manifests: the manifest that answers the first Interest is the
    end of the conversation. */
module RdrManifest {
  import opened Names
  import opened Options
  import opened LossDetector
  import opened RdrModel
  import opened RdrProgress
  import opened RdrStalls
  import M = ManifestSegmentation

  // ----- while no content is accepted -----

  ghost predicate NoContent(cfg: Config, ev: Event) {
    ev.DataArrives? && ev.i.segment == 0 ==> !IsAccepted(cfg, ev.d)
  }

  /** Only the first segment has been asked for, at most once at a time, and nothing is there to be passed up;
      what was received or parked used up the last Interest. */
  ghost predicate Held(cfg: Config, st: State) {
    && st.payloads == []
    && (!st.running ==> Idle(st))
    && (st.running ==>
        && st.segNumber == 1 && !st.finalKnown && st.finalBlock == MAX_SEGMENT && st.inFlight == |st.pending|
        && st.received <= {0} && st.marked == {} && |st.pending| + |st.timers| <= 1
        && (forall i :: i in st.pending || i in st.timers ==> i.segment == 0 && i.implicitDigest.None?)
        && (Idle(st) || (st.unverified == map[] && st.manifests == map[] && st.receiveBuffer == map[])))
  }

  /** The token of an answered Interest is gone, and it was the only one. */
  ghost predicate Free(st: State) {
    && st.running && st.payloads == [] && Idle(st) && st.inFlight == 0
    && st.segNumber == 1 && !st.finalKnown && st.finalBlock == MAX_SEGMENT
    && st.received <= {0} && st.marked == {}
    && st.unverified == map[] && st.manifests == map[] && st.receiveBuffer == map[]
  }

  lemma OnlyToken(pool: multiset<Interest>, i: Interest)
    requires i in pool && |pool| <= 1
    ensures pool == multiset{i}
  {
    assert pool == (pool - multiset{i}) + multiset{i};
    assert |pool - multiset{i}| == 0;
  }

  lemma TakenIsFree(cfg: Config, st: State, i: Interest)
    requires Held(cfg, st) && st.running && i in st.pending
    ensures Free(st.(pending := st.pending - multiset{i}, inFlight := st.inFlight - 1))
    ensures i.segment == 0 && i.implicitDigest.None?
  {
    OnlyToken(st.pending, i);
  }

  lemma StillNothingLost(received: set<nat>, segment: nat)
    requires received <= {0} && segment == 0
    ensures Exposed(received, {}, segment) == [] && MarkedAfter(received, {}, segment) == {}
  {
    var now := received + {segment};
    assert now == {0};
    assert HighestSpec(now) == 0;
  }

  lemma CheckedIsFree(cfg: Config, st: State, i: Interest)
    requires Free(st) && i.segment == 0
    ensures CheckFastRetransmission(cfg, st, i) == st.(received := {0})
  {
    StillNothingLost(st.received, 0);
    assert st.received + {0} == {0};
  }

  /** What a handler leaves: held, and with no room for a new segment in the window that follows. */
  ghost predicate Answered(cfg: Config, st: State) {
    Held(cfg, st) && st.inFlight >= 0 && FirstWindow(cfg, st) <= -1
  }

  lemma ExpressHolds(cfg: Config, st: State, i: Interest)
    requires Free(st) && i.segment == 0 && i.implicitDigest.None?
    ensures Answered(cfg, Express(st, i))
  {}

  lemma QuietHolds(cfg: Config, st: State, st': State)
    requires Free(st) && st' == st.(window := st'.window, received := {0}, running := st'.running)
    ensures Answered(cfg, st')
  {}

  lemma ScheduleHolds(cfg: Config, st: State, st': State, i: Interest)
    requires Free(st) && i.segment == 0 && i.implicitDigest.None?
    requires st' == st.(window := st'.window, received := {0}, timers := multiset{i})
    ensures Answered(cfg, st')
  {}

  lemma RejectHolds(cfg: Config, st: State, i: Interest, d: Packet)
    requires Free(st) && i.segment == 0 && i.implicitDigest.None?
    ensures Answered(cfg, RetransmitWithExclude(cfg, st, i, d))
  {
    assert st.unverified - {i.segment} == st.unverified;
    ExpressHolds(cfg, st, Interest(i.segment, i.exclude + {d.digest}, None));
  }

  lemma NackHolds(cfg: Config, st: State, i: Interest, d: Packet)
    requires Free(st) && i.segment == 0 && i.implicitDigest.None?
    ensures Answered(cfg, OnNackData(cfg, st, i, d))
  {
    if !IsSecure(cfg, d) {
      RejectHolds(cfg, st, i, d);
    } else {
      CheckedIsFree(cfg, st, i);
      var st' := OnNackData(cfg, st, i, d);
      if d.nackCode == ProducerDelay {
        ScheduleHolds(cfg, st, st', i);
      } else {
        QuietHolds(cfg, st, st');
      }
    }
  }

  lemma ManifestHolds(cfg: Config, st: State, i: Interest, d: Packet)
    requires Free(st) && i.segment == 0 && i.implicitDigest.None?
    ensures Answered(cfg, OnManifestData(cfg, st, i, d))
    ensures IsSecure(cfg, d) ==> OnManifestData(cfg, st, i, d).running && Idle(OnManifestData(cfg, st, i, d))
  {
    if IsSecure(cfg, d) {
      CheckedIsFree(cfg, st, i);
    } else {
      RejectHolds(cfg, st, i, d);
    }
  }

  lemma ContentHolds(cfg: Config, st: State, i: Interest, d: Packet)
    requires Free(st) && i.segment == 0 && i.implicitDigest.None? && d.contentType == Blob && !IsAccepted(cfg, d)
    ensures Answered(cfg, OnContentData(cfg, st, i, d))
  {
    if cfg.verify.Some? && d.locator.ManifestName? {
      assert OnContentData(cfg, st, i, d) == st.(unverified := map[d.segment := d]);
    } else {
      RejectHolds(cfg, st, i, d);
    }
  }

  lemma DispatchHolds(cfg: Config, st: State, i: Interest, d: Packet, st': State)
    requires Free(st) && i.segment == 0 && i.implicitDigest.None? && !IsAccepted(cfg, d) && st' == Dispatch(cfg, st, i, d)
    ensures Answered(cfg, st') && (d.contentType == Manifest && IsSecure(cfg, d) ==> st'.running && Idle(st'))
  {
    match d.contentType {
      case OtherType =>
      case Nack => NackHolds(cfg, st, i, d);
      case Manifest => ManifestHolds(cfg, st, i, d);
      case Blob => ContentHolds(cfg, st, i, d);
    }
  }

  lemma ClosedWindow(cfg: Config, st: State)
    requires Answered(cfg, st)
    ensures var st' := st.(window := FirstWindow(cfg, st)); FillWindow(cfg, st') == st' && Held(cfg, st')
  {}

  lemma OnDataHolds(cfg: Config, st: State, i: Interest, d: Packet, st': State)
    requires Held(cfg, st) && st.running && i in st.pending && NoContent(cfg, DataArrives(i, d))
    requires st' == Step(cfg, st, DataArrives(i, d))
    ensures Held(cfg, st') && (d.contentType == Manifest && IsSecure(cfg, d) ==> st'.running && Idle(st'))
  {
    hide Dispatch, FillWindow, FirstWindow, Held, Answered, IsSecure, IsAccepted;
    var st1 := st.(pending := st.pending - multiset{i}, inFlight := st.inFlight - 1);
    TakenIsFree(cfg, st, i);
    var st2 := Dispatch(cfg, st1, i, d);
    DispatchHolds(cfg, st1, i, d, st2);
    ClosedWindow(cfg, st2);
    assert st' == FillWindow(cfg, st2.(window := FirstWindow(cfg, st2)));
  }

  lemma OnTimeoutHolds(cfg: Config, st: State, i: Interest)
    requires Held(cfg, st) && st.running && i in st.pending
    ensures Held(cfg, OnTimeout(cfg, st.(pending := st.pending - multiset{i}), i))
  {
    TakenIsFree(cfg, st, i);
    var st1 := st.(pending := st.pending - multiset{i}, inFlight := st.inFlight - 1, window := Shrunk(cfg, st.window));
    assert Free(st1);
    ExpressHolds(cfg, st1, Interest(0, i.exclude, None));
    assert Reassemble(st1.(running := false)) == st1.(running := false);
  }

  lemma OnTimerHolds(cfg: Config, st: State, i: Interest)
    requires Held(cfg, st) && st.running && i in st.timers
    ensures Held(cfg, RetransmitFresh(cfg, st.(timers := st.timers - multiset{i}), i))
  {
    OnlyToken(st.timers, i);
    var st1 := st.(timers := multiset{});
    assert Free(st1);
    ExpressHolds(cfg, st1, Interest(0, i.exclude, None));
  }

  lemma StepHolds(cfg: Config, st: State, ev: Event)
    requires Held(cfg, st) && Enabled(st, ev) && NoContent(cfg, ev)
    ensures Held(cfg, Step(cfg, st, ev))
  {
    match ev {
      case DataArrives(i, d) => OnDataHolds(cfg, st, i, d, Step(cfg, st, ev));
      case TimesOut(i) => OnTimeoutHolds(cfg, st, i);
      case NetworkNack(i) => OnTimeoutHolds(cfg, st, i);
      case TimerFires(i) => OnTimerHolds(cfg, st, i);
    }
  }

  // ----- whole runs -----

  lemma {:induction false} RunHolds(cfg: Config, events: seq<Event>, n: nat)
    requires IsRun(cfg, events) && n <= |events| && forall k :: 0 <= k < |events| ==> NoContent(cfg, events[k])
    ensures Held(cfg, Run(cfg, events[..n]))
  {
    if n > 0 {
      RunHolds(cfg, events, n - 1);
      assert events[..n][..n - 1] == events[..n - 1];
      StepHolds(cfg, Run(cfg, events[..n - 1]), events[n - 1]);
    } else {
      assert events[..0] == [];
    }
  }

  ghost predicate IsVerifiedManifest(cfg: Config, ev: Event) {
    ev.DataArrives? && ev.d.contentType == Manifest && IsSecure(cfg, ev.d)
  }

  /** As long as no content is accepted in answer to the first Interest, nothing is ever delivered; and a verified
      manifest among the answers is the last thing that happens: the object runs on, with nothing to wait for. */
  lemma ManifestEndsTheRun(cfg: Config, events: seq<Event>)
    requires IsRun(cfg, events) && forall k :: 0 <= k < |events| ==> NoContent(cfg, events[k])
    ensures Run(cfg, events).payloads == []
    ensures forall k :: 0 <= k < |events| && IsVerifiedManifest(cfg, events[k]) ==>
      k == |events| - 1 && Run(cfg, events).running && Idle(Run(cfg, events))
  {
    assert events[..|events|] == events;
    RunHolds(cfg, events, |events|);
    forall k | 0 <= k < |events| && IsVerifiedManifest(cfg, events[k])
      ensures k == |events| - 1 && Run(cfg, events).running && Idle(Run(cfg, events))
    {
      VerifiedManifestIsLast(cfg, events, k);
    }
  }

  lemma EnabledRuns(cfg: Config, st: State, ev: Event)
    requires Held(cfg, st) && Enabled(st, ev)
    ensures st.running
  {}

  lemma VerifiedManifestIsLast(cfg: Config, events: seq<Event>, k: nat)
    requires IsRun(cfg, events) && forall k :: 0 <= k < |events| ==> NoContent(cfg, events[k])
    requires k < |events| && IsVerifiedManifest(cfg, events[k])
    ensures k == |events| - 1 && Run(cfg, events).running && Idle(Run(cfg, events))
  {
    hide Step, NoContent, Held;
    RunHolds(cfg, events, k);
    var st := Run(cfg, events[..k]);
    assert events[..k + 1][..k] == events[..k];
    assert Enabled(st, events[k]);
    EnabledRuns(cfg, st, events[k]);
    OnDataHolds(cfg, st, events[k].i, events[k].d, Run(cfg, events[..k + 1]));
    IdleIsTheEnd(cfg, events, k + 1);
    assert events[..|events|] == events;
  }

  lemma IdleIsTheEnd(cfg: Config, events: seq<Event>, n: nat)
    requires IsRun(cfg, events) && n <= |events| && Idle(Run(cfg, events[..n]))
    ensures n == |events|
  {}

  // ----- the producer's layout -----

  /** The packet is the published one, as far as the protocol looks at it. */
  ghost predicate Carries(d: Packet, o: M.Output) {
    match o
    case DataOut(number, finalBlockId, content, keyLocator) =>
      d.contentType == Blob && d.segment == number && d.finalBlockId == Some(finalBlockId) && d.content == content &&
      d.locator == ManifestName(keyLocator)
    case ManifestOut(number, finalBlockId, catalogue) =>
      d.contentType == Manifest && d.segment == number && d.finalBlockId == Some(finalBlockId) && d.catalogue == catalogue
  }

  /** Whatever content or manifest passes the check is what the producer published under the number asked for. */
  ghost predicate FromLayout(cfg: Config, out: seq<M.Output>, ev: Event) {
    ev.DataArrives? && IsSecure(cfg, ev.d) && (ev.d.contentType == Blob || ev.d.contentType == Manifest) ==>
      exists o :: o in out && Carries(ev.d, o) && o.number == ev.i.segment
  }

  lemma {:induction false} NotCatalogued(catalogue: seq<CatalogueEntry>, segment: nat)
    requires forall k :: 0 <= k < |catalogue| ==> catalogue[k].segment != segment
    ensures Catalogued(catalogue, segment).None?
  {
    if catalogue != [] { NotCatalogued(catalogue[1..], segment); }
  }

  /** The producer's manifests do not list their own numbers. */
  lemma NoManifestListsItself(wire: M.Wire, chunks: seq<seq<byte>>, groups: seq<nat>, o: M.Output)
    requires M.Sum(groups) <= |chunks| && o in M.Layout(wire, chunks, groups) && o.ManifestOut?
    ensures Catalogued(o.catalogue, o.number).None?
  {
    var g := M.OutputsBelong(wire, chunks, groups, o);
    NotCatalogued(o.catalogue, o.number);
  }

  lemma FirstIsManifest(wire: M.Wire, chunks: seq<seq<byte>>, groups: seq<nat>, o: M.Output)
    requires M.Sum(groups) <= |chunks| && o in M.Layout(wire, chunks, groups) && o.number == 0
    ensures o.ManifestOut?
  {
    var g := M.OutputsBelong(wire, chunks, groups, o);
  }

  /** Content that the producer publishes with inlined manifests is never delivered by this consumer, whatever the
      network does: packet 0 is a manifest. */
  lemma ManifestModeNeverDelivers(cfg: Config, wire: M.Wire, chunks: seq<seq<byte>>, groups: seq<nat>, events: seq<Event>)
    requires M.IsGrouping(groups, |chunks|) && IsRun(cfg, events)
    requires forall k :: 0 <= k < |events| ==> FromLayout(cfg, M.Layout(wire, chunks, groups), events[k])
    ensures Run(cfg, events).payloads == []
    ensures forall k :: 0 <= k < |events| && IsVerifiedManifest(cfg, events[k]) ==>
      k == |events| - 1 && Run(cfg, events).running && Idle(Run(cfg, events))
  {
    forall k | 0 <= k < |events| ensures NoContent(cfg, events[k]) {
      var ev := events[k];
      if ev.DataArrives? && ev.i.segment == 0 && IsAccepted(cfg, ev.d) {
        var o :| o in M.Layout(wire, chunks, groups) && Carries(ev.d, o) && o.number == ev.i.segment;
        FirstIsManifest(wire, chunks, groups, o);
      }
    }
    ManifestEndsTheRun(cfg, events);
  }
}
