/** What each kind of event makes a running object ask for, and what it does to the window. */
module RdrAnswers {
  import opened Names
  import opened Options
  import opened LossDetector
  import opened RdrModel
  import opened RdrChecks
  import S = RdrSafety
  import F = RdrFlow

  // ----- what stays outstanding, and the window -----

  /** Nothing outstanding is forgotten, and the window and what is parked stay as they are. */
  ghost predicate Keeps(st: State, st': State) {
    st.pending <= st'.pending && st'.window == st.window && st'.running == st.running && st'.unverified == st.unverified
  }

  lemma {:induction false} FillKeeps(cfg: Config, st: State)
    ensures Keeps(st, FillWindow(cfg, st))
    decreases st.window - st.inFlight
  {
    if MaySend(st) { FillKeeps(cfg, SendInterest(cfg, st)); }
  }

  /** A segment asked for the first time is asked for with the exclusions of the options. */
  lemma {:induction false} FillAsks(cfg: Config, st: State, s: nat)
    ensures st.segNumber <= s < FillWindow(cfg, st).segNumber ==>
      Interest(s, cfg.exclude, None) in FillWindow(cfg, st).pending
    decreases st.window - st.inFlight
  {
    if MaySend(st) {
      var next := SendInterest(cfg, st);
      assert Interest(st.segNumber, cfg.exclude, None) in next.pending;
      FillKeeps(cfg, next);
      FillAsks(cfg, next, s);
    }
  }

  /** Asked for again, or not counted as such. */
  ghost predicate Asked(st: State, st': State, i: Interest, s: nat) {
    Retx(st', s) == Retx(st, s) || Interest(s, i.exclude, None) in st'.pending
  }

  lemma FastAsks(cfg: Config, st: State, i: Interest, s: nat, st': State)
    requires st.running && st' == FastRetransmit(cfg, st, i, s)
    ensures Keeps(st, st') && (Retx(st, s) < cfg.maxRetx ==> Interest(s, i.exclude, None) in st'.pending)
    ensures forall r: nat :: Asked(st, st', i, r)
  {
    hide Retx;
    if Retx(st, s) < cfg.maxRetx { ExpressAsks(st, Interest(s, i.exclude, None)); }
  }

  lemma ExpressAsks(st: State, i: Interest)
    ensures i in Express(st, i).pending && Keeps(st, Express(st, i))
    ensures forall r: nat :: r != i.segment ==> Retx(Express(st, i), r) == Retx(st, r)
  {}

  lemma AskedStill(st: State, mid: State, st': State, i: Interest)
    requires Keeps(mid, st') && forall r: nat :: Asked(st, mid, i, r)
    requires forall r: nat :: Asked(mid, st', i, r)
    ensures forall r: nat :: Asked(st, st', i, r)
  {
    hide Retx;
    forall r: nat ensures Asked(st, st', i, r) { assert Asked(st, mid, i, r) && Asked(mid, st', i, r); }
  }

  lemma {:induction false} FastAllAsks(cfg: Config, st: State, i: Interest, lost: seq<nat>, st': State)
    requires st.running && st' == FastRetransmitAll(cfg, st, i, lost)
    ensures Keeps(st, st') && forall r: nat :: Asked(st, st', i, r)
    ensures forall k :: 0 <= k < |lost| && Retx(st, lost[k]) < cfg.maxRetx ==> Interest(lost[k], i.exclude, None) in st'.pending
    decreases |lost|
  {
    hide Retx, FastRetransmit;
    if lost != [] {
      var n := |lost| - 1;
      var mid := FastRetransmitAll(cfg, st, i, lost[..n]);
      FastAllAsks(cfg, st, i, lost[..n], mid);
      FastAsks(cfg, mid, i, lost[n], st');
      AskedStill(st, mid, st', i);
      assert Asked(st, mid, i, lost[n]);
      assert forall k :: 0 <= k < n ==> lost[..n][k] == lost[k];
    }
  }

  /** Every segment an arrival exposes as lost is asked for again, within its allowance. */
  lemma LostIsAskedAgain(cfg: Config, st: State, i: Interest)
    requires st.running
    ensures var st' := CheckFastRetransmission(cfg, st, i);
      && Keeps(st, st')
      && forall s :: s in Exposed(st.received, st.marked, i.segment) && Retx(st, s) < cfg.maxRetx ==>
           Interest(s, i.exclude, None) in st'.pending
  {
    var now := st.(received := st.received + {i.segment}, marked := MarkedAfter(st.received, st.marked, i.segment));
    FastAllAsks(cfg, now, i, Exposed(st.received, st.marked, i.segment), CheckFastRetransmission(cfg, st, i));
    assert forall s: nat :: Retx(now, s) == Retx(st, s);
  }

  lemma {:induction false} ReassembleKeepsWindow(st: State)
    ensures Reassemble(st).window == st.window && Reassemble(st).manifests == st.manifests
    decreases |st.receiveBuffer|
  {
    if st.lastReassembled in st.receiveBuffer { ReassembleKeepsWindow(MoveHead(st)); }
  }

  lemma {:induction false} AllParkedKeepsWindow(
      cfg: Config, st: State, i: Interest, manifest: Packet, from: nat, result: State)
    requires result == CheckAllParked(cfg, st, i, manifest, from)
    ensures result.window == st.window && result.manifests == st.manifests
    decreases KeysFrom(st.unverified, from)
  {
    hide CheckParked, NextKeyOf;
    var k := NextKeyOf(st.unverified, from);
    if st.running && k.Some? {
      var d := st.unverified[k.value];
      var next := CheckParked(cfg, st, i, manifest, d);
      ParkedKeepsWindow(cfg, st, i, manifest, d);
      CheckAllParkedNext(cfg, st, i, manifest, from, k.value);
      AllParkedKeepsWindow(cfg, next, i, manifest, k.value + 1, result);
    }
  }

  lemma ParkedKeepsWindow(cfg: Config, st: State, i: Interest, manifest: Packet, d: Packet)
    ensures CheckParked(cfg, st, i, manifest, d).window == st.window
    ensures CheckParked(cfg, st, i, manifest, d).manifests == st.manifests
  {
    hide Reassemble;
    if VerifiedBy(manifest, d) {
      ReassembleKeepsWindow(FinalFrom(st, d).(receiveBuffer := st.receiveBuffer[d.segment := d]));
      assert FinalFrom(st, d).receiveBuffer == st.receiveBuffer;
    }
  }

  // ----- an answer that is turned down -----

  /** The packet is looked at, and fails the check, or is content without a key locator where there is a callback. */
  predicate IsTurnedDown(cfg: Config, st: State, d: Packet) {
    match d.contentType
    case Blob => if cfg.verify.Some? then d.locator.NoLocator? || (d.locator.KeyName? && !Passes(cfg, d)) else !Passes(cfg, d)
    case Manifest => !Passes(cfg, d)
    case Nack => !(st.finalKnown && d.nackSegment > st.finalBlock) && !Passes(cfg, d)
    case OtherType => false
  }

  lemma TurnedDownIs(cfg: Config, st: State, i: Interest, d: Packet)
    requires st.running && IsTurnedDown(cfg, st, d)
    ensures Dispatch(cfg, st, i, d) == RetransmitWithExclude(cfg, st, i, d)
  {}

  lemma ExcludeAsks(cfg: Config, st: State, i: Interest, d: Packet)
    requires st.running
    ensures var st' := RetransmitWithExclude(cfg, st, i, d);
      && (st'.running <==> Retx(st, i.segment) < cfg.maxRetx && |i.exclude| < cfg.maxExcluded)
      && (st'.running ==> Interest(i.segment, i.exclude + {d.digest}, None) in st'.pending)
      && st'.unverified == st.unverified - {i.segment}
  {
    ExpressAsks(st.(unverified := st.unverified - {i.segment}), Interest(i.segment, i.exclude + {d.digest}, None));
  }

  /** Then the segment is asked for again, and not that packet, nor any excluded before; or the run is over.  A packet
      parked for it is forgotten. */
  lemma RejectedIsExcluded(cfg: Config, st: State, i: Interest, d: Packet, st': State)
    requires st.running && i.implicitDigest.None? && IsTurnedDown(cfg, st, d) && st' == Step(cfg, st, DataArrives(i, d))
    ensures st'.running <==> Retx(st, i.segment) < cfg.maxRetx && |i.exclude| < cfg.maxExcluded
    ensures st'.running ==> Interest(i.segment, i.exclude + {d.digest}, None) in st'.pending
    ensures st'.unverified == st.unverified - {i.segment}
  {
    hide Dispatch, FillWindow, FirstWindow, RetransmitWithExclude;
    var st1 := st.(pending := st.pending - multiset{i}, inFlight := st.inFlight - 1);
    TurnedDownIs(cfg, st1, i, d);
    ExcludeAsks(cfg, st1, i, d);
    var st2 := Dispatch(cfg, st1, i, d);
    FillKeeps(cfg, if i.segment == 0 then st2.(window := FirstWindow(cfg, st2)) else st2);
  }

  /** Content that refers to a manifest which is there and lists another digest, or none, is not accepted.  With the
      first listed digest it is asked for again; without one the run is over. */
  lemma ForgedIsAskedAgain(cfg: Config, st: State, i: Interest, d: Packet, st': State)
    requires st.running && cfg.verify.Some? && i.implicitDigest.None? && d.contentType == Blob && d.locator.ManifestName?
    requires d.locator.segment in st.manifests && !IsListed(st.manifests[d.locator.segment], d)
    requires st' == Step(cfg, st, DataArrives(i, d))
    ensures S.Untouched(st, st')
    ensures forall g: Digest :: IsListed(st.manifests[d.locator.segment], d.(digest := g)) ==>
      && (st'.running <==> Retx(st, i.segment) < cfg.maxRetx)
      && (st'.running ==> Interest(i.segment, cfg.exclude, Some(g)) in st'.pending)
    ensures (forall k :: 0 <= k < |st.manifests[d.locator.segment].catalogue| ==>
      st.manifests[d.locator.segment].catalogue[k].segment != d.segment) ==> !st'.running
  {
    hide FillWindow, FirstWindow, Dispatch, RetransmitWithDigest, IsListed, Catalogued;
    var m := st.manifests[d.locator.segment];
    var st1 := st.(pending := st.pending - multiset{i}, inFlight := st.inFlight - 1);
    var st2 := Dispatch(cfg, st1, i, d);
    ForgedIs(cfg, st1, i, d);
    DigestAsks(cfg, st1, i, d, m);
    S.DigestIsUntouched(cfg, st1, i, d, m);
    var st3 := if i.segment == 0 then st2.(window := FirstWindow(cfg, st2)) else st2;
    FillKeeps(cfg, st3);
    S.FillIsUntouched(cfg, st3);
  }

  lemma DigestAsks(cfg: Config, st: State, i: Interest, d: Packet, m: Packet)
    requires st.running
    ensures var st' := RetransmitWithDigest(cfg, st, i, d, m);
      && (forall g: Digest :: IsListed(m, d.(digest := g)) ==>
           && (st'.running <==> Retx(st, i.segment) < cfg.maxRetx)
           && (st'.running ==> Interest(i.segment, cfg.exclude, Some(g)) in st'.pending))
      && ((forall k :: 0 <= k < |m.catalogue| ==> m.catalogue[k].segment != d.segment) ==> !st'.running)
  {
    hide IsListed;
    CataloguedAt(m.catalogue, d.segment);
    forall g: Digest | IsListed(m, d.(digest := g)) ensures Catalogued(m.catalogue, d.segment) == Some(g) {
      VerifiedByIff(m, d.(digest := g));
    }
    var digest := Catalogued(m.catalogue, d.segment);
    ExpressAsks(st.(unverified := st.unverified - {i.segment}), Interest(i.segment, cfg.exclude, digest));
  }

  lemma ForgedIs(cfg: Config, st: State, i: Interest, d: Packet)
    requires cfg.verify.Some? && d.contentType == Blob && d.locator.ManifestName?
    requires d.locator.segment in st.manifests && !IsListed(st.manifests[d.locator.segment], d)
    ensures Dispatch(cfg, st, i, d) == RetransmitWithDigest(cfg, st, i, d, st.manifests[d.locator.segment])
  {
    VerifiedByIff(st.manifests[d.locator.segment], d);
  }

  /** Content that refers to a manifest which is not there is parked; the first one parked for a number stays. */
  lemma FirstStaysParked(cfg: Config, st: State, i: Interest, d: Packet, st': State)
    requires st.running && cfg.verify.Some? && i.implicitDigest.None? && d.contentType == Blob && d.locator.ManifestName?
    requires d.locator.segment !in st.manifests && st' == Step(cfg, st, DataArrives(i, d))
    ensures forall k :: k in st.unverified ==> k in st'.unverified && st'.unverified[k] == st.unverified[k]
    ensures st'.unverified.Keys == st.unverified.Keys + {d.segment}
    ensures d.segment !in st.unverified ==> st'.unverified[d.segment] == d
    ensures st'.receiveBuffer == st.receiveBuffer && st'.running
  {
    hide FillWindow, FirstWindow;
    var st1 := st.(pending := st.pending - multiset{i}, inFlight := st.inFlight - 1);
    var st2 := Dispatch(cfg, st1, i, d);
    var st3 := if i.segment == 0 then st2.(window := FirstWindow(cfg, st2)) else st2;
    FillKeeps(cfg, st3);
    S.FillIsUntouched(cfg, st3);
  }

  /** The token is gone, and nothing else has changed. */
  ghost predicate OnlyTaken(st: State, i: Interest, st': State) {
    st' == st.(pending := st.pending - multiset{i}, inFlight := st.inFlight - 1)
  }

  /** Interests with an implicit digest, and those past the last segment, are not asked for again. */
  lemma LateTimeoutIsIgnored(cfg: Config, st: State, i: Interest, ev: Event)
    requires st.running && (ev == TimesOut(i) || ev == NetworkNack(i))
    requires i.implicitDigest.Some? || (st.finalKnown && i.segment > st.finalBlock)
    ensures OnlyTaken(st, i, Step(cfg, st, ev))
  {}

  /** Nothing is done with answers to Interests that carry a digest; with unknown types and nacks past the last
      segment, only the window is filled. */
  lemma OtherAnswersAreIgnored(cfg: Config, st: State, i: Interest, d: Packet)
    requires st.running
    requires i.implicitDigest.Some? || d.contentType == OtherType ||
      (d.contentType == Nack && st.finalKnown && d.nackSegment > st.finalBlock)
    ensures var st' := Step(cfg, st, DataArrives(i, d));
      && S.Untouched(st, st') && st'.running && st'.received == st.received && st'.timers == st.timers
      && (i.implicitDigest.Some? ==> OnlyTaken(st, i, st'))
  {
    hide FillWindow, FirstWindow;
    var st1 := st.(pending := st.pending - multiset{i}, inFlight := st.inFlight - 1);
    var st2 := if i.segment == 0 then st1.(window := FirstWindow(cfg, st1)) else st1;
    FillKeeps(cfg, st2);
    FillKeepsTimers(cfg, st2);
    FillKeepsReceived(cfg, st2);
    S.FillIsUntouched(cfg, st2);
  }

  lemma {:induction false} FillKeepsReceived(cfg: Config, st: State)
    ensures FillWindow(cfg, st).received == st.received
    decreases st.window - st.inFlight
  {
    if MaySend(st) { FillKeepsReceived(cfg, SendInterest(cfg, st)); }
  }

  /** An object that gives up at a timeout passes up what it has, when a segment follows that it had not put together. */
  lemma GivingUpPassesUp(cfg: Config, st: State, i: Interest)
    requires st.running && i.implicitDigest.None? && !(st.finalKnown && i.segment > st.finalBlock)
    requires Retx(st, i.segment) >= cfg.maxRetx
    requires st.lastReassembled in st.receiveBuffer && st.lastReassembled + 1 !in st.receiveBuffer
    ensures var d := st.receiveBuffer[st.lastReassembled];
      Step(cfg, st, TimesOut(i)).payloads ==
        st.payloads + if d.contentType == Blob then [st.contentBuffer + d.content] else []
  {
    hide Reassemble, Shrunk, Express, Retx;
    var stopped := st.(pending := st.pending - multiset{i}, inFlight := st.inFlight - 1,
                       window := Shrunk(cfg, st.window), running := false);
    SameRetx(st, stopped.(running := true), i.segment);
    StoppedPassesUp(stopped);
    assert Step(cfg, st, TimesOut(i)) == Reassemble(stopped);
  }

  lemma StoppedPassesUp(st: State)
    requires !st.running && st.lastReassembled in st.receiveBuffer && st.lastReassembled + 1 !in st.receiveBuffer
    ensures var d := st.receiveBuffer[st.lastReassembled];
      Reassemble(st).payloads == st.payloads + if d.contentType == Blob then [st.contentBuffer + d.content] else []
  {
    assert Reassemble(st) == Reassemble(MoveHead(st)) == MoveHead(st);
  }

  // ----- the window -----

  /** A window above the minimum is halved, but never to nothing. */
  predicate IsLowered(cfg: Config, window: int, window': int) {
    && (window <= cfg.minWindow ==> window' == window)
    && (window > cfg.minWindow && window >= 2 ==> window' == window / 2 < window)
    && (window > cfg.minWindow && 0 <= window <= 1 ==> window' == 1)
  }

  predicate IsRaised(cfg: Config, window: int, window': int) {
    window' == if window < cfg.maxWindow then window + 1 else window
  }

  /** A timeout or network nack lowers the window, and the segment is asked for again as it was; or the run is over. */
  lemma TimeoutLowers(cfg: Config, st: State, i: Interest, ev: Event, st': State)
    requires st.running && i.implicitDigest.None? && !(st.finalKnown && i.segment > st.finalBlock)
    requires (ev == TimesOut(i) || ev == NetworkNack(i)) && st' == Step(cfg, st, ev)
    ensures IsLowered(cfg, st.window, st'.window)
    ensures st'.running <==> Retx(st, i.segment) < cfg.maxRetx
    ensures st'.running ==> Interest(i.segment, i.exclude, None) in st'.pending
  {
    hide Express, Reassemble, Shrunk, Retx;
    ShrunkIsLowered(cfg, st.window);
    var st1 := st.(pending := st.pending - multiset{i}, inFlight := st.inFlight - 1, window := Shrunk(cfg, st.window));
    SameRetx(st, st1, i.segment);
    var stopped := st1.(running := false);
    ReassembleKeepsWindow(stopped);
    F.ReassembleSettles(stopped);
    ExpressAsks(st1, Interest(i.segment, i.exclude, None));
  }

  lemma SameRetx(st: State, st': State, s: nat)
    requires st'.retx == st.retx
    ensures Retx(st', s) == Retx(st, s)
  {}

  lemma ShrunkIsLowered(cfg: Config, window: int)
    ensures IsLowered(cfg, window, Shrunk(cfg, window))
  {}

  /** A scheduled retransmission asks for the segment as it was asked for, and leaves the window alone. */
  lemma TimerAsksAgain(cfg: Config, st: State, i: Interest, st': State)
    requires st.running && st' == Step(cfg, st, TimerFires(i))
    ensures st'.window == st.window && (st'.running <==> Retx(st, i.segment) < cfg.maxRetx)
    ensures st'.running ==> Interest(i.segment, i.exclude, None) in st'.pending
  {
    var st1 := st.(timers := st.timers - multiset{i});
    SameRetx(st, st1, i.segment);
    ExpressAsks(st1, Interest(i.segment, i.exclude, None));
  }

  /** A verified nack in answer to a later segment lowers it too. */
  lemma NackLowers(cfg: Config, st: State, i: Interest, d: Packet, st': State)
    requires st.running && i.implicitDigest.None? && i.segment != 0 && d.contentType == Nack && Passes(cfg, d)
    requires !(st.finalKnown && d.nackSegment > st.finalBlock) && st' == Step(cfg, st, DataArrives(i, d))
    ensures IsLowered(cfg, st.window, st'.window)
    ensures st'.running <==> d.nackCode != DataNotAvailable
    ensures st'.running && d.nackCode == ProducerDelay ==> i in st'.timers
  {
    hide FillWindow, Dispatch, Shrunk;
    var st1 := st.(pending := st.pending - multiset{i}, inFlight := st.inFlight - 1);
    ShrunkIsLowered(cfg, st.window);
    NackIs(cfg, st1, i, d);
    var st2 := Dispatch(cfg, st1, i, d);
    FillKeeps(cfg, st2);
    FillKeepsTimers(cfg, st2);
  }

  lemma NackIs(cfg: Config, st: State, i: Interest, d: Packet)
    requires st.running && d.contentType == Nack && Passes(cfg, d) && !(st.finalKnown && d.nackSegment > st.finalBlock)
    ensures var st' := Dispatch(cfg, st, i, d);
      && st'.window == Shrunk(cfg, st.window) && (st'.running <==> d.nackCode != DataNotAvailable)
      && (d.nackCode == ProducerDelay ==> i in st'.timers)
  {
    hide CheckFastRetransmission, Shrunk;
    LostIsAskedAgain(cfg, st, i);
  }

  lemma {:induction false} FillKeepsTimers(cfg: Config, st: State)
    ensures FillWindow(cfg, st).timers == st.timers
    decreases st.window - st.inFlight
  {
    if MaySend(st) { FillKeepsTimers(cfg, SendInterest(cfg, st)); }
  }

  /** Content that passes, in answer to a later segment, raises it; so does a manifest that passes. */
  lemma AcceptedRaises(cfg: Config, st: State, i: Interest, d: Packet, st': State)
    requires st.running && i.implicitDigest.None? && i.segment != 0 && Passes(cfg, d)
    requires d.contentType == Manifest || (d.contentType == Blob && (cfg.verify.None? || d.locator.KeyName?))
    requires st' == Step(cfg, st, DataArrives(i, d))
    ensures IsRaised(cfg, st.window, st'.window)
  {
    hide FillWindow, Dispatch;
    var st1 := st.(pending := st.pending - multiset{i}, inFlight := st.inFlight - 1);
    var st2 := Dispatch(cfg, st1, i, d);
    if d.contentType == Manifest { ManifestRaises(cfg, st1, i, d); } else { ContentRaises(cfg, st1, i, d); }
    FillKeeps(cfg, st2);
  }

  lemma ContentRaises(cfg: Config, st: State, i: Interest, d: Packet)
    requires st.running && d.contentType == Blob && Passes(cfg, d) && (cfg.verify.None? || d.locator.KeyName?)
    ensures IsRaised(cfg, st.window, Dispatch(cfg, st, i, d).window)
  {
    hide CheckFastRetransmission, Reassemble;
    LostIsAskedAgain(cfg, st, i);
    var st1 := CheckFastRetransmission(cfg, st, i);
    var st2 := FinalFrom(st1.(window := Grown(cfg, st1.window)), d);
    ReassembleKeepsWindow(st2.(receiveBuffer := st2.receiveBuffer[d.segment := d]));
  }

  /** The first manifest that passes for a number stays. */
  lemma ManifestRaises(cfg: Config, st: State, i: Interest, d: Packet)
    requires st.running && d.contentType == Manifest && Passes(cfg, d)
    ensures var st' := Dispatch(cfg, st, i, d);
      && IsRaised(cfg, st.window, st'.window)
      && (forall k :: k in st.manifests ==> k in st'.manifests && st'.manifests[k] == st.manifests[k])
      && d.segment in st'.manifests && (d.segment !in st.manifests ==> st'.manifests[d.segment] == d)
  {
    hide CheckFastRetransmission, CheckAllParked;
    S.CheckFastIsUntouched(cfg, st, i);
    LostIsAskedAgain(cfg, st, i);
    var st1 := CheckFastRetransmission(cfg, st, i);
    var st2 := st1.(window := Grown(cfg, st1.window),
                    manifests := if d.segment in st1.manifests then st1.manifests else st1.manifests[d.segment := d],
                    receiveBuffer := st1.receiveBuffer[d.segment := d]);
    AllParkedKeepsWindow(cfg, st2, i, d, 0, OnManifestData(cfg, st, i, d));
  }

  /** The first answer that tells the last number opens the window for all the rest, up to the maximum. */
  lemma FirstAnswerOpens(cfg: Config, st: State, i: Interest, d: Packet, st': State)
    requires st.running && i.implicitDigest.None? && i.segment == 0 && st' == Step(cfg, st, DataArrives(i, d))
    requires st'.finalBlock < 0x8000_0000
    ensures st'.window == if st'.finalBlock > cfg.maxWindow then cfg.maxWindow else st'.finalBlock
    ensures st'.running ==> !(st'.inFlight < st'.window && (!st'.finalKnown || st'.segNumber <= st'.finalBlock))
  {
    hide Dispatch, FillWindow;
    var st1 := st.(pending := st.pending - multiset{i}, inFlight := st.inFlight - 1);
    var st2 := Dispatch(cfg, st1, i, d);
    var st3 := st2.(window := FirstWindow(cfg, st2));
    FillKeeps(cfg, st3);
    FillEnds(cfg, st3);
  }

  /** The sending loop only ends when the window is full or everything is asked for. */
  lemma {:induction false} FillEnds(cfg: Config, st: State)
    ensures var st' := FillWindow(cfg, st);
      && !(st'.inFlight < st'.window && (!st'.finalKnown || st'.segNumber <= st'.finalBlock))
      && st'.finalBlock == st.finalBlock && st'.finalKnown == st.finalKnown
    decreases st.window - st.inFlight
  {
    if MaySend(st) { FillEnds(cfg, SendInterest(cfg, st)); }
  }
}
