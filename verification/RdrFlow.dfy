/** Flow control over whole runs of reliable retrieval, in both modes and with any packets: what is in flight, how
    large the window is, and how often a segment is requested. */
module RdrFlow {
  import opened Options
  import opened LossDetector
  import opened RdrModel
  import opened RdrPlain

  /** While the object runs, the counter is the number of outstanding Interests, and the window within its maximum. */
  ghost predicate Flows(cfg: Config, st: State) {
    st.running ==> st.inFlight == |st.pending| && (cfg.maxWindow >= 1 ==> st.window <= cfg.maxWindow)
  }

  ghost predicate Below(segments: set<nat>, pool: multiset<Interest>, n: nat) {
    (forall s :: s in segments ==> s < n) && forall i :: i in pool ==> i.segment < n
  }

  /** Whatever was received, is outstanding or scheduled was requested, and requested within the allowance. */
  ghost predicate Asks(cfg: Config, st: State) {
    RetxOk(cfg, st) && Below(st.received, st.pending, st.segNumber) && Below({}, st.timers, st.segNumber)
  }

  ghost predicate Sound(cfg: Config, st: State) {
    Flows(cfg, st) && Asks(cfg, st)
  }

  /** Neither the counters nor what was received has changed; perhaps the run is over. */
  ghost predicate SameCounters(st: State, st': State) {
    && st'.inFlight == st.inFlight && st'.window == st.window && st'.segNumber == st.segNumber
    && st'.retx == st.retx && st'.requests == st.requests && st'.received == st.received && (st'.running ==> st.running)
  }

  /** Nor has what is outstanding or scheduled, unless the run ends with nothing of either. */
  ghost predicate Settles(st: State, st': State) {
    && SameCounters(st, st')
    && ((st'.pending == st.pending && st'.timers == st.timers) ||
        (!st'.running && st'.pending == multiset{} && st'.timers == multiset{}))
  }

  lemma SettlesSound(cfg: Config, st: State, st': State)
    requires Sound(cfg, st) && Settles(st, st')
    ensures Sound(cfg, st') && st'.segNumber == st.segNumber
  {
    assert forall s: nat :: Count(st'.requests, s) == Count(st.requests, s);
  }

  lemma MoveSettles(st: State)
    requires st.lastReassembled in st.receiveBuffer
    ensures Settles(st, MoveHead(st))
  {
    hide CopyContent;
    CopySettles(st, st.receiveBuffer[st.lastReassembled]);
  }

  lemma CopySettles(st: State, d: Packet)
    ensures Settles(st, CopyContent(st, d))
  {}

  lemma {:induction false} ReassembleSettles(st: State)
    ensures Settles(st, Reassemble(st))
    decreases |st.receiveBuffer|
  {
    hide MoveHead;
    if st.lastReassembled in st.receiveBuffer {
      MoveSettles(st);
      ReassembleSettles(MoveHead(st));
    }
  }

  // ----- expressing Interests -----

  lemma ExpressSound(cfg: Config, st: State, i: Interest)
    requires Sound(cfg, st) && st.running && i.segment < st.segNumber && Retx(st, i.segment) < cfg.maxRetx
    ensures Sound(cfg, Express(st, i)) && Express(st, i).segNumber == st.segNumber
  {
    var st' := Express(st, i);
    forall s: nat ensures Count(st'.requests, s) == if s in st'.retx then 1 + st'.retx[s] else 0 {
      CountNext(st.requests, i.segment, s);
    }
  }

  lemma SendSound(cfg: Config, st: State)
    requires Sound(cfg, st)
    ensures Sound(cfg, SendInterest(cfg, st))
  {
    var st' := SendInterest(cfg, st);
    forall s: nat ensures Count(st'.requests, s) == if s in st'.retx then 1 + st'.retx[s] else 0 {
      CountNext(st.requests, st.segNumber, s);
    }
  }

  /** First-time Interests are only sent below the window. */
  lemma {:induction false} FillSound(cfg: Config, st: State)
    requires Sound(cfg, st)
    ensures var st' := FillWindow(cfg, st);
      && Sound(cfg, st') && st'.window == st.window && st'.segNumber >= st.segNumber
      && if MaySend(st) then st'.inFlight <= st'.window else st' == st
    decreases st.window - st.inFlight
  {
    if MaySend(st) {
      SendSound(cfg, st);
      FillSound(cfg, SendInterest(cfg, st));
    }
  }

  lemma {:induction false} FastAllSound(cfg: Config, st: State, i: Interest, lost: seq<nat>)
    requires Sound(cfg, st) && forall k :: 0 <= k < |lost| ==> lost[k] < st.segNumber
    ensures var st' := FastRetransmitAll(cfg, st, i, lost);
      Sound(cfg, st') && st'.segNumber == st.segNumber && st'.running == st.running
    decreases |lost|
  {
    hide Sound;
    if lost != [] {
      var s := lost[|lost| - 1];
      FastAllSound(cfg, st, i, lost[..|lost| - 1]);
      var mid := FastRetransmitAll(cfg, st, i, lost[..|lost| - 1]);
      if Retx(mid, s) < cfg.maxRetx && mid.running { ExpressSound(cfg, mid, Interest(s, i.exclude, None)); }
    }
  }

  lemma CheckFastSound(cfg: Config, st: State, i: Interest)
    requires Sound(cfg, st) && i.segment < st.segNumber
    ensures var st' := CheckFastRetransmission(cfg, st, i);
      Sound(cfg, st') && st'.segNumber == st.segNumber && st'.running == st.running
  {
    var now := st.(received := st.received + {i.segment}, marked := MarkedAfter(st.received, st.marked, i.segment));
    var lost := Exposed(st.received, st.marked, i.segment);
    forall k | 0 <= k < |lost| ensures lost[k] < st.segNumber { assert lost[k] in lost; }
    FastAllSound(cfg, now, i, lost);
  }

  // ----- the handlers -----

  lemma ExcludeSound(cfg: Config, st: State, i: Interest, d: Packet, st': State)
    requires Sound(cfg, st) && i.segment < st.segNumber && st' == RetransmitWithExclude(cfg, st, i, d)
    ensures Sound(cfg, st') && st'.segNumber == st.segNumber
  {
    hide Sound, Express;
    var st1 := st.(unverified := st.unverified - {i.segment});
    SettlesSound(cfg, st, st1);
    if st.running && Retx(st1, i.segment) < cfg.maxRetx && |i.exclude| < cfg.maxExcluded {
      ExpressSound(cfg, st1, Interest(i.segment, i.exclude + {d.digest}, None));
    } else {
      SettlesSound(cfg, st1, st');
    }
  }

  lemma DigestSound(cfg: Config, st: State, i: Interest, d: Packet, manifest: Packet, st': State)
    requires Sound(cfg, st) && i.segment < st.segNumber && st' == RetransmitWithDigest(cfg, st, i, d, manifest)
    ensures Sound(cfg, st') && st'.segNumber == st.segNumber
  {
    hide Sound, Express;
    var st1 := st.(unverified := st.unverified - {i.segment});
    SettlesSound(cfg, st, st1);
    var digest := Catalogued(manifest.catalogue, d.segment);
    if st.running && Retx(st1, i.segment) < cfg.maxRetx && digest.Some? {
      ExpressSound(cfg, st1, Interest(i.segment, cfg.exclude, digest));
    } else {
      SettlesSound(cfg, st1, st');
    }
  }

  lemma WindowSound(cfg: Config, st: State, st': State)
    requires Sound(cfg, st) && st' == st.(window := st'.window)
    requires cfg.maxWindow >= 1 ==> st'.window <= cfg.maxWindow
    ensures Sound(cfg, st')
  {}

  /** Storing a packet and reassembling. */
  lemma StoreSound(cfg: Config, st: State, d: Packet, manifests: map<nat, Packet>)
    requires Sound(cfg, st)
    ensures Sound(cfg, Reassemble(FinalFrom(st, d).(receiveBuffer := st.receiveBuffer[d.segment := d])))
    ensures Reassemble(FinalFrom(st, d).(receiveBuffer := st.receiveBuffer[d.segment := d])).segNumber == st.segNumber
    ensures Sound(cfg, st.(receiveBuffer := st.receiveBuffer[d.segment := d], manifests := manifests))
  {
    hide Sound, Reassemble;
    SettlesSound(cfg, st, st.(receiveBuffer := st.receiveBuffer[d.segment := d], manifests := manifests));
    var st1 := FinalFrom(st, d).(receiveBuffer := st.receiveBuffer[d.segment := d]);
    SettlesSound(cfg, st, st1);
    ReassembleSettles(st1);
    SettlesSound(cfg, st1, Reassemble(st1));
  }

  lemma GrownWithin(cfg: Config, st: State)
    requires Sound(cfg, st)
    ensures Sound(cfg, st.(window := Grown(cfg, st.window))) && Sound(cfg, st.(window := Shrunk(cfg, st.window)))
  {}

  lemma AcceptSound(cfg: Config, st: State, i: Interest, d: Packet, st': State)
    requires Sound(cfg, st) && i.segment < st.segNumber && st' == AcceptContent(cfg, st, i, d)
    ensures Sound(cfg, st') && st'.segNumber == st.segNumber
  {
    hide Sound, CheckFastRetransmission, Reassemble;
    CheckFastSound(cfg, st, i);
    var st1 := CheckFastRetransmission(cfg, st, i);
    GrownWithin(cfg, st1);
    var st2 := st1.(window := Grown(cfg, st1.window));
    StoreSound(cfg, st2, d, st2.manifests);
    assert FinalFrom(st2, d).receiveBuffer == st2.receiveBuffer;
  }

  lemma ContentSound(cfg: Config, st: State, i: Interest, d: Packet, st': State)
    requires Sound(cfg, st) && i.segment < st.segNumber && st' == OnContentData(cfg, st, i, d)
    ensures Sound(cfg, st') && st'.segNumber == st.segNumber
  {
    hide Sound, AcceptContent, RetransmitWithExclude, RetransmitWithDigest, IsSecure, VerifiedBy;
    AcceptSound(cfg, st, i, d, AcceptContent(cfg, st, i, d));
    ExcludeSound(cfg, st, i, d, RetransmitWithExclude(cfg, st, i, d));
    if cfg.verify.Some? && d.locator.ManifestName? {
      if d.locator.segment in st.manifests {
        var manifest := st.manifests[d.locator.segment];
        DigestSound(cfg, st, i, d, manifest, RetransmitWithDigest(cfg, st, i, d, manifest));
      } else {
        SettlesSound(cfg, st, st');
      }
    }
  }

  lemma ParkedSound(cfg: Config, st: State, i: Interest, manifest: Packet, d: Packet, st': State)
    requires Sound(cfg, st) && i.segment < st.segNumber && st' == CheckParked(cfg, st, i, manifest, d)
    ensures Sound(cfg, st') && st'.segNumber == st.segNumber
  {
    hide Sound, Reassemble, RetransmitWithDigest;
    if VerifiedBy(manifest, d) {
      StoreSound(cfg, st, d, st.manifests);
      assert FinalFrom(st, d).receiveBuffer == st.receiveBuffer;
    } else {
      DigestSound(cfg, st, i, manifest, manifest, st');
    }
  }

  lemma {:induction false} AllParkedSound(cfg: Config, st: State, i: Interest, manifest: Packet, from: nat, result: State)
    requires Sound(cfg, st) && i.segment < st.segNumber && result == CheckAllParked(cfg, st, i, manifest, from)
    ensures Sound(cfg, result) && result.segNumber == st.segNumber
    decreases KeysFrom(st.unverified, from)
  {
    hide Sound, CheckParked, NextKeyOf;
    var k := NextKeyOf(st.unverified, from);
    if st.running && k.Some? {
      var next := CheckParked(cfg, st, i, manifest, st.unverified[k.value]);
      ParkedSound(cfg, st, i, manifest, st.unverified[k.value], next);
      CheckAllParkedNext(cfg, st, i, manifest, from, k.value);
      AllParkedSound(cfg, next, i, manifest, k.value + 1, result);
    }
  }

  lemma ManifestSound(cfg: Config, st: State, i: Interest, d: Packet, st': State)
    requires Sound(cfg, st) && i.segment < st.segNumber && st' == OnManifestData(cfg, st, i, d)
    ensures Sound(cfg, st') && st'.segNumber == st.segNumber
  {
    hide Sound, CheckFastRetransmission, CheckAllParked, RetransmitWithExclude, IsSecure;
    if st.running && IsSecure(cfg, d) {
      CheckFastSound(cfg, st, i);
      var st1 := CheckFastRetransmission(cfg, st, i);
      GrownWithin(cfg, st1);
      var st2 := st1.(window := Grown(cfg, st1.window));
      var manifests := if d.segment in st1.manifests then st1.manifests else st1.manifests[d.segment := d];
      StoreSound(cfg, st2, d, manifests);
      AllParkedSound(cfg, st2.(manifests := manifests, receiveBuffer := st1.receiveBuffer[d.segment := d]), i, d, 0, st');
    } else if st.running {
      ExcludeSound(cfg, st, i, d, st');
    }
  }

  lemma NackSound(cfg: Config, st: State, i: Interest, d: Packet, st': State)
    requires Sound(cfg, st) && i.segment < st.segNumber && st' == OnNackData(cfg, st, i, d)
    ensures Sound(cfg, st') && st'.segNumber == st.segNumber
  {
    hide Sound, CheckFastRetransmission, RetransmitWithExclude, IsSecure, Shrunk;
    if !st.running || (st.finalKnown && d.nackSegment > st.finalBlock) {
    } else if !IsSecure(cfg, d) {
      ExcludeSound(cfg, st, i, d, st');
    } else {
      CheckFastSound(cfg, st, i);
      var st1 := CheckFastRetransmission(cfg, st, i);
      GrownWithin(cfg, st1);
      var st2 := st1.(window := Shrunk(cfg, st1.window));
      SettlesSound(cfg, st2, st2.(running := false));
      ScheduleSound(cfg, st2, i);
    }
  }

  lemma ScheduleSound(cfg: Config, st: State, i: Interest)
    requires Sound(cfg, st) && i.segment < st.segNumber
    ensures Sound(cfg, st.(timers := st.timers + multiset{i}))
  {}

  lemma DispatchSound(cfg: Config, st: State, i: Interest, d: Packet, st': State)
    requires Sound(cfg, st) && i.segment < st.segNumber && st' == Dispatch(cfg, st, i, d)
    ensures Sound(cfg, st') && st'.segNumber == st.segNumber
  {
    match d.contentType {
      case Manifest => ManifestSound(cfg, st, i, d, st');
      case Nack => NackSound(cfg, st, i, d, st');
      case Blob => ContentSound(cfg, st, i, d, st');
      case OtherType =>
    }
  }

  // ----- every event -----

  lemma TakenSound(cfg: Config, st: State, i: Interest)
    requires Sound(cfg, st) && i in st.pending
    ensures Sound(cfg, Taken(st, i)) && i.segment < st.segNumber
    ensures !st.running ==> Sound(cfg, st.(pending := st.pending - multiset{i}))
  {}

  lemma DataSound(cfg: Config, st: State, i: Interest, d: Packet, st': State)
    requires Sound(cfg, st) && i in st.pending && st' == Step(cfg, st, DataArrives(i, d))
    ensures Sound(cfg, st') && st'.segNumber >= st.segNumber
    ensures st'.segNumber > st.segNumber ==> st'.inFlight <= st'.window
  {
    hide Sound, Dispatch, FillWindow;
    TakenSound(cfg, st, i);
    if st.running && i.implicitDigest.None? {
      var st2 := Dispatch(cfg, Taken(st, i), i, d);
      DispatchSound(cfg, Taken(st, i), i, d, st2);
      var st3 := st2.(window := FirstWindow(cfg, st2));
      WindowSound(cfg, st2, st3);
      FillSound(cfg, if i.segment == 0 then st3 else st2);
    }
  }

  lemma TimeoutSound(cfg: Config, st: State, i: Interest, st': State)
    requires Sound(cfg, st) && i in st.pending && st' == OnTimeout(cfg, st.(pending := st.pending - multiset{i}), i)
    ensures Sound(cfg, st') && st'.segNumber == st.segNumber
  {
    hide Sound, Express, Reassemble, Shrunk, Settles;
    TakenSound(cfg, st, i);
    var st1 := Taken(st, i);
    GrownWithin(cfg, st1);
    var st2 := st1.(window := Shrunk(cfg, st1.window));
    if st.running && Retx(st2, i.segment) < cfg.maxRetx {
      ExpressSound(cfg, st2, Interest(i.segment, i.exclude, None));
    }
    var stopped := st2.(running := false);
    SettlesSound(cfg, st2, stopped);
    ReassembleSettles(stopped);
    SettlesSound(cfg, stopped, Reassemble(stopped));
  }

  lemma TimerSound(cfg: Config, st: State, i: Interest, st': State)
    requires Sound(cfg, st) && i in st.timers && st' == RetransmitFresh(cfg, st.(timers := st.timers - multiset{i}), i)
    ensures Sound(cfg, st') && st'.segNumber == st.segNumber
  {
    hide Express;
    var st1 := st.(timers := st.timers - multiset{i});
    if st.running && Retx(st1, i.segment) < cfg.maxRetx {
      ExpressSound(cfg, st1, Interest(i.segment, i.exclude, None));
    }
  }

  /** Every event of any environment keeps the accounting; and one that requests a new segment is the arrival of a
      packet, and leaves no more Interests in flight than the window allows. */
  lemma StepSound(cfg: Config, st: State, ev: Event, st': State)
    requires Sound(cfg, st) && Enabled(st, ev) && st' == Step(cfg, st, ev)
    ensures Sound(cfg, st') && st'.segNumber >= st.segNumber
    ensures st'.segNumber > st.segNumber ==> ev.DataArrives? && st'.inFlight <= st'.window
  {
    match ev {
      case DataArrives(i, d) => DataSound(cfg, st, i, d, st');
      case TimesOut(i) => TimeoutSound(cfg, st, i, st');
      case NetworkNack(i) => TimeoutSound(cfg, st, i, st');
      case TimerFires(i) => TimerSound(cfg, st, i, st');
    }
  }

  // ----- whole runs -----

  lemma {:induction false} RunIsSound(cfg: Config, events: seq<Event>)
    requires IsRun(cfg, events)
    ensures Sound(cfg, Run(cfg, events))
  {
    if events == [] {
      var st := Run(cfg, []);
      assert st.requests == [] + [0];
      forall s: nat ensures Count(st.requests, s) == if s in st.retx then 1 + st.retx[s] else 0 { CountNext([], 0, s); }
    } else {
      var n := |events| - 1;
      RunPrefix(cfg, events, n);
      RunIsSound(cfg, events[..n]);
      StepSound(cfg, Run(cfg, events[..n]), events[n], Run(cfg, events));
    }
  }

  /** Over every run of every environment, in both modes: while the object runs, its in-flight counter is the number
      of outstanding Interests and the window is within its maximum; and every event that requested a new segment
      left no more Interests in flight than the window allowed. */
  lemma FlowIsAccounted(cfg: Config, events: seq<Event>)
    requires IsRun(cfg, events)
    ensures var st := Run(cfg, events); st.running ==>
      st.inFlight == |st.pending| && (cfg.maxWindow >= 1 ==> st.window <= cfg.maxWindow)
    ensures forall n :: 0 <= n < |events| ==> NewRequestsWithin(Run(cfg, events[..n]), events[n], Run(cfg, events[..n + 1]))
  {
    RunIsSound(cfg, events);
    forall n | 0 <= n < |events|
      ensures NewRequestsWithin(Run(cfg, events[..n]), events[n], Run(cfg, events[..n + 1]))
    {
      RunPrefix(cfg, events, n);
      RunIsSound(cfg, events[..n]);
      assert events[..n + 1][..n] == events[..n];
      StepSound(cfg, Run(cfg, events[..n]), events[n], Run(cfg, events[..n + 1]));
    }
  }

  ghost predicate NewRequestsWithin(before: State, ev: Event, after: State) {
    after.segNumber > before.segNumber ==> ev.DataArrives? && after.inFlight <= after.window
  }

  /** Over every run of every environment, no segment is requested more than once plus the allowed retransmissions. */
  lemma RequestsAreBounded(cfg: Config, events: seq<Event>, s: nat)
    requires IsRun(cfg, events)
    ensures Count(Run(cfg, events).requests, s) <= 1 + Max0(cfg.maxRetx)
  {
    RunIsSound(cfg, events);
  }
}
