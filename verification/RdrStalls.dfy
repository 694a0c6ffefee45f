/** When a retrieval stalls: it runs on with nothing outstanding and nothing scheduled, for good. */
module RdrStalls {
  import opened Names
  import opened Options
  import opened LossDetector
  import opened RdrModel
  import opened RdrPlain
  import opened RdrProgress

  // ----- the first answer -----

  /** The answer opens the window for more segments, or is the only segment. */
  predicate LeadsOn(cfg: Config, d: Packet) {
    d.finalBlockId.Some? &&
    ((ToInt(d.finalBlockId.value) >= 1 && cfg.maxWindow >= 1) || (d.segment == 0 && d.finalBlockId.value == 0))
  }

  /** The answers to the very first Interest after which nothing is asked for any more: unknown types, verified
      manifests, segments that refer to a manifest, verified nacks without delay or refusal, and accepted segments
      that do not lead on. */
  predicate UsesUpFirst(cfg: Config, d: Packet) {
    match d.contentType
    case OtherType => true
    case Manifest => IsSecure(cfg, d)
    case Nack => IsSecure(cfg, d) && d.nackCode != ProducerDelay && d.nackCode != DataNotAvailable
    case Blob =>
      if cfg.verify.Some? && d.locator.NoLocator? then false
      else (cfg.verify.Some? && d.locator.ManifestName?) || (IsSecure(cfg, d) && !LeadsOn(cfg, d))
  }

  /** The first answer is handled in this state. */
  ghost predicate IsFirst(cfg: Config, st: State) {
    st == Start(cfg, Constructed()).(pending := multiset{}, inFlight := 0)
  }

  lemma NothingLost(segment: nat)
    ensures segment == 0 ==> Exposed({}, {}, segment) == [] && MarkedAfter({}, {}, segment) == {}
  {
    if segment == 0 {
      var now: set<nat> := {} + {segment};
      assert 0 in now;
      assert HighestSpec(now) == 0;
    }
  }

  lemma FirstChecked(cfg: Config, st: State, i: Interest)
    requires IsFirst(cfg, st) && i.segment == 0
    ensures CheckFastRetransmission(cfg, st, i) == st.(received := {0}, marked := {})
  {
    NothingLost(0);
    assert {} + {0} == {0};
  }

  /** Reassembly with one packet received. */
  lemma OneReassembled(st: State, d: Packet)
    requires st.running && st.receiveBuffer == map[d.segment := d] && st.lastReassembled == 0
    requires st.pending == multiset{} && st.timers == multiset{}
    ensures var st' := Reassemble(st);
      && st' == st.(running := st'.running, lastReassembled := st'.lastReassembled, contentBuffer := st'.contentBuffer,
                    copied := st'.copied, receiveBuffer := st'.receiveBuffer, payloads := st'.payloads)
      && (st'.running <==> !(d.segment == 0 && d.contentType == Blob && st.finalBlock == 0))
      && (st'.running ==> st'.payloads == st.payloads)
      && (d.segment == 0 ==> st'.lastReassembled == 1 && st'.receiveBuffer == map[])
  {
    if d.segment == 0 {
      var st2 := MoveHead(st);
      assert 1 !in st2.receiveBuffer;
      assert Reassemble(st) == Reassemble(st2) == st2;
    }
  }

  /** An accepted first segment. */
  lemma FirstAccepted(cfg: Config, st: State, i: Interest, d: Packet, st': State)
    requires IsFirst(cfg, st) && i.segment == 0 && st' == AcceptContent(cfg, st, i, d)
    ensures Idle(st') && st'.inFlight == 0 && st'.segNumber == 1
    ensures st'.manifests == map[] && st'.unverified == map[] && (st'.running ==> st'.payloads == [])
    ensures st'.finalKnown == d.finalBlockId.Some? && st'.received == {0} && st'.marked == {}
    ensures d.segment == 0 ==> st'.lastReassembled == 1 && st'.receiveBuffer == map[]
    ensures st'.finalBlock == if d.finalBlockId.Some? then d.finalBlockId.value else MAX_SEGMENT
    ensures st'.running <==> !(d.segment == 0 && d.contentType == Blob && d.finalBlockId == Some(0))
  {
    FirstChecked(cfg, st, i);
    var st1 := st.(received := {0}, marked := {});
    var st2 := FinalFrom(st1.(window := Grown(cfg, st1.window)), d);
    OneReassembled(st2.(receiveBuffer := map[d.segment := d]), d);
    assert st2.receiveBuffer[d.segment := d] == map[d.segment := d];
  }

  lemma FirstManifest(cfg: Config, st: State, i: Interest, d: Packet, st': State)
    requires IsFirst(cfg, st) && i.segment == 0 && IsSecure(cfg, d) && st' == OnManifestData(cfg, st, i, d)
    ensures st'.running && Idle(st') && st'.inFlight == 0 && !st'.finalKnown && st'.finalBlock == MAX_SEGMENT && st'.payloads == []
  {
    FirstChecked(cfg, st, i);
    assert st.unverified == map[];
  }

  lemma FirstNack(cfg: Config, st: State, i: Interest, d: Packet, st': State)
    requires IsFirst(cfg, st) && i.segment == 0 && d.contentType == Nack && st' == OnNackData(cfg, st, i, d)
    ensures st'.running && Idle(st') <==> UsesUpFirst(cfg, d)
    ensures Idle(st') ==> st'.inFlight == 0 && !st'.finalKnown && st'.finalBlock == MAX_SEGMENT
    ensures !Idle(st') && st'.running ==> st'.inFlight >= 0
  {
    FirstChecked(cfg, st, i);
  }

  lemma FirstDispatched(cfg: Config, st: State, i: Interest, d: Packet, st': State)
    requires IsFirst(cfg, st) && i.segment == 0 && st' == Dispatch(cfg, st, i, d)
    ensures UsesUpFirst(cfg, d) ==> st'.running && Idle(st') && st'.segNumber == 1 && st'.inFlight == 0
    ensures UsesUpFirst(cfg, d) ==> FirstWindow(cfg, st') <= 0
    ensures !UsesUpFirst(cfg, d) && st'.running && Idle(st') ==>
      st'.inFlight == 0 && st'.finalKnown && st'.segNumber <= st'.finalBlock && FirstWindow(cfg, st') >= 1
  {
    match d.contentType {
      case OtherType =>
      case Nack => FirstNackDispatched(cfg, st, i, d, st');
      case Manifest => if IsSecure(cfg, d) { FirstManifest(cfg, st, i, d, st'); }
      case Blob => FirstContentDispatched(cfg, st, i, d, st');
    }
  }

  lemma FirstContentDispatched(cfg: Config, st: State, i: Interest, d: Packet, st': State)
    requires IsFirst(cfg, st) && i.segment == 0 && d.contentType == Blob && st' == OnContentData(cfg, st, i, d)
    ensures UsesUpFirst(cfg, d) ==> st'.running && Idle(st') && st'.segNumber == 1 && st'.inFlight == 0
    ensures UsesUpFirst(cfg, d) ==> FirstWindow(cfg, st') <= 0
    ensures !UsesUpFirst(cfg, d) && st'.running && Idle(st') ==>
      st'.inFlight == 0 && st'.finalKnown && st'.segNumber <= st'.finalBlock && FirstWindow(cfg, st') >= 1
  {
    hide AcceptContent, RetransmitWithExclude, IsSecure;
    if cfg.verify.Some? && d.locator.ManifestName? {
      assert st' == st.(unverified := st.unverified[d.segment := d]);
    } else if IsSecure(cfg, d) && (cfg.verify.None? || d.locator.KeyName?) {
      FirstAccepted(cfg, st, i, d, st');
    } else {
      assert st' == RetransmitWithExclude(cfg, st, i, d);
      FirstRejected(cfg, st, i, d);
    }
  }

  lemma FirstRejected(cfg: Config, st: State, i: Interest, d: Packet)
    requires IsFirst(cfg, st)
    ensures var st' := RetransmitWithExclude(cfg, st, i, d); !(st'.running && Idle(st'))
  {}

  lemma FirstNackDispatched(cfg: Config, st: State, i: Interest, d: Packet, st': State)
    requires IsFirst(cfg, st) && i.segment == 0 && d.contentType == Nack && st' == OnNackData(cfg, st, i, d)
    ensures UsesUpFirst(cfg, d) ==> st'.running && Idle(st') && st'.segNumber == 1 && st'.inFlight == 0
    ensures UsesUpFirst(cfg, d) ==> FirstWindow(cfg, st') <= 0
    ensures !UsesUpFirst(cfg, d) ==> !(st'.running && Idle(st'))
  {
    FirstNack(cfg, st, i, d, st');
    FirstChecked(cfg, st, i);
  }

  /** The very first Interest, answered with any packet whatever, leaves the object running with nothing to wait
      for exactly when that answer uses it up. */
  lemma FirstAnswerStallsIff(cfg: Config, d: Packet)
    ensures var st := Run(cfg, [DataArrives(Interest(0, cfg.exclude, None), d)]);
      st.running && Idle(st) <==> UsesUpFirst(cfg, d)
  {
    hide Dispatch, UsesUpFirst, FillWindow, FirstWindow;
    var i := Interest(0, cfg.exclude, None);
    var start := Start(cfg, Constructed());
    var events := [DataArrives(i, d)];
    assert events[..0] == [];
    assert start.pending == multiset{i};
    var st := start.(pending := multiset{}, inFlight := 0);
    var st2 := Dispatch(cfg, st, i, d);
    FirstDispatched(cfg, st, i, d, st2);
    var st3 := st2.(window := FirstWindow(cfg, st2));
    assert start.pending - multiset{i} == multiset{};
    assert Run(cfg, events) == OnData(cfg, start.(pending := multiset{}), i, d);
    assert Run(cfg, events) == FillWindow(cfg, st3);
    FillIdleIff(cfg, st3);
  }

  lemma {:induction false} FillIdleIff(cfg: Config, st: State)
    ensures FillWindow(cfg, st).running == st.running && FillWindow(cfg, st).timers == st.timers
    ensures FillWindow(cfg, st).pending == multiset{} <==> st.pending == multiset{} && !MaySend(st)
    decreases st.window - st.inFlight
  {
    if MaySend(st) {
      var next := SendInterest(cfg, st);
      assert Interest(st.segNumber, cfg.exclude, None) in next.pending;
      FillIdleIff(cfg, next);
    }
  }

  // ----- any answer -----

  /** Of the segments an arrival exposes as lost, none may be requested again. */
  ghost predicate NoneToRetransmit(cfg: Config, st: State, i: Interest) {
    forall s :: s in Exposed(st.received, st.marked, i.segment) ==> Retx(st, s) >= cfg.maxRetx
  }

  /** The answer is a nack that the loss detector hears of. */
  ghost predicate IsCounted(st: State, d: Packet) {
    d.contentType == Nack && !(st.finalKnown && d.nackSegment > st.finalBlock)
  }

  /** Nothing else was outstanding or scheduled, everything is requested, and nothing is requested again. */
  ghost predicate NothingLeft(cfg: Config, st: State, i: Interest, d: Packet) {
    && st.pending == multiset{i} && st.timers == multiset{} && (st.finalKnown ==> st.segNumber > st.finalBlock)
    && (IsCounted(st, d) ==> NoneToRetransmit(cfg, st, i))
  }

  lemma {:induction false} FastAllSpent(cfg: Config, st: State, i: Interest, lost: seq<nat>)
    requires forall s :: s in lost ==> Retx(st, s) >= cfg.maxRetx
    ensures FastRetransmitAll(cfg, st, i, lost) == st
    decreases |lost|
  {
    if lost != [] { FastAllSpent(cfg, st, i, lost[..|lost| - 1]); }
  }

  lemma {:induction false} FastAllGrows(cfg: Config, st: State, i: Interest, lost: seq<nat>)
    requires st.running
    ensures var st' := FastRetransmitAll(cfg, st, i, lost);
      st'.running && st'.timers == st.timers && st.pending <= st'.pending
    decreases |lost|
  {
    if lost != [] { FastAllGrows(cfg, st, i, lost[..|lost| - 1]); }
  }

  lemma {:induction false} FastAllAsks(cfg: Config, st: State, i: Interest, lost: seq<nat>, s: nat)
    requires st.running && s in lost && Retx(st, s) < cfg.maxRetx
    ensures FastRetransmitAll(cfg, st, i, lost).pending != multiset{}
    decreases |lost|
  {
    hide FastRetransmit, Retx;
    var n := |lost| - 1;
    var init := lost[..n];
    var mid := FastRetransmitAll(cfg, st, i, init);
    FastAllGrows(cfg, st, i, init);
    FastAsks(cfg, mid, i, lost[n]);
    if k :| 0 <= k < n && Retx(st, lost[k]) < cfg.maxRetx {
      assert init[k] == lost[k];
      FastAllAsks(cfg, st, i, init, lost[k]);
    } else {
      assert forall r :: r in init ==> exists k :: 0 <= k < n && lost[k] == r;
      FastAllSpent(cfg, st, i, init);
    }
  }

  lemma FastAsks(cfg: Config, st: State, i: Interest, s: nat)
    requires st.running
    ensures st.pending != multiset{} || Retx(st, s) < cfg.maxRetx ==> FastRetransmit(cfg, st, i, s).pending != multiset{}
  {
    if Retx(st, s) < cfg.maxRetx {
      assert Interest(s, i.exclude, None) in FastRetransmit(cfg, st, i, s).pending;
    }
  }

  lemma CheckedIdleIff(cfg: Config, st: State, i: Interest)
    requires st.running
    ensures var st' := CheckFastRetransmission(cfg, st, i);
      && st'.running && st'.timers == st.timers
      && (st'.pending == multiset{} <==> st.pending == multiset{} && NoneToRetransmit(cfg, st, i))
  {
    var lost := Exposed(st.received, st.marked, i.segment);
    var now := st.(received := st.received + {i.segment}, marked := MarkedAfter(st.received, st.marked, i.segment));
    FastAllGrows(cfg, now, i, lost);
    if s :| s in lost && Retx(st, s) < cfg.maxRetx {
      assert Retx(now, s) == Retx(st, s);
      FastAllAsks(cfg, now, i, lost, s);
    } else {
      FastAllSpent(cfg, now, i, lost);
    }
  }

  /** What an uncooperative answer does: at most it parks a segment, or is counted and shrinks the window. */
  lemma UncooperativeIs(cfg: Config, st: State, i: Interest, d: Packet, st2: State)
    requires st.running && st.manifests == map[] && !Cooperative(cfg, st, DataArrives(i, d))
    requires d.contentType == Manifest ==> !IsSecure(cfg, d)
    requires st2 == Dispatch(cfg, st, i, d)
    ensures !IsCounted(st, d) ==> st2 == st.(unverified := st2.unverified)
    ensures IsCounted(st, d) ==> st2 == CheckFastRetransmission(cfg, st, i).(window := st2.window)
  {}

  lemma OnlyOneTaken(pending: multiset<Interest>, i: Interest)
    requires i in pending
    ensures pending - multiset{i} == multiset{} <==> pending == multiset{i}
  {
    assert pending == (pending - multiset{i}) + multiset{i};
  }

  lemma SameBudgets(cfg: Config, st: State, st1: State, i: Interest)
    requires st1.retx == st.retx && st1.received == st.received && st1.marked == st.marked
    ensures NoneToRetransmit(cfg, st, i) <==> NoneToRetransmit(cfg, st1, i)
  {
    assert forall s: nat :: Retx(st1, s) == Retx(st, s);
  }

  /** What an uncooperative answer leaves outstanding. */
  lemma UncooperativeLeaves(cfg: Config, chunks: seq<seq<byte>>, st: State, i: Interest, d: Packet, st2: State)
    requires Good(cfg, chunks, st) && st.running && i in st.pending && Authentic(cfg, chunks, DataArrives(i, d))
    requires !Cooperative(cfg, st, DataArrives(i, d)) && st2 == Dispatch(cfg, Taken(st, i), i, d)
    ensures st2.running && st2.timers == st.timers && st2.finalKnown == st.finalKnown && st2.finalBlock == st.finalBlock
    ensures st2.segNumber == st.segNumber
    ensures st2.pending == multiset{} <==>
      st.pending == multiset{i} && (IsCounted(st, d) ==> NoneToRetransmit(cfg, st, i))
  {
    var st1 := Taken(st, i);
    TakeToken(cfg, chunks, st, i);
    OnlyOneTaken(st.pending, i);
    UncooperativeIs(cfg, st1, i, d, st2);
    SameBudgets(cfg, st, st1, i);
    if IsCounted(st, d) {
      CheckedIdleIff(cfg, st1, i);
      CheckFastKeeps(cfg, chunks, st1, i);
    }
  }

  /** After an uncooperative answer the window has room for a new segment exactly when there is one to request. */
  lemma UncooperativeWindow(cfg: Config, chunks: seq<seq<byte>>, st: State, i: Interest, d: Packet, st2: State)
    requires Good(cfg, chunks, st) && st.running && i in st.pending && Authentic(cfg, chunks, DataArrives(i, d))
    requires st2 == Dispatch(cfg, Taken(st, i), i, d) && st2.running && st2.pending == multiset{}
    requires st2.finalKnown == st.finalKnown && st2.finalBlock == st.finalBlock && st2.segNumber == st.segNumber
    ensures var st3 := if i.segment == 0 then st2.(window := FirstWindow(cfg, st2)) else st2;
      MaySend(st3) <==> st.finalKnown && st.segNumber <= st.finalBlock
  {
    TakeToken(cfg, chunks, st, i);
    DispatchKeeps(cfg, chunks, Taken(st, i), i, d);
    ToIntOfFinal(chunks);
  }

  lemma UncooperativeStallsIff(cfg: Config, chunks: seq<seq<byte>>, st: State, i: Interest, d: Packet, st': State)
    requires Good(cfg, chunks, st) && st.running && i in st.pending && Authentic(cfg, chunks, DataArrives(i, d))
    requires !Cooperative(cfg, st, DataArrives(i, d)) && st' == Step(cfg, st, DataArrives(i, d))
    ensures st'.running && Idle(st') <==> NothingLeft(cfg, st, i, d)
  {
    var st2 := Dispatch(cfg, Taken(st, i), i, d);
    TakeToken(cfg, chunks, st, i);
    UncooperativeLeaves(cfg, chunks, st, i, d, st2);
    var st3 := if i.segment == 0 then st2.(window := FirstWindow(cfg, st2)) else st2;
    assert st' == FillWindow(cfg, st3);
    FillIdleIff(cfg, st3);
    if st2.pending == multiset{} { UncooperativeWindow(cfg, chunks, st, i, d, st2); }
  }

  // ----- any accepted segment -----

  /** Content that the handler accepts at once. */
  predicate IsAccepted(cfg: Config, d: Packet) {
    d.contentType == Blob && IsSecure(cfg, d) && (cfg.verify.None? || d.locator.KeyName?)
  }

  /** Reassembly leaves the object running exactly while some segment is missing. */
  lemma ReassembledRunsIff(cfg: Config, chunks: seq<seq<byte>>, st: State)
    requires Busy(cfg, chunks, st) && st.finalKnown
    ensures Reassemble(st).running <==> exists s: nat :: s < |chunks| && !Accepted(st, s)
  {
    var st' := Reassemble(st);
    AfterReassembly(cfg, chunks, st);
    ReassembleKeeps(chunks, st);
    if st'.running {
      assert !Accepted(st', st'.lastReassembled);
      assert !Accepted(st, st'.lastReassembled);
    } else {
      assert forall s: nat :: s < |chunks| ==> Accepted(st', s) && Accepted(st, s);
    }
  }

  /** Segments other than this one are still missing. */
  ghost predicate MissesOther(chunks: seq<seq<byte>>, st: State, segment: nat) {
    exists s: nat :: s < |chunks| && s != segment && !Accepted(st, s)
  }

  lemma MissesAfter(chunks: seq<seq<byte>>, st: State, stored: State, segment: nat)
    requires stored.lastReassembled == st.lastReassembled
    requires forall s :: s in stored.receiveBuffer <==> s == segment || s in st.receiveBuffer
    ensures MissesOther(chunks, st, segment) <==> exists s: nat :: s < |chunks| && !Accepted(stored, s)
  {
    assert forall s: nat :: Accepted(stored, s) <==> s == segment || Accepted(st, s);
  }

  /** What an accepted segment leaves outstanding before reassembly. */
  lemma StoredLeaves(cfg: Config, chunks: seq<seq<byte>>, st: State, i: Interest, d: Packet, stored: State)
    requires Good(cfg, chunks, st) && st.running && i in st.pending && Genuine(chunks, d) && d.segment == i.segment
    requires stored == Stored(cfg, CheckFastRetransmission(cfg, Taken(st, i), i), d)
    ensures Busy(cfg, chunks, stored) && stored.finalKnown && stored.timers == st.timers && stored.segNumber == st.segNumber
    ensures st.finalKnown ==> stored.window >= 1
    ensures MissesOther(chunks, st, i.segment) <==> exists s: nat :: s < |chunks| && !Accepted(stored, s)
    ensures stored.pending == multiset{} <==> st.pending == multiset{i} && NoneToRetransmit(cfg, st, i)
  {
    hide RetxOk, Measure, LossOk, Flatten, NoneToRetransmit, MissesOther;
    var st1 := Taken(st, i);
    TakeToken(cfg, chunks, st, i);
    OnlyOneTaken(st.pending, i);
    SameBudgets(cfg, st, st1, i);
    CheckedIdleIff(cfg, st1, i);
    CheckFastKeeps(cfg, chunks, st1, i);
    var checked := CheckFastRetransmission(cfg, st1, i);
    StoredKeeps(cfg, chunks, checked, d);
    MissesAfter(chunks, st, stored, i.segment);
  }

  lemma AcceptedIsStored(cfg: Config, st: State, i: Interest, d: Packet)
    ensures AcceptContent(cfg, st, i, d) == Reassemble(Stored(cfg, CheckFastRetransmission(cfg, st, i), d))
  {}

  /** What an accepted segment leaves outstanding. */
  lemma AcceptedLeaves(cfg: Config, chunks: seq<seq<byte>>, st: State, i: Interest, d: Packet, st2: State)
    requires Good(cfg, chunks, st) && st.running && i in st.pending && Genuine(chunks, d) && d.segment == i.segment
    requires st2 == AcceptContent(cfg, Taken(st, i), i, d)
    ensures st2.finalKnown && st2.segNumber == st.segNumber
    ensures st2.running <==> MissesOther(chunks, st, i.segment)
    ensures st2.running ==> st2.finalBlock == |chunks| - 1 && st2.timers == st.timers && st2.inFlight == |st2.pending|
    ensures st2.running && st.finalKnown ==> st2.window >= 1
    ensures st2.running ==>
      (st2.pending == multiset{} <==> st.pending == multiset{i} && NoneToRetransmit(cfg, st, i))
  {
    hide AcceptContent, Reassemble, Good, Busy, RetxOk, LossOk, Measure, MissesOther, NoneToRetransmit, SameAccepted;
    AcceptedIsStored(cfg, Taken(st, i), i, d);
    var stored := Stored(cfg, CheckFastRetransmission(cfg, Taken(st, i), i), d);
    StoredLeaves(cfg, chunks, st, i, d, stored);
    AfterReassembly(cfg, chunks, stored);
    ReassembledRunsIff(cfg, chunks, stored);
  }

  /** Everything else was answered and requested before, nothing is requested again, and a segment is missing that an
      earlier answer had used up the Interest for. */
  ghost predicate LeavesGap(cfg: Config, chunks: seq<seq<byte>>, st: State, i: Interest) {
    && MissesOther(chunks, st, i.segment) && st.pending == multiset{i} && st.timers == multiset{}
    && st.finalKnown && st.segNumber > st.finalBlock && NoneToRetransmit(cfg, st, i)
  }

  /** After an accepted segment the window has room for a new one exactly when there is one to request. */
  lemma AcceptedFills(cfg: Config, chunks: seq<seq<byte>>, st: State, i: Interest, st2: State, st3: State)
    requires IsUnit(chunks) && cfg.maxWindow >= 1 && i.segment < st.segNumber && (st.finalKnown <==> i.segment != 0)
    requires st2.running && st2.finalKnown && st2.finalBlock == |chunks| - 1 && st2.inFlight == |st2.pending|
    requires st.finalKnown ==> st2.window >= 1 && st.finalBlock == |chunks| - 1
    requires !st.finalKnown ==> st.segNumber == 1 < |chunks|
    requires st3 == if i.segment == 0 then st2.(window := FirstWindow(cfg, st2)) else st2
    requires st2.segNumber == st.segNumber && st2.pending == multiset{}
    ensures MaySend(st3) <==> !(st.finalKnown && st.segNumber > st.finalBlock)
  {
    ToIntOfFinal(chunks);
  }

  lemma AcceptedIs(cfg: Config, chunks: seq<seq<byte>>, st: State, i: Interest, d: Packet)
    requires IsAccepted(cfg, d) && Authentic(cfg, chunks, DataArrives(i, d))
    ensures Dispatch(cfg, st, i, d) == AcceptContent(cfg, st, i, d) && Genuine(chunks, d) && d.segment == i.segment
  {}

  /** What an outstanding Interest tells of the state it is outstanding in. */
  lemma PendingTells(cfg: Config, chunks: seq<seq<byte>>, st: State, i: Interest)
    requires Good(cfg, chunks, st) && st.running && i in st.pending
    ensures IsUnit(chunks) && cfg.maxWindow >= 1 && i.implicitDigest.None? && i.segment < st.segNumber
    ensures st.finalKnown <==> i.segment != 0
    ensures if st.finalKnown then st.finalBlock == |chunks| - 1 else st.segNumber == 1
  {
    TakeToken(cfg, chunks, st, i);
  }

  lemma AcceptedStallsIff(cfg: Config, chunks: seq<seq<byte>>, st: State, i: Interest, d: Packet, st': State)
    requires Good(cfg, chunks, st) && st.running && i in st.pending && IsAccepted(cfg, d)
    requires Authentic(cfg, chunks, DataArrives(i, d)) && st' == Step(cfg, st, DataArrives(i, d))
    ensures st'.running && Idle(st') <==> LeavesGap(cfg, chunks, st, i)
  {
    hide Good, Dispatch, AcceptContent, FillWindow, FirstWindow, NoneToRetransmit, IsAccepted, Authentic, Genuine;
    PendingTells(cfg, chunks, st, i);
    var st1 := Taken(st, i);
    var st2 := AcceptContent(cfg, st1, i, d);
    AcceptedIs(cfg, chunks, st1, i, d);
    AcceptedLeaves(cfg, chunks, st, i, d, st2);
    var st3 := if i.segment == 0 then st2.(window := FirstWindow(cfg, st2)) else st2;
    FillIdleIff(cfg, st3);
    if st2.running && st2.pending == multiset{} { AcceptedFills(cfg, chunks, st, i, st2, st3); }
  }

  /** A cooperative answer that is not accepted content leaves something to wait for, or ends the run. */
  lemma OthersWait(cfg: Config, chunks: seq<seq<byte>>, st: State, i: Interest, d: Packet, st': State)
    requires Good(cfg, chunks, st) && st.running && i in st.pending && Authentic(cfg, chunks, DataArrives(i, d))
    requires Cooperative(cfg, st, DataArrives(i, d)) && !IsAccepted(cfg, d) && st' == Step(cfg, st, DataArrives(i, d))
    ensures st'.running ==> !Idle(st')
  {
    hide Dispatch, FillWindow, BuffersOk, RetxOk, LiveOk, Measure;
    TakeToken(cfg, chunks, st, i);
    var st2 := Dispatch(cfg, Taken(st, i), i, d);
    OthersLeave(cfg, Taken(st, i), i, d, st2);
    FillIdleIff(cfg, if i.segment == 0 then st2.(window := FirstWindow(cfg, st2)) else st2);
  }

  lemma OthersLeave(cfg: Config, st: State, i: Interest, d: Packet, st2: State)
    requires st.running && Cooperative(cfg, st, DataArrives(i, d)) && !IsAccepted(cfg, d)
    requires d.contentType == Manifest ==> !IsSecure(cfg, d)
    requires st2 == Dispatch(cfg, st, i, d)
    ensures st2.running ==> !Idle(st2)
  {
    hide CheckFastRetransmission, RetransmitWithExclude;
    if d.contentType == Nack && IsSecure(cfg, d) {
      assert st2.running ==> i in st2.timers;
    } else {
      RejectWaits(cfg, st, i, d);
      assert st2 == RetransmitWithExclude(cfg, st, i, d);
    }
  }

  lemma RejectWaits(cfg: Config, st: State, i: Interest, d: Packet)
    requires st.running
    ensures var st' := RetransmitWithExclude(cfg, st, i, d); st'.running ==> !Idle(st')
  {
    ExpressWaits(st.(unverified := st.unverified - {i.segment}), Interest(i.segment, i.exclude + {d.digest}, None));
  }

  lemma ExpressWaits(st: State, i: Interest)
    ensures !Idle(Express(st, i))
  {
    assert i in Express(st, i).pending;
  }

  lemma RetransmitOrStopWaits(cfg: Config, st: State, i: Interest)
    ensures RetransmitOrStop(cfg, st, i).running ==> !Idle(RetransmitOrStop(cfg, st, i))
  {
    ExpressWaits(st, Interest(i.segment, i.exclude, None));
  }

  /** Timeouts, network nacks and scheduled retransmissions never stall a run. */
  lemma TimeoutWaits(cfg: Config, chunks: seq<seq<byte>>, st: State, i: Interest)
    requires Good(cfg, chunks, st) && st.running && i in st.pending
    ensures var st' := OnTimeout(cfg, st.(pending := st.pending - multiset{i}), i); st'.running ==> !Idle(st')
  {
    hide OnTimeout, RetransmitOrStop, Measure, RetxOk, LossOk, InterestsOk;
    TakeToken(cfg, chunks, st, i);
    TimeoutIs(cfg, st.(pending := st.pending - multiset{i}), i);
    var st1 := Taken(st, i);
    RetransmitOrStopWaits(cfg, st1.(window := Shrunk(cfg, st1.window)), i);
  }

  lemma TimerWaits(cfg: Config, st: State, i: Interest)
    requires st.running
    ensures RetransmitFresh(cfg, st, i).running ==> !Idle(RetransmitFresh(cfg, st, i))
  {
    ExpressWaits(st, Interest(i.segment, i.exclude, None));
  }

  /** Over plainly segmented content, whatever happened before: an event leaves the object running with nothing to
      wait for if and only if it is an answer after which nothing is outstanding, scheduled or still to be requested,
      and the answer is uncooperative, or accepted while another segment is missing for good. */
  lemma StepStallsIff(cfg: Config, chunks: seq<seq<byte>>, st: State, ev: Event)
    requires Good(cfg, chunks, st) && st.running && Enabled(st, ev) && Authentic(cfg, chunks, ev)
    ensures var st' := Step(cfg, st, ev);
      st'.running && Idle(st') <==>
        ev.DataArrives? &&
        if Cooperative(cfg, st, ev) then IsAccepted(cfg, ev.d) && LeavesGap(cfg, chunks, st, ev.i)
        else NothingLeft(cfg, st, ev.i, ev.d)
  {
    if ev.TimerFires? {
      TimerWaits(cfg, st.(timers := st.timers - multiset{ev.i}), ev.i);
    } else if !ev.DataArrives? {
      TimeoutWaits(cfg, chunks, st, ev.i);
    } else if !Cooperative(cfg, st, ev) {
      UncooperativeStallsIff(cfg, chunks, st, ev.i, ev.d, Step(cfg, st, ev));
    } else if IsAccepted(cfg, ev.d) {
      AcceptedStallsIff(cfg, chunks, st, ev.i, ev.d, Step(cfg, st, ev));
    } else {
      OthersWait(cfg, chunks, st, ev.i, ev.d, Step(cfg, st, ev));
    }
  }
}
