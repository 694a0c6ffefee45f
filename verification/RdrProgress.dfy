/** Reliable retrieval never stalls: as long as it runs, every requested segment is accepted, outstanding or
    scheduled, and something is outstanding or scheduled. */
module RdrProgress {
  import opened Names
  import opened Options
  import opened RdrModel
  import opened RdrPlain

  /** The answers the protocol reacts to: no unknown content type, no segment that points to a manifest, no nack
      past the final segment, and no verified nack that carries neither a delay nor "not available". */
  ghost predicate Cooperative(cfg: Config, st: State, ev: Event) {
    ev.DataArrives? ==>
      && ev.d.contentType != OtherType
      && (ev.d.contentType == Blob && cfg.verify.Some? ==> !ev.d.locator.ManifestName?)
      && (ev.d.contentType == Nack && st.finalKnown ==> ev.d.nackSegment <= st.finalBlock)
      && (ev.d.contentType == Nack && IsSecure(cfg, ev.d) ==>
          ev.d.nackCode == ProducerDelay || ev.d.nackCode == DataNotAvailable)
  }

  ghost predicate Outstanding(pool: multiset<Interest>, s: nat) {
    exists i :: i in pool && i.segment == s
  }

  ghost predicate Covered(st: State, s: nat) {
    Accepted(st, s) || Outstanding(st.pending, s) || Outstanding(st.timers, s)
  }

  ghost predicate CoveredBut(st: State, except: set<nat>) {
    forall s: nat :: s < st.segNumber && s !in except ==> Covered(st, s)
  }

  ghost predicate Idle(st: State) {
    st.pending == multiset{} && st.timers == multiset{}
  }

  lemma TakenCovers(st: State, i: Interest)
    requires CoveredBut(st, {}) && i in st.pending
    ensures CoveredBut(Taken(st, i), {i.segment})
  {
    var st' := Taken(st, i);
    forall s: nat | s < st'.segNumber && s != i.segment ensures Covered(st', s) {
      if Outstanding(st.pending, s) {
        var j :| j in st.pending && j.segment == s;
        assert j in st'.pending;
      } else {
        assert Covered(st, s);
        assert Accepted(st, s) ==> Accepted(st', s);
      }
    }
  }

  lemma TimerTakenCovers(st: State, i: Interest)
    requires CoveredBut(st, {}) && i in st.timers
    ensures CoveredBut(st.(timers := st.timers - multiset{i}), {i.segment})
  {
    var st' := st.(timers := st.timers - multiset{i});
    forall s: nat | s < st'.segNumber && s != i.segment ensures Covered(st', s) {
      if Outstanding(st.timers, s) {
        var j :| j in st.timers && j.segment == s;
        assert j in st'.timers;
      } else {
        assert Covered(st, s);
        assert Accepted(st, s) ==> Accepted(st', s);
      }
    }
  }

  /** More Interests and more accepted segments only help. */
  lemma MoreCovers(st: State, st': State, except: set<nat>, except': set<nat>)
    requires CoveredBut(st, except) && st'.segNumber == st.segNumber
    requires st.pending <= st'.pending && st.timers <= st'.timers
    requires forall s: nat :: Accepted(st, s) ==> Accepted(st', s)
    requires forall s :: s in except && s !in except' && s < st.segNumber ==> Covered(st', s)
    ensures CoveredBut(st', except')
  {
    forall s: nat | s < st'.segNumber && s !in except' ensures Covered(st', s) {
      if s !in except {
        assert Covered(st, s);
        if Outstanding(st.pending, s) {
          var j :| j in st.pending && j.segment == s;
          assert j in st'.pending;
        } else if Outstanding(st.timers, s) {
          var j :| j in st.timers && j.segment == s;
          assert j in st'.timers;
        }
      }
    }
  }

  lemma ExpressCovers(st: State, i: Interest)
    requires CoveredBut(st, {i.segment})
    ensures CoveredBut(Express(st, i), {}) && !Idle(Express(st, i))
  {
    var st' := Express(st, i);
    assert i in st'.pending;
    assert forall s: nat :: Accepted(st, s) ==> Accepted(st', s);
    MoreCovers(st, st', {i.segment}, {});
  }

  lemma SendCovers(cfg: Config, st: State)
    requires CoveredBut(st, {})
    ensures CoveredBut(SendInterest(cfg, st), {}) && !Idle(SendInterest(cfg, st))
  {
    var st' := SendInterest(cfg, st);
    assert Interest(st.segNumber, cfg.exclude, None) in st'.pending;
    assert forall s: nat :: Accepted(st, s) ==> Accepted(st', s);
    MoreCovers(st, st'.(segNumber := st.segNumber), {}, {});
    forall s: nat | s < st'.segNumber ensures Covered(st', s) {
      if s < st.segNumber { assert Covered(st'.(segNumber := st.segNumber), s); }
    }
  }

  lemma {:induction false} FillCovers(cfg: Config, st: State)
    requires CoveredBut(st, {})
    ensures CoveredBut(FillWindow(cfg, st), {}) && (MaySend(st) ==> !Idle(FillWindow(cfg, st)))
    ensures !Idle(st) ==> !Idle(FillWindow(cfg, st))
    decreases st.window - st.inFlight
  {
    if MaySend(st) {
      SendCovers(cfg, st);
      FillCovers(cfg, SendInterest(cfg, st));
    } else {
      assert FillWindow(cfg, st) == st;
    }
  }

  /** An accepted segment needs no Interest any more. */
  lemma AcceptCovers(cfg: Config, chunks: seq<seq<byte>>, st: State, i: Interest, d: Packet)
    requires Busy(cfg, chunks, st) && !MentionsAny(st) && CoveredBut(st, {i.segment})
    requires i.segment < st.segNumber && (st.finalKnown ==> i.segment != 0)
    requires Genuine(chunks, d) && d.segment == i.segment
    ensures AcceptContent(cfg, st, i, d).running ==> CoveredBut(AcceptContent(cfg, st, i, d), {})
  {
    CheckFastKeeps(cfg, chunks, st, i);
    var st1 := CheckFastRetransmission(cfg, st, i);
    var st2 := Stored(cfg, st1, d);
    StoredKeeps(cfg, chunks, st1, d);
    AfterReassembly(cfg, chunks, st2);
    assert Accepted(st2, i.segment);
    assert forall s: nat :: Accepted(st, s) ==> Accepted(st2, s);
    MoreCovers(st, st2, {i.segment}, {});
    var st3 := Reassemble(st2);
    if st3.running { MoreCovers(st2, st3, {}, {}); }
  }

  /** Why a run may stop without delivering. */
  ghost predicate GivesUp(cfg: Config, st: State, ev: Event) {
    if ev.DataArrives? then
      || (Rejected(cfg, ev.d) && (Retx(st, ev.i.segment) >= cfg.maxRetx || |ev.i.exclude| >= cfg.maxExcluded))
      || (ev.d.contentType == Nack && IsSecure(cfg, ev.d) && ev.d.nackCode == DataNotAvailable)
    else Retx(st, ev.i.segment) >= cfg.maxRetx
  }

  ghost predicate Rejected(cfg: Config, d: Packet) {
    !IsSecure(cfg, d) || (d.contentType == Blob && cfg.verify.Some? && d.locator.NoLocator?)
  }

  /** The handlers' part: the token just taken is used up only by acceptance, and the run stops for a reason. */
  ghost predicate Carried(cfg: Config, st: State, i: Interest, st': State) {
    (st'.running ==> CoveredBut(st', {})) && (st'.running && !Accepted(st', i.segment) ==> !Idle(st'))
  }

  lemma RejectCarries(cfg: Config, st: State, i: Interest, d: Packet)
    requires st.running && CoveredBut(st, {i.segment})
    ensures Carried(cfg, st, i, RetransmitWithExclude(cfg, st, i, d))
    ensures !RetransmitWithExclude(cfg, st, i, d).running ==>
      Retx(st, i.segment) >= cfg.maxRetx || |i.exclude| >= cfg.maxExcluded
  {
    var st1 := st.(unverified := st.unverified - {i.segment});
    assert forall s: nat :: Accepted(st, s) ==> Accepted(st1, s);
    MoreCovers(st, st1, {i.segment}, {i.segment});
    ExpressCovers(st1, Interest(i.segment, i.exclude + {d.digest}, None));
  }

  lemma NackCarries(cfg: Config, chunks: seq<seq<byte>>, st: State, i: Interest, d: Packet)
    requires Busy(cfg, chunks, st) && !MentionsAny(st) && CoveredBut(st, {i.segment})
    requires i.segment < st.segNumber && (st.finalKnown ==> i.segment != 0)
    requires d.contentType == Nack && Cooperative(cfg, st, DataArrives(i, d))
    ensures Carried(cfg, st, i, OnNackData(cfg, st, i, d))
    ensures !OnNackData(cfg, st, i, d).running ==> GivesUp(cfg, st, DataArrives(i, d))
  {
    if !IsSecure(cfg, d) {
      RejectCarries(cfg, st, i, d);
    } else {
      CheckFastKeeps(cfg, chunks, st, i);
      var st1 := CheckFastRetransmission(cfg, st, i);
      var st2 := SecureNack(cfg, st1, i, d.nackCode);
      assert OnNackData(cfg, st, i, d) == st2;
      if d.nackCode == ProducerDelay {
        assert i in st2.timers;
        assert forall s: nat :: Accepted(st, s) ==> Accepted(st2, s);
        MoreCovers(st, st2, {i.segment}, {});
      }
    }
  }

  lemma DispatchCarries(cfg: Config, chunks: seq<seq<byte>>, st: State, i: Interest, d: Packet)
    requires Busy(cfg, chunks, st) && !MentionsAny(st) && CoveredBut(st, {i.segment})
    requires i.segment < st.segNumber && (st.finalKnown ==> i.segment != 0)
    requires Authentic(cfg, chunks, DataArrives(i, d)) && Cooperative(cfg, st, DataArrives(i, d))
    ensures Carried(cfg, st, i, Dispatch(cfg, st, i, d))
    ensures !Dispatch(cfg, st, i, d).running ==>
      Dispatch(cfg, st, i, d).payloads == [Flatten(chunks)] || GivesUp(cfg, st, DataArrives(i, d))
  {
    hide RetransmitWithExclude, OnNackData, CoveredBut;
    match d.contentType {
      case Nack => NackCarries(cfg, chunks, st, i, d);
      case Manifest => RejectCarries(cfg, st, i, d);
      case Blob =>
        if IsSecure(cfg, d) && !(cfg.verify.Some? && d.locator.NoLocator?) {
          AcceptKeeps(cfg, chunks, st, i, d);
          AcceptCovers(cfg, chunks, st, i, d);
        } else {
          RejectCarries(cfg, st, i, d);
        }
    }
  }

  /** With everything requested accounted for and the window filled, a running object waits for something. */
  lemma FilledIsNotIdle(cfg: Config, chunks: seq<seq<byte>>, st: State)
    requires Good(cfg, chunks, st) && st.running && st.finalKnown && CoveredBut(st, {}) && !MaySend(st)
    ensures !Idle(st)
  {
    assert st.lastReassembled < st.segNumber ==> Covered(st, st.lastReassembled);
  }

  /** The first answer opens the window; without an accepted first segment something is still awaited. */
  lemma FirstFillProgresses(cfg: Config, chunks: seq<seq<byte>>, st: State, i: Interest, st2: State)
    requires Busy(cfg, chunks, st) && !st.finalKnown && i.segment == 0 && Handled(cfg, chunks, st, i, st2)
    requires Carried(cfg, st, i, st2)
    ensures var st' := FillWindow(cfg, st2.(window := FirstWindow(cfg, st2)));
      && st'.running == st2.running && st'.payloads == st2.payloads
      && (st'.running ==> CoveredBut(st', {}) && !Idle(st'))
  {
    var st3 := st2.(window := FirstWindow(cfg, st2));
    var st' := FillWindow(cfg, st3);
    FirstFill(cfg, chunks, st, i, st2);
    if st2.running {
      assert forall s: nat :: Accepted(st2, s) ==> Accepted(st3, s);
      MoreCovers(st2, st3, {}, {});
      FillCovers(cfg, st3);
      if st'.finalKnown {
        FilledIsNotIdle(cfg, chunks, st');
      } else {
        assert !Accepted(st2, 0);
      }
    }
  }

  /** What a handled token leaves: progress, or a reason to stop. */
  ghost predicate Progressed(cfg: Config, chunks: seq<seq<byte>>, st: State, ev: Event, st': State) {
    if st'.running then CoveredBut(st', {}) && !Idle(st')
    else st'.payloads == [Flatten(chunks)] || GivesUp(cfg, st, ev)
  }

  lemma OnDataProgresses(cfg: Config, chunks: seq<seq<byte>>, st: State, i: Interest, d: Packet, st': State)
    requires Good(cfg, chunks, st) && st.running && CoveredBut(st, {}) && i in st.pending
    requires Authentic(cfg, chunks, DataArrives(i, d)) && Cooperative(cfg, st, DataArrives(i, d))
    requires st' == OnData(cfg, st.(pending := st.pending - multiset{i}), i, d)
    ensures Progressed(cfg, chunks, st, DataArrives(i, d), st')
  {
    TakeToken(cfg, chunks, st, i);
    TakenCovers(st, i);
    var st1 := Taken(st, i);
    var st2 := Dispatch(cfg, st1, i, d);
    DispatchKeeps(cfg, chunks, st1, i, d);
    DispatchCarries(cfg, chunks, st1, i, d);
    if i.segment == 0 {
      FirstFillProgresses(cfg, chunks, st1, i, st2);
    } else if st2.running {
      LaterFillProgresses(cfg, chunks, st2);
    }
  }

  lemma LaterFillProgresses(cfg: Config, chunks: seq<seq<byte>>, st2: State)
    requires Good(cfg, chunks, st2) && st2.running && st2.finalKnown && CoveredBut(st2, {})
    ensures var st' := FillWindow(cfg, st2);
      st'.running && st'.payloads == st2.payloads && CoveredBut(st', {}) && !Idle(st')
  {
    LaterFill(cfg, chunks, st2);
    FillCovers(cfg, st2);
    FilledIsNotIdle(cfg, chunks, FillWindow(cfg, st2));
  }

  /** No stall: after a cooperative event a still running object has every requested segment accepted, outstanding
      or scheduled, and waits for something; and it stops only on delivery or for one of the reasons to give up. */
  lemma StepProgresses(cfg: Config, chunks: seq<seq<byte>>, st: State, ev: Event)
    requires Good(cfg, chunks, st) && st.running && CoveredBut(st, {})
    requires Enabled(st, ev) && Authentic(cfg, chunks, ev) && Cooperative(cfg, st, ev)
    ensures Step(cfg, st, ev).running ==> CoveredBut(Step(cfg, st, ev), {}) && !Idle(Step(cfg, st, ev))
    ensures !Step(cfg, st, ev).running ==> Step(cfg, st, ev).payloads == [Flatten(chunks)] || GivesUp(cfg, st, ev)
  {
    match ev {
      case DataArrives(i, d) => OnDataProgresses(cfg, chunks, st, i, d, Step(cfg, st, ev));
      case TimesOut(i) => TimeoutProgresses(cfg, chunks, st, i);
      case NetworkNack(i) => TimeoutProgresses(cfg, chunks, st, i);
      case TimerFires(i) =>
        TimerKeeps(cfg, chunks, st, i);
        TimerTakenCovers(st, i);
        ExpressCovers(st.(timers := st.timers - multiset{i}), Interest(i.segment, i.exclude, None));
    }
  }

  lemma TimeoutProgresses(cfg: Config, chunks: seq<seq<byte>>, st: State, i: Interest)
    requires Good(cfg, chunks, st) && st.running && CoveredBut(st, {}) && i in st.pending
    ensures var st' := OnTimeout(cfg, st.(pending := st.pending - multiset{i}), i);
      && (st'.running ==> CoveredBut(st', {}) && !Idle(st'))
      && (!st'.running ==> Retx(st, i.segment) >= cfg.maxRetx)
  {
    hide OnTimeout, CoveredBut, RetransmitOrStop, Measure, InterestsOk, LossOk, RetxOk;
    TakeToken(cfg, chunks, st, i);
    TakenCovers(st, i);
    TimeoutIs(cfg, st.(pending := st.pending - multiset{i}), i);
    var st1 := Taken(st, i);
    var st2 := st1.(window := Shrunk(cfg, st1.window));
    assert forall s: nat :: Accepted(st1, s) ==> Accepted(st2, s);
    MoreCovers(st1, st2, {i.segment}, {i.segment});
    RetransmitOrStopCovers(cfg, st2, i);
  }

  lemma RetransmitOrStopCovers(cfg: Config, st: State, i: Interest)
    requires st.running && CoveredBut(st, {i.segment})
    ensures var st' := RetransmitOrStop(cfg, st, i);
      && (st'.running ==> CoveredBut(st', {}) && !Idle(st'))
      && (!st'.running ==> Retx(st, i.segment) >= cfg.maxRetx)
  {
    ExpressCovers(st, Interest(i.segment, i.exclude, None));
  }

  // ----- whole runs -----

  ghost predicate AllCooperative(cfg: Config, events: seq<Event>) {
    forall k :: 0 <= k < |events| ==> Cooperative(cfg, Run(cfg, events[..k]), events[k])
  }

  /** The reason, at some event of the run, for stopping without delivery. */
  ghost predicate GaveUp(cfg: Config, events: seq<Event>) {
    exists k :: 0 <= k < |events| && GivesUp(cfg, Run(cfg, events[..k]), events[k])
  }

  lemma GivesUpAt(cfg: Config, events: seq<Event>, n: nat)
    requires n < |events| && (GaveUp(cfg, events[..n]) || GivesUp(cfg, Run(cfg, events[..n]), events[n]))
    ensures GaveUp(cfg, events)
  {
    if GaveUp(cfg, events[..n]) {
      var k :| 0 <= k < n && GivesUp(cfg, Run(cfg, events[..n][..k]), events[..n][k]);
      assert events[..n][..k] == events[..k];
    }
  }

  lemma CooperativePrefix(cfg: Config, events: seq<Event>, n: nat)
    requires AllCooperative(cfg, events) && n <= |events|
    ensures AllCooperative(cfg, events[..n])
  {
    forall k | 0 <= k < n ensures Cooperative(cfg, Run(cfg, events[..n][..k]), events[..n][k]) {
      assert events[..n][..k] == events[..k];
    }
  }

  lemma {:induction false} RunProgresses(cfg: Config, chunks: seq<seq<byte>>, events: seq<Event>)
    requires IsUnit(chunks) && cfg.maxWindow >= 1 && IsRun(cfg, events)
    requires AllAuthentic(cfg, chunks, events) && AllCooperative(cfg, events)
    ensures Run(cfg, events).running ==> CoveredBut(Run(cfg, events), {}) && !Idle(Run(cfg, events))
    ensures !Run(cfg, events).running ==> Run(cfg, events).payloads == [Flatten(chunks)] || GaveUp(cfg, events)
  {
    if events == [] {
      var st := Start(cfg, Constructed());
      assert Interest(0, cfg.exclude, None) in st.pending;
    } else {
      var n := |events| - 1;
      RunPrefix(cfg, events, n);
      CooperativePrefix(cfg, events, n);
      RunProgresses(cfg, chunks, events[..n]);
      RunIsGood(cfg, chunks, events[..n]);
      var st, ev := Run(cfg, events[..n]), events[n];
      StepKeeps(cfg, chunks, st, ev);
      if st.running { StepProgresses(cfg, chunks, st, ev); }
      if GaveUp(cfg, events[..n]) || GivesUp(cfg, st, ev) { GivesUpAt(cfg, events, n); }
    }
  }

  /** A run that has nothing left to wait for has ended: it delivered exactly the buffer, or gave up for a reason. */
  lemma EveryRunEnds(cfg: Config, chunks: seq<seq<byte>>, events: seq<Event>)
    requires IsUnit(chunks) && cfg.maxWindow >= 1 && IsRun(cfg, events)
    requires AllAuthentic(cfg, chunks, events) && AllCooperative(cfg, events)
    requires Idle(Run(cfg, events))
    ensures Run(cfg, events).payloads == [Flatten(chunks)] || GaveUp(cfg, events)
  {
    RunProgresses(cfg, chunks, events);
  }

  /** A genuine answer to the Interest that asked for it. */
  ghost predicate IsGenuineAnswer(cfg: Config, chunks: seq<seq<byte>>, ev: Event) {
    ev.DataArrives? && Genuine(chunks, ev.d) && ev.d.segment == ev.i.segment && IsSecure(cfg, ev.d) && ev.d.locator.KeyName?
  }

  /** On a network that answers every Interest with the genuine packet, in any order, the run ends by delivering the buffer. */
  lemma GenuineRunDelivers(cfg: Config, chunks: seq<seq<byte>>, events: seq<Event>)
    requires IsUnit(chunks) && cfg.maxWindow >= 1 && IsRun(cfg, events)
    requires forall k :: 0 <= k < |events| ==> IsGenuineAnswer(cfg, chunks, events[k])
    requires Idle(Run(cfg, events))
    ensures Run(cfg, events).payloads == [Flatten(chunks)]
  {
    forall k | 0 <= k < |events|
      ensures Authentic(cfg, chunks, events[k]) && Cooperative(cfg, Run(cfg, events[..k]), events[k])
      ensures !GivesUp(cfg, Run(cfg, events[..k]), events[k])
    {
      assert IsGenuineAnswer(cfg, chunks, events[k]);
    }
    EveryRunEnds(cfg, chunks, events);
  }
}
