/** Verified-only delivery, with or without manifests: whatever packets arrive, every byte passed up comes from a
    packet that arrived and passed the check, or from one that arrived and is listed in an arrived manifest that
    passed.  The check is the verification callback, or the digest signature when there is none. */
module RdrSafety {
  import opened Names
  import opened Options
  import opened LossDetector
  import opened RdrModel
  import opened RdrChecks

  /** The packet arrived and passed the check, or arrived and is listed in a manifest that arrived and passed. */
  ghost predicate Vouched(cfg: Config, came: set<Packet>, d: Packet) {
    d in came && (Passes(cfg, d) || exists m :: m in came && m.contentType == Manifest && Passes(cfg, m) && IsListed(m, d))
  }

  function Contents(ds: seq<Packet>): seq<byte> {
    if ds == [] then [] else Contents(ds[..|ds| - 1]) + ds[|ds| - 1].content
  }

  /** A manifest that arrived and passed the check. */
  predicate IsAccepted(cfg: Config, came: set<Packet>, m: Packet)
  {
    m in came && m.contentType == Manifest && Passes(cfg, m)
  }

  predicate IsParked(came: set<Packet>, d: Packet, k: nat) {
    d in came && d.contentType == Blob && d.segment == k
  }

  ghost predicate StoreSafe(cfg: Config, came: set<Packet>, st: State)
  {
    && (forall k :: k in st.manifests ==> IsAccepted(cfg, came, st.manifests[k]))
    && (forall k :: k in st.receiveBuffer ==> st.receiveBuffer[k].segment == k)
    && (forall k :: k in st.receiveBuffer && st.receiveBuffer[k].contentType == Blob ==> Vouched(cfg, came, st.receiveBuffer[k]))
    && (forall k :: k in st.unverified ==> IsParked(came, st.unverified[k], k))
  }

  /** The content buffer holds vouched packets in ascending order of segment number, each at most once. */
  ghost predicate CopySafe(cfg: Config, came: set<Packet>, st: State)
  {
    && st.contentBuffer == Contents(st.copied)
    && (forall j :: 0 <= j < |st.copied| ==> Vouched(cfg, came, st.copied[j]) && st.copied[j].segment < st.lastReassembled)
    && (forall j, k :: 0 <= j < k < |st.copied| ==> st.copied[j].segment < st.copied[k].segment)
  }

  /** Every payload is the contents of some vouched packets in ascending order. */
  ghost predicate PayloadsSafe(st: State) {
    forall p :: p in st.payloads ==> IsContents(p, st.copied)
  }

  ghost predicate IsContents(p: seq<byte>, copied: seq<Packet>) {
    exists n :: 0 <= n <= |copied| && p == Contents(copied[..n])
  }

  ghost predicate Safe(cfg: Config, came: set<Packet>, st: State)
  {
    StoreSafe(cfg, came, st) && CopySafe(cfg, came, st) && PayloadsSafe(st)
  }

  /** Nothing has been accepted, copied or passed up; some parked segments may be gone. */
  ghost predicate Untouched(st: State, st': State) {
    && st'.receiveBuffer == st.receiveBuffer && st'.manifests == st.manifests && st'.copied == st.copied
    && st'.contentBuffer == st.contentBuffer && st'.payloads == st.payloads && st'.lastReassembled == st.lastReassembled
    && (forall k :: k in st'.unverified ==> k in st.unverified && st'.unverified[k] == st.unverified[k])
  }

  lemma UntouchedKeeps(cfg: Config, came: set<Packet>, st: State, st': State)
    requires Safe(cfg, came, st) && Untouched(st, st')
    ensures Safe(cfg, came, st')
  {}

  lemma ExcludeIsUntouched(cfg: Config, st: State, i: Interest, d: Packet)
    ensures Untouched(st, RetransmitWithExclude(cfg, st, i, d))
  {}

  lemma DigestIsUntouched(cfg: Config, st: State, i: Interest, d: Packet, manifest: Packet)
    ensures Untouched(st, RetransmitWithDigest(cfg, st, i, d, manifest))
  {}

  lemma NackIsUntouched(cfg: Config, st: State, i: Interest, d: Packet)
    ensures Untouched(st, OnNackData(cfg, st, i, d))
  {
    if !st.running || (st.finalKnown && d.nackSegment > st.finalBlock) {
    } else if !IsSecure(cfg, d) {
      ExcludeIsUntouched(cfg, st, i, d);
    } else {
      CheckFastIsUntouched(cfg, st, i);
      var st1 := CheckFastRetransmission(cfg, st, i);
      var window := Shrunk(cfg, st1.window);
      if d.nackCode == DataNotAvailable {
        assert OnNackData(cfg, st, i, d) == st1.(window := window, running := false);
      } else if d.nackCode == ProducerDelay {
        assert OnNackData(cfg, st, i, d) == st1.(window := window, timers := st1.timers + multiset{i});
      } else {
        assert OnNackData(cfg, st, i, d) == st1.(window := window);
      }
    }
  }

  lemma TimeoutIsUntouched(cfg: Config, st: State, i: Interest, stopped: State)
    requires stopped == st.(inFlight := st.inFlight - 1, window := Shrunk(cfg, st.window), running := false)
    ensures Untouched(st, OnTimeout(cfg, st, i)) || OnTimeout(cfg, st, i) == Reassemble(stopped)
    ensures Untouched(st, stopped)
  {
    hide Reassemble, Shrunk, Express;
    var counted := st.(inFlight := st.inFlight - 1);
    var shrunk := counted.(window := Shrunk(cfg, counted.window));
    if Retx(shrunk, i.segment) < cfg.maxRetx {
      ExpressIsUntouched(shrunk, Interest(i.segment, i.exclude, None));
    } else {
      assert stopped == shrunk.(running := false);
    }
  }

  lemma ExpressIsUntouched(st: State, i: Interest)
    ensures Untouched(st, Express(st, i))
  {}

  lemma FreshIsUntouched(cfg: Config, st: State, i: Interest)
    ensures Untouched(st, RetransmitFresh(cfg, st, i))
  {}

  lemma {:induction false} FillIsUntouched(cfg: Config, st: State)
    ensures Untouched(st, FillWindow(cfg, st))
    decreases st.window - st.inFlight
  {
    if MaySend(st) { FillIsUntouched(cfg, SendInterest(cfg, st)); }
  }

  lemma {:induction false} FastAllIsUntouched(cfg: Config, st: State, i: Interest, lost: seq<nat>)
    ensures Untouched(st, FastRetransmitAll(cfg, st, i, lost))
    decreases |lost|
  {
    if lost != [] { FastAllIsUntouched(cfg, st, i, lost[..|lost| - 1]); }
  }

  lemma CheckFastIsUntouched(cfg: Config, st: State, i: Interest)
    ensures Untouched(st, CheckFastRetransmission(cfg, st, i))
  {
    FastAllIsUntouched(cfg,
      st.(received := st.received + {i.segment}, marked := MarkedAfter(st.received, st.marked, i.segment)), i,
      Exposed(st.received, st.marked, i.segment));
  }

  lemma MoveKeepsStore(cfg: Config, came: set<Packet>, st: State)
    requires StoreSafe(cfg, came, st) && st.lastReassembled in st.receiveBuffer
    ensures StoreSafe(cfg, came, MoveHead(st))
  {
    hide Vouched, IsAccepted, IsParked;
  }

  lemma MoveKeeps(cfg: Config, came: set<Packet>, st: State, st': State)
    requires Safe(cfg, came, st) && st.lastReassembled in st.receiveBuffer && st' == MoveHead(st)
    ensures Safe(cfg, came, st')
  {
    hide Vouched, IsContents, Contents, IsAccepted, IsParked;
    MoveKeepsStore(cfg, came, st);
    var d := st.receiveBuffer[st.lastReassembled];
    if d.contentType == Blob {
      AppendContents(st.copied, d);
      forall p | p in st'.payloads ensures IsContents(p, st.copied + [d]) {
        if p in st.payloads { StillContents(p, st.copied, d); }
      }
    }
  }

  lemma AppendContents(copied: seq<Packet>, d: Packet)
    ensures Contents(copied + [d]) == Contents(copied) + d.content
    ensures IsContents(Contents(copied + [d]), copied + [d])
  {
    assert (copied + [d])[..|copied|] == copied;
    assert (copied + [d])[..|copied| + 1] == copied + [d];
  }

  lemma StillContents(p: seq<byte>, copied: seq<Packet>, d: Packet)
    requires IsContents(p, copied)
    ensures IsContents(p, copied + [d])
  {
    var n :| 0 <= n <= |copied| && p == Contents(copied[..n]);
    assert (copied + [d])[..n] == copied[..n];
  }

  lemma {:induction false} ReassembleKeepsSafe(cfg: Config, came: set<Packet>, st: State)
    requires Safe(cfg, came, st)
    ensures Safe(cfg, came, Reassemble(st))
    decreases |st.receiveBuffer|
  {
    hide Safe, MoveHead;
    if st.lastReassembled in st.receiveBuffer {
      MoveKeeps(cfg, came, st, MoveHead(st));
      ReassembleKeepsSafe(cfg, came, MoveHead(st));
    }
  }

  /** Storing a vouched segment, or a manifest that passed the check. */
  lemma StoreKeeps(cfg: Config, came: set<Packet>, st: State, st': State, d: Packet)
    requires Safe(cfg, came, st) && (d.contentType == Blob ==> Vouched(cfg, came, d))
    requires Untouched(st, st'.(receiveBuffer := st.receiveBuffer, manifests := st.manifests))
    requires st'.receiveBuffer == st.receiveBuffer[d.segment := d]
    requires st'.manifests == st.manifests ||
      (IsAccepted(cfg, came, d) && st'.manifests == st.manifests[d.segment := d])
    ensures Safe(cfg, came, st')
  {}

  lemma AcceptKeepsSafe(cfg: Config, came: set<Packet>, st: State, i: Interest, d: Packet)
    requires Safe(cfg, came, st) && Vouched(cfg, came, d)
    ensures Safe(cfg, came, AcceptContent(cfg, st, i, d))
  {
    hide Safe, Reassemble, CheckFastRetransmission;
    CheckFastIsUntouched(cfg, st, i);
    var st1 := CheckFastRetransmission(cfg, st, i);
    var st2 := FinalFrom(st1.(window := Grown(cfg, st1.window)), d);
    var st3 := st2.(receiveBuffer := st2.receiveBuffer[d.segment := d]);
    StoreKeeps(cfg, came, st, st3, d);
    ReassembleKeepsSafe(cfg, came, st3);
  }

  lemma ParkKeepsSafe(cfg: Config, came: set<Packet>, st: State, d: Packet)
    requires Safe(cfg, came, st) && d.contentType == Blob && d in came
    ensures Safe(cfg, came, st.(unverified := if d.segment in st.unverified then st.unverified else st.unverified[d.segment := d]))
  {}

  lemma ContentKeepsSafe(cfg: Config, came: set<Packet>, st: State, i: Interest, d: Packet)
    requires Safe(cfg, came, st) && d.contentType == Blob && d in came
    ensures Safe(cfg, came, OnContentData(cfg, st, i, d))
  {
    var excluded := RetransmitWithExclude(cfg, st, i, d);
    ExcludeIsUntouched(cfg, st, i, d);
    UntouchedKeeps(cfg, came, st, excluded);
    if cfg.verify.Some? && d.locator.ManifestName? {
      if d.locator.segment !in st.manifests {
        ParkKeepsSafe(cfg, came, st, d);
      } else {
        var manifest := st.manifests[d.locator.segment];
        VerifiedByIff(manifest, d);
        if VerifiedBy(manifest, d) {
          AcceptKeepsSafe(cfg, came, st, i, d);
        } else {
          DigestIsUntouched(cfg, st, i, d, manifest);
          UntouchedKeeps(cfg, came, st, RetransmitWithDigest(cfg, st, i, d, manifest));
        }
      }
    } else if !(cfg.verify.Some? && d.locator.NoLocator?) && IsSecure(cfg, d) {
      AcceptKeepsSafe(cfg, came, st, i, d);
    }
  }

  lemma ParkedKeepsSafe(cfg: Config, came: set<Packet>, st: State, i: Interest, manifest: Packet, d: Packet)
    requires Safe(cfg, came, st) && d.contentType == Blob && d in came
    requires IsAccepted(cfg, came, manifest)
    ensures Safe(cfg, came, CheckParked(cfg, st, i, manifest, d))
  {
    hide Reassemble, Untouched;
    if VerifiedBy(manifest, d) {
      var st1 := FinalFrom(st, d);
      var st2 := st1.(receiveBuffer := st1.receiveBuffer[d.segment := d]);
      VerifiedByIff(manifest, d);
      StoreKeeps(cfg, came, st, st2, d);
      ReassembleKeepsSafe(cfg, came, st2);
    } else {
      DigestIsUntouched(cfg, st, i, manifest, manifest);
      UntouchedKeeps(cfg, came, st, RetransmitWithDigest(cfg, st, i, manifest, manifest));
    }
  }

  lemma {:induction false} AllParkedKeepsSafe(
      cfg: Config, came: set<Packet>, st: State, i: Interest, manifest: Packet, from: nat, result: State)
    requires Safe(cfg, came, st)
    requires IsAccepted(cfg, came, manifest)
    requires result == CheckAllParked(cfg, st, i, manifest, from)
    ensures Safe(cfg, came, result)
    decreases KeysFrom(st.unverified, from)
  {
    hide Safe, IsAccepted, CheckParked, NextKeyOf;
    var k := NextKeyOf(st.unverified, from);
    if st.running && k.Some? {
      var next := CheckParked(cfg, st, i, manifest, st.unverified[k.value]);
      ParkedSegmentKeepsSafe(cfg, came, st, i, manifest, k.value, next);
      CheckAllParkedNext(cfg, st, i, manifest, from, k.value);
      AllParkedKeepsSafe(cfg, came, next, i, manifest, k.value + 1, result);
    }
  }

  lemma ParkedSegmentKeepsSafe(cfg: Config, came: set<Packet>, st: State, i: Interest, manifest: Packet, k: nat, next: State)
    requires Safe(cfg, came, st) && k in st.unverified
    requires IsAccepted(cfg, came, manifest)
    requires next == CheckParked(cfg, st, i, manifest, st.unverified[k])
    ensures Safe(cfg, came, next)
  {
    ParkedKeepsSafe(cfg, came, st, i, manifest, st.unverified[k]);
  }

  lemma ManifestKeepsSafe(cfg: Config, came: set<Packet>, st: State, i: Interest, d: Packet)
    requires Safe(cfg, came, st) && d.contentType == Manifest && d in came
    ensures Safe(cfg, came, OnManifestData(cfg, st, i, d))
  {
    if st.running && IsSecure(cfg, d) {
      CheckFastIsUntouched(cfg, st, i);
      var st1 := CheckFastRetransmission(cfg, st, i);
      var st2 := st1.(window := Grown(cfg, st1.window),
                      manifests := if d.segment in st1.manifests then st1.manifests else st1.manifests[d.segment := d],
                      receiveBuffer := st1.receiveBuffer[d.segment := d]);
      StoreKeeps(cfg, came, st, st2, d);
      AllParkedKeepsSafe(cfg, came, st2, i, d, 0, CheckAllParked(cfg, st2, i, d, 0));
    } else {
      ExcludeIsUntouched(cfg, st, i, d);
      UntouchedKeeps(cfg, came, st, RetransmitWithExclude(cfg, st, i, d));
    }
  }

  lemma DispatchKeepsSafe(cfg: Config, came: set<Packet>, st: State, i: Interest, d: Packet)
    requires Safe(cfg, came, st) && d in came
    ensures Safe(cfg, came, Dispatch(cfg, st, i, d))
  {
    match d.contentType {
      case Manifest => ManifestKeepsSafe(cfg, came, st, i, d);
      case Nack =>
        NackIsUntouched(cfg, st, i, d);
        UntouchedKeeps(cfg, came, st, OnNackData(cfg, st, i, d));
      case Blob => ContentKeepsSafe(cfg, came, st, i, d);
      case OtherType =>
    }
  }

  lemma FillKeepsSafe(cfg: Config, came: set<Packet>, st: State, window: int)
    requires Safe(cfg, came, st)
    ensures Safe(cfg, came, FillWindow(cfg, st.(window := window)))
  {
    FillIsUntouched(cfg, st.(window := window));
    UntouchedKeeps(cfg, came, st, FillWindow(cfg, st.(window := window)));
  }

  lemma OnDataKeepsSafe(cfg: Config, came: set<Packet>, st: State, i: Interest, d: Packet, result: State)
    requires Safe(cfg, came, st) && d in came && result == OnData(cfg, st, i, d)
    ensures Safe(cfg, came, result)
  {
    hide Safe, Dispatch, FillWindow, FirstWindow;
    if st.running {
      var st1 := st.(inFlight := st.inFlight - 1);
      UntouchedKeeps(cfg, came, st, st1);
      if !i.implicitDigest.Some? {
        var st2 := Dispatch(cfg, st1, i, d);
        DispatchKeepsSafe(cfg, came, st1, i, d);
        var window := if i.segment == 0 then FirstWindow(cfg, st2) else st2.window;
        FillKeepsSafe(cfg, came, st2, window);
        assert st2.(window := st2.window) == st2;
      }
    }
  }

  lemma TimeoutKeepsSafe(cfg: Config, came: set<Packet>, st: State, i: Interest)
    requires Safe(cfg, came, st)
    ensures Safe(cfg, came, OnTimeout(cfg, st, i))
  {
    var stopped := st.(inFlight := st.inFlight - 1, window := Shrunk(cfg, st.window), running := false);
    TimeoutIsUntouched(cfg, st, i, stopped);
    if Untouched(st, OnTimeout(cfg, st, i)) {
      UntouchedKeeps(cfg, came, st, OnTimeout(cfg, st, i));
    } else {
      UntouchedKeeps(cfg, came, st, stopped);
      ReassembleKeepsSafe(cfg, came, stopped);
    }
  }

  /** Every event keeps it, whatever arrives. */
  lemma StepKeepsSafe(cfg: Config, came: set<Packet>, st: State, ev: Event)
    requires Safe(cfg, came, st) && (ev.DataArrives? ==> ev.d in came)
    ensures Safe(cfg, came, Step(cfg, st, ev))
  {
    if ev.TimerFires? {
      var st1 := st.(timers := st.timers - multiset{ev.i});
      UntouchedKeeps(cfg, came, st, st1);
      FreshIsUntouched(cfg, st1, ev.i);
      UntouchedKeeps(cfg, came, st1, RetransmitFresh(cfg, st1, ev.i));
    } else {
      var st1 := st.(pending := st.pending - multiset{ev.i});
      UntouchedKeeps(cfg, came, st, st1);
      if ev.DataArrives? {
        OnDataKeepsSafe(cfg, came, st1, ev.i, ev.d, OnData(cfg, st1, ev.i, ev.d));
      } else {
        TimeoutKeepsSafe(cfg, came, st1, ev.i);
      }
    }
  }

  // ----- whole runs -----

  /** The packets that arrived. */
  ghost function Came(events: seq<Event>): set<Packet> {
    set ev | ev in events && ev.DataArrives? :: ev.d
  }

  /** More arrivals vouch for more. */
  lemma StillSafe(cfg: Config, came: set<Packet>, came': set<Packet>, st: State)
    requires Safe(cfg, came, st) && came <= came'
    ensures Safe(cfg, came', st)
  {
    assert forall d :: Vouched(cfg, came, d) ==> Vouched(cfg, came', d);
  }

  lemma {:induction false} RunIsSafe(cfg: Config, events: seq<Event>)
    ensures Safe(cfg, Came(events), Run(cfg, events))
  {
    if events != [] {
      var n := |events| - 1;
      RunIsSafe(cfg, events[..n]);
      StillSafe(cfg, Came(events[..n]), Came(events), Run(cfg, events[..n]));
      StepKeepsSafe(cfg, Came(events), Run(cfg, events[..n]), events[n]);
    }
  }

  /** These bytes are the contents of packets in ascending order, each of which arrived and is vouched for. */
  ghost predicate IsVerifiedContent(cfg: Config, came: set<Packet>, p: seq<byte>)
  {
    exists ds: seq<Packet> :: p == Contents(ds) && AllVouched(cfg, came, ds)
  }

  ghost predicate AllVouched(cfg: Config, came: set<Packet>, ds: seq<Packet>)
  {
    && (forall j :: 0 <= j < |ds| ==> Vouched(cfg, came, ds[j]))
    && (forall j, k :: 0 <= j < k < |ds| ==> ds[j].segment < ds[k].segment)
  }

  /** Verified-only delivery over every run of every environment, in both modes: what is passed up comes from
      packets that arrived in this run, and passed the check or are listed by a manifest that arrived in this run and
      passed it. */
  lemma OnlyVerifiedBytes(cfg: Config, events: seq<Event>)
    ensures forall p :: p in Run(cfg, events).payloads ==> IsVerifiedContent(cfg, Came(events), p)
  {
    RunIsSafe(cfg, events);
    var st := Run(cfg, events);
    forall p | p in st.payloads ensures IsVerifiedContent(cfg, Came(events), p) {
      var n :| 0 <= n <= |st.copied| && p == Contents(st.copied[..n]);
      assert AllVouched(cfg, Came(events), st.copied[..n]);
    }
  }
}
