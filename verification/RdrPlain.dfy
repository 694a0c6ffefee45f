/** Reliable retrieval of an application data unit cut by plain segmentation: what every event keeps. */
module RdrPlain {
  import opened Names
  import opened Options
  import opened LossDetector
  import opened RdrModel

  function Flatten(chunks: seq<seq<byte>>): seq<byte> {
    if chunks == [] then [] else Flatten(chunks[..|chunks| - 1]) + chunks[|chunks| - 1]
  }

  lemma FlattenNext(chunks: seq<seq<byte>>, k: nat)
    requires k < |chunks|
    ensures Flatten(chunks[..k + 1]) == Flatten(chunks[..k]) + chunks[k]
  {
    assert chunks[..k + 1][..k] == chunks[..k];
  }

  function Max0(x: int): nat { if x < 0 then 0 else x }

  /** A data unit of at least one segment whose last segment number fits the source's int. */
  ghost predicate IsUnit(chunks: seq<seq<byte>>) {
    0 < |chunks| <= 0x8000_0000
  }

  /** The packet the producer made for its segment number. */
  ghost predicate Genuine(chunks: seq<seq<byte>>, d: Packet) {
    && d.contentType == Blob && d.segment < |chunks| && d.content == chunks[d.segment]
    && d.finalBlockId == Some(|chunks| - 1)
  }

  /** The environment may reorder, lose, duplicate and corrupt; corrupt content does not pass the check. */
  ghost predicate Authentic(cfg: Config, chunks: seq<seq<byte>>, ev: Event) {
    ev.DataArrives? && IsSecure(cfg, ev.d) && (ev.d.contentType == Blob || ev.d.contentType == Manifest) ==>
      Genuine(chunks, ev.d) && ev.d.segment == ev.i.segment
  }

  // ----- the invariant -----

  ghost predicate Accepted(st: State, s: nat) {
    s < st.lastReassembled || s in st.receiveBuffer
  }

  /** Everything kept back or copied is the producer's. */
  ghost predicate BuffersOk(chunks: seq<seq<byte>>, st: State) {
    && st.lastReassembled <= |chunks| && st.contentBuffer == Flatten(chunks[..st.lastReassembled])
    && (forall k :: k in st.receiveBuffer ==> Genuine(chunks, st.receiveBuffer[k]) && st.receiveBuffer[k].segment == k)
    && (st.finalKnown ==> st.finalBlock == |chunks| - 1)
    && (!st.finalKnown ==> st.finalBlock == MAX_SEGMENT && st.lastReassembled == 0 && st.receiveBuffer == map[])
    && st.manifests == map[]
  }

  ghost predicate OutcomeOk(chunks: seq<seq<byte>>, st: State) {
    && (st.running ==> st.payloads == [] && st.lastReassembled < |chunks|)
    && (st.payloads == [] || (st.payloads == [Flatten(chunks)] && !st.running))
  }

  ghost predicate InterestsOk(chunks: seq<seq<byte>>, st: State, pool: multiset<Interest>) {
    forall i :: i in pool ==> i.implicitDigest.None? && i.segment < st.segNumber && (st.finalKnown ==> i.segment != 0)
  }

  ghost predicate TokensOk(chunks: seq<seq<byte>>, st: State) {
    && 1 <= st.segNumber <= |chunks| && (st.segNumber > 1 ==> st.finalKnown)
    && InterestsOk(chunks, st, st.pending) && InterestsOk(chunks, st, st.timers)
    && (!st.finalKnown ==> |st.pending| + |st.timers| <= 1)
    && (forall k :: k in st.receiveBuffer ==> k < st.segNumber)
    && st.lastReassembled <= st.segNumber
    && st.inFlight == |st.pending|
  }

  ghost predicate LossOk(st: State) {
    && (forall s :: s in st.received ==> s < st.segNumber)
    && (st.finalKnown ==> 0 in st.received)
  }

  function Count(requests: seq<nat>, s: nat): nat {
    if requests == [] then 0
    else Count(requests[..|requests| - 1], s) + if requests[|requests| - 1] == s then 1 else 0
  }

  /** Retransmission counts stay within the option; the log of expressed Interests agrees with them. */
  ghost predicate RetxOk(cfg: Config, st: State) {
    && (forall s: nat :: s in st.retx <==> s < st.segNumber)
    && (forall s :: s in st.retx ==> 0 <= st.retx[s] <= Max0(cfg.maxRetx))
    && (forall s: nat :: Count(st.requests, s) == if s in st.retx then 1 + st.retx[s] else 0)
  }

  /** The part of the invariant that matters while the object runs. */
  ghost predicate LiveOk(cfg: Config, chunks: seq<seq<byte>>, st: State) {
    TokensOk(chunks, st) && LossOk(st)
  }

  ghost predicate Inv(cfg: Config, chunks: seq<seq<byte>>, st: State) {
    && IsUnit(chunks) && cfg.maxWindow >= 1
    && BuffersOk(chunks, st) && OutcomeOk(chunks, st) && RetxOk(cfg, st)
    && st.segNumber <= |chunks|
    && st.window <= cfg.maxWindow && (st.running ==> LiveOk(cfg, chunks, st) && st.lastReassembled !in st.receiveBuffer)
  }

  /** Bounds the events still to come while running. */
  function Budget(cfg: Config, st: State, n: nat): int {
    if n == 0 then 0 else Budget(cfg, st, n - 1) + Max0(cfg.maxRetx) - Retx(st, n - 1)
  }

  function Measure(cfg: Config, chunks: seq<seq<byte>>, st: State): int {
    3 * Budget(cfg, st, |chunks|) + 3 * (|chunks| - st.segNumber) + 2 * |st.pending| + |st.timers|
  }

  lemma {:induction false} BudgetSame(cfg: Config, st: State, st': State, n: nat)
    requires forall s: nat :: s < n ==> Retx(st, s) == Retx(st', s)
    ensures Budget(cfg, st, n) == Budget(cfg, st', n)
  {
    if n > 0 { BudgetSame(cfg, st, st', n - 1); }
  }

  lemma {:induction false} BudgetSpent(cfg: Config, st: State, st': State, s: nat, n: nat)
    requires s < n && Retx(st', s) == Retx(st, s) + 1
    requires forall k: nat :: k < n && k != s ==> Retx(st, k) == Retx(st', k)
    ensures Budget(cfg, st', n) == Budget(cfg, st, n) - 1
  {
    if s < n - 1 { BudgetSpent(cfg, st, st', s, n - 1); } else { BudgetSame(cfg, st, st', n - 1); }
  }

  lemma {:induction false} BudgetBounds(cfg: Config, st: State, n: nat)
    requires forall s :: s in st.retx ==> 0 <= st.retx[s] <= Max0(cfg.maxRetx)
    ensures 0 <= Budget(cfg, st, n) <= n * Max0(cfg.maxRetx)
  {
    if n > 0 { BudgetBounds(cfg, st, n - 1); }
  }

  lemma CountNext(requests: seq<nat>, x: nat, s: nat)
    ensures Count(requests + [x], s) == Count(requests, s) + if x == s then 1 else 0
  {
    assert (requests + [x])[..|requests|] == requests;
  }

  // ----- expressing Interests -----

  /** Running, with every promise of the invariant except the window's and what Reassemble restores. */
  ghost predicate Busy(cfg: Config, chunks: seq<seq<byte>>, st: State) {
    && IsUnit(chunks) && cfg.maxWindow >= 1 && st.window <= cfg.maxWindow && st.running && st.payloads == []
    && st.lastReassembled < |chunks|
    && BuffersOk(chunks, st) && RetxOk(cfg, st) && LiveOk(cfg, chunks, st)
  }

  /** What expressing Interests leaves alone. */
  ghost predicate SameBuffers(st: State, st': State) {
    && st'.running == st.running && st'.finalKnown == st.finalKnown && st'.finalBlock == st.finalBlock
    && st'.lastReassembled == st.lastReassembled && st'.contentBuffer == st.contentBuffer
    && st'.receiveBuffer == st.receiveBuffer && st'.unverified == st.unverified && st'.manifests == st.manifests
    && st'.payloads == st.payloads && st'.window == st.window && st'.timers == st.timers
    && st.segNumber <= st'.segNumber && st.pending <= st'.pending
    && st'.received == st.received && st'.marked == st.marked
  }

  lemma ExpressKeeps(cfg: Config, chunks: seq<seq<byte>>, st: State, i: Interest)
    requires Busy(cfg, chunks, st) && i.segment < st.segNumber && i.implicitDigest.None?
    requires st.finalKnown ==> i.segment != 0
    requires !st.finalKnown ==> |st.pending| + |st.timers| == 0
    requires Retx(st, i.segment) < cfg.maxRetx
    ensures Busy(cfg, chunks, Express(st, i)) && SameBuffers(st, Express(st, i))
    ensures Measure(cfg, chunks, Express(st, i)) == Measure(cfg, chunks, st) - 1
  {
    var st' := Express(st, i);
    BudgetSpent(cfg, st, st', i.segment, |chunks|);
    forall s: nat ensures Count(st'.requests, s) == if s in st'.retx then 1 + st'.retx[s] else 0 {
      CountNext(st.requests, i.segment, s);
    }
  }

  lemma SendKeeps(cfg: Config, chunks: seq<seq<byte>>, st: State)
    requires Busy(cfg, chunks, st) && st.finalKnown && st.segNumber <= st.finalBlock
    ensures Busy(cfg, chunks, SendInterest(cfg, st)) && SameBuffers(st, SendInterest(cfg, st))
    ensures Measure(cfg, chunks, SendInterest(cfg, st)) == Measure(cfg, chunks, st) - 1
  {
    var st' := SendInterest(cfg, st);
    BudgetSame(cfg, st, st', |chunks|);
    forall s: nat ensures Count(st'.requests, s) == if s in st'.retx then 1 + st'.retx[s] else 0 {
      CountNext(st.requests, st.segNumber, s);
    }
  }

  lemma {:induction false} FillKeeps(cfg: Config, chunks: seq<seq<byte>>, st: State)
    requires Busy(cfg, chunks, st) && st.finalKnown
    ensures Busy(cfg, chunks, FillWindow(cfg, st)) && SameBuffers(st, FillWindow(cfg, st))
    ensures Measure(cfg, chunks, FillWindow(cfg, st)) <= Measure(cfg, chunks, st)
    ensures !MaySend(FillWindow(cfg, st))
    decreases st.window - st.inFlight
  {
    if MaySend(st) {
      SendKeeps(cfg, chunks, st);
      FillKeeps(cfg, chunks, SendInterest(cfg, st));
    }
  }

  lemma {:induction false} FastAllKeeps(cfg: Config, chunks: seq<seq<byte>>, st: State, i: Interest, lost: seq<nat>)
    requires Busy(cfg, chunks, st) && st.finalKnown
    requires forall k :: 0 <= k < |lost| ==> 0 < lost[k] < st.segNumber
    ensures Busy(cfg, chunks, FastRetransmitAll(cfg, st, i, lost))
    ensures SameBuffers(st, FastRetransmitAll(cfg, st, i, lost))
    ensures FastRetransmitAll(cfg, st, i, lost).segNumber == st.segNumber
    ensures Measure(cfg, chunks, FastRetransmitAll(cfg, st, i, lost)) <= Measure(cfg, chunks, st)
    decreases |lost|
  {
    if lost != [] {
      var s := lost[|lost| - 1];
      FastAllKeeps(cfg, chunks, st, i, lost[..|lost| - 1]);
      var mid := FastRetransmitAll(cfg, st, i, lost[..|lost| - 1]);
      if Retx(mid, s) < cfg.maxRetx { ExpressKeeps(cfg, chunks, mid, Interest(s, i.exclude, None)); }
    }
  }

  // ----- one event -----

  /** An Interest is answered or given up: its token is gone. */
  function Taken(st: State, i: Interest): State {
    st.(pending := st.pending - multiset{i}, inFlight := st.inFlight - 1)
  }

  lemma TakeToken(cfg: Config, chunks: seq<seq<byte>>, st: State, i: Interest)
    requires Inv(cfg, chunks, st) && st.running && i in st.pending
    ensures Busy(cfg, chunks, Taken(st, i)) && !MentionsAny(Taken(st, i))
    ensures Measure(cfg, chunks, Taken(st, i)) == Measure(cfg, chunks, st) - 2
    ensures i.segment < st.segNumber && i.implicitDigest.None? && (st.finalKnown ==> i.segment != 0)
  {
    BudgetSame(cfg, st, Taken(st, i), |chunks|);
  }

  /** Before the first segment is accepted only one Interest or timer exists at a time. */
  ghost predicate MentionsAny(st: State) {
    !st.finalKnown && |st.pending| + |st.timers| > 0
  }

  /** The detector's verdict on an arrival keeps the invariant. */
  lemma CheckFastKeeps(cfg: Config, chunks: seq<seq<byte>>, st: State, i: Interest)
    requires Busy(cfg, chunks, st) && i.segment < st.segNumber && (st.finalKnown ==> i.segment != 0)
    ensures Busy(cfg, chunks, CheckFastRetransmission(cfg, st, i))
    ensures var st' := CheckFastRetransmission(cfg, st, i);
      && SameBuffers(st.(received := st'.received, marked := st'.marked), st')
      && i.segment in st'.received && st'.segNumber == st.segNumber
      && (!st.finalKnown ==> st'.pending == st.pending)
    ensures Measure(cfg, chunks, CheckFastRetransmission(cfg, st, i)) <= Measure(cfg, chunks, st)
  {
    var lost := Exposed(st.received, st.marked, i.segment);
    var now := st.(received := st.received + {i.segment}, marked := MarkedAfter(st.received, st.marked, i.segment));
    var h := HighestSpec(now.received);
    BudgetSame(cfg, st, now, |chunks|);
    if st.finalKnown {
      forall k | 0 <= k < |lost| ensures 0 < lost[k] < st.segNumber {
        assert lost[k] in lost;
      }
      FastAllKeeps(cfg, chunks, now, i, lost);
    } else {
      assert h < st.segNumber <= 1;
      assert lost == [];
    }
  }

  /** Only segments have moved from the receive buffer to the content buffer. */
  ghost predicate OnlyMoved(st: State, st': State) {
    st' == st.(lastReassembled := st'.lastReassembled, contentBuffer := st'.contentBuffer,
               receiveBuffer := st'.receiveBuffer, copied := st'.copied)
  }

  /** The last segment has moved too: one payload is passed up and the run is over. */
  ghost predicate Finished(chunks: seq<seq<byte>>, st: State, st': State) {
    st' == st.(lastReassembled := |chunks|, contentBuffer := st'.contentBuffer, receiveBuffer := st'.receiveBuffer,
               copied := st'.copied, running := false, pending := multiset{}, timers := multiset{},
               payloads := st.payloads + [Flatten(chunks)])
  }

  ghost predicate SameAccepted(st: State, st': State) {
    forall s: nat :: Accepted(st, s) <==> Accepted(st', s)
  }

  lemma MoveAccepted(st: State)
    requires st.lastReassembled in st.receiveBuffer
    ensures SameAccepted(st, MoveHead(st))
  {}

  lemma MoveKeeps(chunks: seq<seq<byte>>, st: State, st': State)
    requires IsUnit(chunks) && BuffersOk(chunks, st) && st.lastReassembled in st.receiveBuffer && st' == MoveHead(st)
    requires st.running && st.lastReassembled < |chunks| && st.finalKnown
    ensures BuffersOk(chunks, st') && SameAccepted(st, st')
    ensures if st'.running then OnlyMoved(st, st') && st'.lastReassembled < |chunks| else Finished(chunks, st, st')
    ensures !st'.running ==> st'.lastReassembled !in st'.receiveBuffer
  {
    hide SameAccepted;
    MoveAccepted(st);
    FlattenNext(chunks, st.lastReassembled);
    assert chunks[..|chunks|] == chunks;
  }

  /** Reassembly moves the in-order prefix; when it reaches the last segment it delivers exactly the data unit and stops. */
  lemma {:induction false} ReassembleKeeps(chunks: seq<seq<byte>>, st: State)
    requires IsUnit(chunks) && BuffersOk(chunks, st)
    requires st.running && st.lastReassembled < |chunks| && st.finalKnown
    ensures BuffersOk(chunks, Reassemble(st)) && Reassemble(st).lastReassembled !in Reassemble(st).receiveBuffer
    ensures SameAccepted(st, Reassemble(st))
    ensures if Reassemble(st).running then OnlyMoved(st, Reassemble(st)) && Reassemble(st).lastReassembled < |chunks|
      else Finished(chunks, st, Reassemble(st))
    decreases |st.receiveBuffer|
  {
    hide MoveHead, BuffersOk, Flatten, Accepted;
    if st.lastReassembled in st.receiveBuffer {
      var st2 := MoveHead(st);
      MoveKeeps(chunks, st, st2);
      if st2.running {
        ReassembleKeeps(chunks, st2);
      } else {
        assert Reassemble(st2) == st2;
      }
    }
  }

  /** A genuine segment that passes the check, before reassembly. */
  function Stored(cfg: Config, st: State, d: Packet): State {
    var st2 := FinalFrom(st.(window := Grown(cfg, st.window)), d);
    st2.(receiveBuffer := st2.receiveBuffer[d.segment := d])
  }

  lemma StoredKeeps(cfg: Config, chunks: seq<seq<byte>>, st: State, d: Packet)
    requires Busy(cfg, chunks, st) && !MentionsAny(st)
    requires Genuine(chunks, d) && d.segment < st.segNumber && d.segment in st.received
    requires !st.finalKnown ==> d.segment == 0
    ensures Busy(cfg, chunks, Stored(cfg, st, d)) && Stored(cfg, st, d).finalKnown
    ensures st.window >= 1 ==> Stored(cfg, st, d).window >= 1
    ensures Measure(cfg, chunks, Stored(cfg, st, d)) == Measure(cfg, chunks, st)
  {
    BudgetSame(cfg, st, Stored(cfg, st, d), |chunks|);
  }

  /** Accepted segments are requested ones, before and after. */
  lemma MovedWithinRequested(st: State, st': State)
    requires SameAccepted(st, st') && st'.segNumber == st.segNumber
    requires st.lastReassembled <= st.segNumber && forall k :: k in st.receiveBuffer ==> k < st.segNumber
    ensures st'.lastReassembled <= st'.segNumber && forall k :: k in st'.receiveBuffer ==> k < st'.segNumber
  {
    forall s: nat | Accepted(st', s) ensures s < st.segNumber {
      assert Accepted(st, s);
    }
    forall k | k in st'.receiveBuffer ensures k < st'.segNumber {
      assert Accepted(st', k);
    }
    if st'.lastReassembled > 0 { assert Accepted(st', st'.lastReassembled - 1); }
  }

  lemma RunsOn(cfg: Config, chunks: seq<seq<byte>>, st: State, st': State)
    requires Busy(cfg, chunks, st) && OnlyMoved(st, st') && SameAccepted(st, st') && BuffersOk(chunks, st')
    requires st'.lastReassembled < |chunks| && st'.lastReassembled !in st'.receiveBuffer
    ensures Inv(cfg, chunks, st') && Measure(cfg, chunks, st') == Measure(cfg, chunks, st)
  {
    hide BuffersOk, Budget, SameAccepted, Count;
    MovedWithinRequested(st, st');
    BudgetSame(cfg, st, st', |chunks|);
  }

  lemma EndsHere(cfg: Config, chunks: seq<seq<byte>>, st: State, st': State)
    requires Busy(cfg, chunks, st) && st.finalKnown && Finished(chunks, st, st') && SameAccepted(st, st')
    requires BuffersOk(chunks, st')
    ensures Inv(cfg, chunks, st') && st.segNumber == |chunks|
  {
    hide BuffersOk, Flatten, Count, SameAccepted;
    MovedWithinRequested(st, st');
  }

  lemma AfterReassembly(cfg: Config, chunks: seq<seq<byte>>, st: State)
    requires Busy(cfg, chunks, st) && st.finalKnown
    ensures Inv(cfg, chunks, Reassemble(st)) && SameAccepted(st, Reassemble(st))
    ensures Reassemble(st).window == st.window && Reassemble(st).finalKnown && Reassemble(st).inFlight >= 0
    ensures Reassemble(st).segNumber == st.segNumber
    ensures if Reassemble(st).running
      then Measure(cfg, chunks, Reassemble(st)) == Measure(cfg, chunks, st) && OnlyMoved(st, Reassemble(st))
      else Reassemble(st).payloads == [Flatten(chunks)] && st.segNumber == |chunks|
  {
    hide Reassemble, Busy, Inv, Measure, BuffersOk, SameAccepted;
    BusyTells(cfg, chunks, st);
    ReassembleKeeps(chunks, st);
    var st' := Reassemble(st);
    if st'.running { RunsOn(cfg, chunks, st, st'); } else { EndsHere(cfg, chunks, st, st'); }
  }

  lemma BusyTells(cfg: Config, chunks: seq<seq<byte>>, st: State)
    requires Busy(cfg, chunks, st)
    ensures IsUnit(chunks) && BuffersOk(chunks, st) && st.running && st.payloads == [] && st.lastReassembled < |chunks|
    ensures st.inFlight >= 0
  {}

  lemma AcceptKeeps(cfg: Config, chunks: seq<seq<byte>>, st: State, i: Interest, d: Packet)
    requires Busy(cfg, chunks, st) && !MentionsAny(st)
    requires i.segment < st.segNumber && (st.finalKnown ==> i.segment != 0)
    requires Genuine(chunks, d) && d.segment == i.segment
    ensures Inv(cfg, chunks, AcceptContent(cfg, st, i, d)) && Accepted(AcceptContent(cfg, st, i, d), i.segment)
    ensures AcceptContent(cfg, st, i, d).finalKnown && AcceptContent(cfg, st, i, d).inFlight >= 0
    ensures st.window >= 1 ==> AcceptContent(cfg, st, i, d).window >= 1
    ensures AcceptContent(cfg, st, i, d).segNumber == st.segNumber
    ensures if AcceptContent(cfg, st, i, d).running
      then Measure(cfg, chunks, AcceptContent(cfg, st, i, d)) <= Measure(cfg, chunks, st)
      else AcceptContent(cfg, st, i, d).payloads == [Flatten(chunks)] && st.segNumber == |chunks|
  {
    CheckFastKeeps(cfg, chunks, st, i);
    var st1 := CheckFastRetransmission(cfg, st, i);
    StoredKeeps(cfg, chunks, st1, d);
    AfterReassembly(cfg, chunks, Stored(cfg, st1, d));
    assert Accepted(Stored(cfg, st1, d), i.segment);
  }

  // ----- the handlers -----

  /** What a handler may do to a run that has just taken the token of Interest i. */
  ghost predicate Handled(cfg: Config, chunks: seq<seq<byte>>, st: State, i: Interest, st': State) {
    && Inv(cfg, chunks, st') && st'.inFlight >= 0
    && (st'.running ==> Measure(cfg, chunks, st') < Measure(cfg, chunks, st) + 2)
    && (st.finalKnown ==> st'.finalKnown) && (st'.finalKnown && !st.finalKnown ==> Accepted(st', i.segment))
    && (st'.running && st.finalKnown && st.window >= 1 ==> st'.window >= 1)
    && (!st'.running && st'.payloads == [] ==> st'.finalKnown == st.finalKnown)
    && st'.segNumber == st.segNumber && (st'.payloads != [] ==> st'.segNumber == |chunks|)
  }

  lemma UnparkKeeps(cfg: Config, chunks: seq<seq<byte>>, st: State, st1: State)
    requires Busy(cfg, chunks, st) && st1 == st.(unverified := st1.unverified)
    ensures Busy(cfg, chunks, st1) && Measure(cfg, chunks, st1) == Measure(cfg, chunks, st)
  {
    BudgetSame(cfg, st, st1, |chunks|);
  }

  lemma ExpressIsHandled(cfg: Config, chunks: seq<seq<byte>>, st: State, i: Interest, i': Interest)
    requires Busy(cfg, chunks, st) && !MentionsAny(st) && st.lastReassembled !in st.receiveBuffer
    requires i'.segment < st.segNumber && i'.implicitDigest.None? && (st.finalKnown ==> i'.segment != 0)
    requires Retx(st, i'.segment) < cfg.maxRetx
    ensures Handled(cfg, chunks, st, i, Express(st, i'))
  {
    hide Measure, BuffersOk, RetxOk;
    ExpressKeeps(cfg, chunks, st, i');
  }

  lemma NothingIsHandled(cfg: Config, chunks: seq<seq<byte>>, st: State, i: Interest)
    requires Busy(cfg, chunks, st) && st.lastReassembled !in st.receiveBuffer
    ensures Handled(cfg, chunks, st, i, st)
  {}

  lemma StopIsHandled(cfg: Config, chunks: seq<seq<byte>>, st: State, i: Interest)
    requires Busy(cfg, chunks, st) && st.lastReassembled !in st.receiveBuffer
    ensures Handled(cfg, chunks, st, i, st.(running := false))
  {}

  lemma RejectKeeps(cfg: Config, chunks: seq<seq<byte>>, st: State, i: Interest, d: Packet)
    requires Busy(cfg, chunks, st) && !MentionsAny(st) && st.lastReassembled !in st.receiveBuffer
    requires i.segment < st.segNumber && i.implicitDigest.None? && (st.finalKnown ==> i.segment != 0)
    ensures Handled(cfg, chunks, st, i, RetransmitWithExclude(cfg, st, i, d))
  {
    hide Inv, Measure, BuffersOk, LiveOk, RetxOk, Express;
    var st1 := st.(unverified := st.unverified - {i.segment});
    UnparkKeeps(cfg, chunks, st, st1);
    if Retx(st1, i.segment) < cfg.maxRetx && |i.exclude| < cfg.maxExcluded {
      ExpressIsHandled(cfg, chunks, st1, i, Interest(i.segment, i.exclude + {d.digest}, None));
    } else {
      StopIsHandled(cfg, chunks, st1, i);
    }
  }

  function SecureNack(cfg: Config, st: State, i: Interest, code: NackCode): State {
    var st1 := st.(window := Shrunk(cfg, st.window));
    match code
    case DataNotAvailable => st1.(running := false)
    case ProducerDelay => st1.(timers := st1.timers + multiset{i})
    case _ => st1
  }

  lemma ShrinkKeeps(cfg: Config, chunks: seq<seq<byte>>, st: State)
    requires Busy(cfg, chunks, st)
    ensures Busy(cfg, chunks, st.(window := Shrunk(cfg, st.window)))
    ensures Measure(cfg, chunks, st.(window := Shrunk(cfg, st.window))) == Measure(cfg, chunks, st)
    ensures st.window >= 1 ==> Shrunk(cfg, st.window) >= 1
  {
    BudgetSame(cfg, st, st.(window := Shrunk(cfg, st.window)), |chunks|);
  }

  lemma ScheduleKeeps(cfg: Config, chunks: seq<seq<byte>>, st: State, i: Interest)
    requires Busy(cfg, chunks, st) && !MentionsAny(st)
    requires i.segment < st.segNumber && i.implicitDigest.None? && (st.finalKnown ==> i.segment != 0)
    ensures Busy(cfg, chunks, st.(timers := st.timers + multiset{i}))
    ensures Measure(cfg, chunks, st.(timers := st.timers + multiset{i})) == Measure(cfg, chunks, st) + 1
  {
    BudgetSame(cfg, st, st.(timers := st.timers + multiset{i}), |chunks|);
  }

  lemma SecureNackKeeps(cfg: Config, chunks: seq<seq<byte>>, st: State, i: Interest, code: NackCode)
    requires Busy(cfg, chunks, st) && !MentionsAny(st) && st.lastReassembled !in st.receiveBuffer
    requires i.segment < st.segNumber && i.implicitDigest.None? && (st.finalKnown ==> i.segment != 0)
    ensures Handled(cfg, chunks, st, i, SecureNack(cfg, st, i, code))
  {
    ShrinkKeeps(cfg, chunks, st);
    if code == ProducerDelay { ScheduleKeeps(cfg, chunks, st.(window := Shrunk(cfg, st.window)), i); }
  }

  lemma NackKeeps(cfg: Config, chunks: seq<seq<byte>>, st: State, i: Interest, d: Packet)
    requires Busy(cfg, chunks, st) && !MentionsAny(st) && st.lastReassembled !in st.receiveBuffer
    requires i.segment < st.segNumber && i.implicitDigest.None? && (st.finalKnown ==> i.segment != 0)
    ensures Handled(cfg, chunks, st, i, OnNackData(cfg, st, i, d))
  {
    if st.finalKnown && d.nackSegment > st.finalBlock {
    } else if !IsSecure(cfg, d) {
      RejectKeeps(cfg, chunks, st, i, d);
    } else {
      CheckFastKeeps(cfg, chunks, st, i);
      var st1 := CheckFastRetransmission(cfg, st, i);
      SecureNackKeeps(cfg, chunks, st1, i, d.nackCode);
      assert OnNackData(cfg, st, i, d) == SecureNack(cfg, st1, i, d.nackCode);
    }
  }

  lemma ParkKeeps(cfg: Config, chunks: seq<seq<byte>>, st: State, i: Interest, d: Packet)
    requires Busy(cfg, chunks, st) && st.lastReassembled !in st.receiveBuffer
    requires d.contentType == Blob && cfg.verify.Some? && d.locator.ManifestName?
    ensures Handled(cfg, chunks, st, i, OnContentData(cfg, st, i, d))
  {
    BudgetSame(cfg, st, OnContentData(cfg, st, i, d), |chunks|);
  }

  lemma DispatchKeeps(cfg: Config, chunks: seq<seq<byte>>, st: State, i: Interest, d: Packet)
    requires Busy(cfg, chunks, st) && !MentionsAny(st) && st.lastReassembled !in st.receiveBuffer
    requires i.segment < st.segNumber && i.implicitDigest.None? && (st.finalKnown ==> i.segment != 0)
    requires Authentic(cfg, chunks, DataArrives(i, d))
    ensures Handled(cfg, chunks, st, i, Dispatch(cfg, st, i, d))
  {
    hide RetransmitWithExclude, Measure, OnNackData, CheckFastRetransmission, BuffersOk, RetxOk, LiveOk;
    match d.contentType {
      case Nack => NackKeeps(cfg, chunks, st, i, d);
      case Manifest => RejectKeeps(cfg, chunks, st, i, d);
      case OtherType => NothingIsHandled(cfg, chunks, st, i);
      case Blob =>
        if IsSecure(cfg, d) && !(cfg.verify.Some? && d.locator != KeyName) {
          AcceptKeeps(cfg, chunks, st, i, d);
        } else if cfg.verify.Some? && d.locator.ManifestName? {
          ParkKeeps(cfg, chunks, st, i, d);
        } else {
          RejectKeeps(cfg, chunks, st, i, d);
        }
    }
  }

  // ----- every event -----

  /** Between events the window is open once the final block number is known. */
  ghost predicate Good(cfg: Config, chunks: seq<seq<byte>>, st: State) {
    Inv(cfg, chunks, st) && (st.running && st.finalKnown ==> st.window >= 1)
  }

  lemma ToIntOfFinal(chunks: seq<seq<byte>>)
    requires IsUnit(chunks)
    ensures ToInt(|chunks| - 1) == |chunks| - 1 && ToInt(MAX_SEGMENT) == -1
  {}

  lemma FirstFill(cfg: Config, chunks: seq<seq<byte>>, st: State, i: Interest, st2: State)
    requires Busy(cfg, chunks, st) && !st.finalKnown && i.segment == 0 && Handled(cfg, chunks, st, i, st2)
    ensures var st' := FillWindow(cfg, st2.(window := FirstWindow(cfg, st2)));
      && Good(cfg, chunks, st') && st'.running == st2.running
      && (st'.running ==> Measure(cfg, chunks, st') <= Measure(cfg, chunks, st2))
      && (st'.running && st'.finalKnown ==> !MaySend(st'))
      && SameBuffers(st2.(window := st'.window), st')
  {
    ToIntOfFinal(chunks);
    var st3 := st2.(window := FirstWindow(cfg, st2));
    BudgetSame(cfg, st2, st3, |chunks|);
    if st2.running && st2.finalKnown {
      FillKeeps(cfg, chunks, st3);
    } else {
      assert !MaySend(st3);
    }
  }

  lemma LaterFill(cfg: Config, chunks: seq<seq<byte>>, st2: State)
    requires Good(cfg, chunks, st2) && st2.running && st2.finalKnown
    ensures Good(cfg, chunks, FillWindow(cfg, st2)) && SameBuffers(st2, FillWindow(cfg, st2))
    ensures Measure(cfg, chunks, FillWindow(cfg, st2)) <= Measure(cfg, chunks, st2) && !MaySend(FillWindow(cfg, st2))
  {
    FillKeeps(cfg, chunks, st2);
  }

  lemma OnDataKeeps(cfg: Config, chunks: seq<seq<byte>>, st: State, i: Interest, d: Packet)
    requires Good(cfg, chunks, st) && st.running && i in st.pending
    requires Authentic(cfg, chunks, DataArrives(i, d))
    ensures var st' := OnData(cfg, st.(pending := st.pending - multiset{i}), i, d);
      Good(cfg, chunks, st') && (st'.running ==> Measure(cfg, chunks, st') < Measure(cfg, chunks, st))
  {
    hide Dispatch, FillWindow, Measure, BuffersOk, RetxOk;
    TakeToken(cfg, chunks, st, i);
    var st1 := Taken(st, i);
    DispatchKeeps(cfg, chunks, st1, i, d);
    var st2 := Dispatch(cfg, st1, i, d);
    if i.segment == 0 {
      FirstFill(cfg, chunks, st1, i, st2);
    } else if st2.running {
      LaterFill(cfg, chunks, st2);
    }
  }

  /** Retransmit within the allowance, or give up. */
  function RetransmitOrStop(cfg: Config, st: State, i: Interest): State {
    if Retx(st, i.segment) < cfg.maxRetx then Express(st, Interest(i.segment, i.exclude, None)) else st.(running := false)
  }

  lemma RetransmitOrStopKeeps(cfg: Config, chunks: seq<seq<byte>>, st: State, i: Interest)
    requires Busy(cfg, chunks, st) && !MentionsAny(st) && st.lastReassembled !in st.receiveBuffer
    requires i.segment < st.segNumber && (st.finalKnown ==> i.segment != 0 && st.window >= 1)
    ensures Good(cfg, chunks, RetransmitOrStop(cfg, st, i)) && RetransmitOrStop(cfg, st, i).payloads == []
    ensures RetransmitOrStop(cfg, st, i).running ==>
      Measure(cfg, chunks, RetransmitOrStop(cfg, st, i)) == Measure(cfg, chunks, st) - 1
    ensures !RetransmitOrStop(cfg, st, i).running ==> Retx(st, i.segment) >= cfg.maxRetx
  {
    if Retx(st, i.segment) < cfg.maxRetx { ExpressKeeps(cfg, chunks, st, Interest(i.segment, i.exclude, None)); }
  }

  lemma TimeoutIs(cfg: Config, st: State, i: Interest)
    requires st.running && i.implicitDigest.None? && (st.finalKnown ==> i.segment <= st.finalBlock)
    requires st.lastReassembled !in st.receiveBuffer
    ensures OnTimeout(cfg, st, i) ==
      RetransmitOrStop(cfg, st.(inFlight := st.inFlight - 1, window := Shrunk(cfg, st.window)), i)
  {
    var stopped := st.(inFlight := st.inFlight - 1, window := Shrunk(cfg, st.window), running := false);
    assert Reassemble(stopped) == stopped;
  }

  lemma OnTimeoutKeeps(cfg: Config, chunks: seq<seq<byte>>, st: State, i: Interest)
    requires Good(cfg, chunks, st) && st.running && i in st.pending
    ensures var st' := OnTimeout(cfg, st.(pending := st.pending - multiset{i}), i);
      && Good(cfg, chunks, st') && (st'.running ==> Measure(cfg, chunks, st') < Measure(cfg, chunks, st))
      && (!st'.running ==> st'.payloads == [] && Retx(st, i.segment) >= cfg.maxRetx)
  {
    TakeToken(cfg, chunks, st, i);
    var st1 := Taken(st, i);
    ShrinkKeeps(cfg, chunks, st1);
    var st2 := st1.(window := Shrunk(cfg, st1.window));
    RetransmitOrStopKeeps(cfg, chunks, st2, i);
    TimeoutIs(cfg, st.(pending := st.pending - multiset{i}), i);
  }

  lemma TimerKeeps(cfg: Config, chunks: seq<seq<byte>>, st: State, i: Interest)
    requires Good(cfg, chunks, st) && st.running && i in st.timers
    ensures var st' := RetransmitFresh(cfg, st.(timers := st.timers - multiset{i}), i);
      && Good(cfg, chunks, st') && (st'.running ==> Measure(cfg, chunks, st') < Measure(cfg, chunks, st))
      && (!st'.running ==> st'.payloads == [] && Retx(st, i.segment) >= cfg.maxRetx)
  {
    var st1 := st.(timers := st.timers - multiset{i});
    BudgetSame(cfg, st, st1, |chunks|);
    RetransmitOrStopKeeps(cfg, chunks, st1, i);
  }

  /** Every event keeps the invariant; while the object runs, it also brings the end of the run closer;
      once stopped, the object never runs again and delivers nothing more. */
  lemma StepKeeps(cfg: Config, chunks: seq<seq<byte>>, st: State, ev: Event)
    requires Good(cfg, chunks, st) && Enabled(st, ev) && Authentic(cfg, chunks, ev)
    ensures Good(cfg, chunks, Step(cfg, st, ev))
    ensures Step(cfg, st, ev).running ==> st.running && Measure(cfg, chunks, Step(cfg, st, ev)) < Measure(cfg, chunks, st)
    ensures !st.running ==> Step(cfg, st, ev).payloads == st.payloads
  {
    if st.running {
      match ev {
        case DataArrives(i, d) => OnDataKeeps(cfg, chunks, st, i, d);
        case TimesOut(i) => OnTimeoutKeeps(cfg, chunks, st, i);
        case NetworkNack(i) => OnTimeoutKeeps(cfg, chunks, st, i);
        case TimerFires(i) => TimerKeeps(cfg, chunks, st, i);
      }
    }
  }

  // ----- whole runs -----

  ghost predicate AllAuthentic(cfg: Config, chunks: seq<seq<byte>>, events: seq<Event>) {
    forall k :: 0 <= k < |events| ==> Authentic(cfg, chunks, events[k])
  }

  lemma StartIsGood(cfg: Config, chunks: seq<seq<byte>>)
    requires IsUnit(chunks) && cfg.maxWindow >= 1
    ensures Good(cfg, chunks, Start(cfg, Constructed())) && Start(cfg, Constructed()).running
    ensures Measure(cfg, chunks, Start(cfg, Constructed())) == 3 * |chunks| * (Max0(cfg.maxRetx) + 1) - 1
  {
    hide Budget;
    var st := Start(cfg, Constructed());
    assert st.requests == [0];
    assert Count([], 0) == 0;
    forall s: nat ensures Count(st.requests, s) == if s in st.retx then 1 + st.retx[s] else 0 {
      CountNext([], 0, s);
    }
    FullBudget(cfg, st, |chunks|);
  }

  lemma {:induction false} FullBudget(cfg: Config, st: State, n: nat)
    requires forall s: nat :: Retx(st, s) == 0
    ensures Budget(cfg, st, n) == n * Max0(cfg.maxRetx)
  {
    if n > 0 { FullBudget(cfg, st, n - 1); }
  }

  lemma {:induction false} RunIsGood(cfg: Config, chunks: seq<seq<byte>>, events: seq<Event>)
    requires IsUnit(chunks) && cfg.maxWindow >= 1 && IsRun(cfg, events) && AllAuthentic(cfg, chunks, events)
    ensures Good(cfg, chunks, Run(cfg, events))
    ensures Run(cfg, events).running ==>
      Measure(cfg, chunks, Run(cfg, events)) <= 3 * |chunks| * (Max0(cfg.maxRetx) + 1) - 1 - |events|
  {
    if events == [] {
      StartIsGood(cfg, chunks);
    } else {
      var before := events[..|events| - 1];
      RunPrefix(cfg, events, |events| - 1);
      RunIsGood(cfg, chunks, before);
      assert events[..|events| - 1] == before;
      StepKeeps(cfg, chunks, Run(cfg, before), events[|events| - 1]);
    }
  }

  lemma RunPrefix(cfg: Config, events: seq<Event>, n: nat)
    requires IsRun(cfg, events) && n <= |events|
    ensures IsRun(cfg, events[..n])
  {
    forall k | 0 <= k < n ensures Enabled(Run(cfg, events[..n][..k]), events[..n][k]) {
      assert events[..n][..k] == events[..k];
    }
  }

  /** End to end: whatever the network does, the payload callback is called at most once, and what it gets is
      exactly the producer's buffer. */
  lemma DeliversTheBufferOrNothing(cfg: Config, chunks: seq<seq<byte>>, events: seq<Event>)
    requires IsUnit(chunks) && cfg.maxWindow >= 1 && IsRun(cfg, events) && AllAuthentic(cfg, chunks, events)
    ensures Run(cfg, events).payloads == [] || Run(cfg, events).payloads == [Flatten(chunks)]
    ensures Run(cfg, events).running ==> Run(cfg, events).payloads == []
  {
    RunIsGood(cfg, chunks, events);
  }

  /** Termination: an object handles fewer events while it runs than three per segment and allowed request. */
  lemma RunIsBounded(cfg: Config, chunks: seq<seq<byte>>, events: seq<Event>)
    requires IsUnit(chunks) && cfg.maxWindow >= 1 && IsRun(cfg, events) && AllAuthentic(cfg, chunks, events)
    ensures Run(cfg, events).running ==> |events| < 3 * |chunks| * (Max0(cfg.maxRetx) + 1)
  {
    RunIsGood(cfg, chunks, events);
    BudgetBounds(cfg, Run(cfg, events), |chunks|);
  }

  /** No segment is requested more than once plus the allowed retransmissions, and none past the last. */
  lemma RequestsAreBounded(cfg: Config, chunks: seq<seq<byte>>, events: seq<Event>, s: nat)
    requires IsUnit(chunks) && cfg.maxWindow >= 1 && IsRun(cfg, events) && AllAuthentic(cfg, chunks, events)
    ensures Count(Run(cfg, events).requests, s) <= if s < |chunks| then 1 + Max0(cfg.maxRetx) else 0
  {
    RunIsGood(cfg, chunks, events);
  }

  /** Once the first segment is in, the window stays open and within its maximum as long as the object runs. */
  lemma WindowStaysOpen(cfg: Config, chunks: seq<seq<byte>>, events: seq<Event>)
    requires IsUnit(chunks) && cfg.maxWindow >= 1 && IsRun(cfg, events) && AllAuthentic(cfg, chunks, events)
    ensures var st := Run(cfg, events);
      st.running && st.finalKnown ==> 1 <= st.window <= cfg.maxWindow && st.inFlight == |st.pending|
  {
    RunIsGood(cfg, chunks, events);
  }
}
