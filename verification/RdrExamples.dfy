/** Two runs of reliable retrieval in which it goes wrong. */
module RdrExamples {
  import opened Names
  import opened Options
  import opened LossDetector
  import opened RdrModel
  import opened RdrPlain
  import opened RdrProgress
  import opened RdrStalls
  import opened RdrParked

  function PacketOf(contentType: ContentType, segment: nat, locator: KeyLocator, digest: Digest): Packet {
    Packet(contentType, segment, 0, Some(2), [], locator, false, true, digest, NoCode, [])
  }

  function Asked(segment: nat): Interest { Interest(segment, {}, None) }

  /** A callback that accepts everything, and a window for both segments after the first. */
  function Trusting(): Config { Config(1, 1, 2, 1, {}, Some(AcceptsAny)) }

  predicate AcceptsAny(p: Packet) { true }

  /** Segment 0, signed by a key. */
  function Opening(digest: Digest): Event {
    DataArrives(Asked(0), PacketOf(Blob, 0, KeyName, digest))
  }

  lemma TwoAsked(st: State)
    requires st.running && st.inFlight == 0 && st.segNumber == 1 && st.finalKnown && st.finalBlock == 2 && st.window == 2
    requires st.pending == multiset{}
    ensures FillWindow(Trusting(), st) == st.(inFlight := 2, segNumber := 3, pending := multiset{Asked(1), Asked(2)},
      retx := st.retx[1 := 0][2 := 0], requests := st.requests + [1] + [2])
  {
    var cfg := Trusting();
    var st1 := SendInterest(cfg, st);
    var st2 := SendInterest(cfg, st1);
    assert FillWindow(cfg, st2) == st2;
    assert FillWindow(cfg, st1) == st2;
  }

  lemma AfterOpening(st: State, digest: Digest)
    requires st == Run(Trusting(), [Opening(digest)])
    ensures Enabled(Run(Trusting(), []), Opening(digest))
    ensures st.pending == multiset{Asked(1), Asked(2)} && st.timers == multiset{} && st.inFlight == 2 && st.window == 2
    ensures st.running && st.segNumber == 3 && st.finalKnown && st.finalBlock == 2 && st.payloads == []
    ensures st.manifests == map[] && st.unverified == map[] && st.lastReassembled == 1 && st.receiveBuffer == map[]
    ensures st.received == {0} && st.marked == {}
  {
    hide AcceptContent, FillWindow;
    var cfg, ev := Trusting(), Opening(digest);
    assert [ev][..0] == [];
    var start := Start(cfg, Constructed());
    assert start.pending == multiset{Asked(0)};
    var st1 := start.(pending := multiset{}, inFlight := 0);
    var st2 := Dispatch(cfg, st1, Asked(0), ev.d);
    FirstAccepted(cfg, st1, Asked(0), ev.d, st2);
    assert start.pending - multiset{Asked(0)} == multiset{};
    assert st == OnData(cfg, start.(pending := multiset{}), Asked(0), ev.d);
    TwoAsked(st2.(window := FirstWindow(cfg, st2)));
  }

  /** An answer that only changes what is parked. */
  lemma AfterSecond(before: State, st: State, digest: Digest, i: Interest, d: Packet)
    requires before == Run(Trusting(), [Opening(digest)]) && st == Step(Trusting(), before, DataArrives(i, d))
    requires i == Asked(1) || i == Asked(2)
    requires d.contentType == OtherType || (d.contentType == Blob && d.locator.ManifestName?)
    ensures st == before.(pending := before.pending - multiset{i}, inFlight := 1, unverified := st.unverified)
    ensures st.unverified == if d.contentType == Blob then map[d.segment := d] else map[]
  {
    AfterOpening(before, digest);
    var st1 := before.(pending := before.pending - multiset{i}, inFlight := 1);
    var st2 := Dispatch(Trusting(), st1, i, d);
    assert st2 == st1.(unverified := st2.unverified);
    assert !MaySend(st2);
  }

  // ----- a genuine answer stalls the run -----

  /** Segment 1 is answered by a packet of unknown type, then segment 2 by the genuine packet. */
  function Unanswered(digest: Digest): seq<Event> {
    [ Opening(digest),
      DataArrives(Asked(1), PacketOf(OtherType, 1, KeyName, digest)),
      DataArrives(Asked(2), PacketOf(Blob, 2, KeyName, digest)) ]
  }

  lemma NothingExposed(st: State, i: Interest)
    requires st.received == {0} && st.marked == {} && i.segment == 2
    ensures NoneToRetransmit(Trusting(), st, i)
  {
    var now := st.received + {2};
    assert |now| == 2;
    forall s | s in Exposed(st.received, st.marked, 2) ensures false {
      AboveAtMostAll(now, s);
    }
  }

  lemma AboveAtMostAll(received: set<nat>, s: nat)
    ensures Above(received, s) <= |received|
  {
    var above := set j | j in received && j > s;
    assert received == above + (received - above);
  }

  lemma AllAreAuthentic(digest: Digest)
    ensures AllAuthentic(Trusting(), [[], [], []], Unanswered(digest))
    ensures AllAuthentic(Trusting(), [[], [], []], Unanswered(digest)[..2])
  {}

  /** The last event, on a state that is as good as any that runs over this content reach. */
  lemma LastAnswerStalls(st: State, digest: Digest)
    requires Good(Trusting(), [[], [], []], st) && st.running && st.pending == multiset{Asked(2)} && st.timers == multiset{}
    requires st.finalKnown && st.segNumber == 3 && st.finalBlock == 2 && st.received == {0} && st.marked == {}
    requires st.lastReassembled == 1 && st.receiveBuffer == map[]
    ensures var last := Unanswered(digest)[2]; var st' := Step(Trusting(), st, last);
      Cooperative(Trusting(), st, last) && IsAccepted(Trusting(), last.d) && st'.running && Idle(st')
  {
    hide Step, Good, NoneToRetransmit;
    var last := Unanswered(digest)[2];
    NothingExposed(st, Asked(2));
    assert !Accepted(st, 1);
    assert Authentic(Trusting(), [[], [], []], last);
    StepStallsIff(Trusting(), [[], [], []], st, last);
  }

  /** Although the last answer is cooperative and accepted, the object then runs on with nothing to wait for:
      segment 1 was requested, and is missing for good. */
  lemma GenuineAnswerStalls(digest: Digest)
    ensures var cfg, events, chunks := Trusting(), Unanswered(digest), [[], [], []];
      && IsRun(cfg, events) && AllAuthentic(cfg, chunks, events) && IsAccepted(cfg, events[2].d)
      && Cooperative(cfg, Run(cfg, events[..2]), events[2])
      && Run(cfg, events).running && Idle(Run(cfg, events)) && Run(cfg, events).payloads == []
  {
    hide Step, Good, Run, IsRun, AllAuthentic, Cooperative, IsAccepted;
    var cfg, events: seq<Event>, chunks: seq<seq<byte>> := Trusting(), Unanswered(digest), [[], [], []];
    var before, st := Run(cfg, [events[0]]), Run(cfg, events[..2]);
    AfterOpening(before, digest);
    AllAreAuthentic(digest);
    RunOfThree(cfg, events);
    AfterSecond(before, st, digest, Asked(1), events[1].d);
    assert multiset{Asked(1), Asked(2)} - multiset{Asked(1)} == multiset{Asked(2)};
    RunIsGood(cfg, chunks, events[..2]);
    LastAnswerStalls(st, digest);
    DeliversTheBufferOrNothing(cfg, chunks, events);
  }

  lemma RunOfThree(cfg: Config, events: seq<Event>)
    requires |events| == 3 && Enabled(Run(cfg, []), events[0]) && Enabled(Run(cfg, [events[0]]), events[1])
    ensures Run(cfg, events[..2]) == Step(cfg, Run(cfg, [events[0]]), events[1])
    ensures Run(cfg, events) == Step(cfg, Run(cfg, events[..2]), events[2]) && IsRun(cfg, events[..2])
    ensures Enabled(Run(cfg, events[..2]), events[2]) ==> IsRun(cfg, events)
  {
    hide Step, Enabled;
    assert events[..0] == [] && events[..1] == [events[0]] && events[..2][..0] == [] && events[..2][..1] == [events[0]];
  }

  // ----- a manifest ends the run -----

  /** Segment 2 refers to manifest 9 and is parked; then a manifest that lists nothing arrives as segment 1. */
  function Conversation(digest: Digest): seq<Event> {
    [ Opening(digest),
      DataArrives(Asked(2), PacketOf(Blob, 2, ManifestName(9), digest)),
      DataArrives(Asked(1), PacketOf(Manifest, 1, KeyName, digest)) ]
  }

  /** The run parks a segment, meets another manifest, and stops without having delivered anything. */
  lemma StrangerEndsThisRun(digest: Digest)
    ensures IsRun(Trusting(), Conversation(digest))
    ensures var before, after := Run(Trusting(), Conversation(digest)[..2]), Run(Trusting(), Conversation(digest));
      before.running && before.unverified.Keys == {2} && !after.running && after.payloads == []
  {
    var cfg, events := Trusting(), Conversation(digest);
    hide Step, Run, IsRun;
    var before, st := Run(cfg, [events[0]]), Run(cfg, events[..2]);
    AfterOpening(before, digest);
    RunOfThree(cfg, events);
    AfterSecond(before, st, digest, Asked(2), events[1].d);
    AfterThird(st, Run(cfg, events), digest);
  }

  lemma AfterThird(before: State, st: State, digest: Digest)
    requires before.running && before.unverified == map[2 := Conversation(digest)[1].d] && before.payloads == []
    requires before.receiveBuffer == map[] && st == Step(Trusting(), before, Conversation(digest)[2])
    ensures !st.running && st.payloads == []
  {
    hide Reassemble, Express, FillWindow, CheckFastRetransmission;
    var d := Conversation(digest)[2].d;
    var st1 := before.(pending := before.pending - multiset{Asked(1)}, inFlight := before.inFlight - 1);
    assert 2 in st1.unverified && !VerifiedBy(d, st1.unverified[2]);
    ManifestStopsIff(Trusting(), st1, Asked(1), d, OnManifestData(Trusting(), st1, Asked(1), d));
  }
}
