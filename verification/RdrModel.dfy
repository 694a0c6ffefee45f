/** Reliable data retrieval as a step machine: packets, Interests, the state of one retrieval object together
    with its outstanding Interests and timers, and what each handler does to that state. */
module RdrModel {
  import opened Names
  import opened Options
  import opened LossDetector

  const MAX_SEGMENT: nat := 0xFFFF_FFFF_FFFF_FFFF  // std::numeric_limits<uint64_t>::max()

  datatype ContentType = Blob | Nack | Manifest | OtherType

  datatype NackCode = NoCode | ProducerDelay | DataNotAvailable | InterestNotVerified

  /** The name in a packet's KeyLocator, as far as the protocol looks at it. */
  datatype KeyLocator = NoLocator | KeyName | ManifestName(segment: nat)

  datatype CatalogueEntry = CatalogueEntry(segment: nat, digest: Digest)

  /** A packet by the fields the protocol reads.  segment is the number in the last component of its name,
      nackSegment the one in the third last; digest is the implicit digest of the whole packet. */
  datatype Packet = Packet(
    contentType: ContentType, segment: nat, nackSegment: nat, finalBlockId: Option<nat>, content: seq<byte>,
    locator: KeyLocator, digestSigned: bool, digestValid: bool, digest: Digest,
    nackCode: NackCode, catalogue: seq<CatalogueEntry>)

  /** An Interest for one segment; with an implicit digest its last component is no longer a segment number. */
  datatype Interest = Interest(segment: nat, exclude: set<Digest>, implicitDigest: Option<Digest>)

  /** The options of the context; verify is the DATA_TO_VERIFY callback, if set. */
  datatype Config = Config(
    maxRetx: int, minWindow: int, maxWindow: int, maxExcluded: int, exclude: set<Digest>,
    verify: Option<Packet -> bool>)

  /** The fields of the retrieval object, then its environment: outstanding Interests, scheduled
      retransmissions, every Interest expressed so far, every payload passed up; copied lists the packets whose
      contents make up contentBuffer. */
  datatype State = State(
    running: bool, finalKnown: bool, finalBlock: nat, lastReassembled: nat, contentBuffer: seq<byte>,
    window: int, inFlight: int, segNumber: nat, retx: map<nat, int>,
    receiveBuffer: map<nat, Packet>, unverified: map<nat, Packet>, manifests: map<nat, Packet>,
    received: set<nat>, marked: set<nat>,
    pending: multiset<Interest>, timers: multiset<Interest>, requests: seq<nat>,
    payloads: seq<seq<byte>>, copied: seq<Packet>)

  // ----- arithmetic of the source -----

  /** Conversion from uint64_t to int. */
  function ToInt(x: nat): int {
    var low := x % 0x1_0000_0000;
    if low >= 0x8000_0000 then low - 0x1_0000_0000 else low
  }

  /** Halving truncates toward zero, and never yields zero. */
  function Half(w: int): int {
    var h := if w >= 0 then w / 2 else -((-w) / 2);
    if h == 0 then 1 else h
  }

  function Shrunk(cfg: Config, window: int): int {
    if window > cfg.minWindow then Half(window) else window
  }

  function Grown(cfg: Config, window: int): int {
    if window < cfg.maxWindow then window + 1 else window
  }

  // ----- expressing Interests -----

  /** The retransmission count of a segment; reading a missing one yields zero. */
  function Retx(st: State, s: nat): int {
    if s in st.retx then st.retx[s] else 0
  }

  function SendInterest(cfg: Config, st: State): State {
    st.(inFlight := st.inFlight + 1, retx := st.retx[st.segNumber := 0],
        pending := st.pending + multiset{Interest(st.segNumber, cfg.exclude, None)},
        requests := st.requests + [st.segNumber], segNumber := st.segNumber + 1)
  }

  predicate MaySend(st: State) {
    st.inFlight < st.window && (!st.finalKnown || st.segNumber <= st.finalBlock)
  }

  /** Sends first-time Interests while the window is open. */
  function FillWindow(cfg: Config, st: State): State
    decreases st.window - st.inFlight
  {
    if MaySend(st) then FillWindow(cfg, SendInterest(cfg, st)) else st
  }

  /** A retransmission: one more Interest in flight, one more on the segment's count. */
  function Express(st: State, i: Interest): State {
    st.(inFlight := st.inFlight + 1, retx := st.retx[i.segment := Retx(st, i.segment) + 1],
        pending := st.pending + multiset{i}, requests := st.requests + [i.segment])
  }

  function RetransmitWithExclude(cfg: Config, st: State, i: Interest, d: Packet): State {
    var st := st.(unverified := st.unverified - {i.segment});
    if Retx(st, i.segment) < cfg.maxRetx && |i.exclude| < cfg.maxExcluded then
      if st.running then Express(st, Interest(i.segment, i.exclude + {d.digest}, None)) else st
    else st.(running := false)
  }

  /** The digest a manifest lists for a segment: that of the first entry with its number. */
  function Catalogued(cat: seq<CatalogueEntry>, segment: nat): Option<Digest> {
    if cat == [] then None
    else if cat[0].segment == segment then Some(cat[0].digest)
    else Catalogued(cat[1..], segment)
  }

  predicate VerifiedBy(manifest: Packet, d: Packet) {
    Catalogued(manifest.catalogue, d.segment) == Some(d.digest)
  }

  function RetransmitWithDigest(cfg: Config, st: State, i: Interest, d: Packet, manifest: Packet): State {
    var st := st.(unverified := st.unverified - {i.segment});
    var digest := Catalogued(manifest.catalogue, d.segment);
    if Retx(st, i.segment) < cfg.maxRetx && digest.Some? then
      if st.running then Express(st, Interest(i.segment, cfg.exclude, digest)) else st
    else st.(running := false)
  }

  function RetransmitFresh(cfg: Config, st: State, i: Interest): State {
    if Retx(st, i.segment) < cfg.maxRetx then
      if st.running then Express(st, Interest(i.segment, i.exclude, None)) else st
    else st.(running := false)
  }

  function FastRetransmit(cfg: Config, st: State, i: Interest, s: nat): State {
    if Retx(st, s) < cfg.maxRetx && st.running then Express(st, Interest(s, i.exclude, None)) else st
  }

  ghost function FastRetransmitAll(cfg: Config, st: State, i: Interest, lost: seq<nat>): State {
    if lost == [] then st
    else
      FastRetransmit(cfg, FastRetransmitAll(cfg, st, i, lost[..|lost| - 1]), i, lost[|lost| - 1])
  }

  ghost function CheckFastRetransmission(cfg: Config, st: State, i: Interest): State {
    var lost := Exposed(st.received, st.marked, i.segment);
    FastRetransmitAll(cfg,
      st.(received := st.received + {i.segment}, marked := MarkedAfter(st.received, st.marked, i.segment)), i, lost)
  }

  // ----- reassembly -----

  function CopyContent(st: State, d: Packet): State {
    var st := st.(contentBuffer := st.contentBuffer + d.content, copied := st.copied + [d]);
    if d.segment == st.finalBlock || !st.running then
      st.(pending := multiset{}, timers := multiset{}, payloads := st.payloads + [st.contentBuffer], running := false)
    else st
  }

  /** What reassembly does with the segment at the head. */
  function MoveHead(st: State): (r: State)
    requires st.lastReassembled in st.receiveBuffer
    ensures |r.receiveBuffer| < |st.receiveBuffer|
  {
    var head := st.lastReassembled;
    var d := st.receiveBuffer[head];
    var st1 := if d.contentType == Blob then CopyContent(st, d) else st;
    st1.(receiveBuffer := st.receiveBuffer - {head}, lastReassembled := head + 1)
  }

  /** Moves the in-order segments from the receive buffer to the content buffer; manifests are skipped. */
  function Reassemble(st: State): State
    decreases |st.receiveBuffer|
  {
    if st.lastReassembled in st.receiveBuffer then Reassemble(MoveHead(st)) else st
  }

  lemma ReassembleNext(st: State, st': State)
    requires st.lastReassembled in st.receiveBuffer && st' == MoveHead(st)
    ensures Reassemble(st) == Reassemble(st') && |st'.receiveBuffer| < |st.receiveBuffer|
  {}

  function FinalFrom(st: State, d: Packet): State {
    if d.finalBlockId.Some? then st.(finalKnown := true, finalBlock := d.finalBlockId.value) else st
  }

  // ----- arriving packets -----

  /** The check on manifests and nacks: the callback, or the digest signature when there is none. */
  predicate IsSecure(cfg: Config, d: Packet) {
    match cfg.verify
    case Some(verify) => verify(d)
    case None => !d.digestSigned || d.digestValid
  }

  ghost function AcceptContent(cfg: Config, st: State, i: Interest, d: Packet): State {
    var st1 := CheckFastRetransmission(cfg, st, i);
    var st2 := FinalFrom(st1.(window := Grown(cfg, st1.window)), d);
    Reassemble(st2.(receiveBuffer := st2.receiveBuffer[d.segment := d]))
  }

  ghost function OnContentData(cfg: Config, st: State, i: Interest, d: Packet): State {
    if cfg.verify.Some? && d.locator.NoLocator? then RetransmitWithExclude(cfg, st, i, d)
    else if cfg.verify.Some? && d.locator.ManifestName? then
      if d.locator.segment !in st.manifests then
        st.(unverified := if d.segment in st.unverified then st.unverified else st.unverified[d.segment := d])
      else if VerifiedBy(st.manifests[d.locator.segment], d) then AcceptContent(cfg, st, i, d)
      else RetransmitWithDigest(cfg, st, i, d, st.manifests[d.locator.segment])
    else if IsSecure(cfg, d) then AcceptContent(cfg, st, i, d)
    else RetransmitWithExclude(cfg, st, i, d)
  }

  ghost predicate IsNextKey(m: map<nat, Packet>, from: nat, k: nat) {
    k in m && k >= from && forall j :: j in m && j >= from ==> j >= k
  }

  ghost function KeysFrom(m: map<nat, Packet>, from: nat): set<nat> {
    set k | k in m.Keys && k >= from
  }

  /** A parked segment against a manifest that has just been verified. */
  function CheckParked(cfg: Config, st: State, i: Interest, manifest: Packet, d: Packet): State {
    if VerifiedBy(manifest, d) then
      var st1 := FinalFrom(st, d);
      Reassemble(st1.(receiveBuffer := st1.receiveBuffer[d.segment := d]))
    else RetransmitWithDigest(cfg, st, i, manifest, manifest)
  }

  ghost function NextKeyOf(m: map<nat, Packet>, from: nat): (r: Option<nat>)
    ensures r.Some? ==> IsNextKey(m, from, r.value)
  {
    if exists k: nat :: IsNextKey(m, from, k) then
      var k: nat :| IsNextKey(m, from, k);
      Some(k)
    else None
  }

  lemma {:induction false} LeastKeyExists(m: map<nat, Packet>, from: nat, k: nat)
    requires k in m && k >= from
    ensures exists j :: IsNextKey(m, from, j)
  {
    if j :| j in m && from <= j < k {
      LeastKeyExists(m, from, j);
    } else {
      assert IsNextKey(m, from, k);
    }
  }

  lemma NoNextKey(m: map<nat, Packet>, from: nat)
    requires NextKeyOf(m, from).None?
    ensures forall k :: k in m ==> k < from
  {
    forall k | k in m && k >= from ensures false { LeastKeyExists(m, from, k); }
  }

  lemma NextKeyOfIs(m: map<nat, Packet>, from: nat, k: nat)
    requires IsNextKey(m, from, k)
    ensures NextKeyOf(m, from) == Some(k)
  {
    assert k in m && NextKeyOf(m, from).value in m;
  }

  lemma CheckParkedAdvances(cfg: Config, st: State, i: Interest, manifest: Packet, from: nat, k: nat)
    requires IsNextKey(st.unverified, from, k)
    ensures KeysFrom(CheckParked(cfg, st, i, manifest, st.unverified[k]).unverified, k + 1) < KeysFrom(st.unverified, from)
  {
    var next := CheckParked(cfg, st, i, manifest, st.unverified[k]);
    CheckParkedShrinks(cfg, st, i, manifest, st.unverified[k]);
    assert k in KeysFrom(st.unverified, from) && k !in KeysFrom(next.unverified, k + 1);
    assert KeysFrom(next.unverified, k + 1) <= KeysFrom(st.unverified, from);
  }

  /** The parked segments in ascending order, from a number on, until one of them stops the run. */
  ghost function CheckAllParked(cfg: Config, st: State, i: Interest, manifest: Packet, from: nat): State
    decreases KeysFrom(st.unverified, from)
  {
    if !st.running then st
    else
      match NextKeyOf(st.unverified, from)
      case None => st
      case Some(k) =>
        CheckParkedAdvances(cfg, st, i, manifest, from, k);
        CheckAllParked(cfg, CheckParked(cfg, st, i, manifest, st.unverified[k]), i, manifest, k + 1)
  }

  lemma CheckAllParkedNext(cfg: Config, st: State, i: Interest, manifest: Packet, from: nat, k: nat)
    requires st.running && IsNextKey(st.unverified, from, k)
    ensures var next := CheckParked(cfg, st, i, manifest, st.unverified[k]);
      && CheckAllParked(cfg, st, i, manifest, from) == CheckAllParked(cfg, next, i, manifest, k + 1)
      && KeysFrom(next.unverified, k + 1) < KeysFrom(st.unverified, from)
  {
    hide CheckParked, KeysFrom, IsNextKey;
    NextKeyOfIs(st.unverified, from, k);
    CheckParkedAdvances(cfg, st, i, manifest, from, k);
  }

  lemma {:induction false} ReassembleKeepsUnverified(st: State)
    ensures Reassemble(st).unverified == st.unverified
    decreases |st.receiveBuffer|
  {
    if st.lastReassembled in st.receiveBuffer {
      ReassembleKeepsUnverified(MoveHead(st));
    }
  }

  lemma CheckParkedShrinks(cfg: Config, st: State, i: Interest, manifest: Packet, d: Packet)
    ensures CheckParked(cfg, st, i, manifest, d).unverified.Keys <= st.unverified.Keys
  {
    if VerifiedBy(manifest, d) {
      var st1 := FinalFrom(st, d);
      var st2 := st1.(receiveBuffer := st1.receiveBuffer[d.segment := d]);
      assert CheckParked(cfg, st, i, manifest, d).unverified == Reassemble(st2).unverified;
      ReassembleKeepsUnverified(st2);
    }
  }

  ghost function OnManifestData(cfg: Config, st: State, i: Interest, d: Packet): State {
    if !st.running then st
    else if !IsSecure(cfg, d) then RetransmitWithExclude(cfg, st, i, d)
    else
      var st1 := CheckFastRetransmission(cfg, st, i);
      var st2 := st1.(window := Grown(cfg, st1.window),
                      manifests := if d.segment in st1.manifests then st1.manifests else st1.manifests[d.segment := d],
                      receiveBuffer := st1.receiveBuffer[d.segment := d]);
      CheckAllParked(cfg, st2, i, d, 0)
  }

  ghost function OnNackData(cfg: Config, st: State, i: Interest, d: Packet): State {
    if !st.running || (st.finalKnown && d.nackSegment > st.finalBlock) then st
    else if !IsSecure(cfg, d) then RetransmitWithExclude(cfg, st, i, d)
    else
      var st1 := CheckFastRetransmission(cfg, st, i);
      var st2 := st1.(window := Shrunk(cfg, st1.window));
      match d.nackCode
      case DataNotAvailable => st2.(running := false)
      case ProducerDelay => st2.(timers := st2.timers + multiset{i})
      case _ => st2
  }

  ghost function Dispatch(cfg: Config, st: State, i: Interest, d: Packet): State {
    match d.contentType
    case Manifest => OnManifestData(cfg, st, i, d)
    case Nack => OnNackData(cfg, st, i, d)
    case Blob => OnContentData(cfg, st, i, d)
    case OtherType => st
  }

  /** The window after the first segment: all the remaining Interests, up to the maximum. */
  function FirstWindow(cfg: Config, st: State): int {
    if ToInt(st.finalBlock) > cfg.maxWindow then cfg.maxWindow else ToInt(st.finalBlock)
  }

  /** An Interest with an implicit digest makes the handler fail on its last component (no segment number). */
  ghost function OnData(cfg: Config, st: State, i: Interest, d: Packet): State {
    if !st.running then st
    else
      var st1 := st.(inFlight := st.inFlight - 1);
      if i.implicitDigest.Some? then st1
      else
        var st2 := Dispatch(cfg, st1, i, d);
        if i.segment == 0 then FillWindow(cfg, st2.(window := FirstWindow(cfg, st2)))
        else if st2.running then FillWindow(cfg, st2)
        else st2
  }

  function OnTimeout(cfg: Config, st: State, i: Interest): State {
    if !st.running then st
    else
      var st1 := st.(inFlight := st.inFlight - 1);
      if i.implicitDigest.Some? || (st1.finalKnown && i.segment > st1.finalBlock) then st1
      else
        var st2 := st1.(window := Shrunk(cfg, st1.window));
        if Retx(st2, i.segment) < cfg.maxRetx then Express(st2, Interest(i.segment, i.exclude, None))
        else Reassemble(st2.(running := false))
  }

  // ----- runs -----

  /** What the environment can do: answer an outstanding Interest with a packet, let it time out or be nacked by
      the network, or let a scheduled retransmission fire. */
  datatype Event =
    | DataArrives(i: Interest, d: Packet)
    | TimesOut(i: Interest)
    | NetworkNack(i: Interest)
    | TimerFires(i: Interest)

  predicate Enabled(st: State, ev: Event) {
    match ev
    case DataArrives(i, _) => i in st.pending
    case TimesOut(i) => i in st.pending
    case NetworkNack(i) => i in st.pending
    case TimerFires(i) => i in st.timers
  }

  ghost function Step(cfg: Config, st: State, ev: Event): State {
    match ev
    case DataArrives(i, d) => OnData(cfg, st.(pending := st.pending - multiset{i}), i, d)
    case TimesOut(i) => OnTimeout(cfg, st.(pending := st.pending - multiset{i}), i)
    case NetworkNack(i) => OnTimeout(cfg, st.(pending := st.pending - multiset{i}), i)
    case TimerFires(i) => RetransmitFresh(cfg, st.(timers := st.timers - multiset{i}), i)
  }

  /** A freshly constructed object. */
  function Constructed(): State {
    State(false, false, MAX_SEGMENT, 0, [], 0, 0, 0, map[], map[], map[], map[], {}, {}, multiset{}, multiset{}, [], [], [])
  }

  /** start(): resets what it resets and sends exactly one Interest. */
  function Start(cfg: Config, st: State): State {
    SendInterest(cfg, st.(
      running := true, finalKnown := false, finalBlock := MAX_SEGMENT, segNumber := 0, inFlight := 0,
      lastReassembled := 0, contentBuffer := [], copied := [], retx := map[], receiveBuffer := map[],
      unverified := map[], manifests := map[]))
  }

  ghost function Run(cfg: Config, events: seq<Event>): State {
    if events == [] then Start(cfg, Constructed())
    else Step(cfg, Run(cfg, events[..|events| - 1]), events[|events| - 1])
  }

  /** Every event happens to something outstanding. */
  ghost predicate IsRun(cfg: Config, events: seq<Event>) {
    forall k :: 0 <= k < |events| ==> Enabled(Run(cfg, events[..k]), events[k])
  }
}
