/** Parked segments and the manifests that come after them. */
module RdrParked {
  import opened Options
  import opened LossDetector
  import opened RdrModel
  import S = RdrSafety

  // ----- what reassembly does with what is there -----

  /** Packets are kept under their own numbers, and only content is parked. */
  ghost predicate Keyed(st: State) {
    && (forall k :: k in st.receiveBuffer ==> st.receiveBuffer[k].segment == k)
    && (forall k :: k in st.unverified ==> st.unverified[k].segment == k && st.unverified[k].contentType == Blob)
  }

  /** It is so in every run. */
  lemma RunIsKeyed(cfg: Config, events: seq<Event>)
    ensures Keyed(Run(cfg, events))
  {
    S.RunIsSafe(cfg, events);
  }

  /** Everything from the head to the last segment is there, and the last one is content. */
  ghost predicate IsComplete(st: State) {
    && st.lastReassembled <= st.finalBlock
    && (forall n: nat :: st.lastReassembled <= n <= st.finalBlock ==> n in st.receiveBuffer)
    && st.receiveBuffer[st.finalBlock].contentType == Blob
  }

  /** What moved was there, and what is left from the new head on was there too. */
  ghost predicate Moved(st: State, st': State) {
    && st'.unverified == st.unverified && st'.finalBlock == st.finalBlock && st'.payloads == st.payloads
    && st.lastReassembled <= st'.lastReassembled && st'.lastReassembled !in st'.receiveBuffer
    && (forall n: nat :: st.lastReassembled <= n < st'.lastReassembled ==> n in st.receiveBuffer)
    && (forall n :: n in st'.receiveBuffer ==> n in st.receiveBuffer && st'.receiveBuffer[n] == st.receiveBuffer[n])
    && (forall n :: n in st.receiveBuffer && n >= st'.lastReassembled ==> n in st'.receiveBuffer)
  }

  /** One segment moves and the object runs on. */
  ghost predicate MovesHead(st: State, st': State) {
    var head := st.lastReassembled;
    && st'.running && st'.unverified == st.unverified && st'.finalBlock == st.finalBlock && st'.payloads == st.payloads
    && st'.lastReassembled == head + 1 && st'.receiveBuffer == st.receiveBuffer - {head}
  }

  lemma MoveStopsIff(st: State, st': State)
    requires st.running && Keyed(st) && st.lastReassembled in st.receiveBuffer && st' == MoveHead(st)
    ensures if st.lastReassembled == st.finalBlock && st.receiveBuffer[st.finalBlock].contentType == Blob
      then !st'.running && |st'.payloads| > |st.payloads| && st'.unverified == st.unverified
      else MovesHead(st, st')
  {}

  lemma {:induction false} StoppedStays(st: State)
    requires !st.running
    ensures !Reassemble(st).running && |Reassemble(st).payloads| >= |st.payloads|
    decreases |st.receiveBuffer|
  {
    if st.lastReassembled in st.receiveBuffer {
      StoppedStays(MoveHead(st));
    }
  }

  lemma CompleteAfterHead(st: State, st': State)
    requires st.lastReassembled in st.receiveBuffer && MovesHead(st, st')
    requires !(st.lastReassembled == st.finalBlock && st.receiveBuffer[st.finalBlock].contentType == Blob)
    ensures IsComplete(st) <==> IsComplete(st')
  {
    if IsComplete(st') {
      forall n | st.lastReassembled <= n <= st.finalBlock ensures n in st.receiveBuffer {
        assert n == st.lastReassembled || n in st'.receiveBuffer;
      }
    }
  }

  /** Reassembly stops a running object exactly when everything up to the last segment is there, and passes it up. */
  lemma {:induction false} ReassembleStopsIff(st: State)
    requires Keyed(st) && st.running
    ensures var st' := Reassemble(st);
      && (!st'.running <==> IsComplete(st)) && (!st'.running ==> |st'.payloads| > |st.payloads|)
      && (st'.running ==> Moved(st, st') && Keyed(st'))
    decreases |st.receiveBuffer|
  {
    hide MoveHead, IsComplete, Moved, Reassemble;
    if st.lastReassembled in st.receiveBuffer {
      var st2 := MoveHead(st);
      MoveStopsIff(st, st2);
      ReassembleNext(st, st2);
      if st2.running {
        CompleteAfterHead(st, st2);
        ReassembleStopsIff(st2);
        if Reassemble(st2).running { MovedAfterHead(st, st2, Reassemble(st2)); }
      } else {
        HeadCompletes(st);
        StoppedStays(st2);
      }
    } else {
      HeadMissing(st);
    }
  }

  lemma MovedAfterHead(st: State, st': State, st'': State)
    requires st.lastReassembled in st.receiveBuffer && MovesHead(st, st') && Moved(st', st'')
    ensures Moved(st, st'')
  {
    forall n: nat | st.lastReassembled <= n < st''.lastReassembled ensures n in st.receiveBuffer {
      assert n == st.lastReassembled || n in st'.receiveBuffer;
    }
    forall n | n in st.receiveBuffer && n >= st''.lastReassembled ensures n in st''.receiveBuffer {
      assert n in st'.receiveBuffer;
    }
  }

  lemma HeadCompletes(st: State)
    requires st.lastReassembled in st.receiveBuffer && st.lastReassembled == st.finalBlock
    requires st.receiveBuffer[st.finalBlock].contentType == Blob
    ensures IsComplete(st)
  {}

  lemma HeadMissing(st: State)
    requires st.lastReassembled !in st.receiveBuffer
    ensures !IsComplete(st) && Moved(st, st) && Reassemble(st) == st
  {}

  // ----- the parked segments, from a number on -----

  /** The final block number when the parked segments from .. k have been looked at. */
  function FinalAt(parked: map<nat, Packet>, final: nat, from: nat, k: nat): nat
    decreases k
  {
    if k < from then final
    else if k in parked && parked[k].finalBlockId.Some? then parked[k].finalBlockId.value
    else if k == 0 then final
    else FinalAt(parked, final, from, k - 1)
  }

  /** Received, or parked between these numbers. */
  predicate Has(st: State, from: nat, to: nat, n: nat) {
    n in st.receiveBuffer || (n in st.unverified && from <= n < to)
  }

  ghost predicate HasAll(st: State, from: nat, to: nat, final: nat) {
    forall n: nat :: st.lastReassembled <= n <= final ==> Has(st, from, to, n)
  }

  /** What is there under the last number is content. */
  predicate EndsInContent(st: State, from: nat, to: nat, final: nat) {
    (final in st.unverified && from <= final < to) ||
    (final in st.receiveBuffer && st.receiveBuffer[final].contentType == Blob)
  }

  /** With the parked segments from .. k, and not without the last of them, everything from the head to the last
      segment is there, and the last one is content.  With the first one, it is reassembly that was missing. */
  ghost predicate Completes(st: State, from: nat, k: nat) {
    var final := FinalAt(st.unverified, st.finalBlock, from, k);
    && k in st.unverified && k >= from && st.lastReassembled <= final
    && HasAll(st, from, k + 1, final) && EndsInContent(st, from, k + 1, final)
    && (IsNextKey(st.unverified, from, k) || !HasAll(st, from, k, final))
  }

  ghost predicate Delivers(st: State, from: nat) {
    exists k: nat :: Completes(st, from, k)
  }

  lemma {:induction false} FinalBefore(parked: map<nat, Packet>, final: nat, from: nat, k: nat)
    requires forall j :: from <= j <= k ==> j !in parked
    ensures FinalAt(parked, final, from, k) == final
    decreases k
  {
    if k >= from && k > 0 { FinalBefore(parked, final, from, k - 1); }
  }

  /** The final block number after the next parked segment. */
  lemma FinalNext(st: State, from: nat, k: nat)
    requires IsNextKey(st.unverified, from, k)
    ensures FinalAt(st.unverified, st.finalBlock, from, k) == FinalFrom(st, st.unverified[k]).finalBlock
  {
    if k > 0 { FinalBefore(st.unverified, st.finalBlock, from, k - 1); }
  }

  lemma {:induction false} FinalLater(parked: map<nat, Packet>, final: nat, final': nat, from: nat, k: nat, later: nat)
    requires from <= k <= later && final' == FinalAt(parked, final, from, k)
    ensures FinalAt(parked, final, from, later) == FinalAt(parked, final', k + 1, later)
    decreases later
  {
    if later > k { FinalLater(parked, final, final', from, k, later - 1); }
  }

  /** The next parked segment is stored. */
  function Unparked(st: State, k: nat): State
    requires k in st.unverified
  {
    var d := st.unverified[k];
    FinalFrom(st, d).(receiveBuffer := st.receiveBuffer[k := d])
  }

  lemma UnparkedHas(st: State, from: nat, k: nat, n: nat)
    requires IsNextKey(st.unverified, from, k)
    ensures n in Unparked(st, k).receiveBuffer <==> Has(st, from, k + 1, n)
  {}

  lemma UnparkedCompletes(st: State, from: nat, k: nat)
    requires Keyed(st) && IsNextKey(st.unverified, from, k)
    ensures IsComplete(Unparked(st, k)) <==> Completes(st, from, k)
  {
    FinalNext(st, from, k);
    var st', to := Unparked(st, k), k + 1;
    if IsComplete(st') {
      forall n: nat | st.lastReassembled <= n <= st'.finalBlock ensures Has(st, from, to, n) {
        UnparkedHas(st, from, k, n);
      }
    }
    if HasAll(st, from, k + 1, st'.finalBlock) {
      forall n: nat | st.lastReassembled <= n <= st'.finalBlock ensures n in st'.receiveBuffer {
        assert Has(st, from, k + 1, n);
        UnparkedHas(st, from, k, n);
      }
    }
  }

  /** Where the segments are after the next parked one was stored and reassembly has stopped short of the end. */
  lemma HasLater(st: State, next: State, from: nat, k: nat, to: nat, n: nat)
    requires IsNextKey(st.unverified, from, k) && Moved(Unparked(st, k), next) && k < to
    ensures n >= next.lastReassembled ==> (Has(st, from, to, n) <==> Has(next, k + 1, to, n))
    ensures st.lastReassembled <= n < next.lastReassembled ==> Has(st, from, to, n)
  {
    assert n in Unparked(st, k).receiveBuffer <==> n == k || n in st.receiveBuffer;
  }

  lemma HasAllLater(st: State, next: State, from: nat, k: nat, to: nat, final: nat)
    requires IsNextKey(st.unverified, from, k) && Moved(Unparked(st, k), next) && k < to
    ensures HasAll(st, from, to, final) <==> HasAll(next, k + 1, to, final)
  {
    if HasAll(next, k + 1, to, final) {
      forall n: nat | st.lastReassembled <= n <= final ensures Has(st, from, to, n) {
        HasLater(st, next, from, k, to, n);
        assert n >= next.lastReassembled ==> Has(next, k + 1, to, n);
      }
    }
    if HasAll(st, from, to, final) {
      var rest := k + 1;
      forall n: nat | next.lastReassembled <= n <= final ensures Has(next, rest, to, n) {
        HasLater(st, next, from, k, to, n);
        assert Has(st, from, to, n);
      }
    }
  }

  lemma EndsLater(st: State, next: State, from: nat, k: nat, to: nat, final: nat)
    requires Keyed(st) && IsNextKey(st.unverified, from, k) && Moved(Unparked(st, k), next) && k < to
    requires final >= next.lastReassembled
    ensures EndsInContent(st, from, to, final) <==> EndsInContent(next, k + 1, to, final)
  {
    assert final in next.receiveBuffer ==> final in Unparked(st, k).receiveBuffer;
  }

  lemma CompletesLater(st: State, next: State, from: nat, k: nat, later: nat)
    requires Keyed(st) && IsNextKey(st.unverified, from, k) && Moved(Unparked(st, k), next) && k < later
    ensures Completes(st, from, later) <==> Completes(next, k + 1, later)
  {
    hide HasAll, EndsInContent, Keyed;
    var final := FinalAt(st.unverified, st.finalBlock, from, later);
    FinalNext(st, from, k);
    FinalLater(st.unverified, st.finalBlock, next.finalBlock, from, k, later);
    HasAllLater(st, next, from, k, later, final);
    HasAllLater(st, next, from, k, later + 1, final);
    if final >= next.lastReassembled {
      EndsLater(st, next, from, k, later + 1, final);
      if IsNextKey(next.unverified, k + 1, later) { HeadIsMissing(next, k + 1, later, final); }
    } else {
      NothingToHave(next, k + 1, later, final);
    }
  }

  lemma HeadIsMissing(st: State, from: nat, k: nat, final: nat)
    requires IsNextKey(st.unverified, from, k) && st.lastReassembled !in st.receiveBuffer && st.lastReassembled <= final
    ensures !HasAll(st, from, k, final)
  {
    assert !Has(st, from, k, st.lastReassembled);
  }

  lemma NothingToHave(st: State, from: nat, to: nat, final: nat)
    requires final < st.lastReassembled
    ensures HasAll(st, from, to, final)
  {}

  // ----- a manifest arrives -----

  /** The manifest lists every parked segment from a number on. */
  ghost predicate ListsParked(st: State, manifest: Packet, from: nat) {
    forall k :: k in st.unverified && k >= from ==> VerifiedBy(manifest, st.unverified[k])
  }

  ghost predicate ListsNone(st: State, manifest: Packet) {
    forall k :: k in st.unverified ==> !VerifiedBy(manifest, st.unverified[k])
  }

  lemma DeliversLater(st: State, next: State, from: nat, k: nat)
    requires Keyed(st) && IsNextKey(st.unverified, from, k) && Moved(Unparked(st, k), next) && !Completes(st, from, k)
    ensures Delivers(st, from) <==> Delivers(next, k + 1)
  {
    hide Moved, HasAll, EndsInContent, Keyed;
    if Delivers(st, from) {
      var later: nat :| Completes(st, from, later);
      CompletesLater(st, next, from, k, later);
    }
    if Delivers(next, k + 1) {
      var later: nat :| Completes(next, k + 1, later);
      CompletesLater(st, next, from, k, later);
    }
  }

  /** A parked segment that the manifest lists. */
  lemma ListedParked(cfg: Config, st: State, i: Interest, manifest: Packet, from: nat, k: nat, next: State)
    requires st.running && Keyed(st) && IsNextKey(st.unverified, from, k) && VerifiedBy(manifest, st.unverified[k])
    requires next == CheckParked(cfg, st, i, manifest, st.unverified[k])
    ensures !next.running <==> Completes(st, from, k)
    ensures !next.running ==> |next.payloads| > |st.payloads|
    ensures next.running ==> Moved(Unparked(st, k), next) && Keyed(next) && (Delivers(st, from) <==> Delivers(next, k + 1))
  {
    hide Moved, IsComplete, Completes, Reassemble;
    UnparkedCompletes(st, from, k);
    ReassembleStopsIff(Unparked(st, k));
    if next.running { DeliversLater(st, next, from, k); }
  }

  /** A parked segment that the manifest does not list: the manifest's own number is looked up instead. */
  lemma UnlistedParked(cfg: Config, st: State, i: Interest, manifest: Packet, k: nat, next: State)
    requires k in st.unverified && !VerifiedBy(manifest, st.unverified[k])
    requires Catalogued(manifest.catalogue, manifest.segment).None?
    requires next == CheckParked(cfg, st, i, manifest, st.unverified[k])
    ensures !next.running && next.payloads == st.payloads
  {}

  lemma ListsParkedFrom(st: State, next: State, manifest: Packet, from: nat, k: nat)
    requires IsNextKey(st.unverified, from, k) && VerifiedBy(manifest, st.unverified[k]) && next.unverified == st.unverified
    ensures ListsParked(st, manifest, from) <==> ListsParked(next, manifest, k + 1)
  {}

  lemma {:induction false} CheckAllStopsIff(cfg: Config, st: State, i: Interest, manifest: Packet, from: nat, result: State)
    requires st.running && Keyed(st) && Catalogued(manifest.catalogue, manifest.segment).None?
    requires result == CheckAllParked(cfg, st, i, manifest, from)
    ensures !result.running <==> !ListsParked(st, manifest, from) || Delivers(st, from)
    ensures |result.payloads| >= |st.payloads|
    ensures ListsParked(st, manifest, from) ==> (|result.payloads| > |st.payloads| <==> Delivers(st, from))
    ensures ListsNone(st, manifest) ==> result.payloads == st.payloads
    decreases KeysFrom(st.unverified, from)
  {
    hide CheckParked, NextKeyOf, Completes, Keyed, VerifiedBy;
    var next := NextKeyOf(st.unverified, from);
    if next.None? {
      NoNextKey(st.unverified, from);
      NoneCompletes(st, from);
    } else {
      var k := next.value;
      var st1 := CheckParked(cfg, st, i, manifest, st.unverified[k]);
      CheckAllParkedNext(cfg, st, i, manifest, from, k);
      if VerifiedBy(manifest, st.unverified[k]) {
        ListedParked(cfg, st, i, manifest, from, k, st1);
        if st1.running {
          ListsParkedFrom(st, st1, manifest, from, k);
          CheckAllStopsIff(cfg, st1, i, manifest, k + 1, result);
        }
      } else {
        UnlistedParked(cfg, st, i, manifest, k, st1);
      }
    }
  }

  lemma NoneCompletes(st: State, from: nat)
    requires forall k :: k in st.unverified ==> k < from
    ensures !Delivers(st, from)
  {}

  lemma {:induction false} FastAllOutcome(cfg: Config, st: State, i: Interest, lost: seq<nat>)
    ensures var st' := FastRetransmitAll(cfg, st, i, lost);
      && st'.running == st.running && st'.unverified == st.unverified && st'.payloads == st.payloads
      && st'.receiveBuffer == st.receiveBuffer && st'.finalBlock == st.finalBlock && st'.lastReassembled == st.lastReassembled
    decreases |lost|
  {
    if lost != [] { FastAllOutcome(cfg, st, i, lost[..|lost| - 1]); }
  }

  /** The packet is among the received ones. */
  function Received(st: State, d: Packet): State {
    st.(receiveBuffer := st.receiveBuffer[d.segment := d])
  }

  /** A verified manifest that does not list its own number stops the run if and only if some parked segment is not
      listed by it, or the parked segments complete what was received; and when all are listed, something is passed
      up exactly in the second case. */
  lemma ManifestStopsIff(cfg: Config, st: State, i: Interest, manifest: Packet, st': State)
    requires st.running && Keyed(st) && IsSecure(cfg, manifest) && Catalogued(manifest.catalogue, manifest.segment).None?
    requires st' == OnManifestData(cfg, st, i, manifest)
    ensures !st'.running <==> !ListsParked(st, manifest, 0) || Delivers(Received(st, manifest), 0)
    ensures ListsParked(st, manifest, 0) ==> (|st'.payloads| > |st.payloads| <==> Delivers(Received(st, manifest), 0))
    ensures ListsNone(st, manifest) ==> st'.payloads == st.payloads
  {
    FastAllOutcome(cfg,
      st.(received := st.received + {i.segment}, marked := MarkedAfter(st.received, st.marked, i.segment)), i,
      Exposed(st.received, st.marked, i.segment));
    var st1 := CheckFastRetransmission(cfg, st, i);
    var manifests := if manifest.segment in st1.manifests then st1.manifests else st1.manifests[manifest.segment := manifest];
    var st2 := st1.(window := Grown(cfg, st1.window), manifests := manifests,
                    receiveBuffer := st1.receiveBuffer[manifest.segment := manifest]);
    CheckAllStopsIff(cfg, st2, i, manifest, 0, st');
    SameParts(Received(st, manifest), st2);
  }

  lemma SameParts(st: State, st': State)
    requires st'.unverified == st.unverified && st'.receiveBuffer == st.receiveBuffer
    requires st'.finalBlock == st.finalBlock && st'.lastReassembled == st.lastReassembled
    ensures Delivers(st, 0) <==> Delivers(st', 0)
  {
    forall k: nat ensures Completes(st, 0, k) <==> Completes(st', 0, k) {
      assert forall to, n: nat :: Has(st, 0, to, n) <==> Has(st', 0, to, n);
      assert forall to, final :: HasAll(st, 0, to, final) <==> HasAll(st', 0, to, final);
    }
  }

  // ----- when the last segment is known -----

  lemma {:induction false} KnownFinal(parked: map<nat, Packet>, final: nat, k: nat)
    requires forall j :: j in parked ==> parked[j].finalBlockId.None? || parked[j].finalBlockId == Some(final)
    ensures FinalAt(parked, final, 0, k) == final
    decreases k
  {
    if k > 0 { KnownFinal(parked, final, k - 1); }
  }

  /** The parked segment that makes everything complete. */
  lemma {:induction false} FindCompletion(st: State, to: nat)
    requires Keyed(st) && st.unverified != map[] && st.lastReassembled <= st.finalBlock && HasAll(st, 0, to, st.finalBlock)
    requires forall k: nat :: FinalAt(st.unverified, st.finalBlock, 0, k) == st.finalBlock
    requires st.finalBlock in st.receiveBuffer ==> st.receiveBuffer[st.finalBlock].contentType == Blob
    ensures Delivers(st, 0)
  {
    assert Has(st, 0, to, st.finalBlock);
    if to == 0 {
      var any :| any in st.unverified;
      LeastKeyExists(st.unverified, 0, any);
      var k: nat :| IsNextKey(st.unverified, 0, k);
      MoreToHave(st, 0, k + 1, st.finalBlock);
      assert Completes(st, 0, k);
    } else if HasAll(st, 0, to - 1, st.finalBlock) {
      FindCompletion(st, to - 1);
    } else {
      MoreToHave(st, to - 1, to, st.finalBlock);
      assert Completes(st, 0, to - 1);
    }
  }

  lemma MoreToHave(st: State, less: nat, to: nat, final: nat)
    requires less <= to
    ensures HasAll(st, 0, less, final) ==> HasAll(st, 0, to, final)
    ensures less + 1 == to && HasAll(st, 0, to, final) && !HasAll(st, 0, less, final) ==> less in st.unverified
  {
    assert forall n: nat :: Has(st, 0, less, n) ==> Has(st, 0, to, n);
    if less + 1 == to && HasAll(st, 0, to, final) && !HasAll(st, 0, less, final) {
      var n: nat :| st.lastReassembled <= n <= final && !Has(st, 0, less, n);
      assert Has(st, 0, to, n);
    }
  }

  /** If the parked segments agree on the known last number, they complete the content exactly when all that is
      missing is parked. */
  lemma KnownFinalDeliversIff(st: State)
    requires Keyed(st) && st.unverified != map[]
    requires forall k :: k in st.unverified ==>
      st.unverified[k].finalBlockId.None? || st.unverified[k].finalBlockId == Some(st.finalBlock)
    requires st.finalBlock in st.receiveBuffer ==> st.receiveBuffer[st.finalBlock].contentType == Blob
    ensures Delivers(st, 0) <==>
      st.lastReassembled <= st.finalBlock &&
      forall n :: st.lastReassembled <= n <= st.finalBlock ==> n in st.receiveBuffer || n in st.unverified
  {
    forall k: nat ensures FinalAt(st.unverified, st.finalBlock, 0, k) == st.finalBlock {
      KnownFinal(st.unverified, st.finalBlock, k);
    }
    if st.lastReassembled <= st.finalBlock &&
      (forall n :: st.lastReassembled <= n <= st.finalBlock ==> n in st.receiveBuffer || n in st.unverified) {
      FindCompletion(st, st.finalBlock + 1);
    }
    if Delivers(st, 0) {
      var k: nat :| Completes(st, 0, k);
      assert forall n: nat :: Has(st, 0, k + 1, n) ==> n in st.receiveBuffer || n in st.unverified;
    }
  }
}
