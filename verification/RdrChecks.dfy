/** The two checks on arriving packets, in terms of their fields. */
module RdrChecks {
  import opened RdrModel

  /** The callback accepts the packet; without one, a digest signature matches if there is one. */
  predicate Passes(cfg: Config, d: Packet) {
    match cfg.verify
    case Some(verify) => verify(d)
    case None => d.digestSigned ==> d.digestValid
  }

  /** The first entry of the manifest for the packet's number has its digest. */
  ghost predicate IsListed(m: Packet, d: Packet) {
    exists j ::
      && 0 <= j < |m.catalogue| && m.catalogue[j].segment == d.segment && m.catalogue[j].digest == d.digest
      && forall k :: 0 <= k < j ==> m.catalogue[k].segment != d.segment
  }

  lemma {:induction false} CataloguedAt(cat: seq<CatalogueEntry>, segment: nat)
    ensures match Catalogued(cat, segment)
      case None => forall k :: 0 <= k < |cat| ==> cat[k].segment != segment
      case Some(digest) => exists j ::
        && 0 <= j < |cat| && cat[j].segment == segment && cat[j].digest == digest
        && forall k :: 0 <= k < j ==> cat[k].segment != segment
  {
    if cat != [] && cat[0].segment != segment {
      CataloguedAt(cat[1..], segment);
      assert forall k :: 0 < k < |cat| ==> cat[1..][k - 1] == cat[k];
      if Catalogued(cat[1..], segment).Some? {
        var j :| 0 <= j < |cat| - 1 && cat[1..][j].segment == segment && cat[1..][j].digest == Catalogued(cat, segment).value
          && forall k :: 0 <= k < j ==> cat[1..][k].segment != segment;
        assert cat[j + 1] == cat[1..][j];
      }
    }
  }

  /** The test of the handlers is that one. */
  lemma VerifiedByIff(m: Packet, d: Packet)
    ensures VerifiedBy(m, d) <==> IsListed(m, d)
  {
    CataloguedAt(m.catalogue, d.segment);
  }

  lemma IsSecureIff(cfg: Config, d: Packet)
    ensures IsSecure(cfg, d) <==> Passes(cfg, d)
  {}
}
