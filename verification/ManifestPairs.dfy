/** Key by key: which pairs of a manifest come back, when others may not. */
module ManifestPairs {
  import opened Names
  import opened Options
  import opened Tlv
  import opened Manifests

  /** Written out, the pair of key j starts like that of key k. */
  predicate Extends(j: Bytes, k: Bytes) {
    k + [EQUALS] <= j
  }

  /** What is read from the pair of a key j that extends k: a value for k. */
  function Tail(k: Bytes, j: Bytes, value: Bytes): Bytes
    requires Extends(j, k)
  {
    j[|k| + 1..] + [EQUALS] + value
  }

  function ReadAs(p: Pair): Option<Pair> {
    ReadPair(PairBlock(p).value)
  }

  predicate Writes(p: Pair, k: Bytes) {
    ReadAs(p).Some? && ReadAs(p).value.key == k
  }

  lemma FirstEqualsIs(s: Bytes, k: nat)
    requires k < |s| && s[k] == EQUALS && EQUALS !in s[..k]
    ensures FirstEquals(s) == k
  {
    var index := FirstEquals(s);
    forall i | 0 <= i < k ensures s[i] != EQUALS { assert s[i] == s[..k][i]; }
    forall i | 0 <= i < index ensures s[i] != EQUALS { assert s[i] == s[..index][i]; }
  }

  lemma ReadsExtension(p: Pair, k: Bytes)
    requires k != [] && EQUALS !in k && Extends(p.key, k)
    ensures ReadAs(p) == Some(Pair(k, Tail(k, p.key, p.value)))
  {
    var s := PairBlock(p).value;
    assert s[..|k|] == k && s[|k|] == EQUALS;
    FirstEqualsIs(s, |k|);
    assert s[|k| + 1..] == Tail(k, p.key, p.value);
  }

  /** A pair is read under its own key, or under one that it extends; such keys have no equals sign. */
  lemma WritesOnly(p: Pair, k: Bytes)
    requires Writes(p, k)
    ensures k != [] && EQUALS !in k && (p.key == k || Extends(p.key, k))
  {
    var s := PairBlock(p).value;
    var index := FirstEquals(s);
    assert s[|p.key|] == EQUALS;
    if index == |p.key| {
      assert s[..index] == p.key;
    } else {
      assert index < |p.key| by {
        forall i | 0 <= i < index ensures s[i] != EQUALS { assert s[i] == s[..index][i]; }
      }
      assert p.key[..index + 1] == k + [EQUALS];
    }
  }

  lemma {:induction false} Unwritten(m: Pairs, ps: seq<Pair>, k: Bytes)
    requires forall i :: 0 <= i < |ps| ==> !Writes(ps[i], k)
    ensures k in Kept(m, ps) <==> k in m
    ensures k in m ==> Kept(m, ps)[k] == m[k]
    decreases |ps|
  {
    if ps != [] {
      assert !Writes(ps[0], k);
      assert forall i :: 0 <= i < |ps| - 1 ==> ps[1..][i] == ps[i + 1];
      Unwritten(if ReadAs(ps[0]).Some? then m[ReadAs(ps[0]).value.key := ReadAs(ps[0]).value.value] else m, ps[1..], k);
    }
  }

  /** The last pair read under a key decides. */
  lemma {:induction false} LastWriterWins(m: Pairs, ps: seq<Pair>, k: Bytes, j: nat)
    requires j < |ps| && Writes(ps[j], k) && forall i :: j < i < |ps| ==> !Writes(ps[i], k)
    ensures k in Kept(m, ps) && Kept(m, ps)[k] == ReadAs(ps[j]).value.value
    decreases |ps|
  {
    assert forall i :: 0 <= i < |ps| - 1 ==> ps[1..][i] == ps[i + 1];
    var next := if ReadAs(ps[0]).Some? then m[ReadAs(ps[0]).value.key := ReadAs(ps[0]).value.value] else m;
    assert Kept(m, ps) == Kept(next, ps[1..]);
    if j == 0 {
      Unwritten(next, ps[1..], k);
    } else {
      LastWriterWins(next, ps[1..], k, j - 1);
    }
  }

  // ----- one pair -----

  ghost predicate IsLastExtension(m: Pairs, k: Bytes, j: Bytes) {
    j in m && Extends(j, k) && forall i :: i in m && Extends(i, k) ==> i == j || KeyLess(i, j)
  }

  /** The pair survives, and no other key extends its key; or the last one that does happens to yield the value. */
  ghost predicate ComesBack(m: Pairs, k: Bytes)
    requires k in m
  {
    Survives(Pair(k, m[k])) && forall j :: IsLastExtension(m, k, j) ==> Tail(k, j, m[j]) == m[k]
  }

  ghost predicate ExtendsNone(ps: seq<Pair>, k: Bytes, from: nat) {
    forall i :: from <= i < |ps| ==> !Extends(ps[i].key, k)
  }

  lemma {:induction false} LastExtension(ps: seq<Pair>, k: Bytes, n: nat) returns (j: Option<nat>)
    requires n <= |ps| && ExtendsNone(ps, k, n)
    ensures j.None? ==> ExtendsNone(ps, k, 0)
    ensures j.Some? ==> j.value < |ps| && Extends(ps[j.value].key, k) && ExtendsNone(ps, k, j.value + 1)
  {
    if n == 0 {
      j := None;
    } else if Extends(ps[n - 1].key, k) {
      j := Some(n - 1);
    } else {
      j := LastExtension(ps, k, n - 1);
    }
  }

  lemma IndexOfKey(m: Pairs, ps: seq<Pair>, k: Bytes) returns (j: nat)
    requires IsListing(m, ps) && k in m
    ensures j < |ps| && ps[j] == Pair(k, m[k]) && forall i :: 0 <= i < |ps| && i != j ==> ps[i].key != k
  {
    assert Pair(k, m[k]) in ps;
    j :| 0 <= j < |ps| && ps[j] == Pair(k, m[k]);
    forall i | 0 <= i < |ps| && i != j ensures ps[i].key != k {
      if i < j { KeyOrder(ps[i].key, ps[j].key, k); } else { KeyOrder(ps[j].key, ps[i].key, k); }
    }
  }

  lemma ExtensionComesLater(k: Bytes, j: Bytes)
    requires Extends(j, k)
    ensures KeyLess(k, j) && k != j
  {
    LexPrefix((x: byte, y: byte) => x < y, k, j);
  }

  /** Nothing extends the key: the pair comes back if and only if it survives. */
  lemma AloneComesBackIff(m: Pairs, ps: seq<Pair>, k: Bytes)
    requires IsListing(m, ps) && k in m && ExtendsNone(ps, k, 0)
    ensures k in Kept(map[], ps) && Kept(map[], ps)[k] == m[k] <==> Survives(Pair(k, m[k]))
  {
    var j := IndexOfKey(m, ps, k);
    ReadsPairIff(ps[j]);
    forall i | 0 <= i < |ps| && i != j ensures !Writes(ps[i], k) {
      if Writes(ps[i], k) { WritesOnly(ps[i], k); }
    }
    if Writes(ps[j], k) {
      LastWriterWins(map[], ps, k, j);
    } else {
      Unwritten(map[], ps, k);
    }
  }

  /** The last key that extends it decides. */
  lemma ExtendedComesBackIff(m: Pairs, ps: seq<Pair>, k: Bytes, j: nat)
    requires IsListing(m, ps) && k in m && k != [] && EQUALS !in k
    requires j < |ps| && Extends(ps[j].key, k) && ExtendsNone(ps, k, j + 1)
    ensures k in Kept(map[], ps) && Kept(map[], ps)[k] == Tail(k, ps[j].key, ps[j].value)
  {
    var own := IndexOfKey(m, ps, k);
    ReadsExtension(ps[j], k);
    ExtensionComesLater(k, ps[j].key);
    forall i | j < i < |ps| ensures !Writes(ps[i], k) {
      KeyOrder(ps[j].key, ps[i].key, k);
      KeyOrder(k, ps[j].key, ps[i].key);
      KeyOrder(k, k, k);
      if Writes(ps[i], k) { WritesOnly(ps[i], k); }
    }
    LastWriterWins(map[], ps, k, j);
  }

  lemma LastExtensionIs(m: Pairs, ps: seq<Pair>, k: Bytes, j: nat)
    requires IsListing(m, ps) && j < |ps| && Extends(ps[j].key, k) && ExtendsNone(ps, k, j + 1)
    ensures IsLastExtension(m, k, ps[j].key) && m[ps[j].key] == ps[j].value
    ensures forall i :: IsLastExtension(m, k, i) ==> i == ps[j].key
  {
    assert ps[j] in ps;
    forall i | i in m && Extends(i, k) && i != ps[j].key ensures KeyLess(i, ps[j].key) {
      var own := IndexOfKey(m, ps, i);
    }
    forall i | IsLastExtension(m, k, i) ensures i == ps[j].key { KeyOrder(i, ps[j].key, i); KeyOrder(i, i, i); }
  }

  lemma NoLastExtension(m: Pairs, ps: seq<Pair>, k: Bytes)
    requires IsListing(m, ps) && ExtendsNone(ps, k, 0)
    ensures forall j :: !IsLastExtension(m, k, j)
  {
    forall j | j in m ensures !Extends(j, k) { var own := IndexOfKey(m, ps, j); }
  }

  lemma KeptIff(m: Pairs, ps: seq<Pair>, k: Bytes)
    requires IsListing(m, ps) && k in m
    ensures k in Kept(map[], ps) && Kept(map[], ps)[k] == m[k] <==> ComesBack(m, k)
  {
    if k == [] || EQUALS in k {
      forall i | 0 <= i < |ps| ensures !Writes(ps[i], k) {
        if Writes(ps[i], k) { WritesOnly(ps[i], k); }
      }
      Unwritten(map[], ps, k);
    } else {
      var j := LastExtension(ps, k, |ps|);
      match j {
        case None =>
          NoLastExtension(m, ps, k);
          AloneComesBackIff(m, ps, k);
        case Some(j) =>
          LastExtensionIs(m, ps, k, j);
          ExtendedComesBackIff(m, ps, k, j);
      }
    }
  }

  /** Which pairs come back: exactly those that survive and whose key no other key of the map extends, or whose
      value the last such key happens to yield. */
  lemma PairComesBackIff(names: seq<Name>, m: Pairs, ps: seq<Pair>, k: Bytes)
    requires IsListing(m, ps) && AllFit(names, m) && k in m
    ensures var r := Decoding(Decoded([], map[], true), Content(names, ps));
      k in r.pairs && r.pairs[k] == m[k] <==> ComesBack(m, k)
    ensures (forall j :: j in m ==> !Extends(j, k)) ==> (ComesBack(m, k) <==> Survives(Pair(k, m[k])))
  {
    forall p | p in ps ensures Fits(PairBlock(p)) { assert p == Pair(p.key, m[p.key]); }
    DecodesContent(Decoded([], map[], true), names, ps);
    KeptIff(m, ps, k);
  }

  /** A pair that survives by itself and yet comes back changed: "a" is "x" and "a=b" is "c", and "a" is read
      as "b=c". */
  lemma OverwrittenPair() returns (m: Pairs, ps: seq<Pair>)
    ensures m == map[[97] := [120], [97, EQUALS, 98] := [99]] && IsListing(m, ps)
    ensures Survives(Pair([97], [120])) && [97] in Kept(map[], ps) && Kept(map[], ps)[[97]] == [98, EQUALS, 99]
  {
    m := map[[97] := [120], [97, EQUALS, 98] := [99]];
    ps := [Pair([97], [120]), Pair([97, EQUALS, 98], [99])];
    assert Extends([97, EQUALS, 98], [97]);
    ExtensionComesLater([97], [97, EQUALS, 98]);
    assert ps[0] == Pair([97], m[[97]]) && ps[1] == Pair([97, EQUALS, 98], m[[97, EQUALS, 98]]);
    ExtendedComesBackIff(m, ps, [97], 1);
  }
}
