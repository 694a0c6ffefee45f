/** The shape of the skip list: layers of cells over shared entries, and what insertion and removal keep. */
module SkipLists {
  import opened Names
  import opened Options
  import opened StoreSpec
  import opened Lists

  /** A content store entry: one packet, its full name, and its cell in each layer it is in. */
  class Entry {
    var data: Option<Data>
    var unsolicited: bool
    var name: Name
    var digest: Option<Digest>
    var iterators: map<nat, Cell<Entry>>

    constructor ()
      ensures iterators == map[]
    {
      data, unsolicited, name, digest, iterators := None, false, [], None, map[];
    }

    /** Holds exactly this packet, under its full name. */
    ghost predicate Stores(d: Data)
      reads this
    {
      data == Some(d) && name == FullName(d) && digest == Some(d.digest)
    }

    method SetData(d: Data, unsolicited: bool)
      modifies this
      ensures Stores(d) && this.unsolicited == unsolicited && iterators == old(iterators)
    {
      this.unsolicited := unsolicited;
      data := Some(d);
      digest := Some(d.digest);
      name := d.name + [Component(GENERIC_COMPONENT, d.digest)];
    }

    /** The refreshing form: the digest is handed over, and the solicitation flag stays. */
    method SetDataWithDigest(d: Data, unsolicited: bool, g: Option<Digest>)
      requires g == Some(d.digest)
      modifies this
      ensures Stores(d) && this.unsolicited == old(this.unsolicited) && iterators == old(iterators)
    {
      data := Some(d);
      digest := g;
      name := d.name + [Component(GENERIC_COMPONENT, d.digest)];
    }

    method Release()
      requires iterators == map[]
      modifies this
      ensures data == None && digest == None && name == [] && iterators == map[]
    {
      data := None;
      digest := None;
      name := [];
    }

    method SetIterator(layer: nat, c: Cell<Entry>)
      modifies this
      ensures iterators == old(iterators)[layer := c]
      ensures data == old(data) && name == old(name) && digest == old(digest) && unsolicited == old(unsolicited)
    {
      iterators := iterators[layer := c];
    }

    method RemoveIterator(layer: nat)
      modifies this
      ensures iterators == old(iterators) - {layer}
      ensures data == old(data) && name == old(name) && digest == old(digest) && unsolicited == old(unsolicited)
    {
      iterators := iterators - {layer};
    }
  }

  type Layer = seq<Cell<Entry>>
  type NameMap = map<Entry, Name>
  type CellMap = map<Entry, map<nat, Cell<Entry>>>

  ghost predicate SortedLayer(l: Layer, nm: NameMap) {
    && (forall i :: 0 <= i < |l| ==> l[i].value in nm)
    && (forall i, j :: 0 <= i < j < |l| ==> NameLess(nm[l[i].value], nm[l[j].value]))
  }

  /** Every cell of layer l is its entry's cell for layer l. */
  ghost predicate CellsAreMapped(sk: seq<Layer>, it: CellMap) {
    forall l: nat, c {:trigger c in sk[l]} :: l < |sk| && c in sk[l] ==> c.value in it && l in it[c.value] && it[c.value][l] == c
  }

  /** Every layer iterator points at the entry's own cell in that layer. */
  ghost predicate IteratorsAreCells(sk: seq<Layer>, it: CellMap) {
    forall e: Entry, l: nat {:trigger l in it[e]} :: e in it && l in it[e] ==> l < |sk| && it[e][l] in sk[l] && it[e][l].value == e
  }

  /** An entry in some layer is in every layer below. */
  ghost predicate Downward(it: CellMap) {
    forall e: Entry, l: nat, k: nat :: e in it && l in it[e] && k < l ==> k in it[e]
  }

  /** The representation invariant of the skip list over entries with names nm and layer-iterator maps it. */
  ghost predicate Linked(sk: seq<Layer>, nm: NameMap, it: CellMap) {
    && nm.Keys == it.Keys
    && |sk| >= 1
    && (forall l :: 0 <= l < |sk| ==> SortedLayer(sk[l], nm))
    && (forall l :: 0 < l < |sk| ==> sk[l] != [])
    && CellsAreMapped(sk, it) && IteratorsAreCells(sk, it) && Downward(it)
  }

  /** k cells of the layer come before name n. */
  ghost predicate IsRank(l: Layer, nm: NameMap, n: Name, k: nat)
    requires SortedLayer(l, nm)
  {
    && k <= |l|
    && (forall i :: 0 <= i < k ==> NameLess(nm[l[i].value], n))
    && (forall i :: k <= i < |l| ==> !NameLess(nm[l[i].value], n))
  }

  lemma SortedHasNoRepeats(l: Layer, nm: NameMap)
    requires SortedLayer(l, nm)
    ensures NoRepeats(l)
  {
    forall j, k | 0 <= j < k < |l| ensures l[j] != l[k] {
      NameOrder(nm[l[j].value], nm[l[k].value]);
    }
  }

  /** A cell before n whose successor is not before n sits at the boundary. */
  lemma RankFromBoundary(l: Layer, nm: NameMap, n: Name, k: nat)
    requires SortedLayer(l, nm) && k <= |l|
    requires 0 < k ==> NameLess(nm[l[k - 1].value], n)
    requires k < |l| ==> !NameLess(nm[l[k].value], n)
    ensures IsRank(l, nm, n, k)
  {
    forall i | 0 <= i < k ensures NameLess(nm[l[i].value], n) {
      if i < k - 1 { NameTransitive(nm[l[i].value], nm[l[k - 1].value], n); }
    }
    forall i | k <= i < |l| ensures !NameLess(nm[l[i].value], n) {
      if k < i && NameLess(nm[l[i].value], n) { NameTransitive(nm[l[k].value], nm[l[i].value], n); }
    }
  }

  /** Every layer is exactly the entries of the layer below that reach that high, in the same order. */
  function Reaching(l: Layer, layer: nat, it: CellMap): seq<Entry>
    requires forall c :: c in l ==> c.value in it
  {
    if l == [] then []
    else (if layer in it[l[0].value] then [l[0].value] else []) + Reaching(l[1..], layer, it)
  }

  lemma {:induction false} ReachingMembers(l: Layer, layer: nat, it: CellMap)
    requires forall c :: c in l ==> c.value in it
    ensures forall e :: e in Reaching(l, layer, it) <==> exists c :: c in l && c.value == e && layer in it[e]
  {
    if l != [] {
      ReachingMembers(l[1..], layer, it);
      assert l == [l[0]] + l[1..];
      forall e ensures e in Reaching(l, layer, it) <==> exists c :: c in l && c.value == e && layer in it[e] {
        if e in Reaching(l[1..], layer, it) {
          var c :| c in l[1..] && c.value == e && layer in it[e];
          assert c in l;
        }
      }
    }
  }

  ghost predicate SortedEntries(s: seq<Entry>, nm: NameMap) {
    && (forall i :: 0 <= i < |s| ==> s[i] in nm)
    && (forall i, j :: 0 <= i < j < |s| ==> NameLess(nm[s[i]], nm[s[j]]))
  }

  lemma {:induction false} ReachingSorted(l: Layer, layer: nat, nm: NameMap, it: CellMap)
    requires SortedLayer(l, nm) && nm.Keys == it.Keys
    ensures SortedEntries(Reaching(l, layer, it), nm)
  {
    if l != [] {
      ReachingSorted(l[1..], layer, nm, it);
      var rest := Reaching(l[1..], layer, it);
      ReachingMembers(l[1..], layer, it);
      forall i | 0 <= i < |rest| ensures NameLess(nm[l[0].value], nm[rest[i]]) {
        assert rest[i] in rest;
        var c :| c in l[1..] && c.value == rest[i];
        var k :| 0 <= k < |l[1..]| && l[1..][k] == c;
        assert l[k + 1] == c;
      }
    }
  }

  lemma HeadIsMember<T>(s: seq<T>)
    ensures s == [] || s[0] in s
  {}

  /** Two sorted lists with the same members are the same list. */
  lemma {:induction false} SortedSame(a: seq<Entry>, b: seq<Entry>, nm: NameMap)
    requires SortedEntries(a, nm) && SortedEntries(b, nm)
    requires forall e :: e in a <==> e in b
    ensures a == b
  {
    HeadIsMember(a);
    HeadIsMember(b);
    if a == [] || b == [] {
    } else {
      assert a[0] in b && b[0] in a;
      var i :| 0 <= i < |b| && b[i] == a[0];
      var j :| 0 <= j < |a| && a[j] == b[0];
      NameOrder(nm[a[0]], nm[b[0]]);
      assert a[0] == b[0];
      forall e ensures e in a[1..] <==> e in b[1..] {
        NameOrder(nm[a[0]], nm[a[0]]);
        assert a == [a[0]] + a[1..] && b == [b[0]] + b[1..];
        if e in a[1..] {
          var k :| 0 <= k < |a[1..]| && a[1..][k] == e;
          assert a[k + 1] == e && NameLess(nm[a[0]], nm[a[k + 1]]);
          assert e in b && e != b[0];
        }
        if e in b[1..] {
          var k :| 0 <= k < |b[1..]| && b[1..][k] == e;
          assert b[k + 1] == e && NameLess(nm[b[0]], nm[b[k + 1]]);
          assert e in a && e != a[0];
        }
      }
      SortedSame(a[1..], b[1..], nm);
      assert a == [a[0]] + a[1..] && b == [b[0]] + b[1..];
    }
  }

  function EntriesOf(l: Layer): (s: seq<Entry>)
    ensures |s| == |l| && forall i :: 0 <= i < |l| ==> s[i] == l[i].value
  {
    seq(|l|, i requires 0 <= i < |l| => l[i].value)
  }

  lemma LayersAreNested(sk: seq<Layer>, nm: NameMap, it: CellMap, l: nat)
    requires Linked(sk, nm, it) && l + 1 < |sk|
    ensures EntriesOf(sk[l + 1]) == Reaching(sk[l], l + 1, it)
  {
    var upper, lower := EntriesOf(sk[l + 1]), Reaching(sk[l], l + 1, it);
    ReachingSorted(sk[l], l + 1, nm, it);
    ReachingMembers(sk[l], l + 1, it);
    forall e ensures e in upper <==> e in lower {
      if e in upper {
        var i :| 0 <= i < |upper| && upper[i] == e;
        assert sk[l + 1][i] in sk[l + 1];
        assert l in it[e] && it[e][l] in sk[l];
      }
      if e in lower {
        var c :| c in sk[l] && c.value == e && l + 1 in it[e];
        var i :| 0 <= i < |sk[l + 1]| && sk[l + 1][i] == it[e][l + 1];
        assert upper[i] == e;
      }
    }
    SortedSame(upper, lower, nm);
  }

  // ----- insertion -----

  function LayerAt(sk: seq<Layer>, l: nat): Layer {
    if l < |sk| then sk[l] else []
  }

  function Inserted(l: Layer, k: nat, c: Cell<Entry>): Layer
    requires k <= |l|
  {
    l[..k] + [c] + l[k..]
  }

  /** Entries in no layer may come, go and take any name. */
  lemma LinkedReframe(sk: seq<Layer>, nm: NameMap, it: CellMap, nm': NameMap, it': CellMap)
    requires Linked(sk, nm, it) && nm'.Keys == it'.Keys
    requires forall e :: e in it && it[e] != map[] ==> e in it' && it'[e] == it[e] && nm'[e] == nm[e]
    requires forall e :: e in it' && it'[e] != map[] ==> e in it && it'[e] == it[e]
    ensures Linked(sk, nm', it')
  {
    forall l: nat, i | l < |sk| && 0 <= i < |sk[l]|
      ensures sk[l][i].value in nm' && nm'[sk[l][i].value] == nm[sk[l][i].value]
    {
      assert sk[l][i] in sk[l];
    }
    forall l: nat, c {:trigger c in sk[l]} | l < |sk| && c in sk[l]
      ensures c.value in it' && l in it'[c.value] && it'[c.value][l] == c
    {
      assert l in it[c.value];
    }
  }

  lemma InsertedSorted(l: Layer, nm: NameMap, n: Name, k: nat, c: Cell<Entry>)
    requires SortedLayer(l, nm) && IsRank(l, nm, n, k)
    requires c.value in nm && nm[c.value] == n
    requires forall i :: 0 <= i < |l| ==> nm[l[i].value] != n
    ensures SortedLayer(Inserted(l, k, c), nm)
    ensures forall d :: d in Inserted(l, k, c) <==> d == c || d in l
  {
    var r := Inserted(l, k, c);
    forall i | k <= i < |l| ensures NameLess(n, nm[l[i].value]) {
      NameOrder(nm[l[i].value], n);
    }
    assert forall i :: 0 <= i < |r| ==> r[i] == if i < k then l[i] else if i == k then c else l[i - 1];
    forall d ensures d in r <==> d == c || d in l {
      if d == c { assert r[k] == c; }
      if d in l {
        var i :| 0 <= i < |l| && l[i] == d;
        assert r[if i < k then i else i + 1] == d;
      }
    }
  }

  ghost predicate IsInsertion(sk: seq<Layer>, sk': seq<Layer>, ks: seq<nat>, cells: seq<Cell<Entry>>) {
    && |ks| == |cells|
    && |sk'| == (if |sk| < |cells| then |cells| else |sk|)
    && (forall l :: 0 <= l < |cells| ==> ks[l] <= |LayerAt(sk, l)| && sk'[l] == Inserted(LayerAt(sk, l), ks[l], cells[l]))
    && (forall l :: |cells| <= l < |sk| ==> sk'[l] == sk[l])
  }

  lemma InsertionMembers(sk: seq<Layer>, sk': seq<Layer>, nm: NameMap, it: CellMap, e: Entry,
                         ks: seq<nat>, cells: seq<Cell<Entry>>, l: nat)
    requires Linked(sk, nm, it) && e in it && it[e] == map[]
    requires IsInsertion(sk, sk', ks, cells) && l < |sk'|
    requires l < |cells| ==> cells[l].value == e
    requires l < |cells| && l < |sk| ==> IsRank(sk[l], nm, nm[e], ks[l])
    requires forall i :: 0 <= i < |sk[0]| ==> nm[sk[0][i].value] != nm[e]
    ensures SortedLayer(sk'[l], nm)
    ensures l < |cells| ==> forall c :: c in sk'[l] <==> c == cells[l] || c in LayerAt(sk, l)
  {
    if l < |cells| {
      if l < |sk| {
        forall i | 0 <= i < |sk[l]| ensures nm[sk[l][i].value] != nm[e] {
          assert sk[l][i] in sk[l];
          var c0 := it[sk[l][i].value][0];
          assert c0 in sk[0];
          var j :| 0 <= j < |sk[0]| && sk[0][j] == c0;
        }
      }
      InsertedSorted(LayerAt(sk, l), nm, nm[e], ks[l], cells[l]);
    }
  }

  ghost predicate InsertionContents(sk: seq<Layer>, sk': seq<Layer>, cells: seq<Cell<Entry>>) {
    && (forall l: nat, c :: l < |cells| && l < |sk'| && c in sk'[l] ==> c == cells[l] || c in LayerAt(sk, l))
    && (forall l: nat :: l < |cells| && l < |sk'| ==> cells[l] in sk'[l])
    && (forall l: nat, c :: l < |sk| && l < |cells| && l < |sk'| && c in sk[l] ==> c in sk'[l])
    && (forall l: nat :: |cells| <= l < |sk'| ==> l < |sk| && sk'[l] == sk[l])
    && |sk'| >= |sk| && |sk'| >= |cells|
  }

  lemma InsertionIsMapped(sk: seq<Layer>, sk': seq<Layer>, it: CellMap, it': CellMap, e: Entry, cells: seq<Cell<Entry>>)
    requires CellsAreMapped(sk, it) && e in it && it[e] == map[]
    requires InsertionContents(sk, sk', cells)
    requires forall l :: 0 <= l < |cells| ==> cells[l].value == e
    requires it' == it[e := map l: nat | l < |cells| :: cells[l]]
    ensures CellsAreMapped(sk', it')
  {
    forall l: nat, c | l < |sk'| && c in sk'[l]
      ensures c.value in it' && l in it'[c.value] && it'[c.value][l] == c
    {
      if l < |cells| && c == cells[l] {
      } else {
        assert c in LayerAt(sk, l);
        assert l < |sk| && c in sk[l];
      }
    }
  }

  lemma InsertionHasCells(sk: seq<Layer>, sk': seq<Layer>, it: CellMap, it': CellMap, e: Entry, cells: seq<Cell<Entry>>)
    requires IteratorsAreCells(sk, it) && Downward(it) && e in it && it[e] == map[]
    requires InsertionContents(sk, sk', cells)
    requires forall l :: 0 <= l < |cells| ==> cells[l].value == e
    requires it' == it[e := map l: nat | l < |cells| :: cells[l]]
    ensures IteratorsAreCells(sk', it') && Downward(it')
  {
    forall f: Entry, l: nat {:trigger l in it'[f]} | f in it' && l in it'[f]
      ensures l < |sk'| && it'[f][l] in sk'[l] && it'[f][l].value == f
    {
      if f != e {
        assert it'[f] == it[f];
        assert l in it[f];
        assert it[f][l] in sk[l];
        assert it[f][l] in LayerAt(sk, l);
      }
    }
    forall f: Entry, l: nat, k: nat | f in it' && l in it'[f] && k < l ensures k in it'[f] {
      if f != e {
        assert it'[f] == it[f];
        assert l in it[f];
      }
    }
  }

  /** Inserting a new entry at its rank in layers 0 .. height keeps the representation invariant. */
  lemma LinkedInsert(sk: seq<Layer>, sk': seq<Layer>, nm: NameMap, it: CellMap, it': CellMap, e: Entry,
                     ks: seq<nat>, cells: seq<Cell<Entry>>)
    requires Linked(sk, nm, it) && e in it && it[e] == map[]
    requires |cells| > 0 && IsInsertion(sk, sk', ks, cells)
    requires forall l :: 0 <= l < |cells| ==> cells[l].value == e
    requires forall l :: 0 <= l < |cells| && l < |sk| ==> IsRank(sk[l], nm, nm[e], ks[l])
    requires forall i :: 0 <= i < |sk[0]| ==> nm[sk[0][i].value] != nm[e]
    requires it' == it[e := map l: nat | l < |cells| :: cells[l]]
    ensures Linked(sk', nm, it')
    ensures |sk'[0]| == |sk[0]| + 1
  {
    forall l: nat | l < |sk'|
      ensures SortedLayer(sk'[l], nm)
      ensures l < |cells| ==> forall c :: c in sk'[l] <==> c == cells[l] || c in LayerAt(sk, l)
    {
      InsertionMembers(sk, sk', nm, it, e, ks, cells, l);
    }
    assert InsertionContents(sk, sk', cells);
    InsertionIsMapped(sk, sk', it, it', e, cells);
    InsertionHasCells(sk, sk', it, it', e, cells);
    forall l | 0 < l < |sk'| ensures sk'[l] != [] {
      if l < |cells| { assert cells[l] in sk'[l]; }
    }
  }

  // ----- removal -----

  lemma ErasedSorted(l: Layer, nm: NameMap, c: Cell<Entry>)
    requires SortedLayer(l, nm) && c in l
    ensures SortedLayer(Erase(l, c), nm)
    ensures forall d :: d in Erase(l, c) <==> d in l && d != c
  {
    var i := IndexOf(l, c);
    var r := Erase(l, c);
    SortedHasNoRepeats(l, nm);
    assert forall j :: 0 <= j < |r| ==> r[j] == if j < i then l[j] else l[j + 1];
    forall d ensures d in r <==> d in l && d != c {
      if d in l && d != c {
        var j :| 0 <= j < |l| && l[j] == d;
        assert r[if j < i then j else j - 1] == d;
      }
      if d in r {
        var j :| 0 <= j < |r| && r[j] == d;
        assert l[if j < i then j else j + 1] == d;
        assert (if j < i then j else j + 1) != i;
      }
    }
  }

  /** The entry is in exactly the layers 0 .. h - 1. */
  ghost predicate HasHeight(it: CellMap, e: Entry, h: nat) {
    e in it && forall l: nat :: l in it[e] <==> l < h
  }

  lemma HeightExists(sk: seq<Layer>, nm: NameMap, it: CellMap, e: Entry) returns (h: nat)
    requires Linked(sk, nm, it) && e in it
    ensures HasHeight(it, e, h) && h <= |sk|
  {
    h := 0;
    while h in it[e]
      invariant h <= |sk| && forall l: nat :: l < h ==> l in it[e]
      decreases |sk| - h
    {
      h := h + 1;
    }
    assert forall l: nat :: l in it[e] && l > h ==> h in it[e];
  }

  /** Once the entry's removal would empty layer l, it is the only entry there and in every layer above. */
  lemma AloneAbove(sk: seq<Layer>, nm: NameMap, it: CellMap, e: Entry, h: nat, l: nat, m: nat)
    requires Linked(sk, nm, it) && HasHeight(it, e, h)
    requires 0 < l < h && l <= m < |sk| && Erase(sk[l], it[e][l]) == []
    ensures m < h && Erase(sk[m], it[e][m]) == []
  {
    forall c | c in sk[m] ensures c.value == e {
      var below := it[c.value][l];
      assert below in sk[l];
      ErasedSorted(sk[l], nm, it[e][l]);
      assert below == it[e][l];
    }
    assert sk[m][0] in sk[m];
    assert m in it[e];
    ErasedSorted(sk[m], nm, it[e][m]);
    var rest := Erase(sk[m], it[e][m]);
    HeadIsMember(rest);
  }

  /** Removal: the entry leaves its layers; of the layers this empties, all but the bottom one go. */
  ghost predicate IsRemoval(sk: seq<Layer>, sk': seq<Layer>, mine: map<nat, Cell<Entry>>, h: nat, cut: nat) {
    && 0 < cut <= h <= |sk|
    && (forall l: nat :: l in mine <==> l < h)
    && (forall l :: 0 <= l < h ==> mine[l] in sk[l])
    && |sk'| == cut + (|sk| - h)
    && (forall l :: 0 <= l < cut ==> sk'[l] == Erase(sk[l], mine[l]))
    && (forall l :: cut <= l < |sk'| ==> sk'[l] == sk[l + h - cut])
    && (forall l :: 0 < l < cut ==> sk'[l] != [])
    && (cut < h ==> h == |sk| && forall l :: cut <= l < h ==> Erase(sk[l], mine[l]) == [])
  }

  ghost predicate RemovalContents(sk: seq<Layer>, sk': seq<Layer>, e: Entry) {
    && |sk'| <= |sk|
    && (forall l: nat, c {:trigger c in sk'[l]} :: l < |sk'| && c in sk'[l] ==> c in sk[l] && c.value != e)
    && (forall l: nat, c {:trigger c in sk[l]} :: l < |sk| && c in sk[l] && c.value != e ==> l < |sk'| && c in sk'[l])
  }

  lemma RemovalHasContents(sk: seq<Layer>, sk': seq<Layer>, nm: NameMap, it: CellMap, e: Entry, h: nat, cut: nat, l: nat)
    requires Linked(sk, nm, it) && HasHeight(it, e, h)
    requires IsRemoval(sk, sk', it[e], h, cut) && l < |sk|
    ensures l < |sk'| ==> SortedLayer(sk'[l], nm)
    ensures l < |sk'| ==> forall c :: c in sk'[l] <==> c in sk[l] && c.value != e
    ensures l >= |sk'| ==> forall c :: c in sk[l] ==> c.value == e
  {
    if l < h { ErasedSorted(sk[l], nm, it[e][l]); }
    forall c | c in sk[l] ensures c.value == e <==> l < h && c == it[e][l] {
      assert l in it[c.value] && it[c.value][l] == c;
    }
  }

  lemma RemovalKeepsIterators(sk: seq<Layer>, sk': seq<Layer>, it: CellMap, it': CellMap, e: Entry)
    requires IteratorsAreCells(sk, it) && Downward(it) && CellsAreMapped(sk, it)
    requires e in it && RemovalContents(sk, sk', e) && it' == it[e := map[]]
    ensures IteratorsAreCells(sk', it') && Downward(it') && CellsAreMapped(sk', it')
  {
    forall f: Entry, l: nat {:trigger l in it'[f]} | f in it' && l in it'[f]
      ensures l < |sk'| && it'[f][l] in sk'[l] && it'[f][l].value == f
    {
      assert f != e && it'[f] == it[f];
      assert l in it[f];
      assert it[f][l] in sk[l];
    }
    forall f: Entry, l: nat, k: nat {:trigger k in it'[f], l in it'[f]} | f in it' && l in it'[f] && k < l
      ensures k in it'[f]
    {
      assert f != e && it'[f] == it[f];
      assert l in it[f];
    }
  }

  ghost predicate Emptied(sk: seq<Layer>, mine: map<nat, Cell<Entry>>, l: nat) {
    l < |sk| && l in mine && mine[l] in sk[l] && Erase(sk[l], mine[l]) == []
  }

  /** A layer emptied by the removal means every layer above is emptied by it too. */
  ghost predicate EmptiesUpward(sk: seq<Layer>, mine: map<nat, Cell<Entry>>, h: nat) {
    && h <= |sk| && (forall l: nat :: l in mine <==> l < h) && (forall l :: 0 <= l < h ==> mine[l] in sk[l])
    && (forall l: nat, m: nat :: 0 < l <= m < |sk| && Emptied(sk, mine, l) ==> Emptied(sk, mine, m))
  }

  lemma LinkedEmptiesUpward(sk: seq<Layer>, nm: NameMap, it: CellMap, e: Entry, h: nat)
    requires Linked(sk, nm, it) && HasHeight(it, e, h) && h <= |sk|
    ensures EmptiesUpward(sk, it[e], h)
  {
    forall l: nat | l < h ensures it[e][l] in sk[l] {
      assert l in it[e];
    }
    forall l: nat, m: nat | 0 < l <= m < |sk| && Emptied(sk, it[e], l) ensures Emptied(sk, it[e], m) {
      AloneAbove(sk, nm, it, e, h, l, m);
      assert m in it[e];
    }
  }

  /** The removal, layer by layer: the entry has left the layers below the given one, of which position remain. */
  ghost predicate PartlyRemoved(sk: seq<Layer>, now: seq<Layer>, mine: map<nat, Cell<Entry>>, h: nat, position: nat, layer: nat) {
    && position <= layer <= h <= |sk| && |now| == position + |sk| - layer
    && (forall l :: 0 <= l < position ==> l in mine && mine[l] in sk[l] && now[l] == Erase(sk[l], mine[l]))
    && (forall l :: position <= l < |now| ==> now[l] == sk[l + layer - position])
    && (forall l :: 0 < l < position ==> now[l] != [])
    && (position < layer ==> 0 < position && Emptied(sk, mine, position))
  }

  lemma PartlyRemovedStep(sk: seq<Layer>, now: seq<Layer>, mine: map<nat, Cell<Entry>>, h: nat, position: nat, layer: nat)
    requires EmptiesUpward(sk, mine, h) && PartlyRemoved(sk, now, mine, h, position, layer) && layer < h
    ensures position < |now| && now[position] == sk[layer]
    ensures mine[layer] in now[position]
    ensures layer != 0 && Erase(now[position], mine[layer]) == [] ==>
      PartlyRemoved(sk, now[..position] + now[position + 1..], mine, h, position, layer + 1)
    ensures !(layer != 0 && Erase(now[position], mine[layer]) == []) ==>
      PartlyRemoved(sk, now[position := Erase(now[position], mine[layer])], mine, h, position + 1, layer + 1)
  {
    hide Erase;
    assert now[position] == sk[position + layer - position];
    if position < layer {
      assert Emptied(sk, mine, layer);
    }
    var shorter := now[..position] + now[position + 1..];
    assert forall l :: position <= l < |shorter| ==> shorter[l] == now[l + 1];
  }

  lemma PartlyRemovedEnd(sk: seq<Layer>, now: seq<Layer>, mine: map<nat, Cell<Entry>>, h: nat, position: nat)
    requires EmptiesUpward(sk, mine, h) && PartlyRemoved(sk, now, mine, h, position, h) && h > 0
    ensures IsRemoval(sk, now, mine, h, position)
  {
    if position < h {
      forall m: nat | position <= m < |sk| ensures m < h && Erase(sk[m], mine[m]) == [] {
        assert Emptied(sk, mine, m);
      }
      assert h < |sk| ==> Emptied(sk, mine, h);
    }
  }

  /** Removing an entry keeps the representation invariant. */
  lemma LinkedErase(sk: seq<Layer>, sk': seq<Layer>, nm: NameMap, it: CellMap, it': CellMap, e: Entry, h: nat, cut: nat)
    requires Linked(sk, nm, it) && HasHeight(it, e, h)
    requires IsRemoval(sk, sk', it[e], h, cut)
    requires it' == it[e := map[]]
    ensures Linked(sk', nm, it')
    ensures |sk'[0]| == |sk[0]| - 1
  {
    hide SortedLayer;
    RemovalIsSorted(sk, sk', nm, it, e, h, cut);
    RemovalKeepsIterators(sk, sk', it, it', e);
  }

  lemma RemovalIsSorted(sk: seq<Layer>, sk': seq<Layer>, nm: NameMap, it: CellMap, e: Entry, h: nat, cut: nat)
    requires Linked(sk, nm, it) && HasHeight(it, e, h)
    requires IsRemoval(sk, sk', it[e], h, cut)
    ensures RemovalContents(sk, sk', e) && forall l :: 0 <= l < |sk'| ==> SortedLayer(sk'[l], nm)
  {
    forall l: nat | l < |sk|
      ensures l < |sk'| ==> SortedLayer(sk'[l], nm)
      ensures l < |sk'| ==> forall c :: c in sk'[l] <==> c in sk[l] && c.value != e
      ensures l >= |sk'| ==> forall c :: c in sk[l] ==> c.value == e
    {
      RemovalHasContents(sk, sk', nm, it, e, h, cut, l);
    }
  }
}
