/** The content store: a skip list of entries from a fixed pool, evicted first in, first out.
    Every operation is tied to its meaning in StoreSpec. */
module ContentStore {
  import opened Names
  import opened Options
  import opened StoreSpec
  import opened SelectSpec
  import opened Lists
  import opened SkipLists

  const MAX_LAYERS: nat := 32
  const LAYER_PROBABILITY := 25  // per cent

  /** The layer of a new entry from successive draws of rand() % 100 + 1.  It fits the table of
      MAX_LAYERS positions exactly when one of the first MAX_LAYERS draws stops the climb. */
  method PickRandomLayer(draws: seq<int>) returns (layer: nat)
    requires |draws| > MAX_LAYERS
    ensures layer <= 32
    ensures forall k :: 0 <= k < layer ==> draws[k] < 25
    ensures layer < 32 ==> draws[layer] >= 25
    ensures layer < 32 <==> exists k :: 0 <= k < 32 && draws[k] >= 25
  {
    layer := 0;
    var randomValue := draws[layer];
    while randomValue < LAYER_PROBABILITY && layer < MAX_LAYERS
      invariant layer <= MAX_LAYERS && randomValue == draws[layer]
      invariant forall k :: 0 <= k < layer ==> draws[k] < LAYER_PROBABILITY
      decreases MAX_LAYERS - layer
    {
      layer := layer + 1;
      randomValue := draws[layer];
    }
  }

  /** In layers from + 1 .. top, the table holds the last cell before name n (End when there is none). */
  ghost predicate Placed(sk: seq<Layer>, nm: NameMap, n: Name, table: seq<Iter<Entry>>, inFront: bool, ks: seq<nat>, from: int) {
    && |sk| <= MAX_LAYERS == |table| && |ks| == |sk| && -1 <= from
    && (forall l :: from < l < |sk| ==> PlacedIn(sk[l], nm, n, table[l], inFront, ks[l]))
  }

  ghost predicate PlacedIn(l: Layer, nm: NameMap, n: Name, it: Iter<Entry>, inFront: bool, k: nat) {
    && SortedLayer(l, nm) && IsRank(l, nm, n, k)
    && it == (if k == 0 then End else At(l[k - 1]))
    && (l != [] && k == 0 ==> inFront)
  }

  lemma PlacedStep(sk: seq<Layer>, nm: NameMap, n: Name, table: seq<Iter<Entry>>, inFront: bool, ks: seq<nat>,
                   layer: nat, it: Iter<Entry>, front: bool, k: nat)
    requires Placed(sk, nm, n, table, inFront, ks, layer) && layer < |sk|
    requires PlacedIn(sk[layer], nm, n, it, front, k)
    ensures Placed(sk, nm, n, table[layer := it], inFront || front, ks[layer := k], layer - 1)
  {}

  ghost function NamesOf(es: set<Entry>): NameMap
    reads es
  {
    map e | e in es :: e.name
  }

  ghost function CellsOf(es: set<Entry>): CellMap
    reads es
  {
    map e | e in es :: e.iterators
  }

  /** The skip list over these entries is well formed and holds n packets. */
  ghost predicate Layered(sk: seq<Layer>, es: set<Entry>, n: nat)
    reads es
  {
    Linked(sk, NamesOf(es), CellsOf(es)) && |sk| <= MAX_LAYERS && |sk[0]| == n
  }

  lemma HasBottom(sk: seq<Layer>, es: set<Entry>, n: nat)
    requires Layered(sk, es, n)
    ensures sk != [] && |sk[0]| == n
  {}

  /** The pool: every entry is free, or stored, or in hand. */
  ghost predicate Pooled(es: set<Entry>, free: seq<Entry>, stored: seq<Entry>, inHand: set<Entry>)
    reads es
  {
    && NoRepeats(free) && NoRepeats(stored)
    && (forall e :: e in es ==> e in free || e in stored || e in inHand)
    && (forall e :: e in free ==> e in es && e.iterators == map[] && e !in inHand)
    && (forall e :: e in inHand ==> e in es && e !in stored)
    && (forall e :: e in stored ==> e in es && 0 in e.iterators && e.data.Some? && e.Stores(e.data.value))
  }

  lemma PoolGrows(es: set<Entry>, free: seq<Entry>, stored: seq<Entry>, e: Entry)
    requires Pooled(es, free, stored, {}) && e !in es && e.iterators == map[]
    ensures Pooled(es + {e}, free + [e], stored, {})
  {}

  lemma PoolShrinks(es: set<Entry>, free: seq<Entry>, stored: seq<Entry>)
    requires Pooled(es, free, stored, {}) && free != []
    ensures Pooled(es - {free[0]}, free[1..], stored, {})
  {
    assert free[0] in free && forall e :: e in stored ==> e != free[0];
  }

  lemma PoolRefilled(es: set<Entry>, free: seq<Entry>, stored: seq<Entry>, e: Entry)
    requires Pooled(es, free, stored, {e}) && e.iterators == map[]
    ensures Pooled(es, free + [e], stored, {})
  {
    assert e in {e};
  }

  lemma NowLayered(sk: seq<Layer>, nm: NameMap, it: CellMap, es: set<Entry>)
    requires Linked(sk, nm, it) && nm == NamesOf(es) && it == CellsOf(es) && |sk| <= MAX_LAYERS
    ensures sk != [] && Layered(sk, es, |sk[0]|)
  {}

  class Cs {
    var skipList: seq<Layer>       // bottom layer first
    var cleanupIndex: seq<Entry>   // in order of arrival
    var nMaxPackets: nat
    var nPackets: nat
    var freeEntries: seq<Entry>    // entries without a packet
    ghost var poolSize: nat        // number of entries the store owns
    ghost var repr: set<Entry>     // those entries, stored or free

    /** What a change of one entry does to the two maps. */
    twostate lemma MapsAfter(e: Entry)
      requires repr == old(repr) && e in repr
      requires forall f :: f in repr && f != e ==> f.name == old(f.name) && f.iterators == old(f.iterators)
      ensures NamesOf(repr) == old(NamesOf(repr))[e := e.name]
      ensures CellsOf(repr) == old(CellsOf(repr))[e := e.iterators]
    {}

    twostate lemma MapsAfterRenaming(e: Entry)
      requires repr == old(repr) && e in repr
      requires forall f :: f in repr ==> f.iterators == old(f.iterators) && (f != e ==> f.name == old(f.name))
      ensures NamesOf(repr) == old(NamesOf(repr))[e := e.name]
      ensures CellsOf(repr) == old(CellsOf(repr))
    {}

    /** Consistency when the stored entries are the given ones, in order of arrival. */
    ghost predicate Coherent(stored: seq<Entry>)
      reads this, repr
    {
      && Layered(skipList, repr, |stored|) && Pooled(repr, freeEntries, stored, {})
      && nPackets == |stored| && |freeEntries| + nPackets == poolSize
    }

    ghost predicate Valid()
      reads this, repr
    {
      Coherent(cleanupIndex) && poolSize == nMaxPackets
    }

    ghost predicate HoldsData(stored: seq<Entry>)
      reads stored
    {
      forall e :: e in stored ==> e.data.Some?
    }

    ghost function DataOf(stored: seq<Entry>): (ds: seq<Data>)
      requires HoldsData(stored)
      reads stored
      ensures |ds| == |stored|
    {
      seq(|stored|, i requires 0 <= i < |stored| && stored[i].data.Some? reads stored => stored[i].data.value)
    }

    /** The stored packets in order of arrival. */
    ghost function Arrivals(): (ds: seq<Data>)
      requires Coherent(cleanupIndex)
      reads this, repr, cleanupIndex
    {
      DataOf(cleanupIndex)
    }

    constructor (nMaxPackets: nat)
      ensures Valid() && Arrivals() == [] && this.nMaxPackets == nMaxPackets
      ensures fresh(repr)
    {
      skipList, cleanupIndex, freeEntries := [[]], [], [];
      this.nMaxPackets, nPackets, poolSize, repr := nMaxPackets, 0, 0, {};
      new;
      var i := 0;
      while i < nMaxPackets
        invariant i <= nMaxPackets == this.nMaxPackets && poolSize == i
        invariant Coherent(cleanupIndex) && cleanupIndex == [] && fresh(repr)
      {
        AddToPool();
        i := i + 1;
      }
    }

    method Size() returns (n: nat)
      requires Valid()
      ensures n == |Arrivals()| && n <= nMaxPackets
    {
      n := nPackets;
    }

    predicate IsFull()
      reads this
    {
      nPackets >= nMaxPackets
    }

    // ----- insertion -----

    /** Walks right within one layer while names are before n; the start is before n. */
    method Advance(cells: Layer, start: Iter<Entry>, n: Name, ghost nm: NameMap) returns (head: Iter<Entry>, ghost k: nat)
      requires SortedLayer(cells, nm) && forall c :: c in cells ==> c.value.name == nm[c.value]
      requires start.At? && start.cell in cells && NameLess(start.cell.value.name, n)
      ensures 0 < k <= |cells| && head == At(cells[k - 1])
      ensures IsRank(cells, nm, n, k)
    {
      hide NameLess;
      SortedHasNoRepeats(cells, nm);
      head := start;
      var it := head;
      k := IndexOf(cells, head.cell);
      ghost var first := k;
      while it.At? && NameLess(it.cell.value.name, n)
        invariant first <= k <= |cells|
        invariant it == if k < |cells| then At(cells[k]) else End
        invariant k == first ==> it == start
        invariant k > first ==> head == At(cells[k - 1]) && NameLess(nm[cells[k - 1].value], n)
        decreases |cells| - k
      {
        head := it;
        IndexIsUnique(cells, k);
        it := Next(cells, it);
        k := k + 1;
      }
      RankFromBoundary(cells, nm, n, k);
    }

    /** One layer of the descent: the last cell before n, and where to go down from. */
    method SearchLayer(cells: Layer, start: Iter<Entry>, wasIterated: bool, n: Name, ghost nm: NameMap)
      returns (head: Iter<Entry>, isIterated: bool, position: Iter<Entry>, inFront: bool, ghost k: nat)
      requires SortedLayer(cells, nm) && forall c :: c in cells ==> c.value.name == nm[c.value]
      requires wasIterated ==> start.At? && start.cell in cells && NameLess(start.cell.value.name, n)
      ensures PlacedIn(cells, nm, n, position, inFront, k)
      ensures cells != [] ==> head.At? && head.cell in cells
      ensures isIterated ==> cells != [] && NameLess(head.cell.value.name, n)
    {
      head := if wasIterated then start else Begin(cells);
      isIterated := wasIterated;
      position, inFront, k := head, false, 0;
      if head.At? {
        if !isIterated && !NameLess(head.cell.value.name, n) {
          IndexIsFirst(cells);
          position := Prev(cells, head);
          inFront := true;
          RankFromBoundary(cells, nm, n, 0);
        } else {
          head, k := Advance(cells, head, n, nm);
          position := head;
          isIterated := true;
        }
      }
    }

    /** The layered descent of insertToSkipList: in each layer, the last cell before name n. */
    method Descend(n: Name) returns (updateTable: seq<Iter<Entry>>, insertInFront: bool, ghost ks: seq<nat>)
      requires Linked(skipList, NamesOf(repr), CellsOf(repr)) && |skipList| <= MAX_LAYERS
      ensures Placed(skipList, NamesOf(repr), n, updateTable, insertInFront, ks, -1)
    {
      ghost var nm := NamesOf(repr);
      updateTable := seq(MAX_LAYERS, _ => End);
      ks := seq(|skipList|, _ => 0);
      insertInFront := false;
      var isIterated := false;
      var topLayer := |skipList| - 1;
      var head := Begin(skipList[topLayer]);
      if skipList[topLayer] != [] {
        var layer := topLayer;
        while layer >= 0
          invariant -1 <= layer < |skipList|
          invariant Placed(skipList, nm, n, updateTable, insertInFront, ks, layer)
          invariant isIterated && layer >= 0 ==>
            head.At? && head.cell in skipList[layer] && NameLess(head.cell.value.name, n)
        {
          var position, inFront;
          ghost var k;
          head, isIterated, position, inFront, k := SearchLayer(skipList[layer], head, isIterated, n, nm);
          PlacedStep(skipList, nm, n, updateTable, insertInFront, ks, layer, position, inFront, k);
          updateTable := updateTable[layer := position];
          insertInFront := insertInFront || inFront;
          ks := ks[layer := k];
          if layer > 0 {
            head := MoveDown(head.cell, layer);
          }
          layer := layer - 1;
        }
      } else {
        RankFromBoundary(skipList[0], nm, n, 0);
      }
    }

    /** The same entry's cell one layer below. */
    method MoveDown(c: Cell<Entry>, layer: nat) returns (head: Iter<Entry>)
      requires Linked(skipList, NamesOf(repr), CellsOf(repr)) && 0 < layer < |skipList| && c in skipList[layer]
      ensures head.At? && head.cell in skipList[layer - 1] && head.cell.value == c.value
    {
      assert layer in CellsOf(repr)[c.value];
      assert layer - 1 in CellsOf(repr)[c.value];
      head := At(c.value.iterators[layer - 1]);
    }

    /** Adds a cell for the entry right after its position in one layer. */
    method LinkInLayer(entry: Entry, l: Layer, position: Iter<Entry>, insertInFront: bool, ghost k: nat)
      returns (l': Layer, c: Cell<Entry>)
      requires PositionIs(l, position, insertInFront, k)
      ensures l' == Inserted(l, k, c) && c.value == entry
    {
      c := new Cell(entry);
      if position.End? && !insertInFront {
        l' := l + [c];
      } else if position.End? && insertInFront {
        l' := [c] + l;
      } else {
        IndexIsUnique(l, k - 1);
        if k < |l| { IndexIsUnique(l, k); }
        l' := InsertBefore(l, Next(l, position), c);
      }
    }

    /** Adds the entry after its positions in layers 0 .. randomLayer, growing the list as needed. */
    method Link(entry: Entry, table: seq<Iter<Entry>>, insertInFront: bool, randomLayer: nat, ghost ks: seq<nat>)
      returns (ghost ks': seq<nat>, ghost cells: seq<Cell<Entry>>)
      requires randomLayer < MAX_LAYERS && |skipList| <= MAX_LAYERS == |table|
      requires |ks| == |skipList| && entry.iterators == map[]
      requires forall l :: 0 <= l < |skipList| ==> PositionIs(skipList[l], table[l], insertInFront, ks[l])
      modifies this`skipList, entry
      ensures entry.name == old(entry.name) && entry.data == old(entry.data) && entry.digest == old(entry.digest)
      ensures |cells| == randomLayer + 1 && forall l :: 0 <= l < |cells| ==> cells[l].value == entry
      ensures IsInsertion(old(skipList), skipList, ks', cells)
      ensures forall l :: 0 <= l < |cells| && l < |ks| ==> ks'[l] == ks[l]
      ensures entry.iterators == map l: nat | l < |cells| :: cells[l]
    {
      var updateTable := ExtendLayers(table, randomLayer);
      ks' := seq(randomLayer + 1, l requires 0 <= l => if l < |ks| then ks[l] else 0);
      cells := LinkLayers(entry, updateTable, insertInFront, randomLayer, ks');
    }

    /** The position is right before index k of the layer. */
    ghost predicate PositionIs(l: Layer, it: Iter<Entry>, insertInFront: bool, k: nat) {
      && NoRepeats(l) && k <= |l| && it == (if k == 0 then End else At(l[k - 1]))
      && (l != [] && k == 0 ==> insertInFront)
    }

    method LinkLayers(entry: Entry, updateTable: seq<Iter<Entry>>, insertInFront: bool, randomLayer: nat, ghost ks: seq<nat>)
      returns (ghost cells: seq<Cell<Entry>>)
      requires randomLayer < |skipList| && randomLayer < |updateTable| && |ks| == randomLayer + 1
      requires entry.iterators == map[]
      requires forall l :: 0 <= l <= randomLayer ==> PositionIs(skipList[l], updateTable[l], insertInFront, ks[l])
      modifies this`skipList, entry
      ensures entry.name == old(entry.name) && entry.data == old(entry.data) && entry.digest == old(entry.digest)
      ensures |cells| == |ks| && |skipList| == old(|skipList|)
      ensures forall l :: 0 <= l < |cells| ==> cells[l].value == entry && ks[l] <= |old(skipList)[l]|
      ensures forall l :: 0 <= l < |cells| ==> skipList[l] == Inserted(old(skipList)[l], ks[l], cells[l])
      ensures forall l :: |cells| <= l < |skipList| ==> skipList[l] == old(skipList)[l]
      ensures entry.iterators == map l: nat | l < |cells| :: cells[l]
    {
      ghost var sk := skipList;
      ghost var now := skipList;
      cells := [];
      var layer := 0;
      while layer < |skipList| && layer <= randomLayer
        invariant 0 <= layer <= randomLayer + 1 && |cells| == layer
        invariant skipList == now && |now| == |sk|
        invariant forall l :: 0 <= l < layer ==> cells[l].value == entry && now[l] == Inserted(sk[l], ks[l], cells[l])
        invariant forall l :: layer <= l < |now| ==> now[l] == sk[l]
        invariant entry.iterators == map l: nat | l < |cells| :: cells[l]
        invariant entry.name == old(entry.name) && entry.data == old(entry.data) && entry.digest == old(entry.digest)
        decreases |skipList| - layer
      {
        var l', c := LinkInLayer(entry, skipList[layer], updateTable[layer], insertInFront, ks[layer]);
        skipList := skipList[layer := l'];
        now := now[layer := l'];
        entry.SetIterator(layer, c);
        cells := cells + [c];
        layer := layer + 1;
      }
    }

    /** Adds empty layers up to randomLayer; their positions are past the end. */
    method ExtendLayers(table: seq<Iter<Entry>>, randomLayer: nat) returns (updateTable: seq<Iter<Entry>>)
      requires randomLayer < MAX_LAYERS && |skipList| <= MAX_LAYERS == |table|
      modifies this`skipList
      ensures |updateTable| == MAX_LAYERS
      ensures |skipList| == if old(|skipList|) < randomLayer + 1 then randomLayer + 1 else old(|skipList|)
      ensures forall l :: 0 <= l < |skipList| ==> skipList[l] == LayerAt(old(skipList), l)
      ensures forall l :: 0 <= l < old(|skipList|) ==> updateTable[l] == table[l]
      ensures forall l :: old(|skipList|) <= l < |skipList| ==> updateTable[l] == End
    {
      ghost var sk := skipList;
      updateTable := table;
      while |skipList| < randomLayer + 1
        invariant |sk| <= |skipList| <= MAX_LAYERS == |updateTable|
        invariant |skipList| <= (if |sk| < randomLayer + 1 then randomLayer + 1 else |sk|)
        invariant forall l :: 0 <= l < |skipList| ==> skipList[l] == LayerAt(sk, l)
        invariant forall l :: 0 <= l < |sk| ==> updateTable[l] == table[l]
        invariant forall l :: |sk| <= l < |skipList| ==> updateTable[l] == End
        decreases MAX_LAYERS - |skipList|
      {
        var newLayer: Layer := [];
        skipList := skipList + [newLayer];
        updateTable := updateTable[|skipList| - 1 := Begin(newLayer)];
      }
    }

    /** The entry is out of the pool and counted, but in no layer yet. */
    ghost predicate Pending(entry: Entry, stored: seq<Entry>)
      reads this, repr
    {
      && Layered(skipList, repr, |stored|) && Pooled(repr, freeEntries, stored, {entry}) && entry.iterators == map[]
      && nPackets == |stored| + 1 && |freeEntries| + nPackets == poolSize
    }

    method TakeEntry(d: Data, unsolicited: bool) returns (entry: Entry)
      requires Coherent(cleanupIndex) && freeEntries != []
      modifies this`freeEntries, this`nPackets, repr
      ensures Pending(entry, cleanupIndex) && entry.Stores(d)
      ensures forall e :: e in cleanupIndex ==> e.data == old(e.data) && e.name == old(e.name)
    {
      hide Linked;
      entry := freeEntries[0];
      freeEntries := freeEntries[1..];
      nPackets := nPackets + 1;
      entry.SetData(d, unsolicited);
      MapsAfterRenaming(entry);
      LinkedReframe(skipList, old(NamesOf(repr)), old(CellsOf(repr)), NamesOf(repr), CellsOf(repr));
    }

    /** The stored twin takes over what the entry in hand was given. */
    method Overwrite(entry: Entry, twin: Entry, d: Data, unsolicited: bool)
      requires Pending(entry, cleanupIndex) && entry.Stores(d)
      requires twin in cleanupIndex && twin.name == FullName(d)
      modifies twin
      ensures Pending(entry, cleanupIndex) && twin.Stores(d)
    {
      hide Linked;
      twin.SetDataWithDigest(d, unsolicited, entry.digest);
      MapsAfterRenaming(twin);
      assert NamesOf(repr) == old(NamesOf(repr));
    }

    /** A duplicate: the stored twin takes the packet over, the new entry goes back to the pool. */
    method Refresh(entry: Entry, twin: Entry, d: Data, unsolicited: bool)
      requires Pending(entry, cleanupIndex) && entry.Stores(d)
      requires twin in cleanupIndex && twin.name == FullName(d)
      modifies this`freeEntries, this`nPackets, entry, twin
      ensures Coherent(cleanupIndex) && twin.Stores(d)
      ensures forall e :: e in cleanupIndex && e != twin ==> e.data == old(e.data)
    {
      Overwrite(entry, twin, d, unsolicited);
      Return(entry, cleanupIndex);
    }

    lemma PoolAfterAdd(entry: Entry, d: Data)
      requires Pooled(repr, freeEntries, cleanupIndex, {entry}) && 0 in entry.iterators && entry.Stores(d)
      ensures Pooled(repr, freeEntries, cleanupIndex + [entry], {})
    {}

    lemma PositionsFound(sk: seq<Layer>, nm: NameMap, n: Name, table: seq<Iter<Entry>>, insertInFront: bool, ks: seq<nat>)
      requires Placed(sk, nm, n, table, insertInFront, ks, -1)
      ensures forall l :: 0 <= l < |sk| ==> PositionIs(sk[l], table[l], insertInFront, ks[l])
    {
      forall l | 0 <= l < |sk| ensures PositionIs(sk[l], table[l], insertInFront, ks[l]) {
        assert PlacedIn(sk[l], nm, n, table[l], insertInFront, ks[l]);
        SortedHasNoRepeats(sk[l], nm);
      }
    }

    /** Links an entry of a new full name into layers 0 .. randomLayer. */
    method LinkNew(entry: Entry, updateTable: seq<Iter<Entry>>, insertInFront: bool, randomLayer: nat, ghost ks: seq<nat>)
      requires skipList != [] && Layered(skipList, repr, |skipList[0]|) && entry in repr && entry.iterators == map[] && randomLayer < MAX_LAYERS
      requires Placed(skipList, NamesOf(repr), entry.name, updateTable, insertInFront, ks, -1)
      requires forall i :: 0 <= i < |skipList[0]| ==> NamesOf(repr)[skipList[0][i].value] != entry.name
      modifies this`skipList, entry
      ensures Layered(skipList, repr, old(|skipList[0]|) + 1) && 0 in entry.iterators
      ensures entry.name == old(entry.name) && entry.data == old(entry.data) && entry.digest == old(entry.digest)
    {
      hide Linked, PositionIs, NameLess, IsInsertion;
      ghost var sk := skipList;
      PositionsFound(skipList, NamesOf(repr), entry.name, updateTable, insertInFront, ks);
      ghost var ks', cells := Link(entry, updateTable, insertInFront, randomLayer, ks);
      MapsAfter(entry);
      LinkedInsert(sk, skipList, old(NamesOf(repr)), old(CellsOf(repr)), CellsOf(repr), entry, ks', cells);
      assert NamesOf(repr) == old(NamesOf(repr));
      NowLayered(skipList, NamesOf(repr), CellsOf(repr), repr);
    }

    /** A new full name: the entry joins the store. */
    method AddNew(entry: Entry, d: Data, updateTable: seq<Iter<Entry>>, insertInFront: bool, randomLayer: nat, ghost ks: seq<nat>)
      requires Pending(entry, cleanupIndex) && entry.Stores(d) && randomLayer < MAX_LAYERS
      requires Placed(skipList, NamesOf(repr), entry.name, updateTable, insertInFront, ks, -1)
      requires forall i :: 0 <= i < |skipList[0]| ==> NamesOf(repr)[skipList[0][i].value] != entry.name
      modifies this`skipList, entry
      ensures Coherent(cleanupIndex + [entry]) && entry.Stores(d)
    {
      hide Layered, Placed;
      HasBottom(skipList, repr, |cleanupIndex|);
      LinkNew(entry, updateTable, insertInFront, randomLayer, ks);
      assert Pooled(repr, freeEntries, cleanupIndex, {entry});
      PoolAfterAdd(entry, d);
    }

    /** The stored entries are those on the bottom layer. */
    lemma StoredIsBottom(stored: seq<Entry>, inHand: set<Entry>)
      requires Layered(skipList, repr, |stored|) && Pooled(repr, freeEntries, stored, inHand) && forall e :: e in inHand ==> e.iterators == map[]
      ensures forall c :: c in skipList[0] ==> c.value in stored
      ensures forall e :: e in stored ==> exists c :: c in skipList[0] && c.value == e
    {
      forall c | c in skipList[0] ensures c.value in stored {
        assert 0 in CellsOf(repr)[c.value];
        assert c.value !in freeEntries && c.value !in inHand;
      }
      forall e | e in stored ensures exists c :: c in skipList[0] && c.value == e {
        assert 0 in CellsOf(repr)[e];
        assert CellsOf(repr)[e][0] in skipList[0];
      }
    }

    /** Where a packet of this full name goes, and the stored entry of that name, if any. */
    method FindSlot(entry: Entry) returns (updateTable: seq<Iter<Entry>>, insertInFront: bool, twin: Option<Entry>, ghost ks: seq<nat>)
      requires Pending(entry, cleanupIndex)
      ensures Placed(skipList, NamesOf(repr), entry.name, updateTable, insertInFront, ks, -1)
      ensures twin.Some? ==> twin.value in cleanupIndex && twin.value.name == entry.name
      ensures twin.None? ==> forall e :: e in cleanupIndex ==> e.name != entry.name
      ensures twin.None? ==> forall i :: 0 <= i < |skipList[0]| ==> NamesOf(repr)[skipList[0][i].value] != entry.name
    {
      hide Pooled, NameLess;
      StoredIsBottom(cleanupIndex, {entry});
      updateTable, insertInFront, ks := Descend(entry.name);
      assert PlacedIn(skipList[0], NamesOf(repr), entry.name, updateTable[0], insertInFront, ks[0]);

      NextSlot(skipList[0], NamesOf(repr), updateTable[0], ks[0]);
      var head := Next(skipList[0], updateTable[0]);
      if nPackets != 0 && head.At? && head.cell.value.name == entry.name {
        assert head.cell in skipList[0];
        twin := Some(head.cell.value);
      } else {
        twin := None;
        NewName(skipList[0], NamesOf(repr), entry.name, ks[0]);
      }
    }

    /** Puts the entry in hand where it belongs: into the list, or back to the pool when it is a duplicate. */
    method Place(entry: Entry, d: Data, unsolicited: bool, randomLayer: nat) returns (result: Entry, isNew: bool)
      requires Pending(entry, cleanupIndex) && entry.Stores(d) && randomLayer < MAX_LAYERS
      modifies this`skipList, this`freeEntries, this`nPackets, repr
      ensures Coherent(IndexAfter(result, isNew)) && result.Stores(d)
      ensures isNew ==> result == entry && forall e :: e in cleanupIndex ==> old(e.name) != FullName(d)
      ensures !isNew ==> result in cleanupIndex && old(result.name) == FullName(d)
      ensures forall e :: e in cleanupIndex && e != result ==> e.data == old(e.data)
    {
      hide Linked, NameLess;
      var updateTable, insertInFront, twin;
      ghost var ks;
      updateTable, insertInFront, twin, ks := FindSlot(entry);
      if twin.Some? {
        Refresh(entry, twin.value, d, unsolicited);
        return twin.value, false;
      }
      AddNew(entry, d, updateTable, insertInFront, randomLayer, ks);
      return entry, true;
    }

    /** Takes an entry from the pool and adds it to the list, or refreshes the entry of the same full name. */
    method InsertToSkipList(d: Data, unsolicited: bool, randomLayer: nat) returns (entry: Entry, isNew: bool)
      requires Coherent(cleanupIndex) && freeEntries != [] && randomLayer < MAX_LAYERS
      modifies this`skipList, this`freeEntries, this`nPackets, repr
      ensures Coherent(IndexAfter(entry, isNew)) && entry.Stores(d)
      ensures isNew ==> entry !in cleanupIndex && forall e :: e in cleanupIndex ==> old(e.name) != FullName(d)
      ensures !isNew ==> entry in cleanupIndex && old(entry.name) == FullName(d)
      ensures forall e :: e in cleanupIndex && e != entry ==> e.data == old(e.data)
    {
      var taken := TakeEntry(d, unsolicited);
      entry, isNew := Place(taken, d, unsolicited, randomLayer);
    }

    lemma DataIs(stored: seq<Entry>, ds: seq<Data>)
      requires |ds| == |stored| && forall i :: 0 <= i < |stored| ==> stored[i].data == Some(ds[i])
      ensures HoldsData(stored) && DataOf(stored) == ds
    {}

    lemma NamesOfData(stored: seq<Entry>)
      requires Coherent(stored)
      ensures HoldsData(stored) && NoRepeats(stored)
      ensures forall i :: 0 <= i < |stored| ==>
        stored[i] in stored && stored[i] in repr && stored[i].name == FullName(DataOf(stored)[i]) && stored[i].data == Some(DataOf(stored)[i])
    {
      assert forall i :: 0 <= i < |stored| ==> stored[i] in stored;
    }

    /** Stored packets have distinct full names. */
    lemma DifferentEntries(e: Entry, f: Entry)
      requires Coherent(cleanupIndex) && e in cleanupIndex && f in cleanupIndex && e != f
      ensures e.name != f.name
    {
      hide NameLess;
      var c, d := CellsOf(repr)[e][0], CellsOf(repr)[f][0];
      assert c in skipList[0] && d in skipList[0];
      var m :| 0 <= m < |skipList[0]| && skipList[0][m] == c;
      var n :| 0 <= n < |skipList[0]| && skipList[0][n] == d;
      assert NameLess(NamesOf(repr)[c.value], NamesOf(repr)[d.value]) || NameLess(NamesOf(repr)[d.value], NamesOf(repr)[c.value]);
      NameOrder(e.name, f.name);
    }

    lemma ArrivalsAreDistinct()
      requires Coherent(cleanupIndex)
      ensures DistinctNames(Arrivals())
    {
      hide Layered;
      forall j, k | 0 <= j < k < |cleanupIndex| ensures cleanupIndex[j].name != cleanupIndex[k].name {
        assert cleanupIndex[j] in cleanupIndex && cleanupIndex[k] in cleanupIndex;
        DifferentEntries(cleanupIndex[j], cleanupIndex[k]);
      }
      assert forall j :: 0 <= j < |cleanupIndex| ==> cleanupIndex[j] in cleanupIndex;
    }

    /** Drops the oldest arrival when full, then adds the packet or refreshes the stored one of the same full name. */
    method Insert(d: Data, unsolicited: bool, randomLayer: nat) returns (added: bool)
      requires Valid() && nMaxPackets >= 1 && randomLayer < MAX_LAYERS
      modifies this, repr
      ensures Valid() && nMaxPackets == old(nMaxPackets) && repr == old(repr)
      ensures (Arrivals(), added) == InsertSpec(old(Arrivals()), nMaxPackets, d)
    {
      if IsFull() {
        var _ := EvictItem();
      }
      added := InsertWithRoom(d, unsolicited, randomLayer);
    }

    method InsertWithRoom(d: Data, unsolicited: bool, randomLayer: nat) returns (added: bool)
      requires Valid() && nPackets < nMaxPackets && randomLayer < MAX_LAYERS
      modifies this, repr
      ensures Valid() && nMaxPackets == old(nMaxPackets) && repr == old(repr)
      ensures Arrivals() == InsertSpec(old(Arrivals()), nMaxPackets, d).0
      ensures added == InsertSpec(old(Arrivals()), nMaxPackets, d).1
    {
      var entry;
      entry, added := InsertTracked(d, unsolicited, randomLayer);
      if added {
        AppendToIndex(entry);
      }
    }

    ghost function IndexAfter(entry: Entry, isNew: bool): seq<Entry>
      reads this
    {
      if isNew then cleanupIndex + [entry] else cleanupIndex
    }

    method InsertTracked(d: Data, unsolicited: bool, randomLayer: nat) returns (entry: Entry, isNew: bool)
      requires Valid() && nPackets < nMaxPackets && randomLayer < MAX_LAYERS
      modifies this`skipList, this`freeEntries, this`nPackets, repr
      ensures Coherent(IndexAfter(entry, isNew))
      ensures DataOf(IndexAfter(entry, isNew)) == InsertSpec(old(Arrivals()), nMaxPackets, d).0
      ensures isNew == InsertSpec(old(Arrivals()), nMaxPackets, d).1
    {
      hide Layered, Pooled, InsertSpec, DistinctNames;
      ArrivalsAreDistinct();
      NamesOfData(cleanupIndex);
      ghost var was := Arrivals();
      entry, isNew := InsertToSkipList(d, unsolicited, randomLayer);
      InsertOutcome(cleanupIndex, was, entry, isNew, d);
    }

    method AppendToIndex(entry: Entry)
      requires Coherent(cleanupIndex + [entry])
      modifies this`cleanupIndex
      ensures Coherent(cleanupIndex) && cleanupIndex == old(cleanupIndex) + [entry]
    {
      cleanupIndex := cleanupIndex + [entry];
    }

    lemma InsertOutcome(stored: seq<Entry>, was: seq<Data>, entry: Entry, isNew: bool, d: Data)
      requires |was| == |stored| < nMaxPackets && entry.Stores(d) && (isNew <==> entry !in stored)
      requires NoRepeats(stored) && DistinctNames(was)
      requires isNew ==> forall i :: 0 <= i < |was| ==> FullName(was[i]) != FullName(d)
      requires forall i :: 0 <= i < |stored| && stored[i] in stored && stored[i] != entry ==> stored[i].data == Some(was[i])
      requires forall i :: 0 <= i < |stored| && stored[i] == entry ==> FullName(was[i]) == FullName(d)
      ensures var index := if isNew then stored + [entry] else stored;
        HoldsData(index) && InsertSpec(was, nMaxPackets, d) == (DataOf(index), isNew)
    {
      assert forall i :: 0 <= i < |stored| ==> stored[i] in stored;
      if isNew {
        InsertNew(was, nMaxPackets, d);
        DataIs(stored + [entry], was + [d]);
      } else {
        var k := IndexOf(stored, entry);
        InsertDuplicate(was, nMaxPackets, d, k);
        DataIs(stored, was[k := d]);
      }
    }

    // ----- search -----

    /** The packets of the bottom layer, in name order. */
    ghost function Bottom(): (ds: seq<Data>)
      requires skipList != [] && HoldsData(EntriesOf(skipList[0]))
      reads this, if skipList != [] then EntriesOf(skipList[0]) else []
      ensures |ds| == |skipList[0]|
    {
      DataOf(EntriesOf(skipList[0]))
    }

    lemma BottomStores()
      requires Coherent(cleanupIndex)
      ensures HoldsData(EntriesOf(skipList[0])) && NoRepeats(skipList[0])
      ensures forall k :: 0 <= k < |skipList[0]| ==> skipList[0][k].value in cleanupIndex
      ensures forall k :: 0 <= k < |Bottom()| ==> skipList[0][k].value.Stores(Bottom()[k])
    {
      StoredIsBottom(cleanupIndex, {});
      SortedHasNoRepeats(skipList[0], NamesOf(repr));
      forall k | 0 <= k < |skipList[0]| ensures skipList[0][k].value in cleanupIndex {
        assert skipList[0][k] in skipList[0];
      }
    }

    lemma BottomMembers(l: Layer, stored: seq<Entry>)
      requires HoldsData(stored) && HoldsData(EntriesOf(l))
      requires forall c :: c in l ==> c.value in stored
      requires forall e :: e in stored ==> exists c :: c in l && c.value == e
      ensures SameMembers(DataOf(EntriesOf(l)), DataOf(stored))
    {
      var bottom, all := DataOf(EntriesOf(l)), DataOf(stored);
      forall d | d in bottom ensures d in all {
        var k :| 0 <= k < |l| && bottom[k] == d;
        assert l[k] in l;
        assert all[IndexOf(stored, l[k].value)] == d;
      }
      forall d | d in all ensures d in bottom {
        var j :| 0 <= j < |stored| && all[j] == d;
        assert stored[j] in stored;
        var c :| c in l && c.value == stored[j];
        assert bottom[IndexOf(l, c)] == d;
      }
    }

    /** The bottom layer holds exactly the stored packets, sorted by full name. */
    lemma BottomIsShown()
      requires Coherent(cleanupIndex)
      ensures HoldsData(EntriesOf(skipList[0])) && Shows(skipList[0], Bottom()) && SortedData(Bottom()) && SameMembers(Bottom(), Arrivals())
      ensures forall k :: 0 <= k < |Bottom()| ==> NamesOf(repr)[skipList[0][k].value] == FullName(Bottom()[k])
    {
      BottomStores();
      StoredIsBottom(cleanupIndex, {});
      BottomMembers(skipList[0], cleanupIndex);
      var l, ds := skipList[0], Bottom();
      forall k | 0 <= k < |ds| ensures NamesOf(repr)[l[k].value] == FullName(ds[k]) {
        assert l[k].value.Stores(ds[k]);
      }
    }

    /** One layer of the search: where to go down from, or the end of the road on the bottom layer. */
    method FindInLayer(cells: Layer, start: Iter<Entry>, wasIterated: bool, n: Name, isBottom: bool, ghost nm: NameMap)
      returns (head: Iter<Entry>, isIterated: bool, ghost k: nat)
      requires SortedLayer(cells, nm) && forall c :: c in cells ==> c.value.name == nm[c.value]
      requires wasIterated ==> start.At? && start.cell in cells && NameLess(start.cell.value.name, n)
      ensures cells != [] ==> head.At? && head.cell in cells
      ensures isIterated ==> cells != []
      ensures isIterated && !(isBottom && n <= cells[0].value.name) ==> NameLess(head.cell.value.name, n)
      ensures isBottom && isIterated ==> k < |cells| && head == At(cells[k])
      ensures isBottom && isIterated && k > 0 ==> NameLess(nm[cells[k].value], n)
      ensures isBottom && isIterated ==> forall j :: k < j < |cells| ==> !NameLess(nm[cells[j].value], n)
      ensures isBottom && !isIterated ==> forall j :: 0 <= j < |cells| ==> !(n <= nm[cells[j].value])
    {
      head := if wasIterated then start else Begin(cells);
      isIterated, k := wasIterated, 0;
      if head.At? {
        if !isIterated && n <= head.cell.value.name {
          if isBottom {
            isIterated := true;
            forall j | 0 < j < |cells| ensures !NameLess(nm[cells[j].value], n) {
              BeginInPrefix(n, nm[cells[0].value], nm[cells[j].value]);
            }
          }
        } else if NameLess(head.cell.value.name, n) {
          ghost var rank;
          head, rank := Advance(cells, head, n, nm);
          isIterated, k := true, rank - 1;
          if isBottom && n <= cells[0].value.name { BeforePrefix(n, cells[0].value.name); }
        } else {
          forall j | 0 <= j < |cells| ensures !(n <= nm[cells[j].value]) {
            if j > 0 { PastPrefix(n, nm[cells[0].value], nm[cells[j].value]); }
          }
        }
      }
    }

    /** The upper layers: a cell of the bottom layer before the name, if any layer has shown one. */
    method FindFromTop(n: Name) returns (start: Iter<Entry>, isIterated: bool)
      requires Linked(skipList, NamesOf(repr), CellsOf(repr))
      ensures isIterated ==> start.At? && start.cell in skipList[0] && NameLess(start.cell.value.name, n)
    {
      isIterated := false;
      var layer: nat := |skipList| - 1;
      start := Begin(skipList[layer]);
      while layer > 0
        invariant layer < |skipList|
        invariant isIterated ==> start.At? && start.cell in skipList[layer] && NameLess(start.cell.value.name, n)
      {
        ghost var k;
        start, isIterated, k := FindInLayer(skipList[layer], start, isIterated, n, false, NamesOf(repr));
        start := MoveDown(start.cell, layer);
        layer := layer - 1;
      }
    }

    /** The layered search for the starting point of child selection. */
    method FindStart(i: Interest) returns (start: Iter<Entry>, found: bool, ghost s: nat)
      requires skipList != [] && Layered(skipList, repr, |skipList[0]|)
      ensures found ==> s < |skipList[0]| && start == At(skipList[0][s])
      ensures found && s > 0 ==> NameLess(NamesOf(repr)[skipList[0][s].value], i.name)
      ensures found ==> forall j :: s < j < |skipList[0]| ==> !NameLess(NamesOf(repr)[skipList[0][j].value], i.name)
      ensures !found ==> forall j :: 0 <= j < |skipList[0]| ==> !(i.name <= NamesOf(repr)[skipList[0][j].value])
    {
      start, found := FindFromTop(i.name);
      start, found, s := FindInLayer(skipList[0], start, found, i.name, true, NamesOf(repr));
    }

    /** find: the stored packet that answers the Interest. */
    method Find(i: Interest) returns (r: Option<Data>)
      requires Valid()
      ensures IsAnswer(i, Arrivals(), r)
      ensures !DigestShaped(i) && Leftmost(i) ==> r == LinearFind(i, Arrivals())
      // what a returned packet meets: as many components as asked for, the key, and no excluded child
      ensures r.Some? ==>
        var n := r.value.name + [Component(8, r.value.digest)];
        && r.value in Arrivals()
        && (i.keyLocator.Some? ==> r.value.keyLocator == i.keyLocator)
        && if i.minSuffix <= 0 && |n| == |i.name| && |i.name[|n| - 1].value| == 32
           then r.value.name == i.name[..|n| - 1] && r.value.digest == i.name[|n| - 1].value && !i.excludes(n[|n| - 1])
           else
             && i.name <= n
             && (i.minSuffix >= 0 ==> |n| >= |i.name| + i.minSuffix)
             && (i.maxSuffix >= 0 ==> |n| <= |i.name| + i.maxSuffix)
             && (|n| > |i.name| && n[|i.name|].value != [] ==> !i.excludes(n[|i.name|]))
      // without an answer every stored packet that extends the name fails one of the selectors
      ensures !DigestShaped(i) && r.None? ==> forall d :: d in Arrivals() ==>
        var n := d.name + [Component(8, d.digest)];
        || !(i.name <= n)
        || (i.minSuffix >= 0 && |n| < |i.name| + i.minSuffix)
        || (i.maxSuffix >= 0 && |n| > |i.name| + i.maxSuffix)
        || (i.keyLocator.Some? && d.keyLocator != i.keyLocator)
        || (|n| > |i.name| && n[|i.name|].value != [] && i.excludes(n[|i.name|]))
      // rightmost selection: no other packet that meets them has a later component after the Interest name
      ensures !DigestShaped(i) && i.childSelector > 0 && r.Some? ==>
        forall d | d in Arrivals() && Satisfies(i, d) ::
          var m, n := r.value.name + [Component(8, r.value.digest)], d.name + [Component(8, d.digest)];
          |n| > |i.name| ==> |m| > |i.name| && !ComponentLess(m[|i.name|], n[|i.name|])
      // a packet asked for by its full name
      ensures Leftmost(i) && i.minSuffix <= 0 ==>
        forall d | d in Arrivals() && i.name == d.name + [Component(8, d.digest)] &&
          (i.keyLocator.Some? ==> d.keyLocator == i.keyLocator) && !i.excludes(Component(8, d.digest)) :: r == Some(d)
    {
      hide Layered, Pooled, NameLess, LinearFind;
      r := Answer(i);
      if r.Some? && !DigestShaped(i) && !Leftmost(i) {
        forall d | d in Arrivals() && Satisfies(i, d)
          ensures var m, n := FullName(r.value), FullName(d);
            |n| > |i.name| ==> |m| > |i.name| && !ComponentLess(m[|i.name|], n[|i.name|])
        {
          ChildOrder(i, r.value, d);
        }
      }
    }

    method Answer(i: Interest) returns (r: Option<Data>)
      requires Valid()
      ensures IsAnswer(i, Arrivals(), r)
      ensures !DigestShaped(i) && Leftmost(i) ==> r == LinearFind(i, Arrivals())
    {
      BottomIsShown();
      ghost var ds := Bottom();
      r := Search(i, ds);
      AnswerInAnyListing(i, ds, Arrivals(), r);
      if !DigestShaped(i) && Leftmost(i) {
        ArrivalsAreDistinct();
        LeftmostAnswerIsLinear(i, Arrivals(), r);
      }
    }

    /** The layered search followed by child selection, over the packets in name order. */
    method Search(i: Interest, ghost ds: seq<Data>) returns (r: Option<Data>)
      requires skipList != [] && Layered(skipList, repr, |skipList[0]|)
      requires Shows(skipList[0], ds) && SortedData(ds)
      requires forall k :: 0 <= k < |ds| ==> NamesOf(repr)[skipList[0][k].value] == FullName(ds[k])
      ensures IsAnswer(i, ds, r)
    {
      var start, found;
      ghost var s;
      start, found, s := FindStart(i);
      if found {
        r := SelectChild(i, start, ds, s);
      } else {
        NothingAnswers(i, ds);
        r := None;
      }
    }

    /** The next cell to the right. */
    method Step(l: Layer, candidate: Iter<Entry>, ghost k: nat) returns (next: Iter<Entry>)
      requires NoRepeats(l) && k < |l| && candidate == At(l[k])
      ensures next == if k + 1 < |l| then At(l[k + 1]) else End
    {
      IndexIsUnique(l, k);
      next := Next(l, candidate);
    }

    /** Whether the entry is inside the Interest's prefix, and whether the last component is taken for a digest. */
    method TestPrefix(i: Interest, e: Entry, ghost d: Data) returns (isInPrefix: bool, withDigest: bool)
      requires e.Stores(d)
      ensures withDigest == RecognizesDigest(i, FullName(d)) && isInPrefix == InPrefix(i, d)
    {
      withDigest := RecognizesDigest(i, e.name);
      if withDigest {
        isInPrefix := i.name[..|i.name| - 1] <= e.name;
      } else {
        isInPrefix := i.name <= e.name;
      }
    }

    /** The selectors, one after the other, on an entry inside the prefix. */
    method DoesComplyWithSelectors(i: Interest, e: Entry, withDigest: bool, ghost d: Data) returns (complies: bool)
      requires e.Stores(d) && InPrefix(i, d) && withDigest == RecognizesDigest(i, FullName(d))
      ensures complies == Hit(i, d)
    {
      var data := e.data.value;
      if withDigest && i.name[|i.name| - 1].value != data.digest {
        return false;
      }
      if !withDigest {
        if i.minSuffix >= 0 && !(|i.name| + i.minSuffix <= |e.name|) {
          return false;
        }
        if i.maxSuffix >= 0 && !(|i.name| + i.maxSuffix >= |e.name|) {
          return false;
        }
      }
      if i.keyLocator.Some? && data.keyLocator != i.keyLocator {
        return false;
      }
      if withDigest {
        var lastComponent := e.name[|e.name| - 1];
        if lastComponent.value != [] && i.excludes(lastComponent) {
          return false;
        }
      } else if |e.name| >= |i.name| + 1 {
        var nextComponent := e.name[|i.name|];
        if nextComponent.value != [] && i.excludes(nextComponent) {
          return false;
        }
      }
      return true;
    }

    /** The test of selectChild on one entry. */
    method Test(i: Interest, e: Entry, ghost d: Data) returns (isInPrefix: bool, isHit: bool, withDigest: bool)
      requires e.Stores(d)
      ensures isInPrefix == InPrefix(i, d) && isHit == Hit(i, d) && withDigest == RecognizesDigest(i, FullName(d))
    {
      isInPrefix, withDigest := TestPrefix(i, e, d);
      isHit := false;
      if isInPrefix {
        isHit := DoesComplyWithSelectors(i, e, withDigest, d);
      }
    }

    ghost predicate Shows(l: Layer, ds: seq<Data>)
      reads EntriesOf(l)
    {
      |ds| == |l| && NoRepeats(l) && forall k :: 0 <= k < |ds| ==> EntriesOf(l)[k].Stores(ds[k])
    }

    /** selectChild: walks right from the starting point while inside the prefix. */
    method SelectChild(i: Interest, start: Iter<Entry>, ghost ds: seq<Data>, ghost s: nat) returns (r: Option<Data>)
      requires skipList != [] && Shows(skipList[0], ds) && SortedData(ds)
      requires StartsAt(i, ds, s) && start == At(skipList[0][s])
      ensures IsAnswer(i, ds, r)
    {
      if i.childSelector <= 0 {
        r := SelectLeftmost(i, start, ds, s);
      } else {
        r := SelectRightmost(i, start, ds, s);
        RightmostAnswers(i, ds, s, r);
      }
    }

    method SelectLeftmost(i: Interest, start: Iter<Entry>, ghost ds: seq<Data>, ghost s: nat) returns (r: Option<Data>)
      requires skipList != [] && Shows(skipList[0], ds) && SortedData(ds)
      requires StartsAt(i, ds, s) && start == At(skipList[0][s])
      ensures r.Some? ==> r.value in ds && Hit(i, r.value)
      ensures !DigestShaped(i) ==> IsLeast(i, ds, r)
      ensures IsExact(i, ds, r)
    {
      var l := skipList[0];
      BeforeStart(i, ds, s);
      var candidate := start;
      ghost var k := s;
      var isInPrefix, isHit, withDigest := Test(i, candidate.cell.value, ds[k]);
      while candidate.At? && !isHit && (isInPrefix || candidate == start)
        invariant s <= k <= |ds| && candidate == (if k < |ds| then At(l[k]) else End)
        invariant k == s ==> candidate == start
        invariant k < |ds| ==> isHit == Hit(i, ds[k]) && isInPrefix == InPrefix(i, ds[k])
        invariant NoneBefore(i, ds, s, k)
        decreases |ds| - k
      {
        NoneBeforeStep(i, ds, s, k);
        candidate := Step(l, candidate, k);
        k := k + 1;
        if candidate.At? {
          isInPrefix, isHit, withDigest := Test(i, candidate.cell.value, ds[k]);
        }
      }
      LeftmostEnd(i, ds, s, k);
      r := if candidate.At? && isHit then candidate.cell.value.data else None;
    }

    method SelectRightmost(i: Interest, start: Iter<Entry>, ghost ds: seq<Data>, ghost s: nat) returns (r: Option<Data>)
      requires skipList != [] && Shows(skipList[0], ds) && SortedData(ds)
      requires StartsAt(i, ds, s) && start == At(skipList[0][s])
      ensures r.Some? ==> r.value in ds && Hit(i, r.value)
      ensures !DigestShaped(i) ==> IsRightmostFrom(i, ds, s, r)
    {
      var rightmost;
      ghost var k, m, childPrefix;
      rightmost, k, m, childPrefix := WalkRightmost(i, start, ds, s);
      WalkedEnd(i, ds, s, k, m, childPrefix);
      if rightmost != start {
        assert m > s;
        return rightmost.cell.value.data;
      }
      // the walk skipped the start; it is the last resort
      var _, isHit, _ := Test(i, start.cell.value, ds[s]);
      return if isHit then start.cell.value.data else None;
    }

    method TestChild(i: Interest, e: Entry, currentChildPrefix: Name, ghost d: Data)
      returns (isInPrefix: bool, isTaken: bool, here: Name)
      requires e.Stores(d)
      ensures isInPrefix == InPrefix(i, d) && isTaken == IsTaken(i, d, currentChildPrefix)
      ensures here == ChildSeen(i, FullName(d))
    {
      var isHit, withDigest;
      isInPrefix, isHit, withDigest := Test(i, e, d);
      here := Truncate(e.name, if withDigest then |i.name| else |i.name| + 1);
      isTaken := isHit && (currentChildPrefix == [] || here != currentChildPrefix);
    }

    /** The walk over the children of the Interest name, remembering where the last one started. */
    method WalkRightmost(i: Interest, start: Iter<Entry>, ghost ds: seq<Data>, ghost s: nat)
      returns (rightmost: Iter<Entry>, ghost k: nat, ghost m: nat, ghost childPrefix: Name)
      requires skipList != [] && Shows(skipList[0], ds) && SortedData(ds)
      requires s < |ds| && start == At(skipList[0][s])
      ensures Walked(i, ds, s, k, m, childPrefix) && rightmost == At(skipList[0][m]) && (m == s <==> rightmost == start)
      ensures k < |ds| ==> !InPrefix(i, ds[k])
    {
      var l := skipList[0];
      rightmost := start;
      var candidate := start;
      var currentChildPrefix: Name := [];
      k, m := s + 1, s;
      candidate := Step(l, candidate, s);
      while candidate.At?
        invariant Walked(i, ds, s, k, m, currentChildPrefix)
        invariant candidate == (if k < |ds| then At(l[k]) else End) && rightmost == At(l[m])
        decreases |ds| - k
      {
        var isInPrefix, isTaken, here := TestChild(i, candidate.cell.value, currentChildPrefix, ds[k]);
        if !isInPrefix {
          break;
        }
        WalkedStep(i, ds, s, k, m, currentChildPrefix);
        if isTaken {
          currentChildPrefix := here;
          rightmost := candidate;
          m := k;
        }
        candidate := Step(l, candidate, k);
        k := k + 1;
      }
      childPrefix := currentChildPrefix;
    }

    // ----- eviction -----

    /** Takes the entry out of one layer, which disappears when it is empty and not the bottom one. */
    method RemoveFromLayer(entry: Entry, position: nat, layer: nat, ghost sk: seq<Layer>, ghost mine: map<nat, Cell<Entry>>, ghost h: nat)
      returns (next: nat)
      requires EmptiesUpward(sk, mine, h) && PartlyRemoved(sk, skipList, mine, h, position, layer) && layer < h
      requires entry.iterators == From(mine, layer)
      modifies this`skipList, entry
      ensures PartlyRemoved(sk, skipList, mine, h, next, layer + 1)
      ensures entry.iterators == From(mine, layer + 1) && entry.name == old(entry.name)
    {
      hide PartlyRemoved, Emptied;
      PartlyRemovedStep(sk, skipList, mine, h, position, layer);
      var cells := Erase(skipList[position], entry.iterators[layer]);
      entry.RemoveIterator(layer);
      if layer != 0 && cells == [] {
        skipList := skipList[..position] + skipList[position + 1..];
        next := position;
      } else {
        skipList := skipList[position := cells];
        next := position + 1;
      }
    }

    /** What is left of an entry's cells when it has left the layers below the given one. */
    ghost function From(mine: map<nat, Cell<Entry>>, layer: nat): map<nat, Cell<Entry>> {
      map l | l in mine && l >= layer :: mine[l]
    }

    lemma FromAll(mine: map<nat, Cell<Entry>>, h: nat)
      requires forall l :: l in mine ==> l < h
      ensures From(mine, 0) == mine && From(mine, h) == map[]
    {}

    /** Takes the entry out of its layers, bottom up. */
    method RemoveFromLayers(entry: Entry, ghost h: nat) returns (ghost cut: nat)
      requires EmptiesUpward(skipList, entry.iterators, h) && h > 0
      modifies this`skipList, entry
      ensures IsRemoval(old(skipList), skipList, old(entry.iterators), h, cut)
      ensures entry.iterators == map[] && entry.name == old(entry.name)
    {
      hide IsRemoval;
      ghost var sk, mine := skipList, entry.iterators;
      var position: nat, layer: nat := 0, 0;
      FromAll(mine, h);
      while position < |skipList| && layer in entry.iterators
        modifies this`skipList, entry
        invariant PartlyRemoved(sk, skipList, mine, h, position, layer)
        invariant entry.iterators == From(mine, layer) && entry.name == old(entry.name)
        decreases h - layer
      {
        position := RemoveFromLayer(entry, position, layer, sk, mine, h);
        layer := layer + 1;
      }
      PartlyRemovedEnd(sk, skipList, mine, h, position);
      cut := position;
    }

    method Unlink(entry: Entry)
      requires skipList != [] && Layered(skipList, repr, |skipList[0]|) && entry in repr && 0 in entry.iterators
      modifies this`skipList, entry
      ensures skipList != [] && Layered(skipList, repr, |skipList[0]|) && |skipList[0]| == old(|skipList[0]|) - 1
      ensures entry.iterators == map[] && entry.name == old(entry.name)
    {
      hide Linked, NameLess;
      ghost var sk := skipList;
      ghost var h := HeightExists(skipList, NamesOf(repr), CellsOf(repr), entry);
      LinkedEmptiesUpward(skipList, NamesOf(repr), CellsOf(repr), entry, h);
      assert CellsOf(repr)[entry] == entry.iterators;
      ghost var cut := RemoveFromLayers(entry, h);
      MapsAfter(entry);
      LinkedErase(sk, skipList, old(NamesOf(repr)), old(CellsOf(repr)), CellsOf(repr), entry, h, cut);
      assert NamesOf(repr) == old(NamesOf(repr));
      NowLayered(skipList, NamesOf(repr), CellsOf(repr), repr);
    }

    /** Takes the oldest stored entry out of the list and back to the pool. */
    method EraseFromSkipList(entry: Entry) returns (isErased: bool)
      requires Coherent(cleanupIndex) && cleanupIndex != [] && entry == cleanupIndex[0]
      modifies this`skipList, this`freeEntries, this`nPackets, entry
      ensures isErased && Coherent(cleanupIndex[1..])
      ensures forall e :: e in cleanupIndex[1..] ==> e.data == old(e.data)
    {
      isErased := false;
      if entry.iterators != map[] {
        Unlink(entry);
        isErased := true;
      }
      if isErased {
        assert Pooled(repr, freeEntries, cleanupIndex[1..], {entry});
        Return(entry, cleanupIndex[1..]);
      }
    }

    method Return(entry: Entry, ghost stored: seq<Entry>)
      requires Pending(entry, stored)
      modifies this`freeEntries, this`nPackets, entry
      ensures Coherent(stored)
    {
      entry.Release();
      assert Pooled(repr, freeEntries, stored, {entry});
      PoolRefilled(repr, freeEntries, stored, entry);
      hide Pooled, Linked;
      freeEntries := freeEntries + [entry];
      nPackets := nPackets - 1;
      MapsAfterRenaming(entry);
      LinkedReframe(skipList, old(NamesOf(repr)), old(CellsOf(repr)), NamesOf(repr), CellsOf(repr));
    }

    method EvictItem() returns (evicted: bool)
      requires Coherent(cleanupIndex)
      modifies this`skipList, this`cleanupIndex, this`freeEntries, this`nPackets, repr
      ensures Coherent(cleanupIndex)
      ensures evicted <==> old(Arrivals()) != []
      ensures evicted ==> Arrivals() == old(Arrivals())[1..]
      ensures !evicted ==> Arrivals() == []
    {
      hide Layered, Pooled;
      if cleanupIndex != [] {
        ghost var was := Arrivals();
        NamesOfData(cleanupIndex);
        assert forall i :: 1 <= i < |cleanupIndex| ==> cleanupIndex[i] in cleanupIndex[1..];
        var _ := EraseFromSkipList(cleanupIndex[0]);
        DataIs(cleanupIndex[1..], was[1..]);
        cleanupIndex := cleanupIndex[1..];
        return true;
      }
      return false;
    }

    /** Evicts until fewer packets than the limit are left, then grows or shrinks the pool to the limit. */
    method SetLimit(limit: nat)
      requires Valid()
      modifies this, repr
      ensures Valid() && nMaxPackets == limit && fresh(repr - old(repr))
      ensures Arrivals() == LimitSpec(old(Arrivals()), limit)
    {
      var oldLimit := nMaxPackets;
      nMaxPackets := limit;
      EvictToLimit();
      if nMaxPackets >= oldLimit {
        Grow(oldLimit);
      } else {
        Shrink(oldLimit);
      }
    }

    method EvictToLimit()
      requires Coherent(cleanupIndex)
      modifies this`skipList, this`cleanupIndex, this`freeEntries, this`nPackets, repr
      ensures Coherent(cleanupIndex) && (nPackets < nMaxPackets || nPackets == 0)
      ensures Arrivals() == LimitSpec(old(Arrivals()), nMaxPackets)
    {
      ghost var kept := LimitSpec(Arrivals(), nMaxPackets);
      var evicted := true;
      while IsFull() && evicted
        invariant Coherent(cleanupIndex) && LimitSpec(Arrivals(), nMaxPackets) == kept
        invariant !evicted ==> nPackets == 0
        decreases |cleanupIndex|, evicted
      {
        evicted := EvictItem();
      }
    }

    method Grow(oldLimit: nat)
      requires Coherent(cleanupIndex) && poolSize == oldLimit <= nMaxPackets
      modifies this`freeEntries, this`poolSize, this`repr
      ensures Valid() && fresh(repr - old(repr)) && old(repr) <= repr
      ensures Arrivals() == old(Arrivals())
    {
      var i := oldLimit;
      while i < nMaxPackets
        invariant oldLimit <= i <= nMaxPackets && poolSize == i
        invariant Coherent(cleanupIndex) && fresh(repr - old(repr)) && old(repr) <= repr
      {
        AddToPool();
        i := i + 1;
      }
    }

    method AddToPool()
      requires Coherent(cleanupIndex)
      modifies this`freeEntries, this`poolSize, this`repr
      ensures Coherent(cleanupIndex) && poolSize == old(poolSize) + 1
      ensures fresh(repr - old(repr)) && old(repr) <= repr
    {
      hide Linked, Pooled;
      var e := new Entry();
      PoolGrows(repr, freeEntries, cleanupIndex, e);
      freeEntries := freeEntries + [e];
      repr, poolSize := repr + {e}, poolSize + 1;
      LinkedReframe(skipList, old(NamesOf(repr)), old(CellsOf(repr)), NamesOf(repr), CellsOf(repr));
    }

    method Shrink(oldLimit: nat)
      requires Coherent(cleanupIndex) && nMaxPackets < poolSize == oldLimit && nPackets <= nMaxPackets
      modifies this`freeEntries, this`poolSize, this`repr
      ensures Valid() && repr <= old(repr)
      ensures Arrivals() == old(Arrivals())
    {
      var i := oldLimit;
      while i > nMaxPackets
        invariant nMaxPackets <= i && poolSize == i && nPackets <= nMaxPackets
        invariant Coherent(cleanupIndex) && repr <= old(repr)
      {
        RemoveFromPool();
        i := i - 1;
      }
    }

    method RemoveFromPool()
      requires Coherent(cleanupIndex) && freeEntries != []
      modifies this`freeEntries, this`poolSize, this`repr
      ensures Coherent(cleanupIndex) && poolSize == old(poolSize) - 1 && repr <= old(repr)
    {
      hide Linked;
      PoolShrinks(repr, freeEntries, cleanupIndex);
      var e := freeEntries[0];
      assert e in freeEntries && e.iterators == map[];
      freeEntries := freeEntries[1..];
      repr, poolSize := repr - {e}, poolSize - 1;
      LinkedReframe(skipList, old(NamesOf(repr)), old(CellsOf(repr)), NamesOf(repr), CellsOf(repr));
    }
  }

  lemma NextSlot(l: Layer, nm: NameMap, it: Iter<Entry>, k: nat)
    requires SortedLayer(l, nm) && k <= |l| && it == if k == 0 then End else At(l[k - 1])
    ensures Next(l, it) == if k < |l| then At(l[k]) else End
  {
    SortedHasNoRepeats(l, nm);
    if k > 0 { IndexIsUnique(l, k - 1); }
  }

  /** The name at the boundary differs, so every name of the layer differs. */
  lemma NewName(l: Layer, nm: NameMap, n: Name, k: nat)
    requires SortedLayer(l, nm) && IsRank(l, nm, n, k)
    requires k < |l| ==> nm[l[k].value] != n
    ensures forall i :: 0 <= i < |l| ==> nm[l[i].value] != n
  {
    forall i | 0 <= i < |l| ensures nm[l[i].value] != n {
      NameOrder(nm[l[i].value], n);
      if k < i { NameOrder(nm[l[k].value], n); NameTransitive(n, nm[l[k].value], nm[l[i].value]); }
    }
  }

  /** Nothing after a name inside the prefix comes before the prefix. */
  lemma BeginInPrefix(p: Name, a: Name, b: Name)
    requires p <= a && NameLess(a, b)
    ensures !NameLess(b, p)
  {
    if NameLess(b, p) {
      NameTransitive(a, b, p);
      BeforePrefix(p, a);
    }
  }
}
