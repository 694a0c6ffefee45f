/** The doubly linked list of the C++ library, as far as the skip list uses it: cells that keep their
    identity while others come and go, and a past-the-end position that is also "before begin". */
module Lists {

  class Cell<T> {
    const value: T

    constructor (value: T)
      ensures this.value == value
    {
      this.value := value;
    }
  }

  datatype Iter<T> = End | At(cell: Cell<T>)

  ghost predicate NoRepeats<T>(l: seq<T>) {
    forall j, k :: 0 <= j < k < |l| ==> l[j] != l[k]
  }

  function IndexOf<T(==)>(l: seq<T>, c: T): (i: nat)
    requires c in l
    ensures i < |l| && l[i] == c && c !in l[..i]
  {
    if l[0] == c then 0 else 1 + IndexOf(l[1..], c)
  }

  function Begin<T>(l: seq<Cell<T>>): Iter<T> {
    if l == [] then End else At(l[0])
  }

  /** Increment; past the end it wraps to the beginning. */
  function Next<T>(l: seq<Cell<T>>, it: Iter<T>): Iter<T>
    requires it.At? ==> it.cell in l
  {
    if it.End? then Begin(l)
    else
      var i := IndexOf(l, it.cell);
      if i + 1 < |l| then At(l[i + 1]) else End
  }

  /** Decrement; before the beginning it wraps to the end. */
  function Prev<T>(l: seq<Cell<T>>, it: Iter<T>): Iter<T>
    requires it.At? ==> it.cell in l
  {
    if it.End? then (if l == [] then End else At(l[|l| - 1]))
    else
      var i := IndexOf(l, it.cell);
      if i == 0 then End else At(l[i - 1])
  }

  /** insert(position, ...): the new cell goes before the position. */
  function InsertBefore<T>(l: seq<Cell<T>>, it: Iter<T>, c: Cell<T>): seq<Cell<T>>
    requires it.At? ==> it.cell in l
  {
    if it.End? then l + [c]
    else
      var i := IndexOf(l, it.cell);
      l[..i] + [c] + l[i..]
  }

  function Erase<T>(l: seq<Cell<T>>, c: Cell<T>): seq<Cell<T>>
    requires c in l
  {
    var i := IndexOf(l, c);
    l[..i] + l[i + 1..]
  }

  lemma IndexIsUnique<T>(l: seq<T>, i: nat)
    requires NoRepeats(l) && i < |l|
    ensures IndexOf(l, l[i]) == i
  {
    assert l[IndexOf(l, l[i])] == l[i];
  }

  lemma IndexIsFirst<T>(l: seq<T>)
    requires l != []
    ensures IndexOf(l, l[0]) == 0
  {}
}
