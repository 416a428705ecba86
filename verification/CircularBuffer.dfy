/**
  The bounded ring buffer on which the three protocols of the messenger are built
  (common/utilities/CircularBuffer.hpp).

  `Fifo` is the abstract contract: a bounded first-in first-out queue on sequences, and the
  evict-oldest loop that two of the callers wrap around it.  `CircularBuffers` is the concrete
  class, an array with two wrapping positions, whose methods are proved against that contract.
  Pushes and pops are atomic: the source runs each of them under its `rw_mtx`.
*/
module Fifo {
  import opened Wrappers

  /** Contents after a push: the item is appended exactly when there is room. */
  function Push<T>(q: seq<T>, capacity: nat, x: T): seq<T> {
    if |q| < capacity then q + [x] else q
  }

  /** The oldest item, when there is one. */
  function Oldest<T>(q: seq<T>): Option<T> {
    if q == [] then None else Some(q[0])
  }

  /** Contents after a pop. */
  function Pop<T>(q: seq<T>): seq<T> {
    if q == [] then [] else q[1..]
  }

  /** Contents after `while not push(x) pop()`, for a queue within its capacity. */
  function EvictPush<T>(q: seq<T>, capacity: nat, x: T): seq<T> {
    if |q| < capacity then q + [x] else Pop(q) + [x]
  }

  datatype Op<T> = PushOp(item: T) | PopOp

  /** The history of a run of queue operations that starts from an empty queue. */
  datatype History<T> = History(contents: seq<T>, accepted: seq<T>, popped: seq<T>)

  function Replay<T>(ops: seq<Op<T>>, capacity: nat): History<T> {
    if ops == [] then History([], [], [])
    else
      var h := Replay(ops[..|ops| - 1], capacity);
      match ops[|ops| - 1]
      case PushOp(x) =>
        History(Push(h.contents, capacity, x),
                if |h.contents| < capacity then h.accepted + [x] else h.accepted,
                h.popped)
      case PopOp =>
        History(Pop(h.contents), h.accepted,
                if h.contents == [] then h.popped else h.popped + [h.contents[0]])
  }

  /** First in, first out: over every run the accepted items are the popped ones, in the order in
      which they were popped, followed by those still queued; the capacity is never exceeded. */
  lemma {:induction false} ReplayIsFifo<T>(ops: seq<Op<T>>, capacity: nat)
    ensures var h := Replay(ops, capacity);
            h.accepted == h.popped + h.contents && |h.contents| <= capacity
  {
    if ops == [] {
    } else {
      ReplayIsFifo(ops[..|ops| - 1], capacity);
    }
  }

  function Pushes<T>(items: seq<T>): seq<Op<T>> {
    seq(|items|, i requires 0 <= i < |items| => PushOp(items[i]))
  }

  function Pops<T>(k: nat): seq<Op<T>> {
    seq(k, _ => PopOp)
  }

  /** As many items as the capacity are accepted, and the next ones are refused. */
  lemma {:induction false} FillsUp<T>(items: seq<T>, capacity: nat)
    ensures var kept := items[..if |items| <= capacity then |items| else capacity];
            Replay(Pushes(items), capacity) == History(kept, kept, [])
    decreases |items|
  {
    if items != [] {
      var n := |items| - 1;
      var most, ops := items[..n], Pushes(items);
      FillsUp(most, capacity);
      assert ops[..n] == Pushes(most) && ops[n] == PushOp(items[n]);
      if n < capacity {
        assert items[..n + 1] == most[..n] + [items[n]];
      } else {
        assert items[..capacity] == most[..capacity];
      }
    }
  }

  /** Pops then hand them out in order, and give nothing once the queue is empty. */
  lemma {:induction false} FillAndDrain<T>(items: seq<T>, capacity: nat, k: nat)
    ensures var kept := items[..if |items| <= capacity then |items| else capacity];
            var gone := if k <= |kept| then k else |kept|;
            Replay(Pushes(items) + Pops(k), capacity) == History(kept[gone..], kept, kept[..gone])
    decreases k
  {
    var ops := Pushes(items) + Pops(k);
    if k == 0 {
      FillsUp(items, capacity);
      assert ops == Pushes(items);
    } else {
      FillAndDrain(items, capacity, k - 1);
      assert ops[..|ops| - 1] == Pushes(items) + Pops(k - 1) && ops[|ops| - 1].PopOp?;
      var kept := items[..if |items| <= capacity then |items| else capacity];
      if k <= |kept| {
        assert kept[..k] == kept[..k - 1] + [kept[k - 1]];
        assert kept[k - 1..][1..] == kept[k..];
      }
    }
  }
}

module CircularBuffers {
  import opened Wrappers

  /** Where a position that has run at most once past the end of the array lands. */
  function Wrap(position: nat, length: nat): nat {
    if position < length then position else position - length
  }

  lemma WrapIsModulo(position: nat, length: nat)
    requires position < 2 * length
    ensures Wrap(position, length) == position % length
  {
    if position >= length {
      assert position == (position - length) + length * 1;
      assert (position - length) % length == position - length;
    }
  }

  /** The stretch of `size` cells that starts at `begin` and wraps at the end of the array. */
  ghost function Slice<T>(cells: seq<T>, begin: nat, size: nat): (q: seq<T>)
    requires size <= |cells| && begin <= |cells|
    ensures |q| == size
  {
    if begin + size <= |cells|
    then cells[begin..begin + size]
    else cells[begin..] + cells[..begin + size - |cells|]
  }

  lemma SliceAt<T>(cells: seq<T>, begin: nat, size: nat, k: nat)
    requires k < size <= |cells| && begin < |cells|
    ensures Slice(cells, begin, size)[k] == cells[Wrap(begin + k, |cells|)]
  {
  }

  lemma SliceGrows<T>(cells: seq<T>, begin: nat, size: nat, x: T)
    requires size < |cells| && begin < |cells|
    ensures Slice(cells[Wrap(begin + size, |cells|) := x], begin, size + 1) == Slice(cells, begin, size) + [x]
  {
    var cells' := cells[Wrap(begin + size, |cells|) := x];
    forall k: nat | k <= size
      ensures Slice(cells', begin, size + 1)[k] == (Slice(cells, begin, size) + [x])[k]
    {
      SliceAt(cells', begin, size + 1, k);
      if k < size { SliceAt(cells, begin, size, k); }
    }
  }

  lemma SliceShrinks<T>(cells: seq<T>, begin: nat, size: nat)
    requires 0 < size <= |cells| && begin < |cells|
    ensures Slice(cells, begin, size)[0] == cells[begin]
    ensures Slice(cells, Wrap(begin + 1, |cells|), size - 1) == Slice(cells, begin, size)[1..]
  {
    var shrunk := Slice(cells, Wrap(begin + 1, |cells|), size - 1);
    forall k: nat | k < |shrunk|
      ensures shrunk[k] == Slice(cells, begin, size)[1..][k]
    {
      SliceAt(cells, Wrap(begin + 1, |cells|), size - 1, k);
      SliceAt(cells, begin, size, k + 1);
    }
  }

  class CircularBuffer<T(0)> {
    const length: nat
    const circBuffer: array<T>
    var beginPos: nat
    var endPos: nat
    var size: nat

    /** The representation invariant: the end position trails the begin position by `size` cells,
        modulo the length of the array (see `EndIsBeginPlusSize`). */
    ghost predicate Valid()
      reads this
    {
      && circBuffer.Length == length
      && size <= length
      && (length == 0 ==> beginPos == endPos == 0)
      && (length > 0 ==> beginPos < length && endPos == Wrap(beginPos + size, length))
    }

    /** The queue that the wrapped array slice represents, oldest item first. */
    ghost function Contents(): (q: seq<T>)
      requires Valid()
      reads this, circBuffer
      ensures |q| == size
    {
      Slice(circBuffer[..], beginPos, size)
    }

    constructor (length: nat)
      ensures Valid() && fresh(circBuffer)
      ensures this.length == length && Contents() == []
    {
      this.length := length;
      circBuffer := new T[length];
      beginPos, endPos, size := 0, 0, 0;
    }

    method IsEmpty() returns (r: bool)
      requires Valid()
      ensures r == (Contents() == [])
    {
      r := size == 0;
    }

    method IsFull() returns (r: bool)
      requires Valid()
      ensures r == (|Contents()| == length)
    {
      r := size == length;
    }

    method Push(item: T) returns (pushed: bool)
      requires Valid()
      modifies this, circBuffer
      ensures Valid()
      ensures pushed == (|old(Contents())| < length)
      ensures Contents() == if |old(Contents())| < length then old(Contents()) + [item] else old(Contents())
    {
      var full := IsFull();
      if !full {
        SliceGrows(circBuffer[..], beginPos, size, item);
        circBuffer[endPos] := item;
        endPos := endPos + 1;
        if endPos == length {
          endPos := 0;
        }
        size := size + 1;
        return true;
      } else {
        return false;
      }
    }

    method Pop() returns (r: Option<T>)
      requires Valid()
      modifies this
      ensures Valid()
      ensures r == if old(Contents()) == [] then None else Some(old(Contents())[0])
      ensures Contents() == if old(Contents()) == [] then [] else old(Contents())[1..]
    {
      var empty := IsEmpty();
      if empty {
        return None;
      }
      SliceShrinks(circBuffer[..], beginPos, size);
      var item := circBuffer[beginPos];
      size := size - 1;
      beginPos := beginPos + 1;
      if beginPos == length {
        beginPos := 0;
      }
      return Some(item);
    }

    lemma EndIsBeginPlusSize()
      requires Valid() && length > 0
      ensures beginPos < length && endPos < length && endPos == (beginPos + size) % length
    {
      WrapIsModulo(beginPos + size, length);
    }
  }

  /** The array cell that the source's `operator[]` returns: it wraps modulo the number of stored
      items, not modulo the length of the array. */
  function IndexedCell(beginPos: nat, size: nat, offset: nat): nat
    requires size > 0
  {
    var position := beginPos + offset % size;
    if position >= size then position % size else position
  }

  lemma IndexedCellBelowSize(beginPos: nat, size: nat, k: nat)
    requires k < size && beginPos < size
    ensures IndexedCell(beginPos, size, k) == Wrap(beginPos + k, size)
  {
    assert k % size == k;
    WrapIsModulo(beginPos + k, size);
  }

  lemma IndexedCellIsBelowSize(beginPos: nat, size: nat, k: nat)
    requires size > 0
    ensures IndexedCell(beginPos, size, k) < size
  {
  }

  /** `operator[]` reads the cell of the k-th oldest item for every k exactly when the buffer starts
      at cell 0 or is full; in every other state some index reads the wrong cell. */
  lemma IndexAgreesWithFifoIff(beginPos: nat, size: nat, length: nat)
    requires 0 < size <= length && beginPos < length
    ensures (forall k: nat :: k < size ==> IndexedCell(beginPos, size, k) == Wrap(beginPos + k, length))
       <==> (beginPos == 0 || size == length)
  {
    if beginPos == 0 || size == length {
      forall k: nat | k < size
        ensures IndexedCell(beginPos, size, k) == Wrap(beginPos + k, length)
      {
        IndexedCellBelowSize(beginPos, size, k);
      }
    } else if beginPos >= size {
      IndexedCellIsBelowSize(beginPos, size, 0);
      assert IndexedCell(beginPos, size, 0) != Wrap(beginPos + 0, length);
    } else {
      IndexedCellBelowSize(beginPos, size, size - 1);
      assert IndexedCell(beginPos, size, size - 1) != Wrap(beginPos + (size - 1), length);
    }
  }
}
