/** The ring buffer, on the byte-sized counters of the original: it holds the last values pushed. */
module CirQueue {
  newtype uint8 = x: int | 0 <= x < 256

  // The last size values of what was pushed, oldest first.
  function LastOf<T>(pushed: seq<T>, size: nat): seq<T> {
    if |pushed| <= size then pushed else pushed[|pushed| - size..]
  }

  // The cell of the n-th push: one further each time, and back to the first after the last.
  function Cell(n: nat, size: nat): (c: nat)
    requires 0 < size
    ensures c < size
  {
    if n == 0 || Cell(n - 1, size) + 1 == size then 0 else Cell(n - 1, size) + 1
  }

  lemma {:induction false} CellJump(n: nat, j: nat, size: nat)
    requires 0 < size && j <= size
    ensures Cell(n + j, size) == if Cell(n, size) + j < size then Cell(n, size) + j else Cell(n, size) + j - size
  {
    if j > 0 {
      CellJump(n, j - 1, size);
    }
  }

  // No step leaves the byte: the sum is at most the size, and the size fits.
  method Advance(idx: uint8, size: uint8, ghost n: nat) returns (next: uint8)
    requires 0 < size && idx as int == Cell(n, size as int)
    ensures next as int == Cell(n + 1, size as int) && next < size
  {
    ModStep(idx as int + 1, size as int);
    next := (idx + 1) % size;
  }

  lemma ModStep(a: nat, n: nat)
    requires 0 < n && a <= n
    ensures a % n == if a == n then 0 else a
  {
  }

  // The loop of Range: copies cell after cell, round the ring.
  method CopyRound<T>(data: array<T>, idx: uint8, size: uint8, v: array<T>, ghost first: nat, ghost want: seq<T>)
    requires v != data && data.Length == size as int && v.Length == |want| <= size as int
    requires 0 < size ==> idx as int == Cell(first, size as int)
    requires forall j: nat :: j < |want| ==> data[Cell(first + j, size as int)] == want[j]
    modifies v
    ensures v[..] == want
  {
    var at := idx;
    for i := 0 to v.Length
      invariant 0 < size ==> at as int == Cell(first + i, size as int)
      invariant forall j :: 0 <= j < i ==> v[j] == want[j]
      invariant data[..] == old(data[..])
    {
      v[i] := data[at as int];
      at := Advance(at, size, first + i);
    }
  }

  class CirQueue<T(0)> {
    var over: bool
    var idx: uint8
    const size: uint8
    const data: array<T>

    // All that was ever pushed.
    ghost var pushed: seq<T>

    ghost predicate Valid()
      reads this, data
    {
      && data.Length == size as int
      && (size == 0 ==> idx == 0 && pushed == [])
      && (0 < size ==> idx as int == Cell(|pushed|, size as int))
      && (over <==> 0 < size as int <= |pushed|)
      && (0 < size ==> forall k: nat :: |pushed| - size as int <= k < |pushed| ==> InCell(k))
    }

    ghost predicate InCell(k: nat)
      requires data.Length == size as int && 0 < size && k < |pushed|
      reads this, data
    {
      data[Cell(k, size as int)] == pushed[k]
    }

    constructor (size: uint8)
      ensures Valid() && fresh(data) && this.size == size && pushed == []
    {
      this.size := size;
      data := new T[size as int];
      over, idx, pushed := false, 0, [];
    }

    // A queue of size zero has no cell to write, so a push on it is an error of the caller.
    method Push(t: T)
      requires Valid() && 0 < size
      modifies this, data
      ensures Valid() && pushed == old(pushed) + [t]
    {
      ghost var n := |pushed|;
      if n < size as int {
        CellJump(0, n, size as int);
      }
      if idx == size - 1 && !over {
        over := true;
      }
      data[idx as int] := t;
      idx := Advance(idx, size, n);
      pushed := pushed + [t];
      forall k: nat | n + 1 - size as int <= k < n ensures InCell(k) {
        assert old(InCell(k));
        CellJump(k, n - k, size as int);
      }
    }

    // The oldest value that is still held is in the cell at idx, or in the first one.
    lemma OldestCell()
      requires Valid() && 0 < size
      ensures (if over then idx else 0) as int == Cell(|pushed| - |LastOf(pushed, size as int)|, size as int)
    {
      if over {
        CellJump(|pushed| - size as int, size as int, size as int);
      }
    }

    method Range() returns (v: array<T>)
      requires Valid()
      ensures fresh(v) && v[..] == LastOf(pushed, size as int)
    {
      var n := Size();
      v := new T[n as int];
      ghost var first := |pushed| - n as int;
      var at := if over then idx else 0;
      if 0 < size {
        OldestCell();
      }
      ghost var want := LastOf(pushed, size as int);
      forall j: nat | j < |want| ensures data[Cell(first + j, size as int)] == want[j] {
        assert InCell(first + j);
        assert want[j] == pushed[first + j];
      }
      CopyRound(data, at, size, v, first, want);
    }

    method Size() returns (n: uint8)
      requires Valid()
      ensures n as int == |LastOf(pushed, size as int)|
      ensures n as int == if |pushed| < size as int then |pushed| else size as int
    {
      if !over {
        if 0 < size {
          CellJump(0, |pushed|, size as int);
        }
        return idx;
      }
      return size;
    }

    method IsFull() returns (full: bool)
      requires Valid()
      ensures full <==> 0 < size as int <= |pushed|
    {
      return over;
    }
  }

  // The next push overwrites the oldest value: a full queue drops one value for each that comes.
  lemma FullQueueDropsOldest<T>(pushed: seq<T>, t: T, size: nat)
    requires 0 < size <= |pushed|
    ensures LastOf(pushed + [t], size) == LastOf(pushed, size)[1..] + [t]
  {
  }
}
