/** Positions in a ring of n buffers, each of which points to the next. */
module Rings {
  function Slot(first: nat, k: nat, n: nat): (s: nat)
    requires first < n && k <= n
    ensures s < n
  {
    if first + k < n then first + k else first + k - n
  }

  function Next(i: nat, n: nat): (j: nat)
    requires i < n
    ensures j < n
  {
    if i + 1 == n then 0 else i + 1
  }

  lemma SlotNext(first: nat, k: nat, n: nat)
    requires first < n && k < n
    ensures Slot(first, k + 1, n) == Next(Slot(first, k, n), n) && Slot(first, 0, n) == first == Slot(first, n, n)
    ensures Slot(Next(first, n), k, n) == Slot(first, k + 1, n)
  {}

  /** The buffers in ring order, starting at first. */
  function Rotated<T>(cells: seq<T>, first: nat): (line: seq<T>)
    requires first < |cells|
    ensures |line| == |cells|
  {
    cells[first..] + cells[..first]
  }

  lemma RotatedAt<T>(cells: seq<T>, first: nat, k: nat, c: T)
    requires first < |cells| && k < |cells|
    ensures var i := Slot(first, k, |cells|);
            && Rotated(cells, first)[k] == cells[i]
            && Rotated(cells[i := c], first) == Rotated(cells, first)[k := c]
  {}

  lemma RotatedNext<T>(cells: seq<T>, first: nat, c: T)
    requires first < |cells|
    ensures Rotated(cells[first := c], Next(first, |cells|)) == Rotated(cells, first)[1..] + [c]
  {}
}
