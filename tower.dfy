/** A tower (peg) of the puzzle: a stack of disk numbers with O(1) push, pop and top.
    The doubly linked list of Disk nodes is kept as the sequence of their numbers,
    bottom to top; the node that top_disk points to is the last element. */
module TowerModel {

  /** What top() answers for a tower with no disks. Disks are numbered 0, 1, 2, ...,
      so this value is never the number of a disk. */
  const EMPTY: int := -1

  /** The successor of a tower whose next tower has not been set (a null pointer). */
  const NO_TOWER: int := -1

  /** The number of the top disk of a stack listed bottom to top, or EMPTY. */
  function TopOf(s: seq<nat>): (r: int)
    ensures r == EMPTY <==> s == []
    ensures r != EMPTY ==> r == s[|s| - 1]
  {
    if s == [] then EMPTY else s[|s| - 1]
  }

  /** The number of the bottom disk of a stack listed bottom to top, or EMPTY. */
  function BottomOf(s: seq<nat>): (r: int)
    ensures r == EMPTY <==> s == []
    ensures r != EMPTY ==> r == s[0]
  {
    if s == [] then EMPTY else s[0]
  }

  class Tower {
    /** The disks on the tower, bottom to top. */
    var disks: seq<nat>
    /** The number of the disk bot_disk points to, or EMPTY when it is null. */
    var bottom: int
    /** The size counter kept beside the list. */
    var size: nat
    /** Index of the successor in the ring of towers, or NO_TOWER. */
    var next: int

    /** bot_disk and the size counter agree with the list. */
    ghost predicate Valid()
      reads this
    {
      size == |disks| && bottom == BottomOf(disks)
    }

    /** A default-constructed tower: no disks, size 0, no next tower. */
    constructor ()
      ensures Valid()
      ensures disks == [] && size == 0 && bottom == EMPTY && next == NO_TOWER
    {
      disks, bottom, size, next := [], EMPTY, 0, NO_TOWER;
    }

    function Top(): (r: int)
      reads this
      ensures r == EMPTY <==> disks == []
      ensures r != EMPTY ==> r == disks[|disks| - 1]
    {
      TopOf(disks)
    }

    function GetSize(): (r: nat)
      reads this
      ensures Valid() ==> r == |disks|
    {
      size
    }

    /** Whether top_disk is null. */
    function Empty(): (r: bool)
      reads this
      ensures r <==> Top() == EMPTY
      ensures Valid() ==> (r <==> GetSize() == 0)
    {
      disks == []
    }

    function GetNext(): int
      reads this
    {
      next
    }

    method SetNext(t: int)
      modifies this
      ensures GetNext() == t
      ensures disks == old(disks) && bottom == old(bottom) && size == old(size)
    {
      next := t;
    }

    method Push(n: nat)
      requires Valid()
      modifies this
      ensures Valid() && next == old(next)
      ensures disks == old(disks) + [n] && size == old(size) + 1
      ensures Top() == n
      ensures old(disks) == [] ==> bottom == n && size == 1
      ensures old(disks) != [] ==> bottom == old(bottom) && disks[|disks| - 2] == old(Top())
    {
      if disks == [] {
        disks := [n];
        bottom := n;
      } else {
        disks := disks + [n];
      }
      size := size + 1;
    }

    method Pop()
      requires Valid()
      modifies this
      ensures Valid() && next == old(next)
      ensures old(disks) == [] ==> disks == [] && size == 0 && bottom == old(bottom)
      ensures old(disks) != [] ==> disks == old(disks)[..|old(disks)| - 1] && size == old(size) - 1
      ensures |old(disks)| >= 2 ==> Top() == old(disks)[|old(disks)| - 2] && bottom == old(bottom)
      ensures |old(disks)| == 1 ==> Empty() && bottom == EMPTY
    {
      if disks == [] {
        return;
      }
      disks := disks[..|disks| - 1];
      if disks == [] {
        bottom := EMPTY;
      }
      size := size - 1;
    }

    /** The destructor: pops until the tower is empty, one pop per disk. */
    method Destroy() returns (ghost pops: nat)
      requires Valid()
      modifies this
      ensures Valid() && next == old(next)
      ensures disks == [] && size == 0 && bottom == EMPTY
      ensures pops == old(size)
    {
      pops := 0;
      while disks != []
        invariant Valid() && next == old(next)
        invariant pops + |disks| == old(size)
        decreases |disks|
      {
        Pop();
        pops := pops + 1;
      }
    }
  }

  /** A push followed by a pop leaves the tower as it was. */
  method PushThenPop(t: Tower, n: nat)
    requires t.Valid()
    modifies t
    ensures t.Valid()
    ensures t.disks == old(t.disks) && t.size == old(t.size)
    ensures t.bottom == old(t.bottom) && t.next == old(t.next)
  {
    t.Push(n);
    t.Pop();
  }
}
