/** The Hanoi engine: three towers joined in a ring, the disk_bits counter and the play
    loop that moves one disk per add_one answer until tower3 holds every disk. */
module HanoiModel {
  import opened TowerModel
  import opened Counter
  import opened Moves

  class Hanoi {
    /** The number of disks in the game. */
    const numDisks: nat
    const tower1: Tower
    const tower2: Tower
    const tower3: Tower
    /** Bit i is the 2^i place of the counter and stands for disk i. */
    const diskBits: array<bool>

    /** The tower a ring index stands for. */
    function TowerAt(i: Idx): Tower
    {
      if i == 0 then tower1 else if i == 1 then tower2 else tower3
    }

    /** Three distinct towers, each consistent, joined tower1 -> tower2 -> tower3 -> tower1,
        and one counter bit per disk. */
    ghost predicate Valid()
      reads tower1, tower2, tower3
    {
      && tower1 != tower2 && tower2 != tower3 && tower1 != tower3
      && tower1.Valid() && tower2.Valid() && tower3.Valid()
      && tower1.next == 1 && tower2.next == 2 && tower3.next == 0
      && diskBits.Length == numDisks
    }

    /** The disks on tower1, tower2 and tower3, each bottom to top. */
    ghost function Config(): Config
      reads tower1, tower2, tower3
    {
      var c := [tower1.disks, tower2.disks, tower3.disks];
      assert |c| == 3;
      c
    }

    /** The counter starts at 00...00, the ring is closed and every disk is on tower1. */
    constructor (n: nat)
      ensures numDisks == n && Valid()
      ensures Config() == Initial(n)
      ensures diskBits[..] == Zeros(n)
      ensures fresh(tower1) && fresh(tower2) && fresh(tower3) && fresh(diskBits)
    {
      numDisks := n;
      diskBits := new bool[n](_ => false);
      tower1 := new Tower();
      tower2 := new Tower();
      tower3 := new Tower();
      new;
      tower1.SetNext(1);
      tower2.SetNext(2);
      tower3.SetNext(0);
      SetInitDisks();
      assert [] + Desc(n) == Desc(n);
    }

    /** Pushes numDisks - 1, ..., 1, 0 onto tower1. The counter of the loop is unsigned and
        stops when it wraps below 0, which is -1 here. */
    method SetInitDisks()
      requires Valid()
      modifies tower1
      ensures Valid()
      ensures tower1.disks == old(tower1.disks) + Desc(numDisks)
      ensures tower1.next == old(tower1.next)
    {
      var i: int := numDisks - 1;
      while i != -1
        invariant -1 <= i < numDisks
        invariant Valid()
        invariant tower1.disks == old(tower1.disks) + Desc(numDisks)[..numDisks - 1 - i]
        decreases i + 1
      {
        tower1.Push(i);
        assert Desc(numDisks)[..numDisks - i] == Desc(numDisks)[..numDisks - 1 - i] + [i];
        i := i - 1;
      }
      assert Desc(numDisks)[..numDisks] == Desc(numDisks);
    }

    /** Adds 1 to the counter: flips the low 1 bits to 0 and the first 0 bit to 1, and answers
        that bit's index; answers -1 when every bit was 1 and all are now 0. */
    method AddOne() returns (d: int)
      requires Valid() && numDisks >= 1
      modifies diskBits
      ensures Tick(diskBits[..], d) == Increment(old(diskBits[..]))
    {
      ghost var bits := diskBits[..];
      var i := 0;
      while diskBits[i]
        invariant 0 <= i < diskBits.Length
        invariant forall j :: 0 <= j < i ==> bits[j] && !diskBits[j]
        invariant forall j :: i <= j < diskBits.Length ==> diskBits[j] == bits[j]
        decreases diskBits.Length - i
      {
        diskBits[i] := !diskBits[i];
        i := i + 1;
        if i >= numDisks {
          CarryAll(bits, diskBits[..]);
          return -1;
        }
      }
      diskBits[i] := !diskBits[i];
      CarryAt(bits, diskBits[..], i);
      return i;
    }

    /** The source search: from tower1 along the ring to the tower whose top is d. */
    method FindSource(d: int) returns (s: Idx)
      requires Valid() && SourceOf(Config(), d).Some?
      ensures s == SourceOf(Config(), d).value
    {
      var c := Config();
      s := 0;
      ghost var k: nat := 3;
      while TowerAt(s).Top() != d
        invariant FindTop(c, d, s, k) == SourceOf(c, d)
        decreases k
      {
        s := TowerAt(s).GetNext();
        k := k - 1;
      }
    }

    /** The destination search: from the successor of s along the ring to the first tower
        that is empty or whose top is not smaller than d. */
    method FindDestination(s: Idx, d: int) returns (t: Idx)
      requires Valid() && DestOf(Config(), s, d).Some?
      ensures t == DestOf(Config(), s, d).value
    {
      var c := Config();
      t := TowerAt(s).GetNext();
      ghost var k: nat := 3;
      while TowerAt(t).Top() != EMPTY && TowerAt(t).Top() < d
        invariant FindRoom(c, d, t, k) == DestOf(c, s, d)
        decreases k
      {
        t := TowerAt(t).GetNext();
        k := k - 1;
      }
    }

    /** The body of the play loop for an answer d other than -1: pop d off the tower the
        source search finds and push it on the tower the destination search finds. */
    method MoveDisk(d: int)
      requires Valid() && d != -1 && Step(Config(), d).Some?
      modifies tower1, tower2, tower3
      ensures Valid()
      ensures Step(old(Config()), d) == Some(Config())
    {
      ghost var c := Config();
      var s := FindSource(d);
      PopFrom(s);
      var t := FindDestination(s, d);
      PushOnto(t, d);
      StepAt(c, d, s, t);
    }

    /** Pops the top disk off tower s; the other towers are left alone. */
    method PopFrom(s: Idx)
      requires Valid() && Config()[s] != []
      modifies tower1, tower2, tower3
      ensures Valid()
      ensures Config() == Lift(old(Config()), s)
    {
      TowerAt(s).Pop();
    }

    /** Pushes disk d onto tower t; the other towers are left alone. */
    method PushOnto(t: Idx, d: nat)
      requires Valid()
      modifies tower1, tower2, tower3
      ensures Valid()
      ensures Config() == Put(old(Config()), t, d)
    {
      TowerAt(t).Push(d);
    }

    /** One pass of the play loop: add_one, and unless its answer is -1, the move of that
        disk. The pass after calls calls leads to where the game's first calls + 1 answers
        lead, and adds one move unless the answer is -1. */
    method PlayPass(ghost calls: nat, ghost moves: nat) returns (d: int)
      requires Valid() && Played(numDisks, calls, Config(), diskBits[..], moves)
      requires |Config()[2]| != numDisks
      modifies tower1, tower2, tower3, diskBits
      ensures Valid()
      ensures Played(numDisks, calls + 1, Config(), diskBits[..], moves + if d == -1 then 0 else 1)
    {
      ghost var n := numDisks;
      PlayGoesOn(n, calls, Config(), diskBits[..], moves);
      ghost var c, bits := Config(), diskBits[..];
      d := AddOne();
      PlanNext(n, calls, c, bits, moves, d);
      if d == -1 {
        PlayedNext(n, calls, c, bits, moves, d, Config(), diskBits[..], moves);
        return;
      }
      MoveDisk(d);
      PlayedNext(n, calls, c, bits, moves, d, Config(), diskBits[..], moves + 1);
    }

    /** Moves disks until tower3 holds numDisks of them: every disk ends on tower3, after
        calls passes of the loop, each with one add_one call, of which moves move a disk. */
    method Play() returns (ghost calls: nat, ghost moves: nat)
      requires Valid() && Config() == Initial(numDisks) && diskBits[..] == Zeros(numDisks)
      modifies tower1, tower2, tower3, diskBits
      ensures Valid() && Config() == Solved(numDisks)
      ensures calls == PlanCalls(numDisks)
      ensures moves == if numDisks % 2 == 0 then Pow2(numDisks) - 1 else 2 * (Pow2(numDisks) - 1)
    {
      ghost var n := numDisks;
      calls, moves := 0, 0;
      PlayedInitially(n);
      while tower3.GetSize() != numDisks
        invariant Valid()
        invariant Played(n, calls, Config(), diskBits[..], moves)
        decreases PlanCalls(n) - calls
      {
        PlayGoesOn(n, calls, Config(), diskBits[..], moves);
        var d := PlayPass(calls, moves);
        calls, moves := calls + 1, if d == -1 then moves else moves + 1;
      }
      PlayStops(n, calls, Config(), diskBits[..], moves);
    }
  }
}
