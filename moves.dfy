/** What one pass of the play loop does to the three towers, stated on values: the source
    search, the pop, the destination search and the push. The towers are listed tower1,
    tower2, tower3 (indices 0, 1, 2), each bottom to top, and the ring goes 0 -> 1 -> 2 -> 0. */
module Moves {
  import opened TowerModel
  import opened Counter

  datatype Option<T> = None | Some(value: T)

  /** The disks of tower1, tower2 and tower3, each listed bottom to top. */
  type Config = c: seq<seq<nat>> | |c| == 3 witness [[], [], []]

  /** A tower: 0, 1 or 2 for tower1, tower2 and tower3. */
  type Idx = i: nat | i < 3

  /** Disks n-1, ..., 1, 0: a whole tower of n disks listed bottom to top. */
  function Desc(n: nat): (r: seq<nat>)
    ensures |r| == n
    ensures forall k :: 0 <= k < n ==> r[k] == n - 1 - k
  {
    if n == 0 then [] else [n - 1] + Desc(n - 1)
  }

  /** Every disk on tower1: the state set_init_disks leaves behind. */
  function Initial(n: nat): Config
  {
    [Desc(n), [], []]
  }

  /** Every disk on tower3: the state play is meant to end in. */
  function Solved(n: nat): Config
  {
    [[], [], Desc(n)]
  }

  /** The successor of tower s in the ring tower1 -> tower2 -> tower3 -> tower1. */
  function Next(s: Idx): (r: Idx)
    ensures r != s && r == (s + 1) % 3
  {
    if s == 2 then 0 else s + 1
  }

  /** The source search: walk the ring from tower t, looking at no more than k towers,
      and stop at the first one whose top is d. */
  function FindTop(c: Config, d: int, t: Idx, k: nat): (r: Option<Idx>)
    ensures r.Some? ==> TopOf(c[r.value]) == d
    decreases k
  {
    if k == 0 then None
    else if TopOf(c[t]) == d then Some(t)
    else FindTop(c, d, Next(t), k - 1)
  }

  /** The tower the source search of play stops at: the first one from tower1 whose top
      is d. None when no top is d, where the search of play would never stop. */
  function SourceOf(c: Config, d: int): (r: Option<Idx>)
    ensures r.Some? ==> TopOf(c[r.value]) == d
  {
    FindTop(c, d, 0, 3)
  }

  /** The source search stops at the first tower whose top is d, and fails to stop exactly
      when no top is d. */
  lemma SourceOfFirst(c: Config, d: int)
    ensures SourceOf(c, d).Some? ==> forall j: Idx :: j < SourceOf(c, d).value ==> TopOf(c[j]) != d
    ensures SourceOf(c, d).None? <==> forall j: Idx :: TopOf(c[j]) != d
  {
    assert FindTop(c, d, 0, 3) == if TopOf(c[0]) == d then Some(0) else FindTop(c, d, 1, 2);
    assert FindTop(c, d, 1, 2) == if TopOf(c[1]) == d then Some(1) else FindTop(c, d, 2, 1);
    assert FindTop(c, d, 2, 1) == if TopOf(c[2]) == d then Some(2) else FindTop(c, d, 0, 0);
  }

  /** Whether the destination search stops at a tower with this top: it moves on only while
      the top is a disk smaller than d. */
  predicate Accepts(top: int, d: int)
  {
    top == EMPTY || !(top < d)
  }

  /** The destination search: walk the ring from tower t, looking at no more than k
      towers, and stop at the first one that is empty or whose top is not smaller than d. */
  function FindRoom(c: Config, d: int, t: Idx, k: nat): (r: Option<Idx>)
    ensures r.Some? ==> Accepts(TopOf(c[r.value]), d)
    decreases k
  {
    if k == 0 then None
    else if Accepts(TopOf(c[t]), d) then Some(t)
    else FindRoom(c, d, Next(t), k - 1)
  }

  /** The tower the destination search of play stops at, starting from the successor of
      the source tower s. None when no tower accepts d, where the search would never stop. */
  function DestOf(c: Config, s: Idx, d: int): (r: Option<Idx>)
    ensures r.Some? ==> Accepts(TopOf(c[r.value]), d)
  {
    FindRoom(c, d, Next(s), 3)
  }

  /** The destination search passes over towers whose top is smaller than d and no other,
      and fails to stop exactly when every top is smaller than d. */
  lemma DestOfFirst(c: Config, s: Idx, d: int)
    ensures DestOf(c, s, d) != Some(Next(s)) ==> !Accepts(TopOf(c[Next(s)]), d)
    ensures DestOf(c, s, d) == Some(s) ==> !Accepts(TopOf(c[Next(Next(s))]), d)
    ensures DestOf(c, s, d).None? <==> forall j: Idx :: !Accepts(TopOf(c[j]), d)
  {
    var t1, t2 := Next(s), Next(Next(s));
    assert Next(t2) == s;
    assert FindRoom(c, d, t1, 3) == if Accepts(TopOf(c[t1]), d) then Some(t1) else FindRoom(c, d, t2, 2);
    assert FindRoom(c, d, t2, 2) == if Accepts(TopOf(c[t2]), d) then Some(t2) else FindRoom(c, d, s, 1);
    assert FindRoom(c, d, s, 1) == if Accepts(TopOf(c[s]), d) then Some(s) else FindRoom(c, d, t1, 0);
  }

  /** Tower s with its top disk taken off. */
  function Lift(c: Config, s: Idx): (r: Config)
    requires c[s] != []
    ensures r[s] + [c[s][|c[s]| - 1]] == c[s]
  {
    c[s := c[s][..|c[s]| - 1]]
  }

  /** Tower t with disk d put on top. */
  function Put(c: Config, t: Idx, d: nat): (r: Config)
    ensures TopOf(r[t]) == d
  {
    c[t := c[t] + [d]]
  }

  /** One pass of the play loop with the answer d of add_one: nothing moves for -1;
      otherwise d leaves the first tower whose top it is and lands on the first tower of
      the ring after that one that is empty or has a top not smaller than d. None when one
      of the two searches would never stop. */
  function Step(c: Config, d: int): (r: Option<Config>)
  {
    if d == -1 then Some(c)
    else
      var src := SourceOf(c, d);
      if src.None? then None
      else
        var p := Lift(c, src.value);
        var dst := DestOf(p, src.value, d);
        if dst.None? then None
        else Some(Put(p, dst.value, d))
  }

  /** Step when both searches stop: at tower s, and at tower t. */
  lemma StepAt(c: Config, d: nat, s: Idx, t: Idx)
    requires SourceOf(c, d) == Some(s)
    requires DestOf(Lift(c, s), s, d) == Some(t)
    ensures Step(c, d) == Some(Put(Lift(c, s), t, d))
  {
  }

  /** The passes of the play loop for a list of add_one answers, in order. */
  function Run(c: Config, plan: seq<int>): Option<Config>
    decreases |plan|
  {
    if plan == [] then Some(c)
    else match Step(c, plan[0])
      case None => None
      case Some(c1) => Run(c1, plan[1..])
  }

  /** Running a + b runs a, then b from where a ended. */
  lemma {:induction false} RunAppend(c: Config, a: seq<int>, b: seq<int>)
    ensures Run(c, a + b) == if Run(c, a).None? then None else Run(Run(c, a).value, b)
    decreases |a|
  {
    if a == [] {
      assert a + b == b;
    } else {
      assert (a + b)[0] == a[0] && (a + b)[1..] == a[1..] + b;
      match Step(c, a[0])
      case None =>
      case Some(c1) => RunAppend(c1, a[1..], b);
    }
  }

  lemma RunOne(c: Config, d: int)
    ensures Run(c, [d]) == Step(c, d)
  {
    assert [d][1..] == [];
  }

  /** How many hops along the ring a block of n disks travels: one for odd n, two for even n. */
  function Dir(n: nat): (r: nat)
    ensures r == 1 || r == 2
  {
    if n % 2 == 1 then 1 else 2
  }

  /** The tower a block of n disks on tower s is moved to. */
  function Target(n: nat, s: Idx): Idx
  {
    if Dir(n) == 1 then Next(s) else Next(Next(s))
  }

  /** Every tower top is EMPTY or a disk of at least n: a block of disks 0..n-1 may sit on
      any of the towers. */
  predicate Clear(b: Config, n: nat)
  {
    forall i :: 0 <= i < 3 ==> b[i] == [] || b[i][|b[i]| - 1] >= n
  }

  /** The towers b with the block n-1, ..., 0 on top of tower s. */
  function With(b: Config, s: Idx, n: nat): (r: Config)
  {
    b[s := b[s] + Desc(n)]
  }

  /** A block of n >= 1 disks is disk n-1 with the block of n-1 disks on it. */
  lemma BlockSplit(b: Config, s: Idx, n: nat)
    requires n >= 1
    ensures With(b, s, n) == With(Put(b, s, n - 1), s, n - 1)
  {
    assert b[s] + Desc(n) == b[s] + [n - 1] + Desc(n - 1);
  }

  /** Disk n-1 on any tower leaves room for a block of n-1 disks. */
  lemma ClearPut(b: Config, x: Idx, n: nat)
    requires n >= 1 && Clear(b, n)
    ensures Clear(Put(b, x, n - 1), n - 1)
  {
  }

  /** Three distinct tower indices: every tower is one of them. */
  predicate Distinct3(x: Idx, y: Idx, z: Idx)
  {
    x != y && y != z && x != z
  }

  /** Two tower states are equal when each of the three towers is. */
  lemma ConfigEq(c: Config, e: Config, x: Idx, y: Idx, z: Idx)
    requires Distinct3(x, y, z)
    requires c[x] == e[x] && c[y] == e[y] && c[z] == e[z]
    ensures c == e
  {
    assert c[0] == e[0] && c[1] == e[1] && c[2] == e[2];
  }

  /** The source search stops at the one tower whose top is d. */
  lemma SourceIs(c: Config, d: int, s: Idx, x: Idx, y: Idx)
    requires Distinct3(s, x, y)
    requires TopOf(c[s]) == d && TopOf(c[x]) != d && TopOf(c[y]) != d
    ensures SourceOf(c, d) == Some(s)
  {
    assert TopOf(c[0]) == d <==> s == 0;
    assert TopOf(c[1]) == d <==> s == 1;
    assert FindTop(c, d, 0, 3) == if s == 0 then Some(0) else FindTop(c, d, 1, 2);
    assert FindTop(c, d, 1, 2) == if s == 1 then Some(1) else FindTop(c, d, 2, 1);
  }

  /** The destination search stops at the successor of s when it accepts d, and at the
      tower after that when the successor does not. */
  lemma DestIs(c: Config, s: Idx, d: int, t: Idx)
    requires Accepts(TopOf(c[t]), d)
    requires t == Next(s) || (t == Next(Next(s)) && !Accepts(TopOf(c[Next(s)]), d))
    ensures DestOf(c, s, d) == Some(t)
  {
    assert FindRoom(c, d, Next(s), 3)
        == if Accepts(TopOf(c[Next(s)]), d) then Some(Next(s)) else FindRoom(c, d, Next(Next(s)), 2);
  }

  /** The top of a block of n >= 1 disks is disk 0. */
  lemma BlockTop(b: seq<nat>, n: nat)
    requires n >= 1
    ensures TopOf(b + Desc(n)) == 0
  {
    assert (b + Desc(n))[|b| + n - 1] == Desc(n)[n - 1];
  }

  /** A block of n >= 1 disks moves from s by way of Target(n - 1, s), where the smaller
      block goes first, to Target(n, s): these are the three towers, and from the middle
      tower the smaller block again reaches Target(n, s). */
  lemma BlockTowers(n: nat, s: Idx)
    requires n >= 1
    ensures Distinct3(s, Target(n - 1, s), Target(n, s))
    ensures Target(n - 1, Target(n - 1, s)) == Target(n, s)
    ensures Next(s) == Target(n, s)
         || (Next(s) == Target(n - 1, s) && n >= 2 && Next(Next(s)) == Target(n, s))
  {
  }

  /** The towers just before disk n-1 moves: it sits alone on s, the block of n-1 disks on
      Target(n - 1, s). */
  function Before(b: Config, s: Idx, n: nat): Config
    requires n >= 1
  {
    With(Put(b, s, n - 1), Target(n - 1, s), n - 1)
  }

  /** The towers just after disk n-1 moves: it sits on Target(n, s). */
  function After(b: Config, s: Idx, n: nat): Config
    requires n >= 1
  {
    With(Put(b, Target(n, s), n - 1), Target(n - 1, s), n - 1)
  }

  /** In the middle of a block move the source search finds disk n-1 on s. */
  lemma MiddleSource(n: nat, b: Config, s: Idx)
    requires n >= 1 && Clear(b, n)
    ensures SourceOf(Before(b, s, n), n - 1) == Some(s)
  {
    var t1, t := Target(n - 1, s), Target(n, s);
    BlockTowers(n, s);
    var c := Before(b, s, n);
    assert TopOf(c[t1]) != n - 1 by {
      assert c[t1] == b[t1] + Desc(n - 1);
      if n >= 2 {
        BlockTop(b[t1], n - 1);
      }
    }
    assert TopOf(c[t]) != n - 1 by {
      assert c[t] == b[t];
    }
    SourceIs(c, n - 1, s, t1, t);
  }

  /** In the middle of a block move, once n-1 is lifted off s, the destination search
      passes over the smaller block and stops at Target(n, s). */
  lemma MiddleDest(n: nat, b: Config, s: Idx)
    requires n >= 1 && Clear(b, n)
    ensures Before(b, s, n)[s] != []
    ensures DestOf(Lift(Before(b, s, n), s), s, n - 1) == Some(Target(n, s))
  {
    var t1, t := Target(n - 1, s), Target(n, s);
    BlockTowers(n, s);
    var c := Before(b, s, n);
    assert c[s] == b[s] + [n - 1];
    var p := Lift(c, s);
    assert Accepts(TopOf(p[t]), n - 1) by {
      assert p[t] == b[t];
    }
    assert Next(s) != t ==> !Accepts(TopOf(p[Next(s)]), n - 1) by {
      if Next(s) != t {
        assert p[t1] == b[t1] + Desc(n - 1);
        BlockTop(b[t1], n - 1);
      }
    }
    DestIs(p, s, n - 1, t);
  }

  /** Putting n-1 on Target(n, s) after lifting it off s gives the After towers. */
  lemma MiddleResult(n: nat, b: Config, s: Idx)
    requires n >= 1 && Clear(b, n)
    requires Before(b, s, n)[s] != []
    ensures Put(Lift(Before(b, s, n), s), Target(n, s), n - 1) == After(b, s, n)
  {
    var t1, t := Target(n - 1, s), Target(n, s);
    BlockTowers(n, s);
    var c := Before(b, s, n);
    var p := Lift(c, s);
    assert p[s] == b[s] by {
      assert c[s] == b[s] + [n - 1];
    }
    ConfigEq(Put(p, t, n - 1), After(b, s, n), s, t1, t);
  }

  /** In the middle of a block move of n disks from s, disk n-1 leaves s (the smaller
      block sits on the second tower) and lands on the third tower. */
  lemma MiddleStep(n: nat, b: Config, s: Idx)
    requires n >= 1 && Clear(b, n)
    ensures Step(Before(b, s, n), n - 1) == Some(After(b, s, n))
  {
    MiddleSource(n, b, s);
    MiddleDest(n, b, s);
    MiddleResult(n, b, s);
    StepAt(Before(b, s, n), n - 1, s, Target(n, s));
  }

  /** The main theorem of the counter method: the answers of add_one while the low n bits
      count from 0 to 2^n - 1 move a block of disks n-1..0 from tower s to the tower Dir(n)
      hops further along the ring, whatever larger disks lie below. */
  lemma {:induction false} RulerMovesBlock(n: nat, b: Config, s: Idx)
    requires Clear(b, n)
    ensures Run(With(b, s, n), Ruler(n)) == Some(With(b, Target(n, s), n))
    decreases n, 2
  {
    if n == 0 {
      assert With(b, s, 0) == b && With(b, Target(0, s), 0) == b by {
        assert Desc(0) == [];
        assert b[s] + [] == b[s] && b[Target(0, s)] + [] == b[Target(0, s)];
      }
      assert Ruler(0) == [];
    } else {
      WholeBlock(n, b, s);
      assert Ruler(n) == Ruler(n - 1) + ([n - 1] + Ruler(n - 1));
    }
  }

  /** The smaller block off disk n-1, then disk n-1 across with the smaller block back on it. */
  lemma {:induction false} WholeBlock(n: nat, b: Config, s: Idx)
    requires n >= 1 && Clear(b, n)
    ensures Run(With(b, s, n), Ruler(n - 1) + ([n - 1] + Ruler(n - 1)))
         == Some(With(b, Target(n, s), n))
    decreases n, 1
  {
    FirstHalf(n, b, s);
    SecondHalf(n, b, s);
    var c0, c1, c3 := With(b, s, n), Before(b, s, n), With(b, Target(n, s), n);
    var r := Ruler(n - 1);
    RunThen(c0, c1, c3, r, [n - 1] + r);
  }

  /** Disk n-1 across, then the second count of the low n-1 bits puts the smaller block on it. */
  lemma {:induction false} SecondHalf(n: nat, b: Config, s: Idx)
    requires n >= 1 && Clear(b, n)
    ensures Run(Before(b, s, n), [n - 1] + Ruler(n - 1)) == Some(With(b, Target(n, s), n))
    decreases n, 0
  {
    MiddleStep(n, b, s);
    RunOne(Before(b, s, n), n - 1);
    BlockBack(n, b, s);
    var c1, c2, c3 := Before(b, s, n), After(b, s, n), With(b, Target(n, s), n);
    RunThen(c1, c2, c3, [n - 1], Ruler(n - 1));
  }

  /** The first count of the low n-1 bits moves the smaller block off disk n-1. */
  lemma {:induction false} FirstHalf(n: nat, b: Config, s: Idx)
    requires n >= 1 && Clear(b, n)
    ensures Run(With(b, s, n), Ruler(n - 1)) == Some(Before(b, s, n))
    decreases n, 0
  {
    BlockSplit(b, s, n);
    ClearPut(b, s, n);
    RulerMovesBlock(n - 1, Put(b, s, n - 1), s);
  }

  /** The second count of the low n-1 bits moves the smaller block onto disk n-1. */
  lemma {:induction false} BlockBack(n: nat, b: Config, s: Idx)
    requires n >= 1 && Clear(b, n)
    ensures Run(After(b, s, n), Ruler(n - 1)) == Some(With(b, Target(n, s), n))
    decreases n - 1, 3
  {
    var t := Target(n, s);
    BlockTowers(n, s);
    BlockSplit(b, t, n);
    ClearPut(b, t, n);
    RulerMovesBlock(n - 1, Put(b, t, n - 1), Target(n - 1, s));
  }

  /** Two runs chain together. */
  lemma RunThen(c0: Config, c1: Config, c2: Config, a: seq<int>, b: seq<int>)
    requires Run(c0, a) == Some(c1) && Run(c1, b) == Some(c2)
    ensures Run(c0, a + b) == Some(c2)
  {
    RunAppend(c0, a, b);
  }

  /** The number of add_one calls play makes: one count from 0 to 2^N - 1 for even N; for
      odd N the first count lands the tower on tower2, the counter wraps to 0 (answer -1),
      and a second count carries it on to tower3. */
  function PlanCalls(n: nat): nat
  {
    if n % 2 == 0 then Pow2(n) - 1 else 2 * Pow2(n) - 1
  }

  /** The answers of add_one over the whole game, from the all-zero counter. */
  function Plan(n: nat): (r: seq<int>)
    ensures |r| == PlanCalls(n)
  {
    RunCounter(Zeros(n), PlanCalls(n)).disks
  }

  /** For even N the game is one count of the ruler sequence; for odd N it is two, with the
      -1 of the roll-over between them. */
  lemma PlanShape(n: nat)
    ensures Plan(n) == if n % 2 == 0 then Ruler(n) else Ruler(n) + [-1] + Ruler(n)
  {
    if n % 2 == 0 {
      EvenPlan(n);
    } else {
      OddPlan(n);
    }
  }

  lemma EvenPlan(n: nat)
    requires n % 2 == 0
    ensures Plan(n) == Ruler(n)
  {
    CounterWraps(n);
  }

  lemma OddPlan(n: nat)
    requires n % 2 == 1
    ensures Plan(n) == Ruler(n) + [-1] + Ruler(n)
  {
    CounterWraps(n);
    var calls := PlanCalls(n);
    assert calls == Pow2(n) + (Pow2(n) - 1);
    RunCounterThen(Zeros(n), Zeros(n), Ones(n), Pow2(n), Pow2(n) - 1, calls,
                   Ruler(n) + [-1], Ruler(n), Ruler(n) + [-1] + Ruler(n));
  }

  /** The answers of add_one over the game move every disk from tower1 to tower3. */
  lemma PlanSolves(n: nat)
    ensures Run(Initial(n), Plan(n)) == Some(Solved(n))
  {
    var e: Config := [[], [], []];
    assert Initial(n) == With(e, 0, n) && Solved(n) == With(e, 2, n) by {
      assert [] + Desc(n) == Desc(n);
    }
    PlanShape(n);
    if n % 2 == 0 {
      RulerMovesBlock(n, e, 0);
    } else {
      var r := Ruler(n);
      assert Run(Initial(n), r) == Some(With(e, 1, n)) by {
        RulerMovesBlock(n, e, 0);
      }
      assert Run(Initial(n), r + [-1]) == Some(With(e, 1, n)) by {
        RunAppend(Initial(n), r, [-1]);
        RunOne(With(e, 1, n), -1);
      }
      assert Run(With(e, 1, n), r) == Some(Solved(n)) by {
        RulerMovesBlock(n, e, 1);
      }
      RunAppend(Initial(n), r + [-1], r);
    }
  }

  /** Answer number k of add_one in the game comes from the counter after k calls. */
  lemma PlanAt(n: nat, k: nat)
    requires k < PlanCalls(n)
    ensures RunCounter(Zeros(n), k + 1).bits == Increment(RunCounter(Zeros(n), k).bits).bits
    ensures Plan(n)[k] == Increment(RunCounter(Zeros(n), k).bits).disk
  {
    var m := PlanCalls(n) - (k + 1);
    RunCounterAdd(Zeros(n), k + 1, m);
    assert PlanCalls(n) == k + 1 + m;
    var first := RunCounter(Zeros(n), k + 1).disks;
    assert Plan(n)[k] == first[k];
  }

  /** Once every answer of the game has been played, every disk is on tower3. */
  lemma PlanEndsSolved(n: nat, k: nat, c: Config)
    requires k == |Plan(n)| && Run(Initial(n), Plan(n)[..k]) == Some(c)
    ensures c == Solved(n)
  {
    assert Plan(n)[..k] == Plan(n);
    PlanSolves(n);
  }

  /** Where play stands after k add_one calls of the game: the counter bits after k calls,
      the towers the first k answers lead to, and the number of those answers that moved
      a disk. */
  ghost predicate Played(n: nat, k: nat, c: Config, bits: seq<bool>, moves: nat)
  {
    && k <= |Plan(n)| && bits == RunCounter(Zeros(n), k).bits
    && Run(Initial(n), Plan(n)[..k]) == Some(c)
    && moves == MoveCount(Plan(n)[..k])
  }

  /** Play starts before the first answer, with every disk on tower1 and the counter 0. */
  lemma PlayedInitially(n: nat)
    ensures Played(n, 0, Initial(n), Zeros(n), 0)
  {
    assert Plan(n)[..0] == [];
  }

  /** Answer number k of the game, played on the towers the first k answers lead to, is
      a pass that both searches complete. */
  lemma PlanNext(n: nat, k: nat, c: Config, bits: seq<bool>, moves: nat, d: int)
    requires Played(n, k, c, bits, moves) && k < |Plan(n)| && d == Increment(bits).disk
    ensures Plan(n)[k] == d && Step(c, d).Some?
  {
    PlanAt(n, k);
    PlanSolves(n);
    RunPrefix(Initial(n), Plan(n), k + 1);
    RunExtend(Initial(n), Plan(n), k, c);
  }

  /** That pass leads to where the first k + 1 answers lead, with the counter one call
      further on; it moves a disk unless the answer is -1. */
  lemma PlayedNext(n: nat, k: nat, c: Config, bits: seq<bool>, moves: nat, d: int,
                   c1: Config, bits1: seq<bool>, moves1: nat)
    requires Played(n, k, c, bits, moves) && k < |Plan(n)| && d == Increment(bits).disk
    requires Step(c, d) == Some(c1) && bits1 == Increment(bits).bits
    requires moves1 == moves + if d == -1 then 0 else 1
    ensures Played(n, k + 1, c1, bits1, moves1)
  {
    MoveCountExtend(Plan(n), k);
    PlanAt(n, k);
    PlanSolves(n);
    RunPrefix(Initial(n), Plan(n), k + 1);
    RunExtend(Initial(n), Plan(n), k, c);
  }

  /** A run that ends somewhere passes every one of its prefixes. */
  lemma RunPrefix(c: Config, plan: seq<int>, k: nat)
    requires Run(c, plan).Some? && k <= |plan|
    ensures Run(c, plan[..k]).Some?
  {
    RunAppend(c, plan[..k], plan[k..]);
    assert plan[..k] + plan[k..] == plan;
  }

  /** One more answer extends a run by one pass. */
  lemma RunExtend(c: Config, plan: seq<int>, k: nat, c1: Config)
    requires k < |plan| && Run(c, plan[..k]) == Some(c1)
    ensures Run(c, plan[..k + 1]) == Step(c1, plan[k])
  {
    RunAppend(c, plan[..k], [plan[k]]);
    RunOne(c1, plan[k]);
    assert plan[..k] + [plan[k]] == plan[..k + 1];
  }

  /** The number of disks on the three towers together. */
  function Total(c: Config): nat
  {
    |c[0]| + |c[1]| + |c[2]|
  }

  /** Every tower of c holds at least as many disks as the same tower of b. */
  predicate AtLeast(b: Config, c: Config)
  {
    |b[0]| <= |c[0]| && |b[1]| <= |c[1]| && |b[2]| <= |c[2]|
  }

  /** A pass of play neither loses nor makes a disk. */
  lemma StepTotal(c: Config, d: int)
    requires Step(c, d).Some?
    ensures Total(Step(c, d).value) == Total(c)
  {
    if d != -1 {
      var s := SourceOf(c, d).value;
      var p := Lift(c, s);
      var t := DestOf(p, s, d).value;
      assert Step(c, d).value == Put(p, t, d);
      assert |p[s]| + 1 == |c[s]|;
    }
  }

  /** Neither does a run of passes. */
  lemma {:induction false} RunTotal(c: Config, plan: seq<int>)
    requires Run(c, plan).Some?
    ensures Total(Run(c, plan).value) == Total(c)
    decreases |plan|
  {
    if plan != [] {
      StepTotal(c, plan[0]);
      RunTotal(Step(c, plan[0]).value, plan[1..]);
    }
  }

  /** A block of n disks adds n disks to tower s and none elsewhere. */
  lemma WithTotal(b: Config, s: Idx, n: nat)
    ensures Total(With(b, s, n)) == Total(b) + n
    ensures AtLeast(b, With(b, s, n))
  {
    assert |b[s] + Desc(n)| == |b[s]| + n;
  }

  /** With m disks more than b in all and one more than b on tower y, and no fewer than b on
      tower x, the third tower t holds fewer than m more than b. */
  lemma ThirdTower(b: Config, c: Config, y: Idx, x: Idx, t: Idx, m: nat)
    requires Distinct3(y, x, t)
    requires |c[y]| >= |b[y]| + 1 && |c[x]| >= |b[x]| && Total(c) == Total(b) + m
    ensures |c[t]| < |b[t]| + m
  {
  }

  /** Up to the middle of a block move, the passes are those of the smaller block moving
      off disk n-1. */
  lemma BlockPrefixFirst(n: nat, b: Config, s: Idx, k: nat)
    requires n >= 1 && k <= |Ruler(n - 1)|
    ensures Run(With(b, s, n), Ruler(n)[..k])
         == Run(With(Put(b, s, n - 1), s, n - 1), Ruler(n - 1)[..k])
  {
    BlockSplit(b, s, n);
    var r := Ruler(n - 1);
    assert Ruler(n) == r + [n - 1] + r;
    assert Ruler(n)[..k] == r[..k];
  }

  /** After the middle of a block move, the passes are those of the smaller block moving
      onto disk n-1 from where disk n-1 moved across. */
  lemma BlockPrefixSecond(n: nat, b: Config, s: Idx, k: nat)
    requires n >= 1 && Clear(b, n) && |Ruler(n - 1)| < k <= |Ruler(n)|
    ensures k - |Ruler(n - 1)| - 1 <= |Ruler(n - 1)|
    ensures Run(With(b, s, n), Ruler(n)[..k])
         == Run(With(Put(b, Target(n, s), n - 1), Target(n - 1, s), n - 1),
                Ruler(n - 1)[..k - |Ruler(n - 1)| - 1])
  {
    var r := Ruler(n - 1);
    var j := k - |r| - 1;
    var c0 := With(b, s, n);
    UpToMiddle(n, b, s);
    RulerSplitAt(n, k);
    RunAppend(c0, r + [n - 1], r[..j]);
  }

  /** The first half of a block move and the move of disk n-1. */
  lemma UpToMiddle(n: nat, b: Config, s: Idx)
    requires n >= 1 && Clear(b, n)
    ensures Run(With(b, s, n), Ruler(n - 1) + [n - 1]) == Some(After(b, s, n))
  {
    FirstHalf(n, b, s);
    MiddleStep(n, b, s);
    RunOne(Before(b, s, n), n - 1);
    var c0, c1, c2 := With(b, s, n), Before(b, s, n), After(b, s, n);
    RunThen(c0, c1, c2, Ruler(n - 1), [n - 1]);
  }

  /** A prefix of the ruler sequence of n that goes past its middle entry. */
  lemma RulerSplitAt(n: nat, k: nat)
    requires n >= 1 && |Ruler(n - 1)| < k <= |Ruler(n)|
    ensures Ruler(n)[..k] == (Ruler(n - 1) + [n - 1]) + Ruler(n - 1)[..k - |Ruler(n - 1)| - 1]
  {
    var r := Ruler(n - 1);
    assert Ruler(n) == (r + [n - 1]) + r;
  }

  /** r ends somewhere, and there every tower holds at least as many disks as in b. */
  predicate Covers(b: Config, r: Option<Config>)
  {
    r.Some? && AtLeast(b, r.value)
  }

  /** Whatever holds at least what b holds with d on tower y holds at least what b holds. */
  lemma CoversPut(b: Config, y: Idx, d: nat, r: Option<Config>)
    requires Covers(Put(b, y, d), r)
    ensures Covers(b, r)
  {
  }

  /** At every point of a block move of n disks from s, each tower holds what it held in b
      and maybe more. */
  lemma {:induction false} BlockKeepsBase(n: nat, b: Config, s: Idx, k: nat)
    requires Clear(b, n) && k <= |Ruler(n)|
    ensures Covers(b, Run(With(b, s, n), Ruler(n)[..k]))
    decreases n, 1
  {
    if n == 0 {
      assert Ruler(0)[..k] == [];
      assert With(b, s, 0) == b by {
        assert b[s] + Desc(0) == b[s];
      }
    } else if k <= |Ruler(n - 1)| {
      KeepsBaseFirst(n, b, s, k);
      CoversPut(b, s, n - 1, Run(With(b, s, n), Ruler(n)[..k]));
    } else {
      KeepsBaseSecond(n, b, s, k);
      CoversPut(b, Target(n, s), n - 1, Run(With(b, s, n), Ruler(n)[..k]));
    }
  }

  /** Through the first half of a block move, disk n-1 stays on s. */
  lemma {:induction false} KeepsBaseFirst(n: nat, b: Config, s: Idx, k: nat)
    requires n >= 1 && Clear(b, n) && k <= |Ruler(n - 1)|
    ensures Covers(Put(b, s, n - 1), Run(With(b, s, n), Ruler(n)[..k]))
    decreases n, 0
  {
    var b1 := Put(b, s, n - 1);
    var r0 := Run(With(b, s, n), Ruler(n)[..k]);
    assert r0 == Run(With(b1, s, n - 1), Ruler(n - 1)[..k]) by {
      BlockPrefixFirst(n, b, s, k);
    }
    ClearPut(b, s, n);
    BlockKeepsBase(n - 1, b1, s, k);
  }

  /** Through the second half of a block move, disk n-1 stays on Target(n, s). */
  lemma {:induction false} KeepsBaseSecond(n: nat, b: Config, s: Idx, k: nat)
    requires n >= 1 && Clear(b, n) && |Ruler(n - 1)| < k <= |Ruler(n)|
    ensures Covers(Put(b, Target(n, s), n - 1), Run(With(b, s, n), Ruler(n)[..k]))
    decreases n, 0
  {
    var t, t1, j := Target(n, s), Target(n - 1, s), k - |Ruler(n - 1)| - 1;
    var b1 := Put(b, t, n - 1);
    BlockPrefixSecond(n, b, s, k);
    ClearPut(b, t, n);
    BlockKeepsBase(n - 1, b1, t1, j);
    CoversSame(b1, Run(With(b1, t1, n - 1), Ruler(n - 1)[..j]), Run(With(b, s, n), Ruler(n)[..k]));
  }

  lemma CoversSame(b: Config, r1: Option<Config>, r2: Option<Config>)
    requires Covers(b, r1) && r1 == r2
    ensures Covers(b, r2)
  {
  }

  /** Until the last pass of a block move of n >= 1 disks from s, the target tower does not
      yet hold the whole block. */
  lemma {:induction false} BlockNotDone(n: nat, b: Config, s: Idx, k: nat)
    requires n >= 1 && Clear(b, n) && k < |Ruler(n)|
    ensures Run(With(b, s, n), Ruler(n)[..k]).Some?
    ensures |Run(With(b, s, n), Ruler(n)[..k]).value[Target(n, s)]| < |b[Target(n, s)]| + n
    decreases n, 1
  {
    if k <= |Ruler(n - 1)| {
      FirstHalfNotDone(n, b, s, k);
    } else {
      SecondHalfNotDone(n, b, s, k);
    }
  }

  /** BlockNotDone in the first half: disk n-1 is still on s. */
  lemma FirstHalfNotDone(n: nat, b: Config, s: Idx, k: nat)
    requires n >= 1 && Clear(b, n) && k <= |Ruler(n - 1)|
    ensures Run(With(b, s, n), Ruler(n)[..k]).Some?
    ensures |Run(With(b, s, n), Ruler(n)[..k]).value[Target(n, s)]| < |b[Target(n, s)]| + n
  {
    BlockTowers(n, s);
    RulerLength(n);
    KeepsBaseFirst(n, b, s, k);
    var c0, plan := With(b, s, n), Ruler(n)[..k];
    var c := Run(c0, plan).value;
    RunTotal(c0, plan);
    WithTotal(b, s, n);
    ThirdTower(b, c, s, Target(n - 1, s), Target(n, s), n);
  }

  /** BlockNotDone in the second half: the smaller block is not yet all on disk n-1. */
  lemma {:induction false} SecondHalfNotDone(n: nat, b: Config, s: Idx, k: nat)
    requires n >= 1 && Clear(b, n) && |Ruler(n - 1)| < k < |Ruler(n)|
    ensures Run(With(b, s, n), Ruler(n)[..k]).Some?
    ensures |Run(With(b, s, n), Ruler(n)[..k]).value[Target(n, s)]| < |b[Target(n, s)]| + n
    decreases n, 0
  {
    var t, t1, r := Target(n, s), Target(n - 1, s), Ruler(n - 1);
    var j := k - |r| - 1;
    var b1 := Put(b, t, n - 1);
    var r0 := Run(With(b, s, n), Ruler(n)[..k]);
    assert r0 == Run(With(b1, t1, n - 1), r[..j]) && n - 1 >= 1 && j < |r| by {
      RulerLength(n);
      RulerEmpty(n - 1);
      BlockPrefixSecond(n, b, s, k);
    }
    assert Target(n - 1, t1) == t by {
      BlockTowers(n, s);
    }
    ClearPut(b, t, n);
    BlockNotDone(n - 1, b1, t1, j);
  }

  /** Only the ruler sequence of 0 is empty. */
  lemma RulerEmpty(n: nat)
    ensures Ruler(n) == [] <==> n == 0
  {
  }

  /** The ruler sequence of n >= 1 is two of n - 1 around one more entry. */
  lemma RulerLength(n: nat)
    requires n >= 1
    ensures |Ruler(n)| == 2 * |Ruler(n - 1)| + 1
  {
  }

  /** Before the last answer of the game has been played, tower3 holds fewer than n disks:
      the loop test of play does not stop it early. */
  lemma PlanNotDone(n: nat, k: nat)
    requires k < |Plan(n)|
    ensures Run(Initial(n), Plan(n)[..k]).Some?
    ensures |Run(Initial(n), Plan(n)[..k]).value[2]| < n
  {
    if n % 2 == 0 {
      EvenPlan(n);
      EvenNotDone(n, k);
    } else {
      OddPlan(n);
      if k < |Ruler(n)| {
        assert Plan(n)[..k] == Ruler(n)[..k];
        OddFirstNotDone(n, k);
      } else {
        OddSecondNotDone(n, k);
      }
    }
  }

  /** The loop test of play, tower3 holding n disks, holds after k answers of the game
      exactly when k is the number of answers: play then stops with every disk on tower3,
      having moved a disk 2^N - 1 times for even N and 2 (2^N - 1) times for odd N. */
  lemma PlayStops(n: nat, k: nat, c: Config, bits: seq<bool>, moves: nat)
    requires Played(n, k, c, bits, moves)
    ensures |c[2]| == n <==> k == PlanCalls(n)
    ensures |c[2]| == n ==> c == Solved(n)
    ensures |c[2]| == n ==> moves == if n % 2 == 0 then Pow2(n) - 1 else 2 * (Pow2(n) - 1)
  {
    if k < |Plan(n)| {
      PlanNotDone(n, k);
    } else {
      PlanEndsSolved(n, k, c);
      assert Plan(n)[..k] == Plan(n);
      PlanMoves(n);
    }
  }

  /** While tower3 is not full there is a disk and another answer of the game to play. */
  lemma PlayGoesOn(n: nat, k: nat, c: Config, bits: seq<bool>, moves: nat)
    requires Played(n, k, c, bits, moves) && |c[2]| != n
    ensures n >= 1 && k < |Plan(n)|
  {
    PlayStops(n, k, c, bits, moves);
  }

  /** An even game is one block move from tower1 to tower3. */
  lemma EvenNotDone(n: nat, k: nat)
    requires n % 2 == 0 && k < |Ruler(n)|
    ensures Run(Initial(n), Ruler(n)[..k]).Some?
    ensures |Run(Initial(n), Ruler(n)[..k]).value[2]| < n
  {
    var e: Config := [[], [], []];
    assert Initial(n) == With(e, 0, n) by {
      assert [] + Desc(n) == Desc(n);
    }
    RulerFacts(n);
    assert n >= 1;
    BlockNotDone(n, e, 0, k);
  }

  /** The first count of an odd game never puts disk n-1 on tower3. */
  lemma OddFirstNotDone(n: nat, k: nat)
    requires n % 2 == 1 && k < |Ruler(n)|
    ensures Run(Initial(n), Ruler(n)[..k]).Some?
    ensures |Run(Initial(n), Ruler(n)[..k]).value[2]| < n
  {
    var e: Config := [[], [], []];
    assert Initial(n) == With(e, 0, n) by {
      assert [] + Desc(n) == Desc(n);
    }
    var c0, plan := With(e, 0, n), Ruler(n)[..k];
    var y: Idx := if k <= |Ruler(n - 1)| then 0 else 1;
    if k <= |Ruler(n - 1)| {
      KeepsBaseFirst(n, e, 0, k);
    } else {
      KeepsBaseSecond(n, e, 0, k);
    }
    var c := Run(c0, plan).value;
    RunTotal(c0, plan);
    WithTotal(e, 0, n);
    ThirdTower(e, c, y, 1 - y, 2, n);
  }

  /** From the roll-over of an odd game on, tower3 is full only after the last answer. */
  lemma OddSecondNotDone(n: nat, k: nat)
    requires n % 2 == 1 && |Ruler(n)| <= k < |Ruler(n) + [-1] + Ruler(n)|
    ensures Run(Initial(n), (Ruler(n) + [-1] + Ruler(n))[..k]).Some?
    ensures |Run(Initial(n), (Ruler(n) + [-1] + Ruler(n))[..k]).value[2]| < n
  {
    var r := Ruler(n);
    FirstCount(n);
    if k == |r| {
      assert (r + [-1] + r)[..k] == r;
    } else {
      var j := k - |r| - 1;
      assert (r + [-1] + r)[..k] == (r + [-1]) + r[..j];
      SecondCountNotDone(n, j);
    }
  }

  /** In the second count of an odd game the block moves from tower2 to tower3. */
  lemma SecondCountNotDone(n: nat, j: nat)
    requires n % 2 == 1 && j < |Ruler(n)|
    requires Run(Initial(n), Ruler(n) + [-1]) == Some(With([[], [], []], 1, n))
    ensures Run(Initial(n), (Ruler(n) + [-1]) + Ruler(n)[..j]).Some?
    ensures |Run(Initial(n), (Ruler(n) + [-1]) + Ruler(n)[..j]).value[2]| < n
  {
    var e: Config := [[], [], []];
    var c0, a, b := Initial(n), Ruler(n) + [-1], Ruler(n)[..j];
    RunAppend(c0, a, b);
    BlockNotDone(n, e, 1, j);
  }

  /** The first count of an odd game and the roll-over leave every disk on tower2. */
  lemma FirstCount(n: nat)
    requires n % 2 == 1
    ensures Run(Initial(n), Ruler(n)) == Some(With([[], [], []], 1, n))
    ensures Run(Initial(n), Ruler(n) + [-1]) == Some(With([[], [], []], 1, n))
  {
    var e: Config := [[], [], []];
    var c0, c1 := Initial(n), With(e, 1, n);
    assert c0 == With(e, 0, n) by {
      assert [] + Desc(n) == Desc(n);
    }
    RulerMovesBlock(n, e, 0);
    RunOne(c1, -1);
    RunThen(c0, c1, c1, Ruler(n), [-1]);
  }

  /** The number of answers that move a disk (every one but -1). */
  function MoveCount(plan: seq<int>): (r: nat)
    ensures r <= |plan|
  {
    if plan == [] then 0 else (if plan[0] == -1 then 0 else 1) + MoveCount(plan[1..])
  }

  lemma {:induction false} MoveCountAppend(a: seq<int>, b: seq<int>)
    ensures MoveCount(a + b) == MoveCount(a) + MoveCount(b)
  {
    if a == [] {
      assert a + b == b;
    } else {
      assert (a + b)[0] == a[0] && (a + b)[1..] == a[1..] + b;
      MoveCountAppend(a[1..], b);
    }
  }

  /** One more answer adds one move unless it is -1. */
  lemma MoveCountExtend(plan: seq<int>, k: nat)
    requires k < |plan|
    ensures MoveCount(plan[..k + 1]) == MoveCount(plan[..k]) + if plan[k] == -1 then 0 else 1
  {
    assert plan[..k + 1] == plan[..k] + [plan[k]];
    MoveCountAppend(plan[..k], [plan[k]]);
    assert [plan[k]][1..] == [];
  }

  lemma {:induction false} MoveCountAllDisks(plan: seq<int>)
    requires forall i :: 0 <= i < |plan| ==> plan[i] >= 0
    ensures MoveCount(plan) == |plan|
  {
    if plan != [] {
      MoveCountAllDisks(plan[1..]);
    }
  }

  /** play moves a disk 2^N - 1 times for even N and 2 (2^N - 1) times for odd N. */
  lemma PlanMoves(n: nat)
    ensures MoveCount(Plan(n)) == if n % 2 == 0 then Pow2(n) - 1 else 2 * (Pow2(n) - 1)
  {
    PlanShape(n);
    RulerFacts(n);
    MoveCountAllDisks(Ruler(n));
    if n % 2 == 1 {
      MoveCountAppend(Ruler(n) + [-1], Ruler(n));
      MoveCountAppend(Ruler(n), [-1]);
      assert [-1][1..] == [];
    }
  }

  /** One disk goes to tower2 first, the counter wraps, and a second move carries it on
      to tower3: two moves. */
  lemma OneDiskGame()
    ensures Plan(1) == [0, -1, 0]
    ensures Step(Initial(1), 0) == Some(Put([[], [], []], 1, 0))
    ensures MoveCount(Plan(1)) == 2
  {
    OneDiskPlan();
    OneDiskFirstMove();
  }

  /** With one disk the answers of add_one are 0, -1, 0, and two of them move the disk. */
  lemma OneDiskPlan()
    ensures Plan(1) == [0, -1, 0] && MoveCount(Plan(1)) == 2
  {
    PlanShape(1);
    PlanMoves(1);
    assert Ruler(1) == [0] by {
      assert Ruler(0) == [];
    }
  }

  /** The first move of the one-disk game puts the disk on tower2. */
  lemma OneDiskFirstMove()
    ensures Step(Initial(1), 0) == Some(Put([[], [], []], 1, 0))
  {
    assert Desc(1) == [0];
    var e: Config := [[], [], []];
    assert SourceOf(Initial(1), 0) == Some(0);
    assert Lift(Initial(1), 0) == e;
    assert DestOf(e, 0, 0) == Some(1);
    StepAt(Initial(1), 0, 0, 1);
  }

  /** Two disks take the three moves 0, 1, 0 with no roll-over in between. */
  lemma TwoDiskGame()
    ensures Plan(2) == [0, 1, 0]
    ensures MoveCount(Plan(2)) == 3
  {
    PlanShape(2);
    PlanMoves(2);
    assert Ruler(1) == [0] by {
      assert Ruler(0) == [];
    }
    assert Ruler(2) == [0] + [1] + [0];
  }

  /** Each tower lists its disks strictly decreasing from bottom to top. */
  predicate Decreasing(s: seq<nat>)
  {
    forall i :: 0 < i < |s| ==> s[i - 1] > s[i]
  }

  /** Every disk on the three towers, counted with repetition. */
  function Pool(c: Config): multiset<nat>
  {
    multiset(c[0]) + multiset(c[1]) + multiset(c[2])
  }

  /** No larger disk on a smaller one, and disks 0..n-1 each on exactly one tower once. */
  predicate Legal(c: Config, n: nat)
  {
    Decreasing(c[0]) && Decreasing(c[1]) && Decreasing(c[2]) && Pool(c) == multiset(Desc(n))
  }

  /** Disks 0..n-1 each once, and nothing else. */
  lemma {:induction false} DescCount(n: nat, x: int)
    ensures multiset(Desc(n))[x] == if 0 <= x < n then 1 else 0
  {
    if n > 0 {
      DescCount(n - 1, x);
    }
  }

  lemma InitialLegal(n: nat)
    ensures Legal(Initial(n), n)
  {
  }

  /** The three towers hold n disks together. */
  lemma SizesSum(c: Config, n: nat)
    requires Legal(c, n)
    ensures |c[0]| + |c[1]| + |c[2]| == n
  {
    assert |Pool(c)| == |multiset(Desc(n))|;
  }

  /** A strictly decreasing tower drops by at least one per disk. */
  lemma {:induction false} DecreasingGap(s: seq<nat>, i: nat, j: nat)
    requires Decreasing(s) && i <= j < |s|
    ensures s[i] >= s[j] + (j - i)
    decreases j - i
  {
    if i < j {
      DecreasingGap(s, i + 1, j);
    }
  }

  /** Once tower3 holds all n disks the game is solved: the loop test of play is enough. */
  lemma SolvedWhenFull(c: Config, n: nat)
    requires Legal(c, n) && |c[2]| == n
    ensures c == Solved(n)
  {
    SizesSum(c, n);
    assert c[0] == [] && c[1] == [];
    var s := c[2];
    forall k | 0 <= k < n
      ensures s[k] == n - 1 - k
    {
      assert s[0] in multiset(Desc(n)) && s[n - 1] in multiset(Desc(n));
      DescCount(n, s[0]);
      DescCount(n, s[n - 1]);
      DecreasingGap(s, 0, k);
      DecreasingGap(s, k, n - 1);
    }
    assert s == Desc(n);
    ConfigEq(c, Solved(n), 0, 1, 2);
  }

  /** Taking the top disk off tower s takes exactly that disk out of the pool, and the
      towers stay decreasing. */
  lemma PoolLift(c: Config, s: Idx)
    requires c[s] != []
    ensures Pool(c) == Pool(Lift(c, s)) + multiset{c[s][|c[s]| - 1]}
    ensures Decreasing(c[s]) ==> Decreasing(Lift(c, s)[s])
  {
    var p := Lift(c, s);
    assert multiset(c[s]) == multiset(p[s]) + multiset{c[s][|c[s]| - 1]} by {
      assert c[s] == p[s] + [c[s][|c[s]| - 1]];
    }
  }

  /** Putting d on tower t adds exactly d to the pool. */
  lemma PoolPut(c: Config, t: Idx, d: nat)
    ensures Pool(Put(c, t, d)) == Pool(c) + multiset{d}
  {
  }

  /** A tower's disks are part of the pool. */
  lemma PoolHas(c: Config, t: Idx, x: nat)
    ensures multiset(c[t])[x] <= Pool(c)[x]
  {
  }

  /** The destination search only accepts a tower where d may go: when d is not on any
      tower, a top that is not smaller than d is larger, so d on top keeps it decreasing. */
  lemma PutKeepsDecreasing(p: Config, t: Idx, d: nat)
    requires Pool(p)[d] == 0 && Decreasing(p[t]) && Accepts(TopOf(p[t]), d)
    ensures Decreasing(p[t] + [d])
  {
    if p[t] != [] {
      var top := p[t][|p[t]| - 1];
      assert top in multiset(p[t]);
      PoolHas(p, t, d);
    }
  }

  /** One pass of play keeps the towers legal. */
  lemma StepKeepsLegal(c: Config, n: nat, d: int)
    requires Legal(c, n) && Step(c, d).Some?
    ensures Legal(Step(c, d).value, n)
  {
    if d != -1 {
      var s := SourceOf(c, d).value;
      var p := Lift(c, s);
      var t := DestOf(p, s, d).value;
      assert Step(c, d).value == Put(p, t, d);
      PoolLift(c, s);
      PoolPut(p, t, d);
      assert Pool(p)[d] == 0 by {
        DescCount(n, d);
      }
      PutKeepsDecreasing(p, t, d);
      assert Decreasing(p[0]) && Decreasing(p[1]) && Decreasing(p[2]);
    }
  }

  /** Disk 0 always goes to the successor of its tower: no top is smaller than 0. */
  lemma SmallestMovesRight(c: Config)
    requires SourceOf(c, 0).Some?
    ensures var s := SourceOf(c, 0).value;
      Step(c, 0) == Some(Put(Lift(c, s), Next(s), 0))
  {
  }
}
