/** The move counter of the Hanoi engine: disk_bits read as a binary number whose
    bit i is the 2^i place, and the add_one step that picks the next disk to move. */
module Counter {

  function Pow2(n: nat): (r: nat)
    ensures r >= 1
  {
    if n == 0 then 1 else 2 * Pow2(n - 1)
  }

  function Zeros(n: nat): (r: seq<bool>)
    ensures |r| == n && forall i :: 0 <= i < n ==> !r[i]
  {
    if n == 0 then [] else [false] + Zeros(n - 1)
  }

  function Ones(n: nat): (r: seq<bool>)
    ensures |r| == n && forall i :: 0 <= i < n ==> r[i]
  {
    if n == 0 then [] else [true] + Ones(n - 1)
  }

  /** The number the bits stand for, least significant bit first. */
  function Value(bits: seq<bool>): nat
  {
    if bits == [] then 0 else (if bits[0] then 1 else 0) + 2 * Value(bits[1..])
  }

  /** The outcome of one add_one: the new bits and the disk to move (-1 on roll-over). */
  datatype Tick = Tick(bits: seq<bool>, disk: int)

  /** add_one: the low 1 bits roll over to 0 and the first 0 bit becomes 1; its index is
      the disk to move. When every bit was 1 the counter is all zeros and the answer is -1. */
  function Increment(bits: seq<bool>): (t: Tick)
    ensures |t.bits| == |bits|
    ensures -1 <= t.disk < |bits|
  {
    if bits == [] then Tick([], -1)
    else if !bits[0] then Tick([true] + bits[1..], 0)
    else
      var t := Increment(bits[1..]);
      Tick([false] + t.bits, if t.disk == -1 then -1 else t.disk + 1)
  }

  /** Bit by bit: the answer is -1 exactly when every bit was 1, and then every bit is 0;
      otherwise the answer i is below N, bits 0..i-1 went from 1 to 0, bit i went from
      0 to 1, and the bits above i are unchanged. */
  lemma {:induction false} IncrementBits(bits: seq<bool>)
    ensures Increment(bits).disk == -1 <==> forall j :: 0 <= j < |bits| ==> bits[j]
    ensures Increment(bits).disk == -1 ==> Increment(bits).bits == Zeros(|bits|)
    ensures var t := Increment(bits);
      t.disk != -1 ==>
        && 0 <= t.disk < |bits| && !bits[t.disk] && t.bits[t.disk]
        && (forall j :: 0 <= j < t.disk ==> bits[j] && !t.bits[j])
        && (forall j :: t.disk < j < |bits| ==> t.bits[j] == bits[j])
  {
    if bits != [] && bits[0] {
      IncrementBits(bits[1..]);
      assert forall j :: 1 <= j < |bits| ==> bits[j] == bits[1..][j - 1];
    }
  }

  /** add_one passes over low 1 bits, clearing them, and goes on from the first other bit. */
  lemma {:induction false} IncrementSkipsOnes(bits: seq<bool>, i: nat)
    requires i <= |bits| && forall j :: 0 <= j < i ==> bits[j]
    ensures var rest := Increment(bits[i..]);
      Increment(bits) == Tick(Zeros(i) + rest.bits, if rest.disk == -1 then -1 else rest.disk + i)
    decreases i, 1
  {
    if i == 0 {
      assert bits[0..] == bits && Zeros(0) + Increment(bits).bits == Increment(bits).bits;
    } else {
      SkipOneMore(bits, i);
    }
  }

  /** The step of IncrementSkipsOnes: the lowest bit is a 1 that add_one clears. */
  lemma {:induction false} SkipOneMore(bits: seq<bool>, i: nat)
    requires 1 <= i <= |bits| && forall j :: 0 <= j < i ==> bits[j]
    ensures var rest := Increment(bits[i..]);
      Increment(bits) == Tick(Zeros(i) + rest.bits, if rest.disk == -1 then -1 else rest.disk + i)
    decreases i, 0
  {
    IncrementSkipsOnes(bits[1..], i - 1);
    assert bits[1..][i - 1..] == bits[i..];
    var rest := Increment(bits[i..]);
    assert [false] + (Zeros(i - 1) + rest.bits) == Zeros(i) + rest.bits;
  }

  /** Bit by bit, the other way round: from all 1 bits, add_one clears every bit and
      answers -1. */
  lemma CarryAll(bits: seq<bool>, after: seq<bool>)
    requires |after| == |bits|
    requires forall j :: 0 <= j < |bits| ==> bits[j] && !after[j]
    ensures Increment(bits) == Tick(after, -1)
  {
    IncrementSkipsOnes(bits, |bits|);
    assert bits[|bits|..] == [];
    assert after == Zeros(|bits|) + [];
  }

  /** Bit by bit, the other way round: when bits 0..i-1 are 1 and bit i is 0, add_one clears
      bits 0..i-1, sets bit i, keeps the bits above i and answers i. */
  lemma CarryAt(bits: seq<bool>, after: seq<bool>, i: nat)
    requires |after| == |bits| && i < |bits|
    requires forall j :: 0 <= j < i ==> bits[j] && !after[j]
    requires !bits[i] && after[i]
    requires forall j :: i < j < |bits| ==> after[j] == bits[j]
    ensures Increment(bits) == Tick(after, i)
  {
    var high := bits[i + 1..];
    assert bits[i..] == [false] + high;
    var want := Zeros(i) + ([true] + high);
    forall j | 0 <= j < |after|
      ensures after[j] == want[j]
    {
      if j > i {
        assert want[j] == high[j - i - 1];
      }
    }
    assert after == want;
    IncrementSkipsOnes(bits, i);
  }

  lemma {:induction false} ValueZeros(n: nat)
    ensures Value(Zeros(n)) == 0
  {
    if n > 0 {
      assert Zeros(n)[1..] == Zeros(n - 1);
      ValueZeros(n - 1);
    }
  }

  /** N bits hold a number below 2^N. */
  lemma {:induction false} ValueBound(bits: seq<bool>)
    ensures Value(bits) < Pow2(|bits|)
  {
    if bits != [] {
      ValueBound(bits[1..]);
    }
  }

  /** add_one adds 1 to the binary number, and answers -1 exactly when the number was
      2^N - 1, which wraps to 0. */
  lemma {:induction false} IncrementValue(bits: seq<bool>)
    ensures Increment(bits).disk != -1 ==> Value(Increment(bits).bits) == Value(bits) + 1
    ensures Increment(bits).disk == -1 <==> Value(bits) == Pow2(|bits|) - 1
    ensures Increment(bits).disk == -1 ==> Value(Increment(bits).bits) == 0
  {
    var t := Increment(bits);
    ValueBound(t.bits);
    if bits == [] {
    } else if !bits[0] {
      assert t.bits[1..] == bits[1..];
    } else {
      IncrementValue(bits[1..]);
      var u := Increment(bits[1..]);
      assert t.bits[1..] == u.bits;
      if u.disk == -1 {
        ValueZeros(|u.bits|);
        assert u.bits == Zeros(|bits| - 1) by { IncrementBits(bits[1..]); }
        assert t.bits == Zeros(|bits|);
        ValueZeros(|bits|);
      }
    }
  }

  /** The bits and the answers after m calls of add_one, answers in call order. */
  datatype Trace = Trace(bits: seq<bool>, disks: seq<int>)

  function RunCounter(bits: seq<bool>, m: nat): (r: Trace)
    ensures |r.bits| == |bits| && |r.disks| == m
  {
    if m == 0 then Trace(bits, [])
    else
      var prev := RunCounter(bits, m - 1);
      var t := Increment(prev.bits);
      Trace(t.bits, prev.disks + [t.disk])
  }

  /** m1 + m2 calls are m1 calls followed by m2 calls. */
  lemma {:induction false} RunCounterAdd(bits: seq<bool>, m1: nat, m2: nat)
    ensures RunCounter(bits, m1 + m2).bits == RunCounter(RunCounter(bits, m1).bits, m2).bits
    ensures RunCounter(bits, m1 + m2).disks
         == RunCounter(bits, m1).disks + RunCounter(RunCounter(bits, m1).bits, m2).disks
    decreases m2
  {
    var first := RunCounter(bits, m1);
    if m2 == 0 {
      assert first.disks + [] == first.disks;
    } else {
      RunCounterAdd(bits, m1, m2 - 1);
      var whole := RunCounter(bits, m1 + m2 - 1);
      var second := RunCounter(first.bits, m2 - 1);
      assert whole.bits == second.bits;
      assert whole.disks == first.disks + second.disks;
      var t := Increment(second.bits);
      assert RunCounter(bits, m1 + m2) == Trace(t.bits, whole.disks + [t.disk]);
      assert RunCounter(first.bits, m2) == Trace(t.bits, second.disks + [t.disk]);
      assert first.disks + second.disks + [t.disk] == first.disks + (second.disks + [t.disk]);
    }
  }

  /** Two stretches of calls chain together. */
  lemma RunCounterThen(b0: seq<bool>, b1: seq<bool>, b2: seq<bool>, m1: nat, m2: nat, m: nat,
                       d1: seq<int>, d2: seq<int>, d: seq<int>)
    requires RunCounter(b0, m1) == Trace(b1, d1) && RunCounter(b1, m2) == Trace(b2, d2)
    requires m == m1 + m2 && d == d1 + d2
    ensures RunCounter(b0, m) == Trace(b2, d)
  {
    RunCounterAdd(b0, m1, m2);
  }

  /** The disks moved while a tower of n disks is transferred: the ruler sequence
      0, 1, 0, 2, 0, 1, 0, ... of length 2^n - 1. */
  function Ruler(n: nat): seq<int>
  {
    if n == 0 then [] else Ruler(n - 1) + [n - 1] + Ruler(n - 1)
  }

  /** The ruler sequence of n has 2^n - 1 entries, each a disk below n. */
  lemma {:induction false} RulerFacts(n: nat)
    ensures |Ruler(n)| == Pow2(n) - 1
    ensures forall i :: 0 <= i < |Ruler(n)| ==> 0 <= Ruler(n)[i] < n
  {
    if n > 0 {
      RulerFacts(n - 1);
      var r := Ruler(n - 1);
      var whole := Ruler(n);
      assert whole == r + [n - 1] + r;
      forall i | 0 <= i < |whole|
        ensures 0 <= whole[i] < n
      {
        if i < |r| {
          assert whole[i] == r[i];
        } else if i > |r| {
          assert whole[i] == r[i - |r| - 1];
        }
      }
    }
  }

  /** Counting the low n bits up from all zeros to all ones answers the ruler sequence of n
      and leaves the higher bits alone. */
  lemma {:induction false} CountUpToOnes(n: nat, high: seq<bool>)
    ensures RunCounter(Zeros(n) + high, Pow2(n) - 1) == Trace(Ones(n) + high, Ruler(n))
    decreases n, 2
  {
    if n == 0 {
      assert Zeros(0) + high == high && Ones(0) + high == high;
      assert Pow2(0) - 1 == 0 && Ruler(0) == [];
    } else {
      CountBothHalves(n, high);
    }
  }

  /** The count of n >= 1 bits is the count of the low n-1 bits up to bit n-1, then the
      count of the low n-1 bits again. */
  lemma {:induction false} CountBothHalves(n: nat, high: seq<bool>)
    requires n >= 1
    ensures RunCounter(Zeros(n) + high, Pow2(n) - 1) == Trace(Ones(n) + high, Ruler(n))
    decreases n, 1
  {
    var h := Pow2(n - 1) - 1;
    var after := Zeros(n - 1) + ([true] + high);
    CountToTopBit(n, high);
    CountUpToOnes(n - 1, [true] + high);
    SplitTopBit(n, high);
    var r := Ruler(n - 1);
    RunCounterThen(Zeros(n) + high, after, Ones(n) + high, h + 1, h, Pow2(n) - 1,
                   r + [n - 1], r, Ruler(n));
  }

  /** Counting the low n-1 bits up to all ones and one call more sets bit n-1 and answers
      n-1, the low bits back at zero. */
  lemma {:induction false} CountToTopBit(n: nat, high: seq<bool>)
    requires n >= 1
    ensures RunCounter(Zeros(n) + high, Pow2(n - 1))
         == Trace(Zeros(n - 1) + ([true] + high), Ruler(n - 1) + [n - 1])
    decreases n, 0
  {
    var start := Zeros(n) + high;
    SplitTopBit(n, high);
    CountUpToOnes(n - 1, [false] + high);
    CarryIntoHigh(n - 1, high);
    RunCounterOneMore(start, Pow2(n - 1) - 1, Zeros(n - 1) + ([true] + high), n - 1);
  }

  /** The top bit of n zeros or n ones can be split off below the higher bits. */
  lemma SplitTopBit(n: nat, high: seq<bool>)
    requires n >= 1
    ensures Zeros(n) + high == Zeros(n - 1) + ([false] + high)
    ensures Ones(n) + high == Ones(n - 1) + ([true] + high)
  {
    assert Zeros(n) == Zeros(n - 1) + [false];
    assert Ones(n) == Ones(n - 1) + [true];
  }

  /** From k low 1 bits followed by a 0, add_one clears the k bits, sets bit k and answers k. */
  lemma CarryIntoHigh(k: nat, high: seq<bool>)
    ensures Increment(Ones(k) + ([false] + high)) == Tick(Zeros(k) + ([true] + high), k)
  {
    var mid := Ones(k) + ([false] + high);
    IncrementSkipsOnes(mid, k);
    assert mid[k..] == [false] + high;
  }

  /** One more call of add_one extends the answers by its answer. */
  lemma RunCounterOneMore(bits: seq<bool>, m: nat, after: seq<bool>, disk: int)
    requires Increment(RunCounter(bits, m).bits) == Tick(after, disk)
    ensures RunCounter(bits, m + 1) == Trace(after, RunCounter(bits, m).disks + [disk])
  {
  }

  /** From all zeros, the first 2^N - 1 calls count up without rolling over, and call number
      2^N rolls the counter back to all zeros and answers -1. */
  lemma CounterWraps(n: nat)
    ensures RunCounter(Zeros(n), Pow2(n) - 1) == Trace(Ones(n), Ruler(n))
    ensures RunCounter(Zeros(n), Pow2(n)) == Trace(Zeros(n), Ruler(n) + [-1])
  {
    assert RunCounter(Zeros(n), Pow2(n) - 1) == Trace(Ones(n), Ruler(n)) by {
      CountUpToOnes(n, []);
      assert Zeros(n) + [] == Zeros(n) && Ones(n) + [] == Ones(n);
    }
    assert Increment(Ones(n)) == Tick(Zeros(n), -1) by {
      IncrementSkipsOnes(Ones(n), n);
      assert Ones(n)[n..] == [] && Zeros(n) + [] == Zeros(n);
    }
    RunCounterOneMore(Zeros(n), Pow2(n) - 1, Zeros(n), -1);
  }

  /** Within one cycle, disk_bits holds the number of add_one calls made so far. */
  lemma {:induction false} CounterCountsCalls(n: nat, m: nat)
    requires m < Pow2(n)
    ensures Value(RunCounter(Zeros(n), m).bits) == m
  {
    if m == 0 {
      ValueZeros(n);
    } else {
      var prev := RunCounter(Zeros(n), m - 1);
      CounterCountsCalls(n, m - 1);
      IncrementValue(prev.bits);
    }
  }

  /** The counter runs in cycles of 2^n calls: 2^n more calls leave disk_bits as it was. */
  lemma CounterCycles(n: nat, m: nat, later: nat)
    requires later == Pow2(n) + m
    ensures RunCounter(Zeros(n), later).bits == RunCounter(Zeros(n), m).bits
  {
    RunCounterAdd(Zeros(n), Pow2(n), m);
    CounterWraps(n);
  }

  /** After q whole cycles and r < 2^n more calls, disk_bits holds r: the counter holds the
      number of calls made so far modulo 2^n. */
  lemma {:induction false} CounterCountsCallsMod(n: nat, q: nat, r: nat, m: nat)
    requires r < Pow2(n) && m == q * Pow2(n) + r
    ensures Value(RunCounter(Zeros(n), m).bits) == r
  {
    if q == 0 {
      CounterCountsCalls(n, r);
    } else {
      var p := Pow2(n);
      var rest := (q - 1) * p + r;
      MulPrev(q, p);
      CounterCycles(n, rest, m);
      CounterCountsCallsMod(n, q - 1, r, rest);
    }
  }

  /** For every number m of calls, disk_bits holds m mod 2^n. */
  lemma CounterValueMod(n: nat, m: nat)
    ensures Value(RunCounter(Zeros(n), m).bits) == m % Pow2(n)
  {
    var p := Pow2(n);
    DivMod(m, p);
    CounterCountsCallsMod(n, m / p, m % p, m);
  }

  /** q whole cycles of p calls are one cycle more than q - 1 of them. */
  lemma MulPrev(q: nat, p: nat)
    requires q >= 1
    ensures q * p == (q - 1) * p + p && (q - 1) * p >= 0
  {
  }

  /** m calls are m / p whole cycles of p calls and m % p more. */
  lemma DivMod(m: nat, p: nat)
    requires p >= 1
    ensures m == (m / p) * p + m % p && m / p >= 0 && m % p < p
  {
  }
}
