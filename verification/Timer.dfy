/** The virtual timer arithmetic of the PIT handler.

    The handler keeps a 32-bit tick counter and derives, from the bits that change
    between two successive scaled times, which of the 16 virtual timers fire. This
    module proves that the bit trick is a divisibility test on the number of ticks
    since boot, for every tick, across the wrap of both the counter and its scaling. */
module Timer {
  import opened Arith

  /** Timer bits raised on a tick: the value of `time` after the last assignment to it
      in the handler, in 32-bit wrap-around arithmetic. Timer `i` is bit `15 - i`. */
  function FiredBits(tick: bv32, freq: bv32): bv32
    requires freq != 0
  {
    var ptime := ((tick - 1) << 10) / freq;
    var ctime := (tick << 10) / freq;
    var time := ptime ^ ctime;
    time + (time & (0 - time)) - 1
  }

  /** Whether the handler sends the event of virtual timer `i`. */
  predicate Fires(tick: bv32, freq: bv32, i: nat)
    requires freq != 0 && i < 16
  {
    FiredBits(tick, freq) & ((1 as bv32) << (15 - i)) != 0
  }

  /** The 32-bit tick counter after `n` timer interrupts. */
  function TickAt(n: nat): bv32 {
    if n == 0 then 0 else TickAt(n - 1) + 1
  }

  /** `2^k` as a machine word. */
  function Bit(k: nat): bv32
    requires k < 16
  {
    match k
    case 0 => 1
    case 1 => 2
    case 2 => 4
    case 3 => 8
    case 4 => 16
    case 5 => 32
    case 6 => 64
    case 7 => 128
    case 8 => 256
    case 9 => 512
    case 10 => 1024
    case 11 => 2048
    case 12 => 4096
    case 13 => 8192
    case 14 => 16384
    case 15 => 32768
  }

  lemma BitIsShift(k: nat)
    requires k < 16
    ensures (1 as bv32) << k == Bit(k)
  {
  }

  predicate LowClear(t: bv32, b: bv32) {
    t & (b - 1) == 0
  }

  predicate BitSet(t: bv32, b: bv32) {
    t & b != 0
  }

  predicate OneBit(b: bv32) {
    b & (b - 1) == 0 && 0 < b <= 0x8000
  }

  // The handler's word arithmetic, one power-of-two frequency at a time.

  lemma Fired32(t: bv32, q: bv32, b: bv32)
    requires OneBit(q) && b == q << 5
    ensures BitSet(FiredBits(t, 32), b) <==> LowClear(t, q)
  {
  }

  lemma Fired64(t: bv32, q: bv32, b: bv32)
    requires OneBit(q) && b == q << 4
    ensures BitSet(FiredBits(t, 64), b) <==> LowClear(t, q)
  {
  }

  lemma Fired128(t: bv32, q: bv32, b: bv32)
    requires OneBit(q) && b == q << 3
    ensures BitSet(FiredBits(t, 128), b) <==> LowClear(t, q)
  {
  }

  lemma Fired256(t: bv32, q: bv32, b: bv32)
    requires OneBit(q) && b == q << 2
    ensures BitSet(FiredBits(t, 256), b) <==> LowClear(t, q)
  {
  }

  lemma Fired512(t: bv32, q: bv32, b: bv32)
    requires OneBit(q) && b == q << 1
    ensures BitSet(FiredBits(t, 512), b) <==> LowClear(t, q)
  {
  }

  lemma Fired1024(t: bv32, q: bv32, b: bv32)
    requires OneBit(q) && b == q
    ensures BitSet(FiredBits(t, 1024), b) <==> LowClear(t, q)
  {
  }

  // Timers faster than the tick rate have their bit among the padding bits.

  lemma Padded32(t: bv32, b: bv32)
    requires OneBit(b) && b <= 16
    ensures BitSet(FiredBits(t, 32), b)
  {
  }

  lemma Padded64(t: bv32, b: bv32)
    requires OneBit(b) && b <= 8
    ensures BitSet(FiredBits(t, 64), b)
  {
  }

  lemma Padded128(t: bv32, b: bv32)
    requires OneBit(b) && b <= 4
    ensures BitSet(FiredBits(t, 128), b)
  {
  }

  lemma Padded256(t: bv32, b: bv32)
    requires OneBit(b) && b <= 2
    ensures BitSet(FiredBits(t, 256), b)
  {
  }

  lemma Padded512(t: bv32, b: bv32)
    requires OneBit(b) && b <= 1
    ensures BitSet(FiredBits(t, 512), b)
  {
  }

  lemma BitShift1(k: nat)
    requires k < 15
    ensures Bit(k + 1) == Bit(k) << 1
  {
  }

  lemma BitShift2(k: nat)
    requires k < 14
    ensures Bit(k + 2) == Bit(k) << 2
  {
  }

  lemma BitShift3(k: nat)
    requires k < 13
    ensures Bit(k + 3) == Bit(k) << 3
  {
  }

  lemma BitShift4(k: nat)
    requires k < 12
    ensures Bit(k + 4) == Bit(k) << 4
  {
  }

  lemma BitShift5(k: nat)
    requires k < 11
    ensures Bit(k + 5) == Bit(k) << 5
  {
  }

  lemma BitSmall(k: nat)
    requires k < 16
    ensures OneBit(Bit(k))
    ensures k <= 4 ==> Bit(k) <= 16
    ensures k <= 3 ==> Bit(k) <= 8
    ensures k <= 2 ==> Bit(k) <= 4
    ensures k <= 1 ==> Bit(k) <= 2
    ensures k <= 0 ==> Bit(k) <= 1
  {
  }

  lemma FiresIsBit(t: bv32, freq: bv32, i: nat)
    requires freq != 0 && i < 16
    ensures Fires(t, freq, i) <==> BitSet(FiredBits(t, freq), Bit(15 - i))
  {
    hide FiredBits, Bit;
    BitIsShift(15 - i);
  }

  /** For every counter value, timer `i` fires exactly when the low `m + 5 - i` bits of
      the counter are clear. */
  lemma FiresOnClearLowBits(t: bv32, m: nat, i: nat)
    requires 5 <= m <= 10 && i < 16
    ensures Bit(m) != 0
    ensures Fires(t, Bit(m), i) <==> m + 5 < i || LowClear(t, Bit(m + 5 - i))
  {
    hide *;
    BitValues();
    FiresIsBit(t, Bit(m), i);
    if m + 5 < i {
      BitSmall(15 - i);
      if m == 5 {
        Padded32(t, Bit(15 - i));
      } else if m == 6 {
        Padded64(t, Bit(15 - i));
      } else if m == 7 {
        Padded128(t, Bit(15 - i));
      } else if m == 8 {
        Padded256(t, Bit(15 - i));
      } else {
        Padded512(t, Bit(15 - i));
      }
    } else {
      var k := m + 5 - i;
      BitSmall(k);
      match m {
        case 5 => BitShift5(k); Fired32(t, Bit(k), Bit(15 - i));
        case 6 => BitShift4(k); Fired64(t, Bit(k), Bit(15 - i));
        case 7 => BitShift3(k); Fired128(t, Bit(k), Bit(15 - i));
        case 8 => BitShift2(k); Fired256(t, Bit(k), Bit(15 - i));
        case 9 => BitShift1(k); Fired512(t, Bit(k), Bit(15 - i));
        case 10 => Fired1024(t, Bit(k), Bit(15 - i));
      }
    }
  }

  lemma BitValues()
    ensures Bit(0) == 1 && Bit(5) == 32 && Bit(6) == 64 && Bit(7) == 128
    ensures Bit(8) == 256 && Bit(9) == 512 && Bit(10) == 1024
  {
  }

  // From counter bits to the number of ticks since boot.

  lemma Carry(t: bv32, b: bv32)
    requires OneBit(b)
    ensures BitSet(t + 1, b) <==> BitSet(t, b) != LowClear(t + 1, b)
  {
  }

  lemma ClearTwice(t: bv32, k: nat)
    requires k < 15
    ensures LowClear(t, Bit(k + 1)) <==> LowClear(t, Bit(k)) && !BitSet(t, Bit(k))
  {
  }

  /** The low bits of the counter agree with the number of ticks. */
  ghost predicate Counts(t: bv32, n: nat) {
    forall k: nat :: k < 16 ==> CountsBit(t, n, k)
  }

  ghost predicate CountsBit(t: bv32, n: nat, k: nat)
    requires k < 16
  {
    Pow2Positive(k);
    && (LowClear(t, Bit(k)) <==> n % Pow2(k) == 0)
    && (BitSet(t, Bit(k)) <==> n / Pow2(k) % 2 == 1)
  }

  lemma CountsZero()
    ensures Counts(0, 0)
  {
    forall k: nat {:trigger CountsBit(0, 0, k)} | k < 16
      ensures CountsBit(0, 0, k)
    {
      CountsZeroBit(k);
    }
  }

  lemma CountsZeroBit(k: nat)
    requires k < 16
    ensures CountsBit(0, 0, k)
  {
    Pow2Positive(k);
    DivModUnique(0, 0, Pow2(k), 0);
  }

  /** Incrementing the 32-bit counter keeps it in step with an unbounded tick count. */
  lemma CountsTick(t: bv32, n: nat)
    requires Counts(t, n)
    ensures Counts(t + 1, n + 1)
  {
    var t', n' := t + 1, n + 1;
    forall k: nat | k < 16
      ensures CountsBit(t', n', k)
    {
      CountsTickBit(t, n, k);
    }
  }

  lemma {:induction false} CountsTickBit(t: bv32, n: nat, k: nat)
    requires k < 16
    requires Counts(t, n)
    ensures CountsBit(t + 1, n + 1, k)
  {
    hide LowClear, BitSet, Bit, OneBit;
    Pow2Positive(k);
    if k == 0 {
      LowClearOne(t + 1);
    } else {
      CountsTickBit(t, n, k - 1);
      HalvesCount(t + 1, n + 1, k - 1);
    }
    assert CountsBit(t, n, k);
    CarryCounts(t, n, k);
  }

  lemma HalvesCount(t: bv32, n: nat, k: nat)
    requires k < 15
    requires CountsBit(t, n, k)
    ensures Pow2(k + 1) > 0
    ensures LowClear(t, Bit(k + 1)) <==> n % Pow2(k + 1) == 0
  {
    hide LowClear, BitSet, Bit;
    Pow2Positive(k);
    ClearTwice(t, k);
    HalvesDivide(n, Pow2(k));
  }

  lemma CarryCounts(t: bv32, n: nat, k: nat)
    requires k < 16 && CountsBit(t, n, k)
    requires Pow2(k) > 0
    requires LowClear(t + 1, Bit(k)) <==> (n + 1) % Pow2(k) == 0
    ensures CountsBit(t + 1, n + 1, k)
  {
    hide LowClear, BitSet, Bit, OneBit, Pow2;
    BitSmall(k);
    Carry(t, Bit(k));
    DivStep(n + 1, Pow2(k));
  }

  lemma LowClearOne(t: bv32)
    ensures LowClear(t, Bit(0))
  {
  }

  lemma HalvesDivide(n: nat, d: nat)
    requires d > 0
    ensures n % (2 * d) == 0 <==> n % d == 0 && n / d % 2 == 0
  {
    var q, r := n / d, n % d;
    assert n == q / 2 * (2 * d) + (q % 2 * d + r);
    DivModUnique(q / 2, q % 2 * d + r, 2 * d, n);
  }

  lemma {:induction false} TickAtCounts(n: nat)
    ensures Counts(TickAt(n), n)
  {
    hide Counts;
    if n == 0 {
      CountsZero();
    } else {
      TickAtCounts(n - 1);
      CountsTick(TickAt(n - 1), n - 1);
    }
  }

  /** The divisibility test, for any counter in step with its tick count. */
  lemma CountedFires(t: bv32, n: nat, m: nat, i: nat)
    requires 5 <= m <= 10 && i < 16
    requires Counts(t, n)
    ensures i <= m + 5 ==> Pow2(m + 5 - i) > 0
    ensures Fires(t, Bit(m), i) <==> m + 5 < i || n % Pow2(m + 5 - i) == 0
  {
    hide Fires, BitSet, Bit;
    FiresOnClearLowBits(t, m, i);
    if i <= m + 5 {
      Pow2Positive(m + 5 - i);
      assert CountsBit(t, n, m + 5 - i);
    }
  }

  /** At a PIT rate of 2^m Hz, on the n-th timer interrupt since boot, virtual timer `i`
      fires if and only if 2^(m+5-i) divides n, and on every tick when i >= m + 5.
      `n` is unbounded, so this covers the wrap of the 32-bit counter and of its
      ten-bit left shift. */
  lemma FiresExactlyOnMultiples(n: nat, m: nat, i: nat)
    requires 5 <= m <= 10 && i < 16
    ensures i <= m + 5 ==> Pow2(m + 5 - i) > 0
    ensures Fires(TickAt(n), Bit(m), i) <==> m + 5 < i || n % Pow2(m + 5 - i) == 0
  {
    hide *;
    TickAtCounts(n);
    CountedFires(TickAt(n), n, m, i);
  }

  /** How often timer `i` fires on the ticks `from + 1 .. from + len`. */
  function Firings(from: nat, len: nat, m: nat, i: nat): nat
    requires 5 <= m <= 10 && i < 16
  {
    if len == 0 then 0
    else Firings(from, len - 1, m, i) + if Fires(TickAt(from + len), Bit(m), i) then 1 else 0
  }

  lemma {:induction false} MultiplesInWindow(from: nat, len: nat, m: nat, i: nat)
    requires 5 <= m <= 10 && i < 16 && i <= m + 5
    ensures Pow2(m + 5 - i) > 0
    ensures Firings(from, len, m, i) == (from + len) / Pow2(m + 5 - i) - from / Pow2(m + 5 - i)
  {
    hide Fires, TickAt, Bit;
    var d := Pow2(m + 5 - i);
    Pow2Positive(m + 5 - i);
    if len > 0 {
      MultiplesInWindow(from, len - 1, m, i);
      FiresExactlyOnMultiples(from + len, m, i);
      assert i == m + 5 ==> d == 1;
      DivStep(from + len, d);
    }
  }

  lemma DivStep(n: nat, d: nat)
    requires 0 < d && 0 < n
    ensures n / d == (n - 1) / d + if n % d == 0 then 1 else 0
  {
    var q, r := (n - 1) / d, (n - 1) % d;
    if r == d - 1 {
      assert n == (q + 1) * d;
      DivModUnique(q + 1, 0, d, n);
    } else {
      DivModUnique(q, r + 1, d, n);
    }
  }

  /** The documented rate: in any window of `j` periods of 2^(m+5-i) ticks, wherever it
      starts, timer `i` fires exactly `j` times. At 2^m ticks a second that is
      2^(i-5) Hz. */
  lemma DocumentedRate(from: nat, j: nat, m: nat, i: nat)
    requires 5 <= m <= 10 && i < 16 && i <= m + 5
    ensures Firings(from, j * Pow2(m + 5 - i), m, i) == j
  {
    hide *;
    var d := Pow2(m + 5 - i);
    MultiplesInWindow(from, j * d, m, i);
    assert from + j * d == (from / d + j) * d + from % d;
    DivModUnique(from / d + j, from % d, d, from + j * d);
  }
}
