/** The lottery of the scheduler (proc.c): the generator krand, the draw, and how often each
    process wins over a period of the generator. */
module Lottery {
  import opened Sets

  const MODULUS: int := 0x1_0000_0000
  const MULTIPLIER := 1664525
  const INCREMENT := 1013904223

  function Krand(rng: nat): (r: nat)
    ensures r < MODULUS
  {
    (rng * MULTIPLIER + INCREMENT) % MODULUS
  }

  /** The first draws of a booted kernel, whose generator starts at 1. */
  lemma FirstDraws()
    ensures After(1, 1) == 1015568748 && After(1, 2) == 1586005467 && After(1, 3) == 2165703038 && After(1, 4) == 3027450565
  {
    assert After(1, 0) == 1;
  }

  /** The state of the generator after n calls. */
  function After(rng: nat, n: nat): nat {
    if n == 0 then rng else Krand(After(rng, n - 1))
  }

  // ---------- The generator has full period ----------

  /** 1 + MULTIPLIER + ... + MULTIPLIER^(n-1). */
  ghost function Geometric(n: nat): nat {
    if n == 0 then 0 else MULTIPLIER * Geometric(n - 1) + 1
  }

  /** The orbit without reduction; every point of it is the start plus a multiple of Geometric. */
  ghost function Unreduced(rng: nat, n: nat): nat {
    if n == 0 then rng else Unreduced(rng, n - 1) * MULTIPLIER + INCREMENT
  }

  ghost function Stride(rng: nat): nat { (MULTIPLIER - 1) * rng + INCREMENT }

  lemma {:induction false} UnreducedForm(rng: nat, n: nat)
    ensures Unreduced(rng, n) == rng + Geometric(n) * Stride(rng)
  {
    if n > 0 {
      UnreducedForm(rng, n - 1);
      var g, s := Geometric(n - 1), Stride(rng);
      calc {
        Unreduced(rng, n);
        (rng + g * s) * MULTIPLIER + INCREMENT;
        { Distribute(g, s, MULTIPLIER); }
        rng * MULTIPLIER + INCREMENT + (MULTIPLIER * g) * s;
        rng + s + (MULTIPLIER * g) * s;
        { Distribute1(MULTIPLIER * g, s); }
        rng + Geometric(n) * s;
      }
    }
  }

  lemma Distribute(g: int, s: int, m: int)
    ensures (g * s) * m == (m * g) * s
  {
  }

  lemma Distribute1(a: int, s: int)
    ensures s + a * s == (a + 1) * s
  {
  }

  lemma {:induction false} ReducedForm(rng: nat, n: nat)
    requires rng < MODULUS
    ensures After(rng, n) == Unreduced(rng, n) % MODULUS
  {
    if n > 0 {
      ReducedForm(rng, n - 1);
      ModLinear(Unreduced(rng, n - 1));
    }
  }

  lemma ModLinear(x: nat)
    ensures (x % MODULUS * MULTIPLIER + INCREMENT) % MODULUS == (x * MULTIPLIER + INCREMENT) % MODULUS
  {
    var q, r := x / MODULUS, x % MODULUS;
    assert x * MULTIPLIER + INCREMENT == r * MULTIPLIER + INCREMENT + MODULUS * (q * MULTIPLIER);
    ModPlusMultiple(r * MULTIPLIER + INCREMENT, q * MULTIPLIER);
  }

  lemma {:induction false} ModPlusMultiple(a: nat, k: nat)
    ensures (a + MODULUS * k) % MODULUS == a % MODULUS
  {
    if k > 0 {
      ModPlusMultiple(a, k - 1);
      assert a + MODULUS * k == (a + MODULUS * (k - 1)) + MODULUS;
    }
  }

  /** z is a multiple of 2^k. */
  ghost predicate TwoDivides(k: nat, z: nat) {
    k == 0 || (z % 2 == 0 && TwoDivides(k - 1, z / 2))
  }

  lemma {:induction false} OddFactor(k: nat, a: nat, o: nat)
    requires o % 2 == 1
    ensures a * o >= 0 && (TwoDivides(k, a * o) <==> TwoDivides(k, a))
  {
    hide TwoDivides;
    OddTimes(a, o / 2);
    var z: nat := a * o;
    if k == 0 {
      NoneDivides(z, a);
    } else if a % 2 == 0 {
      var b := a / 2;
      Times2(b, o);
      OddFactor(k - 1, b, o);
      HalfDivides(k, z, b * o);
      HalfDivides(k, a, b);
    } else {
      OddDivides(k, z);
      OddDivides(k, a);
    }
  }

  lemma OddTimes(a: nat, h: nat)
    ensures a * h >= 0 && a * (2 * h + 1) == 2 * (a * h) + a
  {
  }

  lemma {:induction false} GeometricAdd(i: nat, j: nat)
    ensures Geometric(i + j) == Geometric(i) + Geometric(j) + (MULTIPLIER - 1) * (Geometric(i) * Geometric(j))
  {
    if i > 0 {
      GeometricAdd(i - 1, j);
      TimesStep(Geometric(i - 1), Geometric(j));
    }
  }

  lemma TimesStep(a: nat, b: nat)
    ensures (MULTIPLIER * a + 1) * b == MULTIPLIER * (a * b) + b
  {
  }

  lemma {:induction false} GeometricParity(n: nat)
    ensures Geometric(n) % 2 == n % 2
  {
    if n > 0 {
      GeometricParity(n - 1);
      var g := Geometric(n - 1);
      assert Geometric(n) == 2 * (832262 * g) + g + 1;
    }
  }

  lemma GeometricDouble(m: nat)
    ensures Geometric(2 * m) == 2 * (Geometric(m) * (1 + 832262 * Geometric(m)))
  {
    GeometricAdd(m, m);
    var g := Geometric(m);
    assert g * (1 + 832262 * g) == g + 832262 * (g * g);
  }

  /** Because MULTIPLIER is 1 modulo 4, Geometric(n) has as many factors of two as n. */
  lemma {:induction false} GeometricTwos(k: nat, n: nat)
    ensures TwoDivides(k, Geometric(n)) <==> TwoDivides(k, n)
  {
    hide Geometric, TwoDivides;
    if k == 0 {
      NoneDivides(Geometric(n), n);
    } else {
      GeometricParity(n);
      if n % 2 == 0 {
        var m := n / 2;
        var g := Geometric(m);
        var o := 1 + 832262 * g;
        GeometricDouble(m);
        assert g * o >= 0;
        OddFactor(k - 1, g, o);
        GeometricTwos(k - 1, m);
        HalfDivides(k, Geometric(n), g * o);
        HalfDivides(k, n, m);
      } else {
        OddDivides(k, Geometric(n));
        OddDivides(k, n);
      }
    }
  }

  lemma NoneDivides(y: nat, z: nat)
    ensures TwoDivides(0, y) && TwoDivides(0, z)
  {
  }

  lemma HalfDivides(k: nat, z: nat, y: nat)
    requires k > 0 && z == 2 * y
    ensures TwoDivides(k, z) <==> TwoDivides(k - 1, y)
  {
  }

  lemma OddDivides(k: nat, z: nat)
    requires k > 0 && z % 2 == 1
    ensures !TwoDivides(k, z)
  {
  }

  ghost function Pow2(k: nat): nat {
    if k == 0 then 1 else 2 * Pow2(k - 1)
  }

  lemma Pow2At32()
    ensures Pow2(32) == MODULUS
  {
    assert Pow2(6) == 64;
    assert Pow2(12) == 64 * 64;
    assert Pow2(18) == 64 * 64 * 64;
    assert Pow2(24) == 64 * 64 * 64 * 64;
    assert Pow2(30) == 64 * 64 * 64 * 64 * 64;
  }

  lemma {:induction false} Quotient(k: nat, z: nat) returns (q: nat)
    requires TwoDivides(k, z)
    ensures z == Pow2(k) * q
  {
    if k == 0 {
      q := z;
    } else {
      q := Quotient(k - 1, z / 2);
      Times2(Pow2(k - 1), q);
    }
  }

  lemma {:induction false} Multiple(k: nat, q: nat)
    ensures Pow2(k) * q >= 0 && TwoDivides(k, Pow2(k) * q)
  {
    if k > 0 {
      Times2(Pow2(k - 1), q);
      Multiple(k - 1, q);
    }
  }

  lemma Times2(p: nat, q: nat)
    ensures (2 * p) * q == 2 * (p * q)
  {
  }

  lemma TwoDivides32(z: nat)
    ensures TwoDivides(32, z) <==> z % MODULUS == 0
  {
    hide TwoDivides, Pow2;
    Pow2At32();
    if TwoDivides(32, z) {
      var q := Quotient(32, z);
    }
    Multiple(32, z / MODULUS);
  }

  /** The generator returns to a state exactly after multiples of 2^32 calls. */
  lemma Period(rng: nat, n: nat)
    requires rng < MODULUS
    ensures After(rng, n) == rng <==> n % MODULUS == 0
  {
    hide TwoDivides, After, Unreduced, Geometric;
    ReducedForm(rng, n);
    UnreducedForm(rng, n);
    var g, s := Geometric(n), Stride(rng);
    StrideOdd(rng);
    assert g * s >= 0;
    SumMod(rng, g * s);
    OddFactor(32, g, s);
    GeometricTwos(32, n);
    TwoDivides32(g * s);
    TwoDivides32(n);
  }

  lemma StrideOdd(rng: nat)
    ensures Stride(rng) % 2 == 1
  {
  }

  lemma SumMod(a: nat, z: nat)
    requires a < MODULUS
    ensures (a + z) % MODULUS == a <==> z % MODULUS == 0
  {
  }

  // ---------- Every value once per period ----------

  lemma {:induction false} AfterAdd(rng: nat, i: nat, d: nat)
    ensures After(rng, i + d) == After(After(rng, i), d)
  {
    if d > 0 {
      AfterAdd(rng, i, d - 1);
    }
  }

  lemma AfterBound(rng: nat, i: nat)
    requires rng < MODULUS
    ensures After(rng, i) < MODULUS
  {
  }

  lemma DrawsDiffer(rng: nat, i: nat, j: nat)
    requires rng < MODULUS && i < j < i + MODULUS
    ensures After(rng, i) != After(rng, j)
  {
    AfterAdd(rng, i, j - i);
    AfterBound(rng, i);
    Period(After(rng, i), j - i);
  }

  ghost function Image(f: nat -> nat, s: set<nat>): set<nat> {
    set i | i in s :: f(i)
  }

  ghost predicate Injective(f: nat -> nat, s: set<nat>) {
    forall i, j :: i in s && j in s && f(i) == f(j) ==> i == j
  }

  lemma {:induction false} ImageSize(f: nat -> nat, s: set<nat>)
    requires Injective(f, s)
    ensures |Image(f, s)| == |s|
    decreases s
  {
    if i :| i in s {
      ImageSize(f, s - {i});
      assert Image(f, s) == Image(f, s - {i}) + {f(i)};
    }
  }

  /** The value of the i-th draw, counting from 0, when the generator starts at rng. */
  ghost function Drawn(rng: nat): nat -> nat { i => After(rng, i + 1) }

  /** 2^32 consecutive draws deliver every 32-bit value, each exactly once. */
  lemma EveryValueOnce(rng: nat)
    requires rng < MODULUS
    ensures Image(Drawn(rng), Range(MODULUS)) == Range(MODULUS)
    ensures Injective(Drawn(rng), Range(MODULUS))
  {
    hide After, Range;
    forall i, j | i in Range(MODULUS) && j in Range(MODULUS) && i != j ensures Drawn(rng)(i) != Drawn(rng)(j) {
      DrawsDiffer(rng, if i < j then i + 1 else j + 1, if i < j then j + 1 else i + 1);
    }
    forall v | v in Image(Drawn(rng), Range(MODULUS)) ensures v in Range(MODULUS) {
      var i :| i in Range(MODULUS) && Drawn(rng)(i) == v;
      AfterBound(rng, i + 1);
    }
    ImageSize(Drawn(rng), Range(MODULUS));
    SameSizeSubset(Image(Drawn(rng), Range(MODULUS)), Range(MODULUS));
  }

  // ---------- How often a ticket interval wins ----------

  /** Value v lets the process win whose tickets are numbered lo .. lo + tickets. */
  predicate Wins(v: nat, lo: nat, tickets: nat, total: nat)
    requires total > 0
  {
    lo <= v % total < lo + tickets
  }

  ghost function WinningDraws(rng: nat, n: nat, lo: nat, tickets: nat, total: nat): set<nat>
    requires total > 0
  {
    set i | i in Range(n) && Wins(Drawn(rng)(i), lo, tickets, total)
  }

  ghost function WinningValues(n: nat, lo: nat, tickets: nat, total: nat): set<nat>
    requires total > 0
  {
    set v | v in Range(n) && Wins(v, lo, tickets, total)
  }

  function Clamp(x: int, hi: nat): nat {
    if x < 0 then 0 else if x > hi then hi else x
  }

  /** How many of the values 0 .. n win. */
  function Share(n: nat, lo: nat, tickets: nat, total: nat): nat
    requires total > 0
  {
    n / total * tickets + Clamp(n % total - lo, tickets)
  }

  lemma {:induction false} WinningValuesCount(n: nat, lo: nat, tickets: nat, total: nat)
    requires 0 < total && lo + tickets <= total
    ensures |WinningValues(n, lo, tickets, total)| == Share(n, lo, tickets, total)
  {
    hide Share, Wins, WinningValues;
    if n > 0 {
      WinningValuesCount(n - 1, lo, tickets, total);
      WinningValuesNext(n - 1, lo, tickets, total);
      ShareStep(n - 1, lo, tickets, total);
    } else {
      NoWinningValues(lo, tickets, total);
      ShareZero(lo, tickets, total);
    }
  }

  lemma WinningValuesNext(n: nat, lo: nat, tickets: nat, total: nat)
    requires 0 < total
    ensures var s := WinningValues(n, lo, tickets, total);
      n !in s && WinningValues(n + 1, lo, tickets, total) == if Wins(n, lo, tickets, total) then s + {n} else s
  {
    hide Wins;
  }

  lemma NoWinningValues(lo: nat, tickets: nat, total: nat)
    requires 0 < total
    ensures WinningValues(0, lo, tickets, total) == {}
  {
  }

  lemma ShareZero(lo: nat, tickets: nat, total: nat)
    requires 0 < total
    ensures Share(0, lo, tickets, total) == 0
  {
    DivModUnique(0, total, 0, 0);
  }

  lemma ShareStep(m: nat, lo: nat, tickets: nat, total: nat)
    requires 0 < total && lo + tickets <= total
    ensures Share(m + 1, lo, tickets, total)
            == Share(m, lo, tickets, total) + if Wins(m, lo, tickets, total) then 1 else 0
  {
    hide *;
    var q, r := QuotientOf(m, total);
    var q', r' := QuotientOf(m + 1, total);
    NextQuotient(m, total, q, r, q', r');
    ShareIs(m, lo, tickets, total, q, r);
    ShareIs(m + 1, lo, tickets, total, q', r');
    WinsIs(m, lo, tickets, total, q, r);
    ShareNext(q, r, q', r', lo, tickets, total);
  }

  lemma QuotientOf(n: nat, d: nat) returns (q: nat, r: nat)
    requires d > 0
    ensures r < d && n == d * q + r
  {
    return n / d, n % d;
  }

  lemma ShareNext(q: nat, r: nat, q': nat, r': nat, lo: nat, tickets: nat, total: nat)
    requires r < total && lo + tickets <= total
    requires if r == total - 1 then q' == q + 1 && r' == 0 else q' == q && r' == r + 1
    ensures q' * tickets + Clamp(r' - lo, tickets)
            == q * tickets + Clamp(r - lo, tickets) + if lo <= r < lo + tickets then 1 else 0
  {
    ClampStep(r, r', lo, tickets, total);
    hide Clamp;
    Times(q, tickets);
  }

  lemma ShareIs(n: nat, lo: nat, tickets: nat, total: nat, q: nat, r: nat)
    requires r < total && n == total * q + r
    ensures Share(n, lo, tickets, total) == q * tickets + Clamp(r - lo, tickets)
  {
    DivModUnique(n, total, q, r);
  }

  lemma WinsIs(n: nat, lo: nat, tickets: nat, total: nat, q: nat, r: nat)
    requires r < total && n == total * q + r
    ensures Wins(n, lo, tickets, total) <==> lo <= r < lo + tickets
  {
    DivModUnique(n, total, q, r);
  }

  lemma ClampStep(r: nat, r': nat, lo: nat, tickets: nat, total: nat)
    requires r < total && lo + tickets <= total && r' == if r == total - 1 then 0 else r + 1
    ensures Clamp(r' - lo, tickets) + (if r == total - 1 then tickets else 0)
            == Clamp(r - lo, tickets) + if lo <= r < lo + tickets then 1 else 0
  {
  }

  lemma Times(q: nat, t: nat)
    ensures (q + 1) * t == q * t + t
  {
  }

  lemma NextQuotient(m: nat, d: nat, q: nat, r: nat, q': nat, r': nat)
    requires r < d && m == d * q + r && r' < d && m + 1 == d * q' + r'
    ensures if r == d - 1 then q' == q + 1 && r' == 0 else q' == q && r' == r + 1
  {
    DivModUnique(m + 1, d, q', r');
    if r == d - 1 {
      Times(q, d);
      DivModUnique(m + 1, d, q + 1, 0);
    } else {
      DivModUnique(m + 1, d, q, r + 1);
    }
  }

  lemma DivModUnique(x: nat, d: nat, q: nat, r: nat)
    requires d > 0 && r < d && x == d * q + r
    ensures x / d == q && x % d == r
  {
    var q', r' := x / d, x % d;
    assert d * q + r == d * q' + r';
    if q < q' {
      Grows(d, q, q');
    } else if q' < q {
      Grows(d, q', q);
    }
  }

  lemma Grows(d: nat, a: nat, b: nat)
    requires a < b
    ensures d * a + d <= d * b
  {
    var k := b - a - 1;
    assert d * (a + 1 + k) == d * a + d + d * k;
    assert d * k >= 0;
  }

  /** Over a period, a process with fixed tickets out of a fixed total wins a number of draws that
      is the same from every start, and within one of each ticket's even share. */
  lemma Fairness(rng: nat, lo: nat, tickets: nat, total: nat)
    requires rng < MODULUS && 0 < total < 0x8000_0000 && lo + tickets <= total
    ensures var wins := |WinningDraws(rng, MODULUS, lo, tickets, total)|;
      && wins == Share(MODULUS, lo, tickets, total)
      && tickets * (MODULUS / total) <= wins <= tickets * ((MODULUS + total - 1) / total)
  {
    hide After, Range, Share, Wins;
    var draws, values := WinningDraws(rng, MODULUS, lo, tickets, total), WinningValues(MODULUS, lo, tickets, total);
    EveryValueOnce(rng);
    SameCount(Drawn(rng), MODULUS, draws, values);
    WinningValuesCount(MODULUS, lo, tickets, total);
    Rounded(MODULUS, total, lo, tickets);
  }

  /** A permutation f of 0 .. n takes as many arguments into v as v has elements. */
  lemma SameCount(f: nat -> nat, n: nat, s: set<nat>, v: set<nat>)
    requires Image(f, Range(n)) == Range(n) && Injective(f, Range(n))
    requires v <= Range(n) && forall i :: i in s <==> i in Range(n) && f(i) in v
    ensures |s| == |v|
  {
    hide Range;
    forall x | x in v ensures x in Image(f, s) {
      assert x in Image(f, Range(n));
    }
    assert Image(f, s) == v;
    ImageSize(f, s);
  }

  lemma Rounded(n: nat, total: nat, lo: nat, tickets: nat)
    requires total > 0
    ensures tickets * (n / total) <= Share(n, lo, tickets, total) <= tickets * ((n + total - 1) / total)
  {
    var q, r := n / total, n % total;
    if r == 0 {
      DivModUnique(n + total - 1, total, q, total - 1);
    } else {
      assert n + total - 1 == total * (q + 1) + (r - 1) by { Times(q, total); }
      DivModUnique(n + total - 1, total, q + 1, r - 1);
      Times(q, tickets);
    }
  }

  // ---------- The draw ----------

  /** A slot of the process table, as the lottery sees it. */
  datatype Slot = Slot(runnable: bool, tickets: nat)

  /** Tickets of the runnable slots before slot p. */
  ghost function Before(table: seq<Slot>, p: nat): nat
    requires p <= |table|
  {
    if p == 0 then 0
    else Before(table, p - 1) + if table[p - 1].runnable then table[p - 1].tickets else 0
  }

  ghost function Total(table: seq<Slot>): nat { Before(table, |table|) }

  /** Ticket number w belongs to slot p. */
  ghost predicate Holds(table: seq<Slot>, p: nat, w: nat) {
    p < |table| && table[p].runnable && Before(table, p) <= w < Before(table, p) + table[p].tickets
  }

  lemma {:induction false} BeforeMonotone(table: seq<Slot>, p: nat, q: nat)
    requires p <= q <= |table|
    ensures Before(table, p) <= Before(table, q)
  {
    if p < q {
      BeforeMonotone(table, p, q - 1);
    }
  }

  /** Every ticket number below the total has exactly one holder. */
  lemma OneHolder(table: seq<Slot>, p: nat, q: nat, w: nat)
    requires Holds(table, p, w) && Holds(table, q, w)
    ensures p == q && w < Total(table)
  {
    if p < q {
      BeforeMonotone(table, p + 1, q);
    } else if q < p {
      BeforeMonotone(table, q + 1, p);
    }
    BeforeMonotone(table, p + 1, |table|);
  }

  /** The two loops of scheduler: the winner is the holder of ticket krand() % total. */
  method Draw(table: seq<Slot>, rng: nat) returns (winner: int, rng': nat)
    requires rng < MODULUS && Total(table) < 0x8000_0000
    requires forall p :: 0 <= p < |table| && table[p].runnable ==> table[p].tickets >= 1
    ensures winner == -1 <==> forall p :: 0 <= p < |table| ==> !table[p].runnable
    ensures winner == -1 ==> rng' == rng
    ensures winner != -1 ==> 0 <= winner && rng' == Krand(rng) && Total(table) > 0
                             && Holds(table, winner, rng' % Total(table))
  {
    var total := 0;
    for p := 0 to |table|
      invariant total == Before(table, p)
      invariant total == 0 <==> forall q :: 0 <= q < p ==> !table[q].runnable
    {
      if table[p].runnable {
        total := total + table[p].tickets;
      }
    }
    if total == 0 {
      return -1, rng;
    }
    rng' := Krand(rng);
    var ticket := rng' % total;
    var cumulative := 0;
    for p := 0 to |table|
      invariant cumulative == Before(table, p) <= ticket
    {
      if table[p].runnable {
        cumulative := cumulative + table[p].tickets;
        if cumulative > ticket {
          return p, rng';
        }
      }
    }
    assert false;
  }

  /** The draws of a period that slot p wins. */
  ghost function SlotDraws(table: seq<Slot>, rng: nat, p: nat): set<nat>
    requires Total(table) > 0
  {
    set i | i in Range(MODULUS) && Holds(table, p, Drawn(rng)(i) % Total(table))
  }

  /** Fairness for the table: with the same runnable slots and tickets throughout, slot p wins its
      share of the draws of a period. */
  lemma SlotFairness(table: seq<Slot>, rng: nat, p: nat)
    requires rng < MODULUS && p < |table| && table[p].runnable && 0 < Total(table) < 0x8000_0000
    ensures var t, n := table[p].tickets, Total(table);
      t * (MODULUS / n) <= |SlotDraws(table, rng, p)| <= t * ((MODULUS + n - 1) / n)
  {
    var lo, t, n := Before(table, p), table[p].tickets, Total(table);
    BeforeMonotone(table, p + 1, |table|);
    hide After, Range, Share, Total, Before;
    Fairness(rng, lo, t, n);
    assert SlotDraws(table, rng, p) == WinningDraws(rng, MODULUS, lo, t, n);
  }
}
