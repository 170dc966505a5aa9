/** How far the moves that are planned as cubic segments are from what the motion core does with them. */
module MotionError {
  import opened Arithmetic
  import opened Segments
  import opened MotionDevice

  /** The registers stand for position and velocity p. */
  ghost predicate At(x: int, v: int, p: Place) {
    x as real == p.x * UNITS && v as real == p.v * UNITS / STEP_FREQ
  }

  lemma {:induction false} RealProduct(k: nat, a: int)
    ensures (k * a) as real == k as real * a as real
  {
    if k > 0 {
      RealProduct(k - 1, a);
      assert k * a == (k - 1) * a + a;
      assert k as real * a as real == (k - 1) as real * a as real + a as real;
    }
  }

  lemma Counts(k: nat)
    ensures Pairs(k) >= 0 && Triples(k) >= 0
  {
    if k >= 2 {
      assert k * (k - 1) >= 0;
    }
  }

  /** The closed forms over reals. */
  lemma RealVelocity(v: int, a: int, j: int, k: nat)
    ensures 2.0 * VelAt(v, a, j, k) as real ==
            2.0 * v as real + 2.0 * (k as real * a as real) + Pairs(k) as real * j as real
  {
    hide Pairs, VelAt;
    VelocityClosed(v, a, j, k);
    RealProduct(k, a);
    Counts(k);
    RealProduct(Pairs(k), j);
  }

  lemma RealSum(v: int, a: int, j: int, k: nat)
    ensures 6.0 * Sum(v, a, j, k) as real ==
            6.0 * (k as real * v as real) + 3.0 * (Pairs(k) as real * a as real) + Triples(k) as real * j as real
  {
    hide Pairs, Triples, Sum;
    SumClosed(v, a, j, k);
    Counts(k);
    RealProduct(k, v);
    RealProduct(Pairs(k), a);
    RealProduct(Triples(k), j);
  }

  /** Twice the velocity that is missing after k steps of a command of acceleration a and jerk j. */
  function MissingV(m: Rates, a: int, j: int, k: nat): real {
    2.0 * (m.a * m.steps - k as real * a as real) + (m.j * (m.steps * m.steps) - Pairs(k) as real * j as real)
  }

  /** Six times the way that is missing after n steps, in steps of the divider. */
  function MissingX(m: Rates, v: int, a: int, j: int, n: nat): real {
    6.0 * (v as real * m.steps - n as real * v as real)
    + 3.0 * (m.a * (m.steps * m.steps) - Pairs(n) as real * a as real)
    + (m.j * (m.steps * m.steps * m.steps) - Triples(n) as real * j as real)
  }

  /** What is missing at the end of a move, whatever was cut off its registers. */
  lemma Missing(from: Place, to: Target, x: int, v: int, a: int, j: int, n: nat, k: nat)
    requires to.dt != 0.0 && At(x, v, from)
    ensures var m := Plan(Fit(from, to), to.dt);
            && 2.0 * (to.v * UNITS / STEP_FREQ - VelAt(v, a, j, k) as real) == MissingV(m, a, j, k)
            && 6.0 * (to.x * UNITS - (x + 400000 * Sum(v, a, j, n)) as real) == 400000.0 * MissingX(m, v, a, j, n)
  {
    hide Plan, Fit, VelAt, Sum, Pairs, Triples;
    PlanEnds(from, to);
    RealVelocity(v, a, j, k);
    RealSum(v, a, j, n);
    var m, v0 := Plan(Fit(from, to), to.dt), v as real;
    var t := m.steps;
    assert PlannedV(v0, m, t) == to.v * UNITS / STEP_FREQ;
    assert PlannedX(x as real, v0, m, t) == to.x * UNITS;
    assert STEP_FREQ / ACC_FREQ == 400000.0;
  }

  /** No register overflows during the command. */
  ghost predicate InRange(d: Device) {
    var n := Count(d.stepsLimit);
    && Fits(d.v, d.a, d.j, n)
    && -0x8000_0000_0000_0000 <= d.x + 400000 * Sum(d.v, d.a, d.j, n) < 0x8000_0000_0000_0000
  }

  /** The registers that a command leaves, when no register overflows. */
  lemma Leaves(d: Device, bus: nat -> Bank, t: nat)
    requires Begun(d) && d.dtLimit == DIVIDER && InRange(d)
    ensures Clocks(d) > 0
    ensures var n, b, e := Count(d.stepsLimit), bus(t + Clocks(d) - 1), Ticks(d, bus, t, Clocks(d));
            && (!(b.start && b.setX) ==> e.x == d.x + 400000 * Sum(d.v, d.a, d.j, n))
            && (!b.start ==> e.stopped && e.v == VelAt(d.v, d.a, d.j, n))
            && (b.start && !b.setV ==> !e.stopped && e.v == VelAt(d.v, d.a, d.j, n - 1))
  {
    hide S32, S64, VelAt, Sum, Travel, Ticks, Clocks;
    var n := Count(d.stepsLimit);
    CommandEnds(d, bus, t);
    TravelIsSum(d.v, d.a, d.j, n);
    assert -0x8000_0000 <= VelAt(d.v, d.a, d.j, n) < 0x8000_0000;
    assert -0x8000_0000 <= VelAt(d.v, d.a, d.j, n - 1) < 0x8000_0000;
  }

  /** When a move ends at the position and at the velocity of its target: without a command behind it, and with one
      that does not set the velocity. */
  lemma MoveMisses(d: Device, bus: nat -> Bank, t: nat, from: Place, to: Target)
    requires Begun(d) && d.dtLimit == DIVIDER && InRange(d) && At(d.x, d.v, from) && to.dt != 0.0
    ensures Clocks(d) > 0
    ensures var m, n := Plan(Fit(from, to), to.dt), Count(d.stepsLimit);
            var b, e := bus(t + Clocks(d) - 1), Ticks(d, bus, t, Clocks(d));
            && (!(b.start && b.setX) ==> (e.x as real == to.x * UNITS <==> MissingX(m, d.v, d.a, d.j, n) == 0.0))
            && (!b.start ==> (e.v as real == to.v * UNITS / STEP_FREQ <==> MissingV(m, d.a, d.j, n) == 0.0))
            && (b.start && !b.setV ==>
                  (e.v as real == to.v * UNITS / STEP_FREQ <==> MissingV(m, d.a, d.j, n - 1) == 0.0))
  {
    hide InRange, Begun, At, VelAt, Sum, Ticks, Clocks, Plan, Fit, MissingV, MissingX;
    var n := Count(d.stepsLimit);
    Leaves(d, bus, t);
    Missing(from, to, d.x, d.v, d.a, d.j, n, n);
    Missing(from, to, d.x, d.v, d.a, d.j, n, n - 1);
  }

  lemma {:induction false} RealPairs(k: nat)
    ensures Pairs(k) as real == k as real * k as real - k as real
    ensures Triples(k) as real == k as real * k as real * k as real - 3.0 * (k as real * k as real) + 2.0 * k as real
  {
    hide Pairs, Triples;
    if k == 0 {
      NoPairs();
    } else {
      RealPairs(k - 1);
      NextPairs(k - 1);
      NextCube((k - 1) as real);
      assert k as real == (k - 1) as real + 1.0;
    }
  }

  lemma NextCube(q: real)
    ensures (q + 1.0) * (q + 1.0) == q * q + 2.0 * q + 1.0
    ensures (q + 1.0) * (q + 1.0) * (q + 1.0) == q * q * q + 3.0 * (q * q) + 3.0 * q + 1.0
  {
    var s := (q + 1.0) * (q + 1.0);
    assert s * (q + 1.0) == s * q + s;
  }

  /** What is missing when nothing is cut off: n j, n (3 a + (3 n - 2) j), and 2 a + (3 n - 2) j in front of another
      command. */
  lemma ExactMissing(m: Rates, v: int, a: int, j: int, n: nat)
    requires n > 0 && m == Rates(n as real, a as real, j as real)
    ensures MissingV(m, a, j, n) == n as real * j as real
    ensures MissingX(m, v, a, j, n) == n as real * (3 * a + (3 * n - 2) * j) as real
    ensures MissingV(m, a, j, n - 1) == (2 * a + (3 * n - 2) * j) as real
  {
    hide Pairs, Triples;
    RealPairs(n);
    RealPairs(n - 1);
    RealProduct(3 * n - 2, j);
    var r, s, u := n as real, a as real, j as real;
    assert (n - 1) as real == r - 1.0;
    assert (r * r - (r * r - r)) * u == r * u;
    assert r * r * r * u - (r * r * r - 3.0 * (r * r) + 2.0 * r) * u == r * ((3.0 * r - 2.0) * u);
    assert 3.0 * (s * (r * r) - (r * r - r) * s) == r * (3.0 * s);
    assert (r - 1.0) * (r - 1.0) - (r - 1.0) == r * r - 3.0 * r + 2.0;
    assert u * (r * r) - (r * r - 3.0 * r + 2.0) * u == (3.0 * r - 2.0) * u;
  }

  /** A move of which nothing is cut off ends at its target's velocity exactly without jerk, at its position exactly
      if three times the acceleration and 3 n - 2 times the jerk cancel, and at both exactly if it moves at
      constant velocity.  With a command behind it, it ends at both under the same condition only. */
  lemma ExactMoveMisses(d: Device, bus: nat -> Bank, t: nat, from: Place, to: Target)
    requires Begun(d) && d.dtLimit == DIVIDER && InRange(d) && At(d.x, d.v, from) && to.dt != 0.0
    requires Plan(Fit(from, to), to.dt) == Rates(Count(d.stepsLimit) as real, d.a as real, d.j as real)
    ensures Clocks(d) > 0
    ensures var n, b, e := Count(d.stepsLimit), bus(t + Clocks(d) - 1), Ticks(d, bus, t, Clocks(d));
            && (!(b.start && b.setX) ==> (e.x as real == to.x * UNITS <==> 3 * d.a + (3 * n - 2) * d.j == 0))
            && (!b.start ==> (e.v as real == to.v * UNITS / STEP_FREQ <==> d.j == 0))
            && (b.start && !b.setV ==> (e.v as real == to.v * UNITS / STEP_FREQ <==> 2 * d.a + (3 * n - 2) * d.j == 0))
            && (!(b.start && (b.setX || b.setV)) ==> (At(e.x, e.v, Place(to.x, to.v)) <==> d.a == 0 && d.j == 0))
  {
    hide InRange, Begun, Ticks, Clocks, Plan, Fit, MissingV, MissingX;
    var n := Count(d.stepsLimit);
    MoveMisses(d, bus, t, from, to);
    ExactMissing(Plan(Fit(from, to), to.dt), d.v, d.a, d.j, n);
    Product(n as real, d.j as real);
    Product(n as real, (3 * d.a + (3 * n - 2) * d.j) as real);
    Cancels(n, d.a, d.j);
  }

  lemma Cancels(n: nat, a: int, j: int)
    requires n > 0
    ensures 2 * a + (3 * n - 2) * j == 0 && 3 * a + (3 * n - 2) * j == 0 <==> a == 0 && j == 0
    ensures j == 0 && 3 * a + (3 * n - 2) * j == 0 <==> a == 0 && j == 0
  {}

  // ---- one move the command line can ask for ------------------------------------------------

  /** To position 1000 at rest within a second. */
  const THOUSAND := Target(1000.0, 0.0, 1.0)

  lemma ThousandEncoded()
    ensures var m := Plan(Fit(Place(0.0, 0.0), THOUSAND), 1.0);
            Encodable(m) && Encode(m) == Command(250, 263882, -2111)
  {
    var c := Fit(Place(0.0, 0.0), THOUSAND);
    assert c == Cubic(3000.0, -2000.0);
    var m := Plan(c, 1.0);
    assert m.steps == 250.0;
    assert 263882.0 <= m.a < 263883.0;
    assert 2111.0 <= -m.j < 2112.0;
  }

  /** From rest at the origin the device runs past position 1011.9 and does not come to rest: it goes on at 265625 units
      a clock, which is more than 24 positions a second. */
  lemma ThousandMisses(bus: nat -> Bank, t: nat)
    requires !bus(t + 99_999_999).start
    ensures var d := Device(0, 0, 263882, -2111, DIVIDER, 250, 0, 0, false);
            var e := Ticks(d, bus, t, 100_000_000);
            && e.stopped && e.v == 265625 && e.x == 1112689700000000
            && e.x as real > 1011.9 * UNITS && e.v as real > 24.0 * UNITS / STEP_FREQ
  {
    hide S32, S64, VelAt, Sum, Travel, Ticks;
    var d := Device(0, 0, 263882, -2111, DIVIDER, 250, 0, 0, false);
    VelocityClosed(0, 263882, -2111, 250);
    SumClosed(0, 263882, -2111, 250);
    SmallFits(0, 263882, -2111, 250);
    assert Clocks(d) == 100_000_000;
    Leaves(d, bus, t);
  }

  /** A move is given as 0 steps exactly when it is to take less than 4 ms.  The device takes that for 2^32 steps: unless
      another command waits by then, it comes to a stop only after as many times 400000 clocks. */
  lemma ShortMove(from: Place, to: Target, d: Device, bus: nat -> Bank, t: nat)
    requires 0.0 < to.dt && Begun(d) && d.dtLimit == DIVIDER && d.stepsLimit == Trunc(Plan(Fit(from, to), to.dt).steps)
    ensures d.stepsLimit == 0 <==> to.dt < 0.004
    ensures to.dt < 0.004 && !bus(t + 0x1_0000_0000 * 400000 - 1).start ==>
              Ticks(d, bus, t, 0x1_0000_0000 * 400000) == Halted(d)
  {
    hide Fit, Begun, Ticks, Halted, Relayed;
    assert Plan(Fit(from, to), to.dt).steps == to.dt * 250.0;
    CommandEnds(d, bus, t);
  }
}
