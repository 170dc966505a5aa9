/** Cubic segments that join up, as unqueue_move computes them, over exact reals. */
module Segments {
  import opened Arithmetic

  /** Position and velocity of one axis. */
  datatype Place = Place(x: real, v: real)

  /** A target of the motion queue: a position and a velocity, to be reached after dt. */
  datatype Target = Target(x: real, v: real, dt: real)

  /** The coefficients of the square and the cube of time. */
  datatype Cubic = Cubic(kb: real, ka: real)

  function Fit(from: Place, to: Target): Cubic
    requires to.dt != 0.0
  {
    var dx, dt := to.x - from.x, to.dt;
    var kb := 3.0 * dx / (dt * dt) - (2.0 * from.v + to.v) / dt;
    Cubic(kb, (to.v - from.v) / (3.0 * (dt * dt)) - (2.0 * kb) / (3.0 * dt))
  }

  function X(from: Place, c: Cubic, t: real): real { from.x + from.v * t + c.kb * (t * t) + c.ka * (t * t * t) }

  function V(from: Place, c: Cubic, t: real): real { from.v + 2.0 * c.kb * t + 3.0 * c.ka * (t * t) }

  lemma Divide(a: real, b: real)
    requires b != 0.0
    ensures a / b * b == a
  {}

  lemma Product(a: real, b: real)
    requires a != 0.0
    ensures a * b == 0.0 <==> b == 0.0
  {}

  lemma FitTimes(from: Place, to: Target)
    requires to.dt != 0.0
    ensures var c, dx, dt := Fit(from, to), to.x - from.x, to.dt;
            && c.kb * (dt * dt) == 3.0 * dx - (2.0 * from.v + to.v) * dt
            && 3.0 * (c.ka * (dt * dt)) == to.v - from.v - 2.0 * (c.kb * dt)
  {
    var c, dx, dt := Fit(from, to), to.x - from.x, to.dt;
    var s, w := dt * dt, 2.0 * from.v + to.v;
    Product(dt, dt);
    Divide(3.0 * dx, s);
    Divide(w, dt);
    assert (w / dt) * s == (w / dt) * dt * dt;
    Divide(to.v - from.v, 3.0 * s);
    Divide(2.0 * c.kb, 3.0 * dt);
    assert (2.0 * c.kb) / (3.0 * dt) * (3.0 * s) == (2.0 * c.kb) / (3.0 * dt) * (3.0 * dt) * dt;
  }

  lemma FitEnds(from: Place, to: Target)
    requires to.dt != 0.0
    ensures X(from, Fit(from, to), to.dt) == to.x && V(from, Fit(from, to), to.dt) == to.v
  {
    var c, dx, dt := Fit(from, to), to.x - from.x, to.dt;
    FitTimes(from, to);
    var s := dt * dt;
    assert 3.0 * (c.ka * (s * dt)) == 3.0 * (c.ka * s) * dt;
    assert (to.v - from.v - 2.0 * (c.kb * dt)) * dt == (to.v - from.v) * dt - 2.0 * (c.kb * s);
    assert (2.0 * from.v + to.v) * dt == 2.0 * (from.v * dt) + to.v * dt;
    assert (to.v - from.v) * dt == to.v * dt - from.v * dt;
  }

  lemma CubicsDiffer(p: real, q: real, dt: real)
    requires dt != 0.0 && p * (dt * dt) + q * (dt * dt * dt) == 0.0 && 2.0 * p * dt + 3.0 * q * (dt * dt) == 0.0
    ensures p == 0.0 && q == 0.0
  {
    var s := dt * dt;
    assert (2.0 * p * dt + 3.0 * q * s) * dt == 2.0 * (p * s) + 3.0 * (q * (s * dt));
    assert q * (s * dt) == 0.0;
    Product(dt, dt);
    Product(s, dt);
    Product(s * dt, q);
    Product(s, p);
  }

  /** Exactly the computed coefficients take the axis to the target's position and velocity in time. */
  lemma FitReaches(from: Place, to: Target, c: Cubic)
    requires to.dt != 0.0
    ensures X(from, c, to.dt) == to.x && V(from, c, to.dt) == to.v <==> c == Fit(from, to)
  {
    hide Fit;
    FitEnds(from, to);
    var f, dt := Fit(from, to), to.dt;
    if X(from, c, dt) == to.x && V(from, c, dt) == to.v {
      var p, q := c.kb - f.kb, c.ka - f.ka;
      assert p * (dt * dt) == c.kb * (dt * dt) - f.kb * (dt * dt);
      assert q * (dt * dt * dt) == c.ka * (dt * dt * dt) - f.ka * (dt * dt * dt);
      assert p * dt == c.kb * dt - f.kb * dt;
      assert q * (dt * dt) == c.ka * (dt * dt) - f.ka * (dt * dt);
      CubicsDiffer(p, q, dt);
    }
  }

  const STEP_FREQ := 100000000.0
  const ACC_FREQ := 250.0

  /** Clocks of a step: STEP_FREQ / ACC_FREQ. */
  const DIVIDER: Dword := 400000

  /** Two to the power of STEP_BIT: the position register counts this many units to a step. */
  const UNITS := 1099511627776.0

  /** Number of steps, acceleration and its change per step, in the units of the motion device. */
  datatype Rates = Rates(steps: real, a: real, j: real)

  function Plan(c: Cubic, dt: real): Rates {
    Rates(dt * ACC_FREQ, 2.0 * c.kb * UNITS / STEP_FREQ / ACC_FREQ,
          6.0 * c.ka * UNITS / STEP_FREQ / ACC_FREQ / ACC_FREQ)
  }

  /** Conversion to an integer. */
  function Trunc(r: real): int { if r >= 0.0 then r.Floor else -((-r).Floor) }

  /** What a move writes to the motion device. */
  datatype Command = Command(steps: Dword, a: Int32, j: Int32)

  /** The conversions are defined. */
  predicate Encodable(m: Rates) {
    && 0.0 <= m.steps < 4294967296.0
    && -0x8000_0000 <= Trunc(m.a) < 0x8000_0000 && -0x8000_0000 <= Trunc(m.j) < 0x8000_0000
  }

  function Encode(m: Rates): Command
    requires Encodable(m)
  {
    Command(Trunc(m.steps), Trunc(m.a), Trunc(m.j))
  }

  /** The planned velocity and position, in units, after n steps. */
  function PlannedV(v0: real, m: Rates, n: real): real { v0 + m.a * n + m.j * (n * n) / 2.0 }

  function PlannedX(x0: real, v0: real, m: Rates, n: real): real {
    x0 + STEP_FREQ / ACC_FREQ * (v0 * n + m.a * (n * n) / 2.0 + m.j * (n * n * n) / 6.0)
  }

  /** The rates describe the same cubic at every time of the move. */
  lemma PlanFollows(from: Place, c: Cubic, dt: real, t: real)
    ensures PlannedV(from.v * UNITS / STEP_FREQ, Plan(c, dt), t * ACC_FREQ) == V(from, c, t) * UNITS / STEP_FREQ
    ensures PlannedX(from.x * UNITS, from.v * UNITS / STEP_FREQ, Plan(c, dt), t * ACC_FREQ) == X(from, c, t) * UNITS
  {
    var m, n, k := Plan(c, dt), t * ACC_FREQ, UNITS / STEP_FREQ;
    var t2, t3 := t * t, t * t * t;
    assert n * n == 62500.0 * t2;
    assert n * n * n == 15625000.0 * t3;
    assert m.a == c.kb * (2.0 * k / 250.0);
    assert m.j == c.ka * (6.0 * k / 62500.0);
    assert m.a * n == c.kb * t * (2.0 * k);
    assert m.j * (n * n) == c.ka * t2 * (6.0 * k);
    assert m.a * (n * n) == c.kb * t2 * (500.0 * k);
    assert m.j * (n * n * n) == c.ka * t3 * (1500.0 * k);
    assert from.v * k * n == from.v * t * (250.0 * k);
  }

  /** The plan ends at the target. */
  lemma PlanEnds(from: Place, to: Target)
    requires to.dt != 0.0
    ensures var m := Plan(Fit(from, to), to.dt);
            && PlannedV(from.v * UNITS / STEP_FREQ, m, m.steps) == to.v * UNITS / STEP_FREQ
            && PlannedX(from.x * UNITS, from.v * UNITS / STEP_FREQ, m, m.steps) == to.x * UNITS
  {
    hide Fit, V, X, PlannedV, PlannedX;
    FitEnds(from, to);
    PlanFollows(from, Fit(from, to), to.dt, to.dt);
  }
}
