/** The motion core: a step generator that divides the clock, and a profile generator that adds the acceleration to the
    velocity once per step and the velocity to the position once per clock. */
module MotionDevice {
  import opened Arithmetic

  /** Values of signed registers of 32 and 64 bits. */
  function S32(x: int): (r: int)
    ensures -0x8000_0000 <= r < 0x8000_0000
    ensures -0x8000_0000 <= x < 0x8000_0000 ==> r == x
  {
    (x + 0x8000_0000) % 0x1_0000_0000 - 0x8000_0000
  }

  function S64(x: int): (r: int)
    ensures -0x8000_0000_0000_0000 <= r < 0x8000_0000_0000_0000
    ensures -0x8000_0000_0000_0000 <= x < 0x8000_0000_0000_0000 ==> r == x
  {
    (x + 0x8000_0000_0000_0000) % 0x1_0000_0000_0000_0000 - 0x8000_0000_0000_0000
  }

  /** Whole turns do not show. */
  lemma Turns32(x: int, q: int)
    ensures S32(x + q * 0x1_0000_0000) == S32(x)
  {
    var z := x + 0x8000_0000;
    DivMod(z + q * 0x1_0000_0000, 0x1_0000_0000, z / 0x1_0000_0000 + q, z % 0x1_0000_0000);
  }

  lemma Turns64(x: int, q: int)
    ensures S64(x + q * 0x1_0000_0000_0000_0000) == S64(x)
  {
    var z := x + 0x8000_0000_0000_0000;
    DivMod(z + q * 0x1_0000_0000_0000_0000, 0x1_0000_0000_0000_0000, z / 0x1_0000_0000_0000_0000 + q,
           z % 0x1_0000_0000_0000_0000);
  }

  lemma Wraps32(x: int, y: int)
    ensures S32(S32(x) + y) == S32(x + y) && S32(x + S32(y)) == S32(x + y)
  {
    Turns32(x + y, -((x + 0x8000_0000) / 0x1_0000_0000));
    Turns32(x + y, -((y + 0x8000_0000) / 0x1_0000_0000));
  }

  lemma Wraps64(x: int, y: int)
    ensures S64(S64(x) + y) == S64(x + y)
  {
    Turns64(x + y, -((x + 0x8000_0000_0000_0000) / 0x1_0000_0000_0000_0000));
  }

  /** The registers that software writes. */
  datatype Bank = Bank(start: bool, setX: bool, setV: bool, setA: bool, setJ: bool,
                       x: int, v: int, a: int, j: int, dt: Dword, steps: Dword)

  /** The state of both generators. */
  datatype Device = Device(x: int, v: int, a: int, j: int,
                           dtLimit: Dword, stepsLimit: Dword, dt: Dword, steps: Dword, stopped: bool)

  /** n - 1 in an unsigned register. */
  function Less1(n: Dword): Dword { if n == 0 then 0xFFFF_FFFF else n - 1 }

  /** A limit of 0 counts to the end of the register. */
  function Count(n: Dword): (c: nat)
    ensures c > 0 && Less1(n) == c - 1
  {
    if n == 0 then 0x1_0000_0000 else n
  }

  predicate StepEnds(d: Device) { !d.stopped && d.dt >= Less1(d.dtLimit) }

  predicate Done(d: Device) { StepEnds(d) && d.steps >= Less1(d.stepsLimit) }

  predicate Loads(d: Device, b: Bank) { b.start && (Done(d) || d.stopped) }

  /** A command taken over: it takes the place of the acceleration step, if there is one in the same clock. */
  function Loaded(d: Device, b: Bank): Device {
    Device(if b.setX then b.x else S64(d.x + d.v), if b.setV then b.v else d.v, if b.setA then b.a else d.a,
           if b.setJ then b.j else d.j, b.dt, b.steps, 0, 0, false)
  }

  /** One clock, while the registers hold b. */
  function Tick(d: Device, b: Bank): Device {
    if Loads(d, b) then Loaded(d, b)
    else
      var e := d.(x := S64(d.x + d.v));
      if d.stopped then e.(dt := 0, steps := 0)
      else if StepEnds(d) then
        e.(v := S32(d.v + d.a), a := S32(d.a + d.j), dt := 0, steps := W32(d.steps + 1), stopped := Done(d))
      else e.(dt := W32(d.dt + 1))
  }

  /** Each of the four bits makes a command set that value; a command that sets all of them leaves nothing of what was
      before.  What it does not set goes on: the position by the velocity, velocity, acceleration and jerk unchanged. */
  lemma SetBits(d: Device, e: Device, b: Bank)
    requires Loads(d, b) && Loads(e, b)
    ensures b.setX && b.setV && b.setA && b.setJ ==> Tick(d, b) == Tick(e, b)
    ensures b.setX ==> Tick(d, b).x == b.x
    ensures b.setV ==> Tick(d, b).v == b.v
    ensures b.setA ==> Tick(d, b).a == b.a
    ensures b.setJ ==> Tick(d, b).j == b.j
    ensures !b.setX ==> Tick(d, b).x == S64(d.x + d.v)
    ensures !b.setV && !b.setA && !b.setJ ==> (Tick(d, b).v, Tick(d, b).a, Tick(d, b).j) == (d.v, d.a, d.j)
    ensures var f := Tick(d, b); !f.stopped && f.dt == f.steps == 0 && f.dtLimit == b.dt && f.stepsLimit == b.steps
  {}

  /** n clocks from moment t on; bus tells what the registers hold at each moment. */
  ghost function Ticks(d: Device, bus: nat -> Bank, t: nat, n: nat): Device {
    if n == 0 then d else Tick(Ticks(d, bus, t, n - 1), bus(t + n - 1))
  }

  lemma TicksNext(d: Device, bus: nat -> Bank, t: nat, n: nat)
    requires n > 0
    ensures Ticks(d, bus, t, n) == Tick(Ticks(d, bus, t, n - 1), bus(t + n - 1))
  {}

  lemma {:induction false} TicksJoin(d: Device, bus: nat -> Bank, t: nat, m: nat, n: nat)
    ensures Ticks(d, bus, t, m + n) == Ticks(Ticks(d, bus, t, m), bus, t + m, n)
  {
    hide Tick;
    if n > 0 {
      TicksJoin(d, bus, t, m, n - 1);
    }
  }

  /** A device that has stopped goes on at the velocity it had, until it is given another command. */
  lemma {:induction false} StoppedGoesOn(d: Device, bus: nat -> Bank, t: nat, n: nat)
    requires d.stopped && d.x == S64(d.x) && forall k :: t <= k < t + n ==> !bus(k).start
    ensures var e := d.(x := S64(d.x + n * d.v));
            Ticks(d, bus, t, n) == if n == 0 then e else e.(dt := 0, steps := 0)
  {
    hide S32, S64, Tick;
    if n > 0 {
      StoppedGoesOn(d, bus, t, n - 1);
      assert !bus(t + n - 1).start;
      StoppedTick(Ticks(d, bus, t, n - 1), bus(t + n - 1));
      Wraps64(d.x + (n - 1) * d.v, d.v);
      Scale(n - 1, 1, 1, d.v);
    }
  }

  lemma StoppedTick(d: Device, b: Bank)
    requires d.stopped && !b.start
    ensures Tick(d, b) == d.(x := S64(d.x + d.v), dt := 0, steps := 0)
  {}

  // ---- one command -------------------------------------------------------------------------

  /** A command has just been taken over. */
  ghost predicate Begun(d: Device) {
    !d.stopped && d.dt == d.steps == 0 && d.x == S64(d.x) && d.v == S32(d.v) && d.a == S32(d.a)
  }

  /** Acceleration and velocity after k steps, and the sum of the velocities of the first k steps. */
  function AccAt(a: int, j: int, k: nat): int { a + k * j }

  function VelAt(v: int, a: int, j: int, k: nat): int {
    if k == 0 then v else VelAt(v, a, j, k - 1) + AccAt(a, j, k - 1)
  }

  function Travel(v: int, a: int, j: int, k: nat): int {
    if k == 0 then 0 else Travel(v, a, j, k - 1) + S32(VelAt(v, a, j, k - 1))
  }

  /** Within a step only the position and the divider move. */
  lemma {:induction false} WithinStep(d: Device, bus: nat -> Bank, t: nat, i: nat)
    requires !d.stopped && d.dt == 0 && d.x == S64(d.x) && i < Count(d.dtLimit)
    ensures Ticks(d, bus, t, i) == d.(x := S64(d.x + i * d.v), dt := i)
  {
    hide S32, S64, Tick;
    if i > 0 {
      WithinStep(d, bus, t, i - 1);
      RunningTick(d.(x := S64(d.x + (i - 1) * d.v), dt := i - 1), bus(t + i - 1));
      Wraps64(d.x + (i - 1) * d.v, d.v);
      Scale(i - 1, 1, 1, d.v);
    }
  }

  lemma RunningTick(d: Device, b: Bank)
    requires !d.stopped && d.dt + 1 < Count(d.dtLimit)
    ensures Tick(d, b) == d.(x := S64(d.x + d.v), dt := d.dt + 1)
  {}

  /** A whole step: velocity and acceleration change at its end, unless a new command comes in just then. */
  lemma WholeStep(d: Device, bus: nat -> Bank, t: nat)
    requires !d.stopped && d.dt == 0 && d.x == S64(d.x)
    ensures var n := Count(d.dtLimit);
            var last := d.(x := S64(d.x + (n - 1) * d.v), dt := Less1(d.dtLimit));
            && Ticks(d, bus, t, n) == Tick(last, bus(t + n - 1))
            && S64(last.x + d.v) == S64(d.x + n * d.v)
  {
    hide S32, S64, Tick, Ticks;
    var n := Count(d.dtLimit);
    TicksNext(d, bus, t, n);
    WithinStep(d, bus, t, n - 1);
    LastClock(d.x, d.v, n);
  }

  lemma LastClock(x: int, v: int, n: int)
    ensures S64(S64(x + (n - 1) * v) + v) == S64(x + n * v)
  {
    hide S64;
    Wraps64(x + (n - 1) * v, v);
    Distribute(v, n - 1, 1);
  }

  /** The device after k steps of a command. */
  ghost function After(d: Device, k: nat): Device
    requires k < Count(d.stepsLimit)
  {
    d.(x := S64(d.x + Count(d.dtLimit) * Travel(d.v, d.a, d.j, k)), v := S32(VelAt(d.v, d.a, d.j, k)),
       a := S32(AccAt(d.a, d.j, k)), steps := k)
  }

  /** Adding one step to the sums, in the registers. */
  lemma NextTravel(d: Device, n: nat, k: nat)
    ensures S64(S64(d.x + n * Travel(d.v, d.a, d.j, k)) + n * S32(VelAt(d.v, d.a, d.j, k))) ==
            S64(d.x + n * Travel(d.v, d.a, d.j, k + 1))
  {
    hide S32, S64, VelAt;
    var w, v := Travel(d.v, d.a, d.j, k), S32(VelAt(d.v, d.a, d.j, k));
    Wraps64(d.x + n * w, n * v);
    Distribute(n, w, v);
  }

  lemma Distribute(n: int, w: int, v: int)
    ensures n * (w + v) == n * w + n * v
  {}

  lemma NextVelocity(v: int, a: int, j: int, k: nat)
    ensures S32(S32(VelAt(v, a, j, k)) + S32(AccAt(a, j, k))) == S32(VelAt(v, a, j, k + 1))
    ensures S32(S32(AccAt(a, j, k)) + j) == S32(AccAt(a, j, k + 1))
  {
    hide S32, AccAt;
    var x, y := VelAt(v, a, j, k), AccAt(a, j, k);
    Wraps32(x, S32(y));
    Wraps32(x, y);
    Wraps32(y, j);
    NextAcceleration(a, j, k);
  }

  lemma NextAcceleration(a: int, j: int, k: nat)
    ensures AccAt(a, j, k + 1) == AccAt(a, j, k) + j
  {}

  lemma OneMore(d: Device, k: nat, bus: nat -> Bank, t: nat)
    requires !d.stopped && d.dt == 0 && k + 1 < Count(d.stepsLimit)
    ensures Ticks(After(d, k), bus, t, Count(d.dtLimit)) == After(d, k + 1)
  {
    hide S32, S64, VelAt, Travel, AccAt, Ticks;
    var e, n := After(d, k), Count(d.dtLimit);
    WholeStep(e, bus, t);
    NextTravel(d, n, k);
    NextVelocity(d.v, d.a, d.j, k);
  }

  lemma AtStart(d: Device)
    requires Begun(d)
    ensures After(d, 0) == d
  {
    assert Count(d.dtLimit) * 0 == 0 && 0 * d.j == 0;
  }

  /** The clocks that k steps of n clocks take. */
  function Lasting(k: nat, n: nat): nat { k * n }

  lemma LastingOn(k: nat, n: nat)
    ensures k == 0 ==> Lasting(k, n) == 0
    ensures k > 0 ==> Lasting(k, n) == Lasting(k - 1, n) + n
  {}

  /** The closed form of every step of a command but the last, whatever software writes meanwhile. */
  lemma {:induction false} Steps(d: Device, bus: nat -> Bank, t: nat, k: nat)
    requires Begun(d) && k < Count(d.stepsLimit)
    ensures Ticks(d, bus, t, Lasting(k, Count(d.dtLimit))) == After(d, k)
  {
    hide After, Begun, Count, Lasting, Tick;
    var n := Count(d.dtLimit);
    LastingOn(k, n);
    if k > 0 {
      Steps(d, bus, t, k - 1);
      TicksJoin(d, bus, t, Lasting(k - 1, n), n);
      Running(d);
      OneMore(d, k - 1, bus, t + Lasting(k - 1, n));
    } else {
      AtStart(d);
    }
  }

  lemma Running(d: Device)
    requires Begun(d)
    ensures !d.stopped && d.dt == 0
  {}

  /** Where a command that is carried out to its end leaves the position. */
  ghost function EndX(d: Device): int {
    S64(d.x + Count(d.dtLimit) * Travel(d.v, d.a, d.j, Count(d.stepsLimit)))
  }

  /** A command at its end, when no other one is waiting: the last step counts. */
  ghost function Halted(d: Device): Device {
    var n := Count(d.stepsLimit);
    d.(x := EndX(d), v := S32(VelAt(d.v, d.a, d.j, n)), a := S32(AccAt(d.a, d.j, n)), dt := 0, steps := W32(n),
       stopped := true)
  }

  /** A command at its end, when another one is waiting: that one is loaded instead of the last step. */
  ghost function Relayed(d: Device, b: Bank): Device {
    var n := Count(d.stepsLimit);
    Device(if b.setX then b.x else EndX(d), if b.setV then b.v else S32(VelAt(d.v, d.a, d.j, n - 1)),
           if b.setA then b.a else S32(AccAt(d.a, d.j, n - 1)), if b.setJ then b.j else d.j, b.dt, b.steps, 0, 0, false)
  }

  /** The clocks a command takes. */
  function Clocks(d: Device): nat { Lasting(Count(d.stepsLimit), Count(d.dtLimit)) }

  lemma LastStep(d: Device, bus: nat -> Bank, t: nat)
    requires !d.stopped && d.dt == 0
    ensures var k := Count(d.stepsLimit) - 1;
            var b := bus(t + Count(d.dtLimit) - 1);
            Ticks(After(d, k), bus, t, Count(d.dtLimit)) == if b.start then Relayed(d, b) else Halted(d)
  {
    hide S32, S64, VelAt, Travel, AccAt, Ticks;
    var n, k := Count(d.dtLimit), Count(d.stepsLimit) - 1;
    WholeStep(After(d, k), bus, t);
    NextTravel(d, n, k);
    NextVelocity(d.v, d.a, d.j, k);
  }

  /** A whole command, whatever software writes meanwhile: what counts is whether another one waits in the last clock. */
  lemma CommandEnds(d: Device, bus: nat -> Bank, t: nat)
    requires Begun(d)
    ensures Clocks(d) > 0
    ensures var b := bus(t + Clocks(d) - 1);
            Ticks(d, bus, t, Clocks(d)) == if b.start then Relayed(d, b) else Halted(d)
  {
    hide After, Begun, Count, Ticks, Halted, Relayed, Lasting;
    var n, k := Count(d.dtLimit), Count(d.stepsLimit) - 1;
    Steps(d, bus, t, k);
    LastingOn(k + 1, n);
    TicksJoin(d, bus, t, Lasting(k, n), n);
    Running(d);
    LastStep(d, bus, t + Lasting(k, n));
  }

  // ---- closed forms ------------------------------------------------------------------------

  function Pairs(k: int): int { k * (k - 1) }

  function Triples(k: int): int { k * (k - 1) * (k - 2) }

  lemma NextPairs(k: int)
    ensures Pairs(k + 1) == Pairs(k) + 2 * k && Triples(k + 1) == Triples(k) + 3 * Pairs(k)
  {
    var p := Pairs(k);
    assert Triples(k + 1) == (k + 1) * p;
    assert Triples(k) == p * (k - 2);
  }

  /** (x + n y) c, multiplied out. */
  lemma Scale(x: int, n: int, y: int, c: int)
    ensures (x + n * y) * c == x * c + n * (y * c)
  {}

  lemma {:induction false} VelocityClosed(v: int, a: int, j: int, k: nat)
    ensures 2 * VelAt(v, a, j, k) == 2 * v + 2 * (k * a) + Pairs(k) * j
  {
    hide Pairs, AccAt;
    if k > 0 {
      VelocityClosed(v, a, j, k - 1);
      VelocityStep(v, a, j, k, VelAt(v, a, j, k - 1));
    } else {
      NoPairs();
    }
  }

  lemma VelocityStep(v: int, a: int, j: int, k: nat, w: int)
    requires k > 0 && 2 * w == 2 * v + 2 * ((k - 1) * a) + Pairs(k - 1) * j
    ensures 2 * (w + AccAt(a, j, k - 1)) == 2 * v + 2 * (k * a) + Pairs(k) * j
  {
    hide Pairs;
    NextPairs(k - 1);
    assert Pairs(k) * j == Pairs(k - 1) * j + 2 * ((k - 1) * j) by {
      Scale(Pairs(k - 1), 2, k - 1, j);
    }
    assert k * a == (k - 1) * a + a;
  }

  lemma NoPairs()
    ensures Pairs(0) == Triples(0) == 0
  {}

  /** The sum of the velocities without wrap-around. */
  function Sum(v: int, a: int, j: int, k: nat): int {
    if k == 0 then 0 else Sum(v, a, j, k - 1) + VelAt(v, a, j, k - 1)
  }

  lemma {:induction false} SumClosed(v: int, a: int, j: int, k: nat)
    ensures 6 * Sum(v, a, j, k) == 6 * (k * v) + 3 * (Pairs(k) * a) + Triples(k) * j
  {
    hide Pairs, Triples, VelAt;
    if k > 0 {
      SumClosed(v, a, j, k - 1);
      VelocityClosed(v, a, j, k - 1);
      SumStep(v, a, j, k, Sum(v, a, j, k - 1), VelAt(v, a, j, k - 1));
    } else {
      NoPairs();
    }
  }

  lemma SumStep(v: int, a: int, j: int, k: int, s: int, w: int)
    requires 6 * s == 6 * ((k - 1) * v) + 3 * (Pairs(k - 1) * a) + Triples(k - 1) * j
    requires 2 * w == 2 * v + 2 * ((k - 1) * a) + Pairs(k - 1) * j
    ensures 6 * (s + w) == 6 * (k * v) + 3 * (Pairs(k) * a) + Triples(k) * j
  {
    hide Pairs, Triples;
    var p, t := Pairs(k - 1), Triples(k - 1);
    NextPairs(k - 1);
    assert Pairs(k) * a == p * a + 2 * ((k - 1) * a) by {
      Scale(p, 2, k - 1, a);
    }
    assert Triples(k) * j == t * j + 3 * (p * j) by {
      Scale(t, 3, p, j);
    }
    assert k * v == (k - 1) * v + v;
  }

  // ---- commands in a row -------------------------------------------------------------------

  /** A move as the firmware writes it: acceleration and jerk, but not the velocity. */
  ghost predicate IsMove(b: Bank) {
    b.start && b.setA && b.setJ && !b.setX && !b.setV && b.a == S32(b.a) && b.dt == 400000
  }

  ghost predicate AreMoves(bs: seq<Bank>) { forall b <- bs :: IsMove(b) }

  /** Each of the moves waits when the one before it ends, and nothing waits behind the last. */
  ghost predicate Fed(d: Device, bus: nat -> Bank, t: nat, bs: seq<Bank>)
    decreases |bs|
  {
    Clocks(d) > 0 &&
    var b := bus(t + Clocks(d) - 1);
    if bs == [] then !b.start else b == bs[0] && Fed(Relayed(d, b), bus, t + Clocks(d), bs[1..])
  }

  ghost function TotalClocks(d: Device, bs: seq<Bank>): nat
    decreases |bs|
  {
    Clocks(d) + if bs == [] then 0 else TotalClocks(Relayed(d, bs[0]), bs[1..])
  }

  /** The device behind the last move. */
  ghost function Finished(d: Device, bs: seq<Bank>): Device
    decreases |bs|
  {
    if bs == [] then Halted(d) else Finished(Relayed(d, bs[0]), bs[1..])
  }

  lemma {:induction false} RowEnds(d: Device, bus: nat -> Bank, t: nat, bs: seq<Bank>)
    requires Begun(d) && AreMoves(bs) && Fed(d, bus, t, bs)
    ensures Ticks(d, bus, t, TotalClocks(d, bs)) == Finished(d, bs)
    decreases |bs|
  {
    hide Ticks, Clocks, Halted, Begun;
    CommandEnds(d, bus, t);
    if bs != [] {
      var e := Relayed(d, bs[0]);
      RelayedBegun(d, bs[0]);
      RowEnds(e, bus, t + Clocks(d), bs[1..]);
      TicksJoin(d, bus, t, Clocks(d), TotalClocks(e, bs[1..]));
    }
  }

  lemma RelayedBegun(d: Device, b: Bank)
    requires IsMove(b)
    ensures Begun(Relayed(d, b))
  {
    hide S32, S64, VelAt, Travel;
    Wraps64(d.x + Count(d.dtLimit) * Travel(d.v, d.a, d.j, Count(d.stepsLimit)), 0);
    Wraps32(VelAt(d.v, d.a, d.j, Count(d.stepsLimit) - 1), 0);
  }

  /** Twice the velocity that the moves are planned to gain, and twice what the device gains less. */
  ghost function Planned2(d: Device, bs: seq<Bank>): int
    decreases |bs|
  {
    var n := Count(d.stepsLimit);
    2 * (n * d.a) + n * n * d.j + if bs == [] then 0 else Planned2(Relayed(d, bs[0]), bs[1..])
  }

  ghost function Loss2(d: Device, bs: seq<Bank>): int
    decreases |bs|
  {
    var n := Count(d.stepsLimit);
    if bs == [] then n * d.j else 2 * d.a + (3 * n - 2) * d.j + Loss2(Relayed(d, bs[0]), bs[1..])
  }

  /** The velocity that a row of moves gains. */
  ghost function Gain(d: Device, bs: seq<Bank>): int
    decreases |bs|
  {
    var n := Count(d.stepsLimit);
    if bs == [] then VelAt(0, d.a, d.j, n) else VelAt(0, d.a, d.j, n - 1) + Gain(Relayed(d, bs[0]), bs[1..])
  }

  lemma {:induction false} VelocityFrom(v: int, a: int, j: int, k: nat)
    ensures VelAt(v, a, j, k) == v + VelAt(0, a, j, k)
  {
    if k > 0 {
      VelocityFrom(v, a, j, k - 1);
    }
  }

  /** What a move gains, and what it loses to the plan: alone, and in front of another one. */
  lemma GainLoss(a: int, j: int, n: nat)
    requires n > 0
    ensures 2 * VelAt(0, a, j, n) == 2 * (n * a) + n * n * j - n * j
    ensures 2 * VelAt(0, a, j, n - 1) == 2 * (n * a) + n * n * j - (2 * a + (3 * n - 2) * j)
  {
    hide VelAt;
    VelocityClosed(0, a, j, n);
    VelocityClosed(0, a, j, n - 1);
    assert Pairs(n) == n * n - n && Pairs(n - 1) == n * n - (3 * n - 2);
    Scale(n * n, -1, n, j);
    Scale(n * n, -1, 3 * n - 2, j);
    Scale(n, -1, 1, a);
  }

  lemma {:induction false} RowVelocity(d: Device, bs: seq<Bank>)
    requires AreMoves(bs) && Begun(d)
    ensures Finished(d, bs).v == S32(d.v + Gain(d, bs))
    decreases |bs|
  {
    hide S32, S64, VelAt, Travel, AccAt, Count, Begun;
    var n := Count(d.stepsLimit);
    VelocityFrom(d.v, d.a, d.j, n);
    VelocityFrom(d.v, d.a, d.j, n - 1);
    if bs != [] {
      var e := Relayed(d, bs[0]);
      RelayedBegun(d, bs[0]);
      RowVelocity(e, bs[1..]);
      Wraps32(d.v + VelAt(0, d.a, d.j, n - 1), Gain(e, bs[1..]));
    }
  }

  lemma {:induction false} RowGain(d: Device, bs: seq<Bank>)
    ensures 2 * Gain(d, bs) == Planned2(d, bs) - Loss2(d, bs)
    decreases |bs|
  {
    hide VelAt, Relayed, Count;
    GainLoss(d.a, d.j, Count(d.stepsLimit));
    if bs != [] {
      RowGain(Relayed(d, bs[0]), bs[1..]);
    }
  }

  /** Behind a row of moves the velocity is what was planned less the losses of all of them: none is made up for. */
  lemma LossesAdd(d: Device, bus: nat -> Bank, t: nat, bs: seq<Bank>)
    requires Begun(d) && AreMoves(bs) && Fed(d, bus, t, bs)
    ensures Ticks(d, bus, t, TotalClocks(d, bs)).v == S32(d.v + Gain(d, bs))
    ensures 2 * Gain(d, bs) == Planned2(d, bs) - Loss2(d, bs)
  {
    hide Ticks, TotalClocks, Finished, Gain, Planned2, Loss2, Begun, Fed;
    RowEnds(d, bus, t, bs);
    RowVelocity(d, bs);
    RowGain(d, bs);
  }

  /** The velocities of a command fit in their register. */
  ghost predicate Fits(v: int, a: int, j: int, n: nat) {
    forall k :: 0 <= k <= n ==> -0x8000_0000 <= VelAt(v, a, j, k) < 0x8000_0000
  }

  lemma {:induction false} TravelIsSum(v: int, a: int, j: int, n: nat)
    requires Fits(v, a, j, n)
    ensures Travel(v, a, j, n) == Sum(v, a, j, n)
  {
    if n > 0 {
      assert -0x8000_0000 <= VelAt(v, a, j, n - 1) < 0x8000_0000;
      TravelIsSum(v, a, j, n - 1);
    }
  }

  function Abs(x: int): nat { if x < 0 then -x else x }

  /** Commands that are small enough fit. */
  lemma SmallFits(v: int, a: int, j: int, n: nat)
    requires Abs(v) + n * (Abs(a) + n * Abs(j)) < 0x8000_0000
    ensures Fits(v, a, j, n)
  {
    forall k | 0 <= k <= n
      ensures -0x8000_0000 <= VelAt(v, a, j, k) < 0x8000_0000
    {
      Bounded(v, a, j, k, n);
      Monotone(k, n, Abs(a) + n * Abs(j));
    }
  }

  lemma Monotone(k: nat, n: nat, c: nat)
    requires k <= n
    ensures k * c <= n * c
  {}

  lemma AbsProduct(k: nat, j: int)
    ensures Abs(k * j) == k * Abs(j)
  {}

  lemma {:induction false} Bounded(v: int, a: int, j: int, k: nat, n: nat)
    requires k <= n
    ensures Abs(VelAt(v, a, j, k)) <= Abs(v) + k * (Abs(a) + n * Abs(j))
  {
    if k > 0 {
      Bounded(v, a, j, k - 1, n);
      Monotone(k - 1, n, Abs(j));
      Scale(k - 1, 1, 1, Abs(a) + n * Abs(j));
      AbsProduct(k - 1, j);
    }
  }
}
