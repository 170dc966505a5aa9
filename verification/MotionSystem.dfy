/** The firmware's motion queue and the motion core together: the start bit that software sets is the one the core
    clears when it takes a command over, and the stopped bit that software reads is the state of the core. */
module MotionSystem {
  import opened Arithmetic
  import opened Segments
  import opened Steppers
  import opened MotionDevice

  /** The core as a reset leaves it. */
  const RESTING := Device(0, 0, 0, 0, 0, 0, 0, 0, true)

  /** Registers without a command. */
  const QUIET := Bank(false, false, false, false, false, 0, 0, 0, 0, 0, 0)

  ghost function Quiet(): nat -> Bank { (t: nat) => QUIET }

  // ---- the core between two commands -------------------------------------------------------

  /** A command has just been taken over, or the core stands. */
  ghost predicate Settles(d: Device) {
    Begun(d) || (d.stopped && d.x == S64(d.x) && d.v == S32(d.v))
  }

  /** The core that has stopped, n clocks later. */
  ghost function Coasting(d: Device, n: nat): Device {
    if n == 0 then d else d.(x := S64(d.x + n * d.v), dt := 0, steps := 0)
  }

  /** A command that has not come to its end, age clocks after it was taken over. */
  ghost function InCommand(d: Device, age: nat): Device
    requires age < Clocks(d)
  {
    var n := Count(d.dtLimit);
    QuotientLess(age, Count(d.stepsLimit), n);
    var e, i := After(d, Quotient(age, n)), Remainder(age, n);
    e.(x := S64(e.x + i * e.v), dt := i)
  }

  /** The core at any time, in closed form, as long as no other command is taken over. */
  ghost function At(d: Device, age: nat): Device {
    if d.stopped then Coasting(d, age)
    else if age < Clocks(d) then InCommand(d, age)
    else Coasting(Halted(d), age - Clocks(d))
  }

  lemma InCommandIs(d: Device, bus: nat -> Bank, t: nat, age: nat)
    requires Begun(d) && age < Clocks(d)
    ensures Ticks(d, bus, t, age) == InCommand(d, age)
  {
    hide S32, S64, VelAt, Travel, AccAt, Tick, Ticks, Quotient, Remainder, Count;
    var n := Count(d.dtLimit);
    QuotientLess(age, Count(d.stepsLimit), n);
    QuotientRemainder(age, n);
    var k, i := Quotient(age, n), Remainder(age, n);
    Steps(d, bus, t, k);
    TicksJoin(d, bus, t, Lasting(k, n), i);
    WithinStep(After(d, k), bus, t + Lasting(k, n), i);
  }

  lemma HaltedSettles(d: Device)
    ensures Settles(Halted(d)) && Halted(d).stopped
  {
    hide VelAt, Travel, AccAt;
  }

  lemma AtIs(d: Device, age: nat)
    requires Settles(d)
    ensures Ticks(d, Quiet(), 0, age) == At(d, age)
  {
    hide S32, S64, Tick, Ticks, Halted, InCommand, Clocks, Relayed;
    if d.stopped {
      StoppedGoesOn(d, Quiet(), 0, age);
    } else if age < Clocks(d) {
      InCommandIs(d, Quiet(), 0, age);
    } else {
      CommandEnds(d, Quiet(), 0);
      HaltedSettles(d);
      TicksJoin(d, Quiet(), 0, Clocks(d), age - Clocks(d));
      StoppedGoesOn(Halted(d), Quiet(), Clocks(d), age - Clocks(d));
    }
  }

  /** The last clock of N steps of n clocks. */
  lemma LastOf(age: nat, n: nat, steps: nat)
    requires n > 0 && age < steps * n
    ensures Quotient(age, n) + 1 == steps && Remainder(age, n) + 1 == n <==> age + 1 == steps * n
  {
    hide Quotient, Remainder;
    var q, r := Quotient(age, n), Remainder(age, n);
    QuotientRemainder(age, n);
    QuotientLess(age, steps, n);
    CompareTimes(q + 1, steps, n);
    Scale(q, 1, 1, n);
  }

  /** In the middle of a command the core cannot take another one over; in its last clock it can. */
  lemma DoneAt(d: Device, age: nat)
    requires Begun(d) && age < Clocks(d)
    ensures var e := InCommand(d, age); !e.stopped && (Done(e) <==> age + 1 == Clocks(d))
  {
    hide S32, S64, VelAt, Travel, AccAt, Quotient, Remainder, Count;
    LastOf(age, Count(d.dtLimit), Count(d.stepsLimit));
    QuotientLess(age, Count(d.stepsLimit), Count(d.dtLimit));
  }

  /** When the core takes over a command that waits, and what one more clock does if it does not. */
  lemma NextClock(d: Device, age: nat, b: Bank)
    requires Settles(d)
    ensures Loads(At(d, age), b) <==> b.start && (d.stopped || age + 1 >= Clocks(d))
    ensures !Loads(At(d, age), b) ==> Tick(At(d, age), b) == At(d, age + 1)
  {
    hide S32, S64, Ticks, Halted, InCommand, Clocks, Done;
    AtIs(d, age);
    AtIs(d, age + 1);
    TicksNext(d, Quiet(), 0, age + 1);
    HaltedSettles(d);
    if !d.stopped && age < Clocks(d) {
      DoneAt(d, age);
    }
    if !Loads(At(d, age), b) {
      IgnoresBank(At(d, age), b);
    }
  }

  /** Without a load the core does not look at the registers, so it does not matter when software fills them in, as long
      as the start bit comes last. */
  lemma IgnoresBank(d: Device, b: Bank)
    requires !Loads(d, b)
    ensures Tick(d, b) == Tick(d, QUIET)
  {}

  // ---- a row of commands -------------------------------------------------------------------

  /** A command taken over, wait clocks after the one before it. */
  datatype Leg = Leg(wait: nat, bank: Bank)

  /** The core when the last of the commands has been taken over. */
  ghost function Course(legs: seq<Leg>): Device {
    if legs == [] then RESTING
    else
      var n := |legs| - 1;
      Loaded(At(Course(legs[..n]), legs[n].wait), legs[n].bank)
  }

  /** Each command is taken over in the last clock of the one before it, or when that has stopped. */
  ghost predicate Timely(legs: seq<Leg>) {
    forall i :: 0 < i < |legs| ==> legs[i].wait + 1 >= Clocks(Course(legs[..i]))
  }

  /** Values that fit the registers. */
  ghost predicate Fits(b: Bank) { b.start && !b.setX && b.v == S32(b.v) && b.a == S32(b.a) && b.j == S32(b.j) }

  lemma AtSettled(d: Device, age: nat)
    requires Settles(d)
    ensures At(d, age).v == S32(At(d, age).v) && (d.stopped ==> At(d, age).stopped)
    ensures d.stopped ==> At(d, age).a == d.a
    ensures !d.stopped ==> At(d, age).a == S32(At(d, age).a)
  {
    hide VelAt, Travel, AccAt, Clocks, Quotient, Remainder;
  }

  lemma LoadedSettles(d: Device, b: Bank)
    requires Fits(b) && b.setA && d.v == S32(d.v)
    ensures Begun(Loaded(d, b))
  {}

  lemma CourseSettles(legs: seq<Leg>)
    requires forall l <- legs :: Fits(l.bank) && l.bank.setA
    ensures Settles(Course(legs)) && (legs != [] ==> Begun(Course(legs)))
  {
    hide At, S32, S64, Begun;
    if legs != [] {
      var n := |legs| - 1;
      CourseSettles(legs[..n]);
      AtSettled(Course(legs[..n]), legs[n].wait);
      assert legs[n] in legs;
      LoadedSettles(At(Course(legs[..n]), legs[n].wait), legs[n].bank);
    } else {
      RestingSettles();
    }
  }

  lemma RestingSettles()
    ensures Settles(RESTING)
  {}

  /** One command more, in closed form: it follows on at once, the last step of the one before it being dropped, or after
      that one has ended and the core has gone on at the velocity it had. */
  lemma NextLeg(d: Device, wait: nat, b: Bank)
    requires Begun(d) && b.start && wait + 1 >= Clocks(d)
    ensures Loaded(At(d, wait), b) ==
            if wait < Clocks(d) then Relayed(d, b) else Loaded(Coasting(Halted(d), wait - Clocks(d)), b)
  {
    hide S32, S64, VelAt, Travel, AccAt, Quotient, Remainder, Count, Halted;
    if wait < Clocks(d) {
      var n, k := Count(d.dtLimit), Count(d.stepsLimit) - 1;
      LastOf(wait, n, k + 1);
      QuotientLess(wait, k + 1, n);
      var e := After(d, k);
      LastClock(e.x, e.v, n);
      NextTravel(d, n, k);
    }
  }

  // ---- the two together --------------------------------------------------------------------

  /** The registers hold the command that the firmware issued. */
  ghost predicate Carries(b: Bank, c: Issue) {
    && Fits(b) && b.setA && b.setJ && b.dt == DIVIDER && b.setV == c.Stop?
    && (c.Stop? ==> b.v == b.a == b.j == 0 && b.steps == 25)
    && (c.Move? && Computable(c.from, c.to) ==> Command(b.steps, b.a, b.j) == Registers(c.from, c.to))
  }

  /** The stops among the commands are given to a core that has come to its end by itself. */
  ghost predicate StopsLate(legs: seq<Leg>, cs: seq<Issue>) {
    forall i :: 0 <= i < |legs| && i < |cs| && cs[i].Stop? ==> i > 0 && legs[i].wait >= Clocks(Course(legs[..i]))
  }

  lemma NextLate(legs: seq<Leg>, l: Leg, cs: seq<Issue>)
    requires StopsLate(legs, cs) && |cs| == |legs| + 1
    requires cs[|legs|].Stop? ==> legs != [] && l.wait >= Clocks(Course(legs))
    ensures StopsLate(legs + [l], cs)
  {
    hide Clocks, Course;
    var more := legs + [l];
    forall i | 0 <= i < |more| && cs[i].Stop?
      ensures i > 0 && more[i].wait >= Clocks(Course(more[..i]))
    {
      assert more[..i] == legs[..i];
      assert legs[..|legs|] == legs;
    }
  }

  datatype SystemEvent = Clocked | Turned | Requested(target: Target) | Cleared

  class System {
    const fw: Motion
    var dev: Device
    ghost var legs: seq<Leg>
    ghost var age: nat

    constructor ()
      ensures Valid() && fresh(fw) && fresh(fw.queue) && legs == [] && fw.accepted == []
    {
      fw := new Motion();
      dev, legs, age := RESTING, [], 0;
    }

    /** What the registers hold. */
    function Registered(): Bank
      reads fw
    {
      Bank(fw.start, false, fw.setV, fw.start, fw.start, 0, 0, fw.regs.a, fw.regs.j, fw.dt, fw.regs.steps)
    }

    /** The commands that the core has taken over since the last reset are those that the firmware has issued, except for one
        that waits, and from them and their times the core is where the closed forms say.  A stop is only given to a core
        that has come to its end by itself. */
    ghost predicate Valid()
      reads this, fw, fw.queue
    {
      && fw.Valid() && |fw.issued| == |legs| + (if fw.start then 1 else 0)
      && (forall i :: 0 <= i < |legs| ==> Carries(legs[i].bank, fw.issued[i]))
      && (fw.start ==> Carries(Registered(), fw.issued[|legs|]))
      && Timely(legs) && dev == At(Course(legs), age)
      && StopsLate(legs, fw.issued)
      && (fw.start && fw.issued[|legs|].Stop? ==> legs != [] && age >= Clocks(Course(legs)))
    }

    /** While the firmware has nothing to do, the motor stands. */
    lemma IdleStands()
      requires Valid()
      ensures fw.state == Off || fw.state == Idle ==> dev.v == 0
    {
      hide At, Course, Timely, Clocks;
      if fw.state == Off || fw.state == Idle {
        RestingIsFirst(legs);
        if legs == [] {
          RestingStands(age);
        } else {
          var l := legs[|legs| - 1];
          StopStands(At(Course(legs[..|legs| - 1]), l.wait), l.bank, age);
          CourseOf(legs);
        }
      }
    }

    lemma Runs()
      requires Valid()
      ensures Settles(Course(legs)) && (legs == [] <==> Course(legs).stopped)
    {
      hide At, Course, Timely;
      CourseSettles(legs);
      RestingIsFirst(legs);
    }

    /** One clock.  The core takes a waiting command over exactly in the last clock of the one before it or later. */
    method Clock()
      requires Valid()
      modifies this`dev, this`legs, this`age, fw`start, fw`setV
      ensures Valid()
      ensures var loads := old(fw.start) && (old(legs) == [] || old(age) + 1 >= Clocks(Course(old(legs))));
              if loads then !fw.start && age == 0 && legs == old(legs) + [Leg(old(age), old(Registered()))]
              else fw.start == old(fw.start) && fw.setV == old(fw.setV) && age == old(age) + 1 && legs == old(legs)
      ensures dev == Tick(old(dev), old(Registered()))
    {
      hide At, Course, Timely, Clocks, Carries, Tick, Loads, StopsLate;
      Runs();
      NextClock(Course(legs), age, Registered());
      var loads := Loads(dev, Registered());
      LoadTick(dev, Registered());
      dev := Tick(dev, Registered());
      if loads {
        CarriesFits(Registered(), fw.issued[|legs|]);
        NextCourse(legs, Leg(age, Registered()));
        NextLate(legs, Leg(age, Registered()), fw.issued);
        legs, age := legs + [Leg(age, Registered())], 0;
        fw.Take();
      } else {
        age := age + 1;
      }
    }

    /** One turn of the firmware's main loop. */
    method Turn()
      requires Valid()
      modifies fw, fw.queue
      ensures Valid() && fw.queue == old(fw.queue) && fw.accepted == old(fw.accepted)
      ensures TurnsLeft(fw.state, fw.queueLen) < TurnsLeft(old(fw.state), old(fw.queueLen)) ||
              TurnsLeft(fw.state, fw.queueLen) == 0 || old(fw.start) || !dev.stopped
      ensures TurnsLeft(fw.state, fw.queueLen) <= TurnsLeft(old(fw.state), old(fw.queueLen))
    {
      hide At, Course, Timely, Targets, Chained, Registers, Computable, Clocks;
      Runs();
      if dev.stopped && legs != [] {
        StoppedIsOver(Course(legs), age);
      }
      fw.MainLoop(dev.stopped);
    }

    /** The last command to be taken over lasts no longer than the longest there is. */
    lemma NotForever()
      requires Valid() && legs != []
      ensures Clocks(Course(legs)) <= LONGEST
    {
      hide At, Timely;
      var n := |legs| - 1;
      CourseOf(legs);
      CarriesFits(legs[n].bank, fw.issued[n]);
      LongestCommand(Course(legs));
    }

    /** The core has come to its end. */
    lemma Over()
      requires Valid() && (legs == [] || age >= Clocks(Course(legs)))
      ensures dev.stopped
    {
      hide At, Course, Timely, Clocks, StopsLate, Carries;
      Runs();
      EndedStops(Course(legs), age);
    }

    /** Clocks alone: a command that waits is taken over, and comes to its end. */
    method Pass(clocks: nat)
      requires Valid() && clocks >= 2 * LONGEST
      modifies this`dev, this`legs, this`age, fw`start, fw`setV
      ensures Valid() && !fw.start && dev.stopped
    {
      hide At, Course, Timely, Clocks, Carries, Tick, StopsLate;
      for i := 0 to clocks
        invariant Valid()
        invariant fw.start && i > 0 ==> legs != [] && i <= age < Clocks(Course(legs))
        invariant !fw.start ==> i <= age + LONGEST
      {
        if legs != [] {
          NotForever();
        }
        Clock();
      }
      if legs != [] {
        NotForever();
      }
      Over();
    }

    /** Turns of the main loop with enough clocks between them: every accepted target is issued and taken over, and then
        the motor is told to stop and stands. */
    method Drain(clocks: seq<nat>)
      requires Valid() && |clocks| >= fw.queueLen + 4 && forall i :: 0 <= i < |clocks| ==> clocks[i] >= 2 * LONGEST
      modifies this, fw, fw.queue
      ensures Valid() && fw.queueLen == 0 && Targets(fw.issued) == fw.accepted == old(fw.accepted)
      ensures |legs| == |fw.issued| && (fw.state == Off || fw.state == Idle) && dev.v == 0
    {
      hide At, Course, Timely, Carries, StopsLate, Targets, Chained, Tick, Clocks;
      for i := 0 to |clocks|
        invariant Valid() && fw.queue == old(fw.queue) && fw.accepted == old(fw.accepted)
        invariant TurnsLeft(fw.state, fw.queueLen) + i <= |clocks| || TurnsLeft(fw.state, fw.queueLen) == 0
        invariant if i == 0 then TurnsLeft(fw.state, fw.queueLen) < |clocks| else !fw.start && dev.stopped
      {
        Turn();
        Pass(clocks[i]);
      }
      IdleStands();
      assert fw.queue[..0] == [];
    }

    method Request(target: Target) returns (rc: int)
      requires Valid()
      modifies fw`queueLen, fw`accepted, fw.queue
      ensures Valid()
    {
      hide At, Course, Timely, Carries;
      rc := fw.Queue(target);
    }

    /** steppersReset: the firmware forgets everything, and the core is reset. */
    method Clear()
      requires Valid()
      modifies this, fw
      ensures Valid() && fw.queue == old(fw.queue) && legs == [] && dev == RESTING
    {
      hide Carries;
      fw.Reset();
      dev, legs, age := RESTING, [], 0;
    }

    /** Any run of clocks, turns of the main loop, requests and resets: the core takes over exactly the commands that the
        firmware issues, in order and none twice, and its position, velocity and acceleration are at every moment what the
        closed forms make of them. */
    method Run(events: seq<SystemEvent>)
      requires Valid()
      modifies this, fw, fw.queue
      ensures Valid() && |fw.issued| - 1 <= |legs| <= |fw.issued|
      ensures Targets(fw.issued) <= fw.accepted && Chained(fw.issued, fw.current)
    {
      hide At, Course, Timely, Carries, StopsLate, Targets, Chained, Tick, Clocks;
      for i := 0 to |events|
        invariant Valid() && fw.queue == old(fw.queue)
      {
        match events[i] {
          case Clocked => Clock();
          case Turned => Turn();
          case Requested(target) =>
            var rc := Request(target);
          case Cleared => Clear();
        }
      }
    }
  }

  /** The clocks of the longest command that there can be. */
  const LONGEST := 0x1_0000_0000 * 400000

  lemma LongestCommand(d: Device)
    requires d.dtLimit == DIVIDER
    ensures Clocks(d) <= LONGEST
  {}

  lemma EndedStops(d: Device, age: nat)
    requires d.stopped || age >= Clocks(d)
    ensures At(d, age).stopped
  {
    hide Clocks, InCommand, EndX, VelAt, AccAt, S64;
  }

  lemma StoppedIsOver(d: Device, age: nat)
    requires Settles(d) && !d.stopped && At(d, age).stopped
    ensures age >= Clocks(d)
  {
    if age < Clocks(d) {
      DoneAt(d, age);
    }
  }

  lemma RestingStands(age: nat)
    ensures At(RESTING, age).v == 0
  {}

  lemma CourseOf(legs: seq<Leg>)
    requires legs != []
    ensures Course(legs) == Loaded(At(Course(legs[..|legs| - 1]), legs[|legs| - 1].wait), legs[|legs| - 1].bank)
  {}

  /** Behind a stop the velocity is zero. */
  lemma StopStands(d: Device, b: Bank, age: nat)
    requires b.setV && b.setA && b.setJ && b.v == b.a == b.j == 0
    ensures At(Loaded(d, b), age).v == 0
  {
    hide VelAt, Travel, AccAt, Clocks, Quotient, Remainder, Count;
    forall k: nat
      ensures VelAt(0, 0, 0, k) == 0
    {
      VelocityClosed(0, 0, 0, k);
    }
  }

  lemma LoadTick(d: Device, b: Bank)
    ensures Loads(d, b) ==> Tick(d, b) == Loaded(d, b)
  {}

  lemma RestingIsFirst(legs: seq<Leg>)
    ensures legs == [] <==> Course(legs).stopped
    ensures legs == [] ==> Course(legs) == RESTING
  {
    hide At;
  }

  lemma NextCourse(legs: seq<Leg>, l: Leg)
    requires Settles(Course(legs)) && Fits(l.bank) && l.bank.setA
    requires Timely(legs) && (legs == [] || l.wait + 1 >= Clocks(Course(legs)))
    ensures Timely(legs + [l]) && Course(legs + [l]) == Loaded(At(Course(legs), l.wait), l.bank) == At(Course(legs + [l]), 0)
  {
    hide At, Clocks, Fits, Loaded, Settles;
    var more := legs + [l];
    assert more[..|legs|] == legs;
    forall i | 0 < i < |more|
      ensures more[i].wait + 1 >= Clocks(Course(more[..i]))
    {
      assert more[..i] == legs[..i];
    }
    AtSettled(Course(legs), l.wait);
    LoadedSettles(At(Course(legs), l.wait), l.bank);
    BegunSettles(Course(more));
    AtIs(Course(more), 0);
  }

  lemma BegunSettles(d: Device)
    requires Begun(d)
    ensures Settles(d)
  {}

  lemma CarriesFits(b: Bank, c: Issue)
    requires Carries(b, c)
    ensures Fits(b) && b.setA && b.dt == DIVIDER
  {}
}
