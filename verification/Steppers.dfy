/** The motion queue: targets accepted from the user are handed to the motion device one by one.  The device
    takes a command over at any time after its start bit is set, and clears the bit. */
module Steppers {
  import opened Arithmetic
  import opened Segments

  const QUEUE_LEN := 10
  const ORIGIN := Place(0.0, 0.0)

  datatype Phase = Off | Idle | Active | Stopping

  /** A command given to the device: a move to a target, or a stop where it is. */
  datatype Issue = Move(from: Place, to: Target) | Stop(from: Place)

  function End(c: Issue): Place { if c.Move? then Place(c.to.x, c.to.v) else Place(c.from.x, 0.0) }

  function Duration(c: Issue): real { if c.Move? then c.to.dt else 0.1 }

  /** The path during a command. */
  function PathX(c: Issue, t: real): real
    requires Duration(c) != 0.0
  {
    if c.Move? then X(c.from, Fit(c.from, c.to), t) else c.from.x
  }

  function PathV(c: Issue, t: real): real
    requires Duration(c) != 0.0
  {
    if c.Move? then V(c.from, Fit(c.from, c.to), t) else 0.0
  }

  /** The targets of the moves among the commands. */
  function Targets(cs: seq<Issue>): seq<Target> {
    if cs == [] then []
    else
      var c := cs[|cs| - 1];
      Targets(cs[..|cs| - 1]) + if c.Move? then [c.to] else []
  }

  /** The commands follow on each other from the origin to the place p. */
  ghost predicate Chained(cs: seq<Issue>, p: Place) {
    if cs == [] then p == ORIGIN else End(cs[|cs| - 1]) == p && Chained(cs[..|cs| - 1], cs[|cs| - 1].from)
  }

  /** A command that starts where the others end. */
  lemma ChainedNext(cs: seq<Issue>, c: Issue)
    requires Chained(cs, c.from)
    ensures Chained(cs + [c], End(c)) && Targets(cs + [c]) == if c.Move? then Targets(cs) + [c.to] else Targets(cs)
  {
    assert (cs + [c])[..|cs|] == cs;
  }

  lemma {:induction false} ChainedLinks(cs: seq<Issue>, p: Place, k: nat)
    requires Chained(cs, p) && k + 1 < |cs|
    ensures End(cs[k]) == cs[k + 1].from
  {
    var n := |cs| - 1;
    if k + 1 < n {
      ChainedLinks(cs[..n], cs[n].from, k);
    } else {
      assert cs[..n][n - 1] == cs[k];
    }
  }

  /** Along commands that follow on each other the position is continuous.  So is the velocity, except where a
      stop cuts off a move whose target is to be passed at speed. */
  lemma PathContinuous(cs: seq<Issue>, p: Place, k: nat)
    requires Chained(cs, p) && k + 1 < |cs| && Duration(cs[k]) != 0.0 && Duration(cs[k + 1]) != 0.0
    ensures PathX(cs[k], Duration(cs[k])) == PathX(cs[k + 1], 0.0)
    ensures PathV(cs[k], Duration(cs[k])) == PathV(cs[k + 1], 0.0) <==>
            !(cs[k + 1].Stop? && cs[k].Move? && cs[k].to.v != 0.0)
  {
    hide Fit;
    ChainedLinks(cs, p, k);
    var c, d := cs[k], cs[k + 1];
    if c.Move? {
      FitEnds(c.from, c.to);
    }
    if d.Move? {
      assert X(d.from, Fit(d.from, d.to), 0.0) == d.from.x;
    }
  }

  /** What happens around the motion queue. */
  datatype Event = Turn(stopped: bool) | Queued(target: Target) | ResetAll | Taken

  function NextPhase(state: Phase, start: bool, queued: bool, stopped: bool): Phase {
    match state
    case Off => if queued then Idle else Off
    case Idle => if queued then Active else Idle
    case Active => if !start && !queued && stopped then Stopping else Active
    case Stopping => if !start && stopped then Idle else Stopping
  }

  /** The turns it takes to issue what is queued and to come to rest, while the device keeps up. */
  function TurnsLeft(state: Phase, queued: nat): nat {
    match state
    case Off => if queued == 0 then 0 else queued + 3
    case Idle => if queued == 0 then 0 else queued + 2
    case Active => queued + 2
    case Stopping => if queued == 0 then 1 else queued + 3
  }

  /** The arithmetic of a move is defined: no division by zero, and the conversions fit. */
  predicate Computable(from: Place, to: Target) { to.dt != 0.0 && Encodable(Plan(Fit(from, to), to.dt)) }

  /** What a move writes to the device. */
  function Registers(from: Place, to: Target): Command
    requires Computable(from, to)
  {
    Encode(Plan(Fit(from, to), to.dt))
  }

  class Motion {
    var queue: array<Target>
    var queueLen: nat
    var state: Phase
    var current: Place
    var start: bool
    var setV: bool
    var dt: Dword
    var regs: Command
    ghost var accepted: seq<Target>
    ghost var issued: seq<Issue>
    ghost var lost: bool

    constructor ()
      ensures Valid() && fresh(queue) && accepted == [] && issued == [] && state == Off
    {
      queue := new Target[QUEUE_LEN](_ => Target(0.0, 0.0, 0.0));
      queueLen, state, current := 0, Off, ORIGIN;
      start, setV, dt, regs := false, false, 0, Command(0, 0, 0);
      accepted, issued, lost := [], [], false;
    }

    /** Since the last reset: the accepted targets are the moves given to the device and those still queued, in
        order; the commands join up; and none was written over one the device had not taken. */
    ghost predicate Ledger()
      reads this`queue, this`queueLen, this`current, this`accepted, this`issued, this`lost, queue
    {
      && queue.Length == QUEUE_LEN && queueLen <= QUEUE_LEN && !lost
      && accepted == Targets(issued) + queue[..queueLen]
      && Chained(issued, current)
    }

    ghost predicate Valid()
      reads this, queue
    {
      && Ledger() && (state == Off ==> issued == []) && (state == Off || state == Idle ==> !start)
      && (!start ==> !setV) && (state != Off ==> dt == DIVIDER)
      && (state == Active || state == Stopping ==> issued != [])
      && (state == Stopping || (state == Idle && issued != []) ==> issued[|issued| - 1].Stop?)
    }

    /** Sets the start bit; a command the device has not taken yet would be lost. */
    method Start(ghost c: Issue)
      modifies this`start, this`issued, this`lost
      ensures start && issued == old(issued) + [c] && lost == (old(lost) || old(start))
    {
      lost := lost || start;
      start := true;
      issued := issued + [c];
    }

    /** Takes the first target out of the queue. */
    method DropFirst()
      requires 0 < queueLen <= queue.Length
      modifies this`queueLen, queue
      ensures queueLen == old(queueLen) - 1 && queue[..queueLen] == old(queue[1..queueLen])
    {
      for i := 0 to queueLen - 1
        modifies queue
        invariant forall k :: 0 <= k < i ==> queue[k] == old(queue[k + 1])
        invariant forall k :: i <= k < queueLen ==> queue[k] == old(queue[k])
      {
        queue[i] := queue[i + 1];
      }
      queueLen := queueLen - 1;
    }

    /** Hands the first target of the queue to the device. */
    method UnqueueMove()
      requires Ledger() && queueLen > 0 && !start
      modifies this`queueLen, this`current, this`start, this`regs, this`issued, this`lost, queue
      ensures Ledger() && start && queueLen == old(queueLen) - 1
      ensures issued == old(issued) + [Move(old(current), old(queue[0]))]
      ensures old(Computable(current, queue[0])) ==> regs == Registers(old(current), old(queue[0]))
    {
      hide Computable, Registers, Targets, Chained;
      var next := queue[0];
      ChainedNext(issued, Move(current, next));
      assert queue[..queueLen] == [next] + queue[1..queueLen];
      assert accepted == Targets(issued) + [next] + queue[1..queueLen];
      DropFirst();
      if Computable(current, next) {
        regs := Registers(current, next);
      } else {
        regs := *;
      }
      Start(Move(current, next));
      current := Place(next.x, next.v);
    }

    /** Stops the device where it is. */
    method UnqueueStop()
      requires Ledger() && !start
      modifies this`current, this`start, this`setV, this`regs, this`issued, this`lost
      ensures Ledger() && start && setV && issued == old(issued) + [Stop(old(current))] && regs == Command(25, 0, 0)
    {
      hide Targets, Chained;
      ChainedNext(issued, Stop(current));
      regs, setV := Command(25, 0, 0), true;
      Start(Stop(current));
      current := current.(v := 0.0);
    }

    /** A move is due: the device has taken the last command, and there is a target. */
    predicate MoveDue()
      reads this
    {
      queueLen > 0 && (state == Idle || (state == Active && !start))
    }

    /** One turn of the main loop; stopped is the status bit of the device, as it is read. */
    method MainLoop(stopped: bool)
      requires Valid()
      modifies this, queue
      ensures unchanged(`queue) && unchanged(`accepted) && Valid()
      ensures issued == old(issued) + (
                if old(MoveDue()) then [Move(old(current), old(queue[0]))]
                else if old(state == Active && !start && queueLen == 0) && stopped then [Stop(old(current))]
                else [])
      ensures state == NextPhase(old(state), old(start), old(queueLen) > 0, stopped)
      ensures old(state) == Off && old(queueLen) > 0 ==> state == Idle && dt == DIVIDER && current == ORIGIN
      ensures old(state) == Stopping ==> (state != Stopping <==> !old(start) && stopped)
      ensures queueLen == old(queueLen) - (if old(MoveDue()) then 1 else 0)
      ensures issued == old(issued) ==> start == old(start) && setV == old(setV) && regs == old(regs) && (start ==> dt == old(dt))
      ensures issued != old(issued) ==> !old(start) && start && setV == issued[|old(issued)|].Stop?
      ensures issued != old(issued) && setV ==> regs == Command(25, 0, 0)
      ensures old(MoveDue() && Computable(current, queue[0])) ==> regs == old(Registers(current, queue[0]))
    {
      hide Computable, Registers, Targets, Ledger;
      AtOrigin();
      match state {
        case Off =>
          if queueLen > 0 {
            dt := DIVIDER;
            current := ORIGIN;
            state := Idle;
          }
        case Idle =>
          if queueLen > 0 {
            UnqueueMove();
            state := Active;
          }
        case Active =>
          if !start {
            if queueLen > 0 {
              UnqueueMove();
            } else if stopped {
              UnqueueStop();
              state := Stopping;
            }
          }
        case Stopping =>
          if !start && stopped {
            state := Idle;
          }
      }
    }

    lemma AtOrigin()
      requires Valid()
      ensures state == Off ==> current == ORIGIN
    {}

    /** Queues a target.  A full queue refuses it; otherwise the result is whatever it happens to be. */
    method Queue(target: Target) returns (rc: int)
      requires Valid()
      modifies this`queueLen, this`accepted, queue
      ensures Valid() && queueLen == |accepted| - |Targets(issued)|
      ensures old(queueLen) >= QUEUE_LEN ==> rc == -1 && accepted == old(accepted) && queue[..] == old(queue[..])
      ensures old(queueLen) < QUEUE_LEN ==> accepted == old(accepted) + [target]
      ensures queueLen <= 10 && (old(queueLen) == 10 <==> accepted == old(accepted))
    {
      if queueLen >= QUEUE_LEN {
        return -1;
      }
      ghost var waiting := queue[..queueLen];
      queue[queueLen] := target;
      queueLen := queueLen + 1;
      accepted := accepted + [target];
      assert queue[..queueLen] == waiting + [target];
      rc := *;
    }

    /** Forgets everything and resets the device, which drops a command it has not taken. */
    method Reset()
      requires Valid()
      modifies this
      ensures Valid() && unchanged(`queue) && accepted == [] && issued == [] && state == Off && current == ORIGIN && !start
    {
      queueLen, state, current := 0, Off, ORIGIN;
      start, setV, dt, regs := false, false, 0, Command(0, 0, 0);
      accepted, issued := [], [];
    }

    /** The device takes the command over and clears its bits. */
    method Take()
      requires Valid()
      modifies this`start, this`setV
      ensures Valid() && !start
    {
      start, setV := false, false;
    }

    /** From power-on a target that has been accepted is under way after two turns. */
    method FirstMove(stopped: bool, later: bool)
      requires Valid() && state == Off && queueLen > 0
      modifies this, queue
      ensures Valid() && start && issued == [Move(Place(0.0, 0.0), old(queue[0]))] && dt == 400000 && state == Active
    {
      assert accepted == queue[..queueLen] && accepted[0] == queue[0];
      MainLoop(stopped);
      assert accepted == queue[..queueLen] && accepted[0] == queue[0];
      MainLoop(later);
    }

    /** Turns of the main loop, each followed by the device taking its command: all targets accepted are issued, in
        order, and then the device is told to stop and the firmware is idle. */
    method Drain(turns: nat, stopped: nat -> bool)
      requires Valid() && turns >= queueLen + 4 && forall i :: 0 <= i < turns ==> stopped(i)
      modifies this, queue
      ensures Valid() && queueLen == 0 && Targets(issued) == accepted == old(accepted)
      ensures !start && (state == Off || state == Idle)
    {
      hide Targets, Chained, Computable, Registers;
      for i := 0 to turns
        invariant Valid() && queue == old(queue) && accepted == old(accepted)
        invariant TurnsLeft(state, queueLen) + i <= turns || TurnsLeft(state, queueLen) == 0
        invariant if i == 0 then TurnsLeft(state, queueLen) < turns else !start
      {
        MainLoop(stopped(i));
        Take();
      }
      assert queue[..0] == [];
    }

    /** Any run of turns of the main loop, new targets, resets and the device taking commands over at arbitrary
        times: no command is lost, and the moves given to the device since the last reset are the first of the
        targets accepted since then. */
    method Run(events: seq<Event>)
      requires Valid()
      modifies this, queue
      ensures Valid() && !lost && Targets(issued) <= accepted && Chained(issued, current)
    {
      for i := 0 to |events|
        invariant Valid() && unchanged(`queue)
      {
        match events[i] {
          case Turn(stopped) => MainLoop(stopped);
          case Queued(target) =>
            var rc := Queue(target);
          case ResetAll => Reset();
          case Taken => Take();
        }
      }
    }
  }
}
