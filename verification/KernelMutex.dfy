/** The kernel's mutex, default and recursive.  A lock that finds the mutex taken blocks and, once woken,
    tries again: another process may have taken it in between. */
module KernelMutex {

  type Pid = nat

  datatype Code = Success | EBUSY | EPERM

  /** A mutex, the woken processes still to try again, and the locks each process holds. */
  datatype State = State(recursive: bool, locked: nat, owner: int, queue: seq<Pid>,
                         woken: multiset<Pid>, held: multiset<Pid>)

  datatype Event =
    | Lock(p: Pid)
    | TryLock(p: Pid)
    | Retry(p: Pid)
    | Unlock(p: Pid, pick: nat)

  /** The pick of the scheduler is a waiter; only a woken process tries again. */
  predicate Enabled(s: State, e: Event) {
    match e
    case Unlock(p, pick) => s.queue != [] ==> pick < |s.queue|
    case Retry(p) => s.woken[p] > 0
    case _ => true
  }

  /** The loop condition of pthread_mutex_lock_basic: the mutex is taken by somebody else, or not recursive. */
  predicate Blocked(s: State, p: Pid) {
    s.locked > 0 && !(s.recursive && s.owner == p)
  }

  function Acquire(s: State, p: Pid): State {
    s.(locked := if s.recursive then s.locked + 1 else 1, owner := p, held := s.held + multiset{p})
  }

  /** One turn of the loop: lock, or wait. */
  function Attempt(s: State, p: Pid): State {
    if Blocked(s, p) then s.(queue := s.queue + [p]) else Acquire(s, p)
  }

  /** A mutex found free wakes one waiter. */
  function Release(s: State, pick: nat): State
    requires s.queue != [] ==> pick < |s.queue|
  {
    if s.queue == [] then s.(owner := -1)
    else s.(owner := -1, queue := s.queue[..pick] + s.queue[pick + 1..], woken := s.woken + multiset{s.queue[pick]})
  }

  function DoUnlock(s: State, p: Pid, pick: nat): State
    requires s.queue != [] ==> pick < |s.queue|
  {
    if s.recursive then
      if s.owner != p || s.locked == 0 then s
      else
        var t := s.(locked := s.locked - 1, held := s.held - multiset{p});
        if t.locked == 0 then Release(t, pick) else t
    else
      Release(s.(locked := 0, held := s.held - multiset{p}), pick)
  }

  function Step(s: State, e: Event): State
    requires Enabled(s, e)
  {
    match e
    case Lock(p) => Attempt(s, p)
    case TryLock(p) => if Blocked(s, p) then s else Acquire(s, p)
    case Retry(p) => Attempt(s.(woken := s.woken - multiset{p}), p)
    case Unlock(p, pick) => DoUnlock(s, p, pick)
  }

  ghost predicate IsRun(s: State, es: seq<Event>)
    decreases |es|
  {
    es == [] || (Enabled(s, es[0]) && IsRun(Step(s, es[0]), es[1..]))
  }

  ghost function Run(s: State, es: seq<Event>): State
    requires IsRun(s, es)
    decreases |es|
  {
    if es == [] then s else Run(Step(s, es[0]), es[1..])
  }

  /** What sys_pthread_mutex_init leaves. */
  function Init(recursive: bool): State {
    State(recursive, 0, -1, [], multiset{}, multiset{})
  }

  // ---- what the callers are told -----------------------------------------------------------

  datatype Answer = Granted | Asleep | Refused | Released

  function Tells(s: State, e: Event): Answer {
    match e
    case Lock(p) => if Blocked(s, p) then Asleep else Granted
    case TryLock(p) => if Blocked(s, p) then Refused else Granted
    case Retry(p) => if Blocked(s, p) then Asleep else Granted
    case Unlock(p, pick) => if s.recursive && (s.owner != p || s.locked == 0) then Refused else Released
  }

  /** The account that the processes can keep: who has been told to sleep and not let through, and who holds locks. */
  datatype Account = Account(asleep: multiset<Pid>, held: multiset<Pid>)

  /** A call and its answer, entered in the account. */
  function Noted(t: Account, e: Event, a: Answer): Account {
    match a
    case Granted =>
      Account(if e.Retry? then t.asleep - multiset{e.p} else t.asleep, t.held + multiset{e.p})
    case Asleep => if e.Lock? then t.(asleep := t.asleep + multiset{e.p}) else t
    case Refused => t
    case Released => t.(held := t.held - multiset{e.p})
  }

  /** The account after a run, from the answers alone. */
  ghost function Kept(t: Account, s: State, es: seq<Event>): Account
    requires IsRun(s, es)
    decreases |es|
  {
    if es == [] then t else Kept(Noted(t, es[0], Tells(s, es[0])), Step(s, es[0]), es[1..])
  }

  /** The same by the kernel: the queue, the processes woken but still to try again, and the locks held. */
  ghost function Books(s: State): Account { Account(multiset(s.queue) + s.woken, s.held) }

  lemma Moved(q: seq<Pid>, i: nat, woken: multiset<Pid>)
    requires i < |q|
    ensures multiset(q[..i] + q[i + 1..]) + (woken + multiset{q[i]}) == multiset(q) + woken
  {
    assert q == q[..i] + [q[i]] + q[i + 1..];
  }

  lemma AttemptAsTold(s: State, p: Pid)
    ensures Books(Attempt(s, p)) ==
            if Blocked(s, p) then Account(multiset(s.queue) + s.woken + multiset{p}, s.held)
            else Account(multiset(s.queue) + s.woken, s.held + multiset{p})
  {}

  lemma RetryAsTold(s: State, p: Pid)
    requires s.woken[p] > 0
    ensures Books(Step(s, Retry(p))) == Noted(Books(s), Retry(p), Tells(s, Retry(p)))
  {
    hide Attempt;
    AttemptAsTold(s.(woken := s.woken - multiset{p}), p);
    TakenOut(multiset(s.queue), s.woken, p);
  }

  lemma TakenOut(q: multiset<Pid>, woken: multiset<Pid>, p: Pid)
    requires woken[p] > 0
    ensures q + (woken - multiset{p}) == q + woken - multiset{p}
    ensures q + (woken - multiset{p}) + multiset{p} == q + woken
  {}

  lemma UnlockAsTold(s: State, p: Pid, pick: nat)
    requires Enabled(s, Unlock(p, pick))
    ensures Books(Step(s, Unlock(p, pick))) == Noted(Books(s), Unlock(p, pick), Tells(s, Unlock(p, pick)))
  {
    if s.queue != [] {
      Moved(s.queue, pick, s.woken);
    }
  }

  /** Every step leaves the mutex as its answer says: a process told to sleep is queued or has been woken, until it is
      told that it has the lock. */
  lemma StepAsTold(s: State, e: Event)
    requires Enabled(s, e)
    ensures Books(Step(s, e)) == Noted(Books(s), e, Tells(s, e))
  {
    hide Attempt, DoUnlock, Books;
    match e {
      case Lock(p) => LockAsTold(s, p);
      case TryLock(p) => TryAsTold(s, p);
      case Retry(p) => RetryAsTold(s, p);
      case Unlock(p, pick) => UnlockAsTold(s, p, pick);
    }
  }

  lemma LockAsTold(s: State, p: Pid)
    ensures Books(Step(s, Lock(p))) == Noted(Books(s), Lock(p), Tells(s, Lock(p)))
  {
    hide Attempt;
    AttemptAsTold(s, p);
  }

  lemma TryAsTold(s: State, p: Pid)
    ensures Books(Step(s, TryLock(p))) == Noted(Books(s), TryLock(p), Tells(s, TryLock(p)))
  {}

  /** Over every run, the processes told to sleep and not let through are those that are queued or woken, and the locks
      held are those granted and not released. */
  lemma {:induction false} RunAsTold(s: State, es: seq<Event>)
    requires IsRun(s, es)
    ensures Books(Run(s, es)) == Kept(Books(s), s, es)
    decreases |es|
  {
    hide Step, Tells, Noted, Books;
    if es != [] {
      StepAsTold(s, es[0]);
      RunAsTold(Step(s, es[0]), es[1..]);
    }
  }

  // ---- what every step keeps ---------------------------------------------------------------

  /** Nobody waits for a mutex that is free, unless a woken process is still to try. */
  ghost predicate NoLostWakeup(s: State) {
    s.queue != [] ==> s.locked > 0 || s.woken != multiset{}
  }

  /** A recursive mutex counts the locks of its one owner. */
  ghost predicate Counts(s: State) {
    && s.recursive
    && (s.locked == 0 <==> s.owner == -1)
    && (s.owner >= 0 ==> s.held[s.owner] == s.locked)
    && s.owner >= -1
    && forall p: Pid :: p != s.owner ==> s.held[p] == 0
  }

  /** A default mutex is locked exactly while its one holder holds it. */
  ghost predicate Exclusive(s: State) {
    && !s.recursive && s.locked <= 1
    && (s.locked == 0 ==> s.held == multiset{} && s.owner == -1)
    && (s.locked == 1 ==> s.owner >= 0 && s.held == multiset{s.owner as nat})
  }

  lemma {:induction false} RunKeepsWakeups(s: State, es: seq<Event>)
    requires IsRun(s, es) && NoLostWakeup(s)
    ensures NoLostWakeup(Run(s, es))
    decreases |es|
  {
    if es != [] {
      StepKeepsWakeups(s, es[0]);
      RunKeepsWakeups(Step(s, es[0]), es[1..]);
    }
  }

  lemma StepKeepsWakeups(s: State, e: Event)
    requires Enabled(s, e) && NoLostWakeup(s)
    ensures NoLostWakeup(Step(s, e))
  {
    if e.Unlock? && s.queue != [] {
      assert s.queue[e.pick] in s.woken + multiset{s.queue[e.pick]};
    }
  }

  lemma StepKeepsCounts(s: State, e: Event)
    requires Enabled(s, e) && Counts(s)
    ensures Counts(Step(s, e))
  {}

  /** In every run of a recursive mutex, locked is the owner's locks minus its unlocks, there is at most one
      owner, and it is -1 exactly when the mutex is free. */
  lemma {:induction false} RunKeepsCounts(s: State, es: seq<Event>)
    requires IsRun(s, es) && Counts(s)
    ensures Counts(Run(s, es))
    decreases |es|
  {
    if es != [] {
      StepKeepsCounts(s, es[0]);
      RunKeepsCounts(Step(s, es[0]), es[1..]);
    }
  }

  /** A step keeps exclusion exactly when it does not unlock what another process holds. */
  lemma StepKeepsExclusion(s: State, e: Event)
    requires Enabled(s, e) && Exclusive(s)
    ensures Exclusive(Step(s, e)) <==> !(e.Unlock? && s.locked == 1 && s.owner != e.p)
  {
    if e.Unlock? && s.locked == 1 {
      if s.owner == e.p {
        assert s.held - multiset{e.p} == multiset{};
      } else {
        assert s.held[s.owner as nat] == 1;
      }
    }
  }

  ghost predicate OnlyHoldersUnlock(s: State, es: seq<Event>)
    requires IsRun(s, es)
    decreases |es|
  {
    es == [] ||
    (!(es[0].Unlock? && s.locked == 1 && s.owner != es[0].p) && OnlyHoldersUnlock(Step(s, es[0]), es[1..]))
  }

  lemma {:induction false} RunKeepsExclusion(s: State, es: seq<Event>)
    requires IsRun(s, es) && Exclusive(s) && OnlyHoldersUnlock(s, es)
    ensures Exclusive(Run(s, es))
    decreases |es|
  {
    if es != [] {
      StepKeepsExclusion(s, es[0]);
      RunKeepsExclusion(Step(s, es[0]), es[1..]);
    }
  }

  /** Every run from initialisation, with no assumption on the callers but, for the default type, that only
      holders unlock.  While a process that was told to sleep has not been let through, the mutex is held or a woken
      process is still to try; and every such process is queued or woken. */
  lemma MutexRuns(recursive: bool, es: seq<Event>)
    requires IsRun(Init(recursive), es)
    ensures var s, t := Run(Init(recursive), es), Kept(Account(multiset{}, multiset{}), Init(recursive), es);
            && t == Account(multiset(s.queue) + s.woken, s.held)
            && (t.asleep != multiset{} ==> s.locked > 0 || s.woken != multiset{})
    ensures NoLostWakeup(Run(Init(recursive), es))
    ensures recursive ==> Counts(Run(Init(recursive), es))
    ensures !recursive && OnlyHoldersUnlock(Init(recursive), es) ==> Exclusive(Run(Init(recursive), es))
  {
    hide Counts, Exclusive, Step;
    RunAsTold(Init(recursive), es);
    assert Books(Init(recursive)) == Account(multiset{}, multiset{});
    RunKeepsWakeups(Init(recursive), es);
    if recursive {
      RunKeepsCounts(Init(recursive), es);
    } else if OnlyHoldersUnlock(Init(recursive), es) {
      RunKeepsExclusion(Init(recursive), es);
    }
  }

  /** One lock of p less. */
  function Dropped(s: State, p: Pid): State
    requires s.recursive ==> s.locked > 0
  {
    s.(locked := if s.recursive then s.locked - 1 else 0, held := s.held - multiset{p})
  }

  lemma UnlockCases(s: State, p: Pid, pick: nat)
    requires (s.queue != [] ==> pick < |s.queue|) && (s.recursive && s.owner == p ==> s.locked > 0)
    ensures s.recursive && s.owner != p ==> Step(s, Event.Unlock(p, pick)) == s
    ensures !(s.recursive && s.owner != p) ==>
              var t := Dropped(s, p);
              Step(s, Event.Unlock(p, pick)) == if t.locked == 0 then Release(t, pick) else t
  {}

  lemma UnlockTells(s: State, p: Pid, pick: nat)
    requires s.recursive ==> Counts(s)
    ensures Tells(s, Unlock(p, pick)) == if s.recursive && s.owner != p then Refused else Released
  {}

  lemma OwnerHasLocked(s: State)
    requires s.recursive ==> Counts(s)
    ensures s.recursive && s.owner >= 0 ==> s.locked > 0
  {}

  /** An entry of pthread_mutex_heap. */
  class Mutex {
    const recursive: bool
    var locked: nat
    var owner: int
    var waitQ: seq<Pid>
    ghost var woken: multiset<Pid>
    ghost var held: multiset<Pid>

    ghost function Now(): State
      reads this
    {
      State(recursive, locked, owner, waitQ, woken, held)
    }

    constructor (recursive: bool)
      ensures Now() == Init(recursive)
    {
      this.recursive, locked, owner, waitQ := recursive, 0, -1, [];
      woken, held := multiset{}, multiset{};
    }

    /** pthread_mutex_lock_basic from its loop test on, up to process_block or the end. */
    method LockBasic(p: Pid, trylock: bool) returns (rc: Code, blocked: bool)
      modifies this
      ensures Now() == Step(old(Now()), if trylock then TryLock(p) else Event.Lock(p))
      ensures blocked == (!trylock && Blocked(old(Now()), p))
      ensures rc == if trylock && Blocked(old(Now()), p) then EBUSY else Success
      ensures Tells(old(Now()), if trylock then TryLock(p) else Event.Lock(p)) ==
              if rc == EBUSY then Refused else if blocked then Asleep else Granted
      ensures blocked ==> multiset(waitQ) == old(multiset(waitQ)) + multiset{p} && held == old(held) && woken == old(woken)
      ensures rc == EBUSY ==> Now() == old(Now())
      ensures rc == Success && !blocked ==> held == old(held) + multiset{p} && owner == p && waitQ == old(waitQ)
    {
      if locked > 0 {
        if !recursive || owner != p {
          if trylock {
            return EBUSY, false;
          }
          waitQ := waitQ + [p];
          return Success, true;
        }
      }
      if recursive {
        locked := locked + 1;
      } else {
        locked := 1;
      }
      owner := p;
      held := held + multiset{p};
      rc, blocked := Success, false;
    }

    /** The loop of pthread_mutex_lock_basic going round after process_block. */
    method Retry(p: Pid) returns (blocked: bool)
      requires woken[p] > 0
      modifies this
      ensures Now() == Step(old(Now()), Event.Retry(p))
      ensures Tells(old(Now()), Event.Retry(p)) == if blocked then Asleep else Granted
      ensures blocked ==> multiset(waitQ) == old(multiset(waitQ)) + multiset{p} && woken == old(woken) - multiset{p}
    {
      woken := woken - multiset{p};
      var _, again := LockBasic(p, false);
      blocked := again;
    }

    /** The end of sys_pthread_mutex_unlock, when the mutex has become free. */
    method WakeOne(pick: nat)
      requires waitQ != [] ==> pick < |waitQ|
      modifies this
      ensures Now() == Release(old(Now()), pick)
      ensures old(waitQ) != [] ==>
                && woken == old(woken) + multiset{old(waitQ)[pick]}
                && multiset(waitQ) + multiset{old(waitQ)[pick]} == old(multiset(waitQ))
    {
      if waitQ != [] {
        Moved(waitQ, pick, multiset{});
        assert multiset{} + multiset{waitQ[pick]} == multiset{waitQ[pick]};
      }
      owner := -1;
      if |waitQ| > 0 {
        woken := woken + multiset{waitQ[pick]};
        waitQ := waitQ[..pick] + waitQ[pick + 1..];
      }
    }

    /** sys_pthread_mutex_unlock by process p. */
    method Unlock(p: Pid, pick: nat) returns (rc: Code)
      requires (waitQ != [] ==> pick < |waitQ|) && (recursive ==> Counts(Now()))
      modifies this
      ensures Now() == Step(old(Now()), Event.Unlock(p, pick))
      ensures rc == if recursive && old(owner) != p then EPERM else Success
      ensures Tells(old(Now()), Event.Unlock(p, pick)) == if rc == EPERM then Refused else Released
    {
      hide Release, Counts, Step, Tells;
      ghost var s := Now();
      OwnerHasLocked(s);
      UnlockTells(s, p, pick);
      UnlockCases(s, p, pick);
      rc := Success;
      if recursive {
        if owner != p {
          return EPERM;
        }
        locked := locked - 1;
      } else {
        locked := 0;
      }
      held := held - multiset{p};
      ghost var t := Now();
      assert t == Dropped(s, p);
      if locked == 0 {
        WakeOne(pick);
      }
    }
  }
}
