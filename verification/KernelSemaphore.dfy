/** The kernel's counting semaphore.  A wait that blocks is two steps, before and after process_block;
    system calls are otherwise not interrupted. */
module KernelSemaphore {

  type Pid = nat

  /** A blocked process; timed if it waits with a timeout. */
  datatype Waiter = Waiter(pid: Pid, timed: bool)

  /** A semaphore and the account of what happened to it: its first value, the posts, the units granted,
      and the timed-out waiters that have not run yet. */
  datatype State = State(alive: bool, value: int, queue: seq<Waiter>,
                         initial: int, posts: nat, grants: nat, late: multiset<Pid>)

  /** The calls and what the scheduler and the timer add: which waiter is woken or times out. */
  datatype Event =
    | Wait(w: Waiter)
    | TryWait
    | Post(pick: nat)
    | Timeout(who: nat)
    | ResumeLate(pid: Pid)

  /** A value stored in a signed char. */
  function S8(x: int): (r: int)
    ensures -128 <= r <= 127
    ensures -128 <= x <= 127 ==> r == x
  {
    (x + 128) % 256 - 128
  }

  /** The queue when the waiter in place i has left it; the others keep their order. */
  function Without(q: seq<Waiter>, i: nat): (r: seq<Waiter>)
    requires i < |q|
    ensures |r| == |q| - 1
  {
    q[..i] + q[i + 1..]
  }

  lemma OthersKeepOrder(q: seq<Waiter>, i: nat, j: nat)
    requires i < |q| && j < |q| - 1
    ensures Without(q, i)[j] == q[if j < i then j else j + 1]
  {}

  /** The scheduler picks among the waiters there are; only a timed waiter times out; only a late one resumes. */
  predicate Enabled(s: State, e: Event) {
    match e
    case Post(pick) => s.queue != [] ==> pick < |s.queue|
    case Timeout(who) => who < |s.queue| && s.queue[who].timed
    case ResumeLate(pid) => s.late[pid] > 0
    case _ => true
  }

  /** sys_sem_wait_x and sys_sem_timedwait up to process_block. */
  function DoWait(s: State, w: Waiter): State {
    var v := S8(s.value - 1);
    if !s.alive then s
    else if v < 0 then s.(value := v, queue := s.queue + [w])
    else s.(value := v, grants := s.grants + 1)
  }

  function DoTryWait(s: State): State {
    if s.alive && s.value > 0 then s.(value := S8(s.value - 1), grants := s.grants + 1) else s
  }

  function DoPost(s: State, pick: nat): State
    requires s.queue != [] ==> pick < |s.queue|
  {
    var v := S8(s.value + 1);
    if !s.alive then s
    else if v <= 0 && s.queue != [] then
      s.(value := v, queue := Without(s.queue, pick), posts := s.posts + 1, grants := s.grants + 1)
    else s.(value := v, posts := s.posts + 1)
  }

  function Step(s: State, e: Event): State
    requires Enabled(s, e)
  {
    match e
    case Wait(w) => DoWait(s, w)
    case TryWait => DoTryWait(s)
    case Post(pick) => DoPost(s, pick)
    case Timeout(who) => s.(queue := Without(s.queue, who), late := s.late + multiset{s.queue[who].pid})
    case ResumeLate(pid) => s.(value := S8(s.value + 1), late := s.late - multiset{pid})
  }

  /** A run: every event enabled where it happens. */
  ghost predicate IsRun(s: State, es: seq<Event>)
    decreases |es|
  {
    es == [] || (Enabled(s, es[0]) && IsRun(Step(s, es[0]), es[1..]))
  }

  ghost function Run(s: State, es: seq<Event>): State
    requires IsRun(s, es)
    decreases |es|
  {
    if es == [] then s else Run(Step(s, es[0]), es[1..])
  }

  /** What sys_sem_init leaves. */
  function Init(value: int): State
  {
    State(true, S8(value), [], value, 0, 0, multiset{})
  }

  /** Units neither granted nor owed to a waiter that still counts against the value. */
  ghost function Tokens(s: State): int { s.initial + s.posts - s.grants }

  // ---- what the callers are told -----------------------------------------------------------

  /** What a step tells: the unit is granted, the caller sleeps, nothing is given; a post wakes a waiter or not;
      a waiter's time has run out. */
  datatype Answer = Granted | Asleep | Refused | Gone | Posted | Woke(w: Waiter) | Expired(w: Waiter) | Resumed

  function Tells(s: State, e: Event): Answer
    requires Enabled(s, e)
  {
    match e
    case Wait(w) => if !s.alive then Gone else if S8(s.value - 1) < 0 then Asleep else Granted
    case TryWait => if s.alive && s.value > 0 then Granted else Refused
    case Post(pick) =>
      if !s.alive then Gone else if S8(s.value + 1) <= 0 && s.queue != [] then Woke(s.queue[pick]) else Posted
    case Timeout(who) => Expired(s.queue[who])
    case ResumeLate(pid) => Resumed
  }

  /** The account of a semaphore that its users can keep: who sleeps, who is late, the posts and the units granted. */
  datatype Account = Account(asleep: multiset<Waiter>, late: multiset<Pid>, posts: nat, grants: nat)

  /** A call and its answer, entered in the account. */
  function Noted(t: Account, e: Event, a: Answer): Account {
    match a
    case Granted => t.(grants := t.grants + 1)
    case Asleep => if e.Wait? then t.(asleep := t.asleep + multiset{e.w}) else t
    case Posted => t.(posts := t.posts + 1)
    case Woke(w) => t.(posts := t.posts + 1, grants := t.grants + 1, asleep := t.asleep - multiset{w})
    case Expired(w) => t.(asleep := t.asleep - multiset{w}, late := t.late + multiset{w.pid})
    case Resumed => if e.ResumeLate? then t.(late := t.late - multiset{e.pid}) else t
    case _ => t
  }

  /** The account after a run, from the answers alone. */
  ghost function Kept(t: Account, s: State, es: seq<Event>): Account
    requires IsRun(s, es)
    decreases |es|
  {
    if es == [] then t else Kept(Noted(t, es[0], Tells(s, es[0])), Step(s, es[0]), es[1..])
  }

  ghost function Books(s: State): Account { Account(multiset(s.queue), s.late, s.posts, s.grants) }

  lemma OneLess(q: seq<Waiter>, i: nat)
    requires i < |q|
    ensures multiset(Without(q, i)) == multiset(q) - multiset{q[i]}
  {
    assert q == q[..i] + [q[i]] + q[i + 1..];
  }

  lemma OneMore(q: seq<Waiter>, w: Waiter)
    ensures multiset(q + [w]) == multiset(q) + multiset{w}
  {}

  lemma PostAsTold(s: State, pick: nat)
    requires Enabled(s, Post(pick))
    ensures Books(DoPost(s, pick)) == Noted(Books(s), Post(pick), Tells(s, Post(pick)))
  {
    hide S8, Without, Books;
    if s.alive && S8(s.value + 1) <= 0 && s.queue != [] {
      PostWakesOne(s, pick);
    } else {
      PostWakesNone(s, pick);
    }
  }

  lemma PostWakesOne(s: State, pick: nat)
    requires s.alive && pick < |s.queue| && S8(s.value + 1) <= 0
    ensures Books(DoPost(s, pick)) ==
            Account(multiset(s.queue) - multiset{s.queue[pick]}, s.late, s.posts + 1, s.grants + 1)
    ensures Books(s) == Account(multiset(s.queue), s.late, s.posts, s.grants)
  {
    hide S8, Without;
    OneLess(s.queue, pick);
  }

  lemma PostWakesNone(s: State, pick: nat)
    requires Enabled(s, Post(pick)) && !(s.alive && S8(s.value + 1) <= 0 && s.queue != [])
    ensures Books(DoPost(s, pick)) == if s.alive then Books(s).(posts := s.posts + 1) else Books(s)
    ensures Books(s).posts == s.posts
  {
    hide S8;
  }

  lemma TimeoutAsTold(s: State, who: nat)
    requires Enabled(s, Timeout(who))
    ensures Books(Step(s, Timeout(who))) == Noted(Books(s), Timeout(who), Tells(s, Timeout(who)))
  {
    hide Without;
    OneLess(s.queue, who);
  }

  /** Every step leaves the semaphore as its answer says: a process told to sleep is on the queue, and the one that is
      woken or runs out of time is off it. */
  lemma StepAsTold(s: State, e: Event)
    requires Enabled(s, e)
    ensures Books(Step(s, e)) == Noted(Books(s), e, Tells(s, e))
  {
    match e {
      case Wait(w) => OneMore(s.queue, w);
      case Post(pick) => PostAsTold(s, pick);
      case Timeout(who) => TimeoutAsTold(s, who);
      case _ =>
    }
  }

  /** Over every run, the processes on the queue are those that were told to sleep and neither woken nor expired. */
  lemma {:induction false} RunAsTold(s: State, es: seq<Event>)
    requires IsRun(s, es)
    ensures Books(Run(s, es)) == Kept(Books(s), s, es)
    decreases |es|
  {
    hide Step, Tells, Noted, Books;
    if es != [] {
      StepAsTold(s, es[0]);
      RunAsTold(Step(s, es[0]), es[1..]);
    }
  }

  // ---- conservation ------------------------------------------------------------------------

  ghost function Balance(s: State): int { Tokens(s) - |s.queue| - |s.late| }

  /** The value is the balance, as far as a signed char can hold it. */
  ghost predicate Conserved(s: State) { s.value == S8(s.value) && (s.value - Balance(s)) % 256 == 0 }

  lemma Congruent(x: int, y: int, d: int)
    requires (x - y) % 256 == 0
    ensures (S8(x + d) - (y + d)) % 256 == 0
  {
    var z := x + d + 128;
    assert z == 256 * (z / 256) + z % 256;
    assert S8(x + d) - (y + d) == x - y - 256 * (z / 256);
  }

  lemma SignedTwice(x: int)
    ensures S8(S8(x)) == S8(x)
  {}

  lemma StepConserves(s: State, e: Event)
    requires Enabled(s, e) && Conserved(s)
    ensures Conserved(Step(s, e))
  {
    hide S8;
    Congruent(s.value, Balance(s), 1);
    Congruent(s.value, Balance(s), -1);
    SignedTwice(s.value + 1);
    SignedTwice(s.value - 1);
  }

  lemma {:induction false} RunConserves(s: State, es: seq<Event>)
    requires IsRun(s, es) && Conserved(s)
    ensures Conserved(Run(s, es))
    decreases |es|
  {
    if es != [] {
      StepConserves(s, es[0]);
      RunConserves(Step(s, es[0]), es[1..]);
    }
  }

  lemma {:induction false} InitialStays(s: State, es: seq<Event>)
    requires IsRun(s, es)
    ensures Run(s, es).initial == s.initial
    decreases |es|
  {
    if es != [] {
      InitialStays(Step(s, es[0]), es[1..]);
    }
  }

  /** In every run, timed waits included, the value is exactly the balance of the account that the answers give, when a
      signed char can hold it. */
  lemma ValueIsBalance(value: int, es: seq<Event>)
    requires IsRun(Init(value), es)
    ensures var t := Kept(Account(multiset{}, multiset{}, 0, 0), Init(value), es);
            var balance := value + t.posts - t.grants - |t.asleep| - |t.late|;
            -128 <= balance <= 127 ==> Run(Init(value), es).value == balance
  {
    hide Run, Step, Kept;
    Congruent(value, value, 0);
    RunConserves(Init(value), es);
    RunAsTold(Init(value), es);
    InitialStays(Init(value), es);
    assert Books(Init(value)) == Account(multiset{}, multiset{}, 0, 0);
  }

  // ---- runs without timeouts ---------------------------------------------------------------

  function Positive(x: int): nat { if x > 0 then x else 0 }

  /** Nobody is late, the queue is as long as the value is negative, and every unit is granted or available. */
  ghost predicate Balanced(s: State) {
    && s.alive && s.late == multiset{} && -128 <= s.value <= 127
    && |s.queue| == Positive(-s.value)
    && s.initial + s.posts == s.grants + Positive(s.value)
  }

  /** The event counts the value beyond what a signed char holds. */
  predicate Overflows(s: State, e: Event) {
    (e.Post? && s.value == 127) || (e.Wait? && s.value == -128)
  }

  /** A step without timeouts keeps the balance exactly when it does not overflow the value. */
  lemma StepBalanced(s: State, e: Event)
    requires Balanced(s) && Enabled(s, e) && !e.Timeout?
    ensures Balanced(Step(s, e)) <==> !Overflows(s, e)
  {}

  ghost predicate NoOverflow(s: State, es: seq<Event>)
    requires IsRun(s, es)
    decreases |es|
  {
    es == [] || (!Overflows(s, es[0]) && NoOverflow(Step(s, es[0]), es[1..]))
  }

  /** Every run without timeouts and overflow keeps the balance. */
  lemma {:induction false} RunBalanced(s: State, es: seq<Event>)
    requires Balanced(s) && IsRun(s, es) && NoOverflow(s, es) && forall i :: 0 <= i < |es| ==> !es[i].Timeout?
    ensures Balanced(Run(s, es))
    decreases |es|
  {
    if es != [] {
      StepBalanced(s, es[0]);
      RunBalanced(Step(s, es[0]), es[1..]);
    }
  }

  // ---- runs with timeouts ------------------------------------------------------------------

  /** Somebody waits only when there is no unit to give. */
  ghost predicate Fair(s: State) {
    s.alive && -128 <= s.value <= 127 && s.value == Balance(s) && Tokens(s) >= 0 && (s.queue != [] ==> Tokens(s) == 0)
  }

  /** The call blocks although a unit is left: the value still counts a waiter that has timed out. */
  ghost predicate BlocksWrongly(s: State, e: Event) {
    e.Wait? && s.value <= 0 < s.value + |s.queue| + |s.late|
  }

  /** A step keeps the semaphore fair exactly when it is not a wait that blocks although a unit is left. */
  lemma StepFair(s: State, e: Event)
    requires Fair(s) && Enabled(s, e) && !Overflows(s, e) && (e.ResumeLate? ==> s.value < 127)
    ensures Fair(Step(s, e)) <==> !BlocksWrongly(s, e)
  {}

  /** On a fair semaphore a post with somebody waiting wakes one. */
  lemma PostWakes(s: State, pick: nat)
    requires Fair(s) && s.queue != [] && pick < |s.queue|
    ensures |DoPost(s, pick).queue| == |s.queue| - 1
  {}

  /** A run after which a process waits although the value is positive: the post came while the first waiter
      had timed out but not run, so the second waiter was counted behind it. */
  lemma StrandedWaiter(a: Pid, d: Pid)
    ensures var es := [Wait(Waiter(a, true)), Timeout(0), Post(0), Wait(Waiter(d, false)), ResumeLate(a), Post(0)];
            && IsRun(Init(0), es)
            && Run(Init(0), es).value == 1 && Run(Init(0), es).queue == [Waiter(d, false)]
  {
    var s0 := Init(0);
    var s1 := Step(s0, Wait(Waiter(a, true)));
    var s2 := Step(s1, Timeout(0));
    var s3 := Step(s2, Post(0));
    var s4 := Step(s3, Wait(Waiter(d, false)));
    var s5 := Step(s4, ResumeLate(a));
    var s6 := Step(s5, Post(0));
    RunOne(s5, Post(0), []);
    RunOne(s4, ResumeLate(a), [Post(0)]);
    RunOne(s3, Wait(Waiter(d, false)), [ResumeLate(a), Post(0)]);
    RunOne(s2, Post(0), [Wait(Waiter(d, false)), ResumeLate(a), Post(0)]);
    RunOne(s1, Timeout(0), [Post(0), Wait(Waiter(d, false)), ResumeLate(a), Post(0)]);
    RunOne(s0, Wait(Waiter(a, true)), [Timeout(0), Post(0), Wait(Waiter(d, false)), ResumeLate(a), Post(0)]);
  }

  lemma RunOne(s: State, e: Event, es: seq<Event>)
    requires Enabled(s, e) && IsRun(Step(s, e), es)
    ensures IsRun(s, [e] + es) && Run(s, [e] + es) == Run(Step(s, e), es)
  {
    assert ([e] + es)[1..] == es;
  }

  ghost predicate NoneBlocksWrongly(s: State, es: seq<Event>)
    requires IsRun(s, es)
    decreases |es|
  {
    es == [] ||
    (!Overflows(s, es[0]) && (es[0].ResumeLate? ==> s.value < 127) && !BlocksWrongly(s, es[0]) &&
     NoneBlocksWrongly(Step(s, es[0]), es[1..]))
  }

  /** Every run in which no wait blocks although a unit is left keeps the semaphore fair, timeouts included. */
  lemma {:induction false} RunFair(s: State, es: seq<Event>)
    requires Fair(s) && IsRun(s, es) && NoneBlocksWrongly(s, es)
    ensures Fair(Run(s, es))
    decreases |es|
  {
    if es != [] {
      StepFair(s, es[0]);
      RunFair(Step(s, es[0]), es[1..]);
    }
  }

  // ---- the kernel object -------------------------------------------------------------------

  function Least(a: nat, b: nat): nat { if a < b then a else b }

  /** A way to choose among waiters. */
  ghost predicate Picks(pick: seq<Waiter> -> nat) { forall q :: q != [] ==> pick(q) < |q| }

  /** The waiters left when n have been woken one by one. */
  ghost function Remaining(q: seq<Waiter>, pick: seq<Waiter> -> nat, n: nat): (r: seq<Waiter>)
    requires Picks(pick) && n <= |q|
    ensures |r| == |q| - n && multiset(r) <= multiset(q)
  {
    if n == 0 then q
    else
      var p := Remaining(q, pick, n - 1);
      FewerWaiters(p, pick(p));
      Without(p, pick(p))
  }

  lemma FewerWaiters(q: seq<Waiter>, i: nat)
    requires i < |q|
    ensures multiset(Without(q, i)) <= multiset(q)
  {
    assert q == q[..i] + [q[i]] + q[i + 1..];
  }

  lemma RemainingNext(q: seq<Waiter>, pick: seq<Waiter> -> nat, n: nat)
    requires Picks(pick) && n <= |q|
    ensures Remaining(q, pick, 0) == q
    ensures n < |q| ==>
              var p := Remaining(q, pick, n);
              pick(p) < |p| && Remaining(q, pick, n + 1) == Without(p, pick(p))
  {}

  lemma CanPick(pick: seq<Waiter> -> nat, q: seq<Waiter>)
    requires Picks(pick) && q != []
    ensures pick(q) < |q|
  {}

  /** On a fair semaphore the value is low enough for all waiters. */
  lemma DestroyRounds(s: State)
    ensures Fair(s) ==> Least(|s.queue|, Positive(1 - s.value)) == |s.queue|
    ensures Balanced(s) ==> Least(|s.queue|, Positive(1 - s.value)) == |s.queue| == Positive(-s.value)
  {}

  /** An entry of sem_heap. */
  class Semaphore {
    var semId: int
    var semValue: int
    var waitQ: seq<Waiter>
    ghost var initial: int
    ghost var posts: nat
    ghost var grants: nat
    ghost var late: multiset<Pid>

    ghost function Now(): State
      reads this
    {
      State(semId != -1, semValue, waitQ, initial, posts, grants, late)
    }

    /** sys_sem_init in slot id. */
    constructor (id: nat, value: int)
      ensures Now() == Init(value)
    {
      semId, semValue, waitQ := id, S8(value), [];
      initial, posts, grants, late := value, 0, 0, multiset{};
    }

    /** sys_sem_wait_x or sys_sem_timedwait up to process_block: -1 if the semaphore is gone. */
    method Wait(w: Waiter) returns (rc: int, blocked: bool)
      modifies this
      ensures Now() == Step(old(Now()), Event.Wait(w))
      ensures rc == (if semId == -1 then -1 else 0) && blocked == (rc == 0 && semValue < 0)
      ensures Tells(old(Now()), Event.Wait(w)) == if rc == -1 then Gone else if blocked then Asleep else Granted
      ensures waitQ == if blocked then old(waitQ) + [w] else old(waitQ)
    {
      if semId == -1 {
        return -1, false;
      }
      semValue := S8(semValue - 1);
      blocked := semValue < 0;
      if blocked {
        waitQ := waitQ + [w];
      } else {
        grants := grants + 1;
      }
      rc := 0;
    }

    /** sys_sem_trywait. */
    method TryWait() returns (rc: int)
      modifies this
      ensures Now() == Step(old(Now()), Event.TryWait)
      ensures rc == if old(semId) != -1 && old(semValue) > 0 then 0 else -1
      ensures Tells(old(Now()), Event.TryWait) == if rc == 0 then Granted else Refused
      ensures waitQ == old(waitQ) && (rc == -1 ==> Now() == old(Now()))
    {
      if semId == -1 {
        return -1;
      }
      if semValue > 0 {
        semValue := S8(semValue - 1);
        grants := grants + 1;
        return 0;
      }
      rc := -1;
    }

    /** sys_sem_post; pick is the waiter that process_unblock chooses. */
    method Post(pick: nat) returns (rc: int)
      requires waitQ != [] ==> pick < |waitQ|
      modifies this
      ensures Now() == Step(old(Now()), Event.Post(pick))
      ensures rc == if semId == -1 then -1 else 0
      ensures Tells(old(Now()), Event.Post(pick)) ==
              if rc == -1 then Gone else if |waitQ| < |old(waitQ)| then Woke(old(waitQ)[pick]) else Posted
    {
      if semId == -1 {
        return -1;
      }
      semValue := S8(semValue + 1);
      posts := posts + 1;
      if semValue <= 0 && |waitQ| > 0 {
        waitQ := Without(waitQ, pick);
        grants := grants + 1;
      }
      rc := 0;
    }

    /** The timer takes a timed waiter off the queue. */
    method Timeout(who: nat)
      requires who < |waitQ| && waitQ[who].timed
      modifies this
      ensures Now() == Step(old(Now()), Event.Timeout(who))
    {
      late := late + multiset{waitQ[who].pid};
      waitQ := Without(waitQ, who);
    }

    /** sys_sem_timedwait after process_block, when the wait timed out. */
    method ResumeLate(pid: Pid)
      requires late[pid] > 0
      modifies this
      ensures Now() == Step(old(Now()), Event.ResumeLate(pid))
    {
      semValue := S8(semValue + 1);
      late := late - multiset{pid};
    }

    /** sem_force_destroy: wakes waiters while the value is not positive, then gives up the semaphore.  Which waiter
        each round wakes is up to process_unblock. */
    method ForceDestroy(pick: seq<Waiter> -> nat) returns (rc: int, rounds: nat)
      requires -128 <= semValue <= 127 && Picks(pick)
      modifies this
      ensures rc == if old(semId) == -1 then -1 else 0
      ensures rc == -1 ==> rounds == 0 && Now() == old(Now())
      ensures rounds <= |old(waitQ)|
      ensures rc == 0 ==> semId == -1 && semValue == 0 && waitQ == Remaining(old(waitQ), pick, rounds)
      ensures rc == 0 ==> rounds == Least(|old(waitQ)|, Positive(1 - old(semValue)))
      ensures rc == 0 && old(Fair(Now())) ==> waitQ == [] && rounds == |old(waitQ)|
      ensures rc == 0 && old(Balanced(Now())) ==> waitQ == [] && rounds == Positive(-old(semValue))
    {
      hide Fair, Balanced, Without, S8, Picks, Remaining;
      DestroyRounds(Now());
      RemainingNext(waitQ, pick, 0);
      rounds := 0;
      if semId == -1 {
        return -1, 0;
      }
      while semValue <= 0 && |waitQ| > 0
        invariant semId != -1 && rounds <= |old(waitQ)| && waitQ == Remaining(old(waitQ), pick, rounds)
        invariant semValue == old(semValue) + rounds && (rounds > 0 ==> semValue <= 1)
        decreases |waitQ|
      {
        CanPick(pick, waitQ);
        RemainingNext(old(waitQ), pick, rounds);
        waitQ := Without(waitQ, pick(waitQ));
        semValue := S8(semValue + 1);
        rounds := rounds + 1;
      }
      semId, semValue := -1, 0;
      rc := 0;
    }
  }
}
