/** The kernel's message queue: a bounded buffer over two counting semaphores.

    full counts the free slots and empty the messages.  A call that blocks is two steps; what runs after
    process_block is one uninterrupted step.
 */
module MessageQueue {
  import opened Arithmetic
  import Sem = KernelSemaphore

  /** A call in progress; its arguments are looked up under this number. */
  type Token = nat

  type Message = seq<int>

  const IPC_NOWAIT: Dword := 3
  const MSG_NOERROR: Dword := 1

  /** The arguments of sys_msgrcv: the buffer size and the flag word. */
  datatype RecvArgs = RecvArgs(size: nat, flags: Dword)

  /** A message too big for the buffer is cut instead of dropped. */
  predicate Cuts(a: RecvArgs) { And(a.flags, MSG_NOERROR) != 0 }

  /** sys_msgrcv does not wait when IPC_NOWAIT is the whole flag word. */
  predicate ReceiveNoWait(a: RecvArgs) { a.flags == IPC_NOWAIT }

  /** sys_msgsnd does not wait when the flag word has a bit of IPC_NOWAIT. */
  predicate SendNoWait(flags: Dword) { And(flags, IPC_NOWAIT) != 0 }

  /** IPC_NOWAIT is no bit of its own: a send does not wait if either of the two lowest bits is set, MSG_NOERROR among
      them, and a receive that does not wait cuts messages too big for its buffer instead of dropping them. */
  lemma FlagsOverlap(flags: Dword, a: RecvArgs)
    ensures SendNoWait(flags) <==> flags % 4 != 0
    ensures Cuts(a) <==> a.flags % 2 == 1
    ensures ReceiveNoWait(a) ==> Cuts(a)
  {
    DoublePower(1);
    AndMask(flags, 4) by {
      DoublePower(2);
    }
    AndMask(a.flags, 2);
  }

  /** A queue, the calls woken but not yet resumed, and the account of messages. */
  datatype State = State(
    len: nat, full: Sem.State, empty: Sem.State, queue: seq<Message>,
    wokenSenders: multiset<Token>, wokenReceivers: multiset<Token>,
    sent: seq<Message>, received: seq<Message>, discarded: nat)

  /** What each call was made with. */
  datatype Calls = Calls(message: Token -> Message, flags: Token -> Dword, recv: Token -> RecvArgs)

  /** Pick is the waiter that process_unblock chooses in the post of the step. */
  datatype Event =
    | Send(k: Token, pick: nat)
    | SendResume(k: Token, pick: nat)
    | Receive(k: Token, pick: nat)
    | ReceiveResume(k: Token, pick: nat)

  function Waiter(k: Token): Sem.Waiter { Sem.Waiter(k, false) }

  predicate CanPick(s: Sem.State, pick: nat) { s.queue != [] ==> pick < |s.queue| }

  /** The tail of sys_msgsnd: store the message, then post empty. */
  function FinishSend(s: State, m: Message, pick: nat): State
    requires CanPick(s.empty, pick)
  {
    var e := Sem.DoPost(s.empty, pick);
    s.(queue := s.queue + [m], sent := s.sent + [m], empty := e,
       wokenReceivers := s.wokenReceivers + Woken(s.empty, e, pick))
  }

  /** The waiter a post has woken, if any. */
  function Woken(before: Sem.State, after: Sem.State, pick: nat): multiset<Token>
    requires CanPick(before, pick)
  {
    if |after.queue| < |before.queue| then multiset{before.queue[pick].pid} else multiset{}
  }

  /** The tail of sys_msgrcv: take the oldest message; one that is too big is dropped, and full is not posted. */
  function FinishReceive(s: State, a: RecvArgs, pick: nat): State
    requires CanPick(s.full, pick)
  {
    if s.queue == [] then s
    else
      var m := s.queue[0];
      var t := s.(queue := s.queue[1..], received := s.received + [m]);
      if |m| > a.size && !Cuts(a) then t.(discarded := s.discarded + 1)
      else
        var f := Sem.DoPost(s.full, pick);
        t.(full := f, wokenSenders := s.wokenSenders + Woken(s.full, f, pick))
  }

  /** What the receiver of message m is given: an error if it is too big, or as much as its buffer holds. */
  predicate Delivered(m: Message, a: RecvArgs, rc: int, data: Message) {
    if |m| > a.size && !Cuts(a) then rc == -1 && data == []
    else rc == (if |m| > a.size then a.size else |m|) && data == m[..rc]
  }

  /** A woken call resumes once; the waiting queues have room for 127 processes. */
  predicate Enabled(s: State, e: Event) {
    match e
    case Send(k, pick) => CanPick(s.empty, pick) && |s.full.queue| < 127
    case SendResume(k, pick) => CanPick(s.empty, pick) && s.wokenSenders[k] > 0
    case Receive(k, pick) => CanPick(s.full, pick) && |s.empty.queue| < 127
    case ReceiveResume(k, pick) => CanPick(s.full, pick) && s.wokenReceivers[k] > 0
  }

  function Step(c: Calls, s: State, e: Event): State
    requires Enabled(s, e)
  {
    match e
    case Send(k, pick) =>
      if SendNoWait(c.flags(k)) && s.full.value <= 0 then s
      else if s.full.value <= 0 then s.(full := Sem.DoWait(s.full, Waiter(k)))
      else FinishSend(s.(full := Sem.DoWait(s.full, Waiter(k))), c.message(k), pick)
    case SendResume(k, pick) =>
      FinishSend(s.(wokenSenders := s.wokenSenders - multiset{k}), c.message(k), pick)
    case Receive(k, pick) =>
      if ReceiveNoWait(c.recv(k)) && s.empty.value <= 0 then s
      else if s.empty.value <= 0 then s.(empty := Sem.DoWait(s.empty, Waiter(k)))
      else FinishReceive(s.(empty := Sem.DoWait(s.empty, Waiter(k))), c.recv(k), pick)
    case ReceiveResume(k, pick) =>
      FinishReceive(s.(wokenReceivers := s.wokenReceivers - multiset{k}), c.recv(k), pick)
  }

  /** What sys_msgget leaves. */
  function Init(len: nat): State {
    State(len, Sem.Init(len), Sem.Init(0), [], multiset{}, multiset{}, [], [], 0)
  }

  /** Every slot is a stored message, promised to a woken sender, free, or lost to a message dropped as too
      big; every stored message is promised to a woken receiver or available; messages leave in order. */
  ghost predicate Inv(s: State) {
    && s.len <= 127 && Sem.Balanced(s.full) && Sem.Balanced(s.empty)
    && |s.queue| + |s.wokenSenders| + Sem.Positive(s.full.value) + s.discarded == s.len
    && |s.queue| == |s.wokenReceivers| + Sem.Positive(s.empty.value)
    && s.sent == s.received + s.queue
  }

  /** The step that stores a message finds a free slot. */
  predicate Stores(c: Calls, s: State, e: Event) {
    (e.Send? && s.full.value > 0) || e.SendResume?
  }

  /** The step takes a message from the queue. */
  predicate Takes(c: Calls, s: State, e: Event) {
    (e.Receive? && s.empty.value > 0) || e.ReceiveResume?
  }

  /** The account with one slot and one message set aside for a call that is about to finish. */
  ghost predicate SetAside(s: State, slot: nat, message: nat) {
    && s.len <= 127 && Sem.Balanced(s.full) && Sem.Balanced(s.empty)
    && |s.queue| + |s.wokenSenders| + Sem.Positive(s.full.value) + s.discarded + slot == s.len
    && |s.queue| == |s.wokenReceivers| + Sem.Positive(s.empty.value) + message
    && s.sent == s.received + s.queue
  }

  lemma PostBalanced(s: Sem.State, pick: nat)
    requires Sem.Balanced(s) && CanPick(s, pick) && s.value < 127
    ensures Sem.Balanced(Sem.DoPost(s, pick))
    ensures var t := Sem.DoPost(s, pick);
            Sem.Positive(t.value) + |Woken(s, t, pick)| == Sem.Positive(s.value) + 1
  {}

  lemma WaitBalanced(s: Sem.State, w: Sem.Waiter)
    requires Sem.Balanced(s) && |s.queue| < 127
    ensures Sem.Balanced(Sem.DoWait(s, w))
    ensures Sem.Positive(Sem.DoWait(s, w).value) == if s.value > 0 then s.value - 1 else 0
    ensures s.value > 0 ==> Sem.DoWait(s, w).queue == s.queue
  {}

  lemma FinishSendKeeps(s: State, m: Message, pick: nat)
    requires SetAside(s, 1, 0) && CanPick(s.empty, pick)
    ensures Inv(FinishSend(s, m, pick)) && |s.queue| < s.len
  {
    hide Sem.Balanced, Sem.DoPost, Woken;
    PostBalanced(s.empty, pick);
    assert s.received + (s.queue + [m]) == s.received + s.queue + [m];
  }

  lemma FinishReceiveKeeps(s: State, a: RecvArgs, pick: nat)
    requires SetAside(s, 0, 1) && CanPick(s.full, pick)
    ensures Inv(FinishReceive(s, a, pick)) && s.queue != []
  {
    hide Sem.Balanced, Sem.DoPost, Woken;
    PostBalanced(s.full, pick);
    assert s.received + [s.queue[0]] + s.queue[1..] == s.received + s.queue;
  }

  lemma SendKeepsInv(c: Calls, s: State, e: Event)
    requires Inv(s) && Enabled(s, e) && (e.Send? || e.SendResume?)
    ensures Inv(Step(c, s, e))
    ensures Stores(c, s, e) ==> |s.queue| < s.len
  {
    hide Sem.Balanced, Sem.DoPost, Woken, Sem.DoWait, FinishSend;
    if e.Send? {
      WaitBalanced(s.full, Waiter(e.k));
      if s.full.value > 0 {
        FinishSendKeeps(s.(full := Sem.DoWait(s.full, Waiter(e.k))), c.message(e.k), e.pick);
      }
    } else {
      FinishSendKeeps(s.(wokenSenders := s.wokenSenders - multiset{e.k}), c.message(e.k), e.pick);
    }
  }

  lemma ReceiveKeepsInv(c: Calls, s: State, e: Event)
    requires Inv(s) && Enabled(s, e) && (e.Receive? || e.ReceiveResume?)
    ensures Inv(Step(c, s, e))
    ensures Takes(c, s, e) ==> s.queue != []
  {
    hide Sem.Balanced, Sem.DoPost, Woken, Sem.DoWait, FinishReceive;
    if e.Receive? {
      WaitBalanced(s.empty, Waiter(e.k));
      if s.empty.value > 0 {
        FinishReceiveKeeps(s.(empty := Sem.DoWait(s.empty, Waiter(e.k))), c.recv(e.k), e.pick);
      }
    } else {
      FinishReceiveKeeps(s.(wokenReceivers := s.wokenReceivers - multiset{e.k}), c.recv(e.k), e.pick);
    }
  }

  /** Every step keeps the account; a message is stored only where there is room and taken only where there is one. */
  lemma StepKeepsInv(c: Calls, s: State, e: Event)
    requires Inv(s) && Enabled(s, e)
    ensures Inv(Step(c, s, e))
    ensures Stores(c, s, e) ==> |s.queue| < s.len
    ensures Takes(c, s, e) ==> s.queue != []
  {
    hide Inv, Step, Enabled;
    if e.Send? || e.SendResume? {
      SendKeepsInv(c, s, e);
    } else {
      ReceiveKeepsInv(c, s, e);
    }
  }

  ghost predicate IsRun(c: Calls, s: State, es: seq<Event>)
    decreases |es|
  {
    es == [] || (Enabled(s, es[0]) && IsRun(c, Step(c, s, es[0]), es[1..]))
  }

  ghost function Run(c: Calls, s: State, es: seq<Event>): State
    requires IsRun(c, s, es)
    decreases |es|
  {
    if es == [] then s else Run(c, Step(c, s, es[0]), es[1..])
  }

  lemma {:induction false} RunKeepsInv(c: Calls, s: State, es: seq<Event>)
    requires Inv(s) && IsRun(c, s, es)
    ensures Inv(Run(c, s, es))
    decreases |es|
  {
    hide Inv, Step;
    if es != [] {
      StepKeepsInv(c, s, es[0]);
      RunKeepsInv(c, Step(c, s, es[0]), es[1..]);
    }
  }

  /** Over every interleaving from sys_msgget on: the slots add up, and what was received is the first part
      of what was sent. */
  lemma QueueIsBounded(c: Calls, len: nat, es: seq<Event>)
    requires len <= 127 && IsRun(c, Init(len), es)
    ensures var s := Run(c, Init(len), es);
            && |s.queue| + |s.wokenSenders| + Sem.Positive(s.full.value) + s.discarded == s.len
            && |s.queue| <= s.len && s.received <= s.sent && s.sent == s.received + s.queue
  {
    hide Step, Run, IsRun, Sem.Balanced, Init;
    InitInv(len);
    RunKeepsInv(c, Init(len), es);
  }

  lemma InitInv(len: nat)
    requires len <= 127
    ensures Inv(Init(len))
  {
    hide Sem.S8;
    assert Sem.Init(len).value == len && Sem.Init(0).value == 0;
    assert Init(len).sent == Init(len).received + Init(len).queue;
  }

  // ---- what the callers are told -----------------------------------------------------------

  /** The message does not fit, and is not to be cut: bit 0 of the flag word is clear. */
  predicate TooBig(m: Message, a: RecvArgs) { |m| > a.size && a.flags % 2 == 0 }

  /** What a step tells its caller: the message is taken over, it sleeps, nothing is done, or here is a message, or here
      it was. */
  datatype Answer = Accepted | Asleep | Refused | Got(m: Message, dropped: bool)

  function Tells(c: Calls, s: State, e: Event): Answer {
    match e
    case Send(k, pick) => if s.full.value > 0 then Accepted else if SendNoWait(c.flags(k)) then Refused else Asleep
    case SendResume(k, pick) => Accepted
    case Receive(k, pick) =>
      if s.empty.value > 0 && s.queue != [] then Got(s.queue[0], TooBig(s.queue[0], c.recv(k)))
      else if ReceiveNoWait(c.recv(k)) then Refused else Asleep
    case ReceiveResume(k, pick) => if s.queue != [] then Got(s.queue[0], TooBig(s.queue[0], c.recv(k))) else Refused
  }

  /** Where the calls of one direction are: refused, told to sleep and not finished, or finished. */
  datatype Side = Side(refused: multiset<Token>, asleep: multiset<Token>, done: multiset<Token>)

  /** The account that the callers can keep. */
  datatype Account = Account(send: Side, recv: Side, sent: seq<Message>, received: seq<Message>, dropped: nat)

  /** The answer to a call; resumed if it has slept. */
  function Placed(t: Side, k: Token, a: Answer, resumed: bool): Side {
    match a
    case Refused => t.(refused := t.refused + multiset{k})
    case Asleep => t.(asleep := t.asleep + multiset{k})
    case _ => t.(asleep := if resumed then t.asleep - multiset{k} else t.asleep, done := t.done + multiset{k})
  }

  /** A call and its answer, entered in the account. */
  function Noted(c: Calls, t: Account, e: Event, a: Answer): Account {
    if e.Send? || e.SendResume? then
      t.(send := Placed(t.send, e.k, a, e.SendResume?), sent := if a.Accepted? then t.sent + [c.message(e.k)] else t.sent)
    else
      t.(recv := Placed(t.recv, e.k, a, e.ReceiveResume?), received := if a.Got? then t.received + [a.m] else t.received,
         dropped := if a.Got? && a.dropped then t.dropped + 1 else t.dropped)
  }

  /** The account after a run, from the answers alone. */
  ghost function Kept(c: Calls, t: Account, s: State, es: seq<Event>): Account
    requires IsRun(c, s, es)
    decreases |es|
  {
    if es == [] then t else Kept(c, Noted(c, t, es[0], Tells(c, s, es[0])), Step(c, s, es[0]), es[1..])
  }

  /** The processes on a wait queue. */
  ghost function Pids(q: seq<Sem.Waiter>): multiset<Token> {
    if q == [] then multiset{} else multiset{q[0].pid} + Pids(q[1..])
  }

  lemma {:induction false} PidsMore(q: seq<Sem.Waiter>, k: Token)
    ensures Pids(q + [Waiter(k)]) == Pids(q) + multiset{k}
  {
    if q == [] {
      assert Pids([Waiter(k)]) == multiset{k} + Pids([Waiter(k)][1..]);
    } else {
      PidsMore(q[1..], k);
      assert (q + [Waiter(k)])[1..] == q[1..] + [Waiter(k)];
    }
  }

  lemma {:induction false} PidsLess(q: seq<Sem.Waiter>, i: nat)
    requires i < |q|
    ensures Pids(Sem.Without(q, i)) + multiset{q[i].pid} == Pids(q)
  {
    hide Sem.Without;
    WithoutOne(q, i);
    if i > 0 {
      PidsLess(q[1..], i - 1);
    }
  }

  lemma WithoutOne(q: seq<Sem.Waiter>, i: nat)
    requires i < |q|
    ensures i == 0 ==> Sem.Without(q, i) == q[1..]
    ensures i > 0 ==> var r := Sem.Without(q, i); r != [] && r[0] == q[0] && r[1..] == Sem.Without(q[1..], i - 1)
  {}

  /** The kernel has the calls where they were told they are: asleep on the wait queue of the semaphore, or woken. */
  ghost predicate Matches(t: Account, s: State) {
    && t.send.asleep == Pids(s.full.queue) + s.wokenSenders
    && t.recv.asleep == Pids(s.empty.queue) + s.wokenReceivers
    && t.sent == s.sent && t.received == s.received && t.dropped == s.discarded
  }

  /** A post moves at most the chosen waiter from the queue to the woken ones. */
  lemma PostMoves(s: Sem.State, pick: nat, woken: multiset<Token>)
    requires CanPick(s, pick)
    ensures var p := Sem.DoPost(s, pick);
            Pids(p.queue) + (woken + Woken(s, p, pick)) == Pids(s.queue) + woken
  {
    hide Sem.Without, Sem.S8, Pids;
    if s.queue != [] {
      PidsLess(s.queue, pick);
    }
  }

  /** A wait that finds no unit joins the queue, and one that does leaves it alone. */
  lemma WaitJoins(s: Sem.State, k: Token)
    requires Sem.Balanced(s) && |s.queue| < 127
    ensures Pids(Sem.DoWait(s, Waiter(k)).queue) == if s.value > 0 then Pids(s.queue) else Pids(s.queue) + multiset{k}
  {
    PidsMore(s.queue, k);
  }

  lemma SendAsTold(c: Calls, t: Account, s: State, k: Token, pick: nat)
    requires Inv(s) && Enabled(s, Send(k, pick)) && Matches(t, s)
    ensures Matches(Noted(c, t, Send(k, pick), Tells(c, s, Send(k, pick))), Step(c, s, Send(k, pick)))
  {
    hide Sem.DoWait, Sem.DoPost, Woken, Pids, Sem.Balanced;
    WaitJoins(s.full, k);
    PostMoves(s.empty, pick, s.wokenReceivers);
  }

  lemma SendResumeAsTold(c: Calls, t: Account, s: State, k: Token, pick: nat)
    requires Enabled(s, SendResume(k, pick)) && Matches(t, s)
    ensures Matches(Noted(c, t, SendResume(k, pick), Accepted), Step(c, s, SendResume(k, pick)))
  {
    hide Sem.DoPost, Woken, Pids;
    PostMoves(s.empty, pick, s.wokenReceivers);
    TakenOut(Pids(s.full.queue), s.wokenSenders, k);
  }

  lemma TakenOut(q: multiset<Token>, woken: multiset<Token>, k: Token)
    requires woken[k] > 0
    ensures q + (woken - multiset{k}) == q + woken - multiset{k}
  {}

  /** The end of a receive: the first message is taken over. */
  lemma FinishAsTold(s: State, a: RecvArgs, pick: nat)
    requires s.queue != [] && CanPick(s.full, pick)
    ensures var u := FinishReceive(s, a, pick);
            && Pids(u.full.queue) + u.wokenSenders == Pids(s.full.queue) + s.wokenSenders
            && u.empty == s.empty && u.wokenReceivers == s.wokenReceivers
            && u.sent == s.sent && u.received == s.received + [s.queue[0]]
            && u.discarded == s.discarded + if TooBig(s.queue[0], a) then 1 else 0
  {
    hide Sem.DoPost, Woken, Pids, And;
    FlagsOverlap(0, a);
    PostMoves(s.full, pick, s.wokenSenders);
  }

  lemma ReceiveAsTold(c: Calls, t: Account, s: State, k: Token, pick: nat)
    requires Inv(s) && Enabled(s, Receive(k, pick)) && Matches(t, s)
    ensures Matches(Noted(c, t, Receive(k, pick), Tells(c, s, Receive(k, pick))), Step(c, s, Receive(k, pick)))
  {
    hide Sem.DoWait, FinishReceive, Pids, Sem.Balanced;
    WaitJoins(s.empty, k);
    if s.empty.value > 0 {
      FinishAsTold(s.(empty := Sem.DoWait(s.empty, Waiter(k))), c.recv(k), pick);
    }
  }

  lemma ReceiveResumeAsTold(c: Calls, t: Account, s: State, k: Token, pick: nat)
    requires Inv(s) && Enabled(s, ReceiveResume(k, pick)) && Matches(t, s)
    ensures s.queue != []
    ensures Matches(Noted(c, t, ReceiveResume(k, pick), Tells(c, s, ReceiveResume(k, pick))),
                    Step(c, s, ReceiveResume(k, pick)))
  {
    hide FinishReceive, Pids, Sem.Balanced;
    FinishAsTold(s.(wokenReceivers := s.wokenReceivers - multiset{k}), c.recv(k), pick);
    TakenOut(Pids(s.empty.queue), s.wokenReceivers, k);
  }

  /** Every step leaves the queue as its answer says. */
  lemma StepAsTold(c: Calls, t: Account, s: State, e: Event)
    requires Inv(s) && Enabled(s, e) && Matches(t, s)
    ensures Matches(Noted(c, t, e, Tells(c, s, e)), Step(c, s, e))
  {
    hide Inv, Matches, Noted, Step;
    match e {
      case Send(k, pick) => SendAsTold(c, t, s, k, pick);
      case SendResume(k, pick) => SendResumeAsTold(c, t, s, k, pick);
      case Receive(k, pick) => ReceiveAsTold(c, t, s, k, pick);
      case ReceiveResume(k, pick) => ReceiveResumeAsTold(c, t, s, k, pick);
    }
  }

  lemma {:induction false} RunAsTold(c: Calls, t: Account, s: State, es: seq<Event>)
    requires Inv(s) && IsRun(c, s, es) && Matches(t, s)
    ensures Matches(Kept(c, t, s, es), Run(c, s, es))
    decreases |es|
  {
    hide Inv, Step, Matches, Tells, Noted;
    if es != [] {
      StepKeepsInv(c, s, es[0]);
      StepAsTold(c, t, s, es[0]);
      RunAsTold(c, Noted(c, t, es[0], Tells(c, s, es[0])), Step(c, s, es[0]), es[1..]);
    }
  }

  lemma {:induction false} LengthStays(c: Calls, s: State, es: seq<Event>)
    requires IsRun(c, s, es)
    ensures Run(c, s, es).len == s.len
    decreases |es|
  {
    if es != [] {
      LengthStays(c, Step(c, s, es[0]), es[1..]);
    }
  }

  const NONE := Side(multiset{}, multiset{}, multiset{})
  const OPENED := Account(NONE, NONE, [], [], 0)

  /** Over every interleaving from sys_msgget on: a call that was told to sleep and has not finished is on the wait queue
      or woken, and no other is; the messages in the queue are those of the sends that were accepted, in order, less those
      that were handed out, in the same order. */
  lemma CallsAreWhereTold(c: Calls, len: nat, es: seq<Event>)
    requires len <= 127 && IsRun(c, Init(len), es)
    ensures var s, t := Run(c, Init(len), es), Kept(c, OPENED, Init(len), es);
            && Matches(t, s) && t.sent == t.received + s.queue
            && |s.queue| + |s.wokenSenders| + Sem.Positive(s.full.value) + t.dropped == len
  {
    hide Step, Run, IsRun, Kept, Sem.Balanced, Sem.S8;
    InitInv(len);
    RunKeepsInv(c, Init(len), es);
    LengthStays(c, Init(len), es);
    RunAsTold(c, OPENED, Init(len), es);
  }

  /** The calls that were made, in one direction. */
  ghost function Made(es: seq<Event>, sends: bool): multiset<Token> {
    if es == [] then multiset{}
    else (if (if sends then es[0].Send? else es[0].Receive?) then multiset{es[0].k} else multiset{}) + Made(es[1..], sends)
  }

  ghost function AllOf(t: Side): multiset<Token> { t.refused + t.asleep + t.done }

  /** Each call is in exactly one place: refused, asleep or finished. */
  lemma {:induction false} CallsAreOnce(c: Calls, t: Account, s: State, es: seq<Event>)
    requires Inv(s) && IsRun(c, s, es) && Matches(t, s)
    ensures var u := Kept(c, t, s, es);
            && AllOf(u.send) == AllOf(t.send) + Made(es, true)
            && AllOf(u.recv) == AllOf(t.recv) + Made(es, false)
    decreases |es|
  {
    hide Inv, Step, Matches, Noted;
    if es != [] {
      var e := es[0];
      var u := Noted(c, t, e, Tells(c, s, e));
      StepKeepsInv(c, s, e);
      StepAsTold(c, t, s, e);
      CallsAreOnce(c, u, Step(c, s, e), es[1..]);
      NotedOnce(c, t, s, e);
    }
  }

  lemma PlacedOnce(t: Side, k: Token, a: Answer, resumed: bool)
    requires resumed ==> !a.Refused? && !a.Asleep? && t.asleep[k] > 0
    ensures AllOf(Placed(t, k, a, resumed)) == if resumed then AllOf(t) else AllOf(t) + multiset{k}
  {}

  lemma NotedOnce(c: Calls, t: Account, s: State, e: Event)
    requires Inv(s) && Enabled(s, e) && Matches(t, s)
    ensures var u := Noted(c, t, e, Tells(c, s, e));
            && AllOf(u.send) == AllOf(t.send) + Made([e], true)
            && AllOf(u.recv) == AllOf(t.recv) + Made([e], false)
  {
    hide AllOf, Placed, Pids;
    StepKeepsInv(c, s, e);
    assert [e][1..] == [];
    if e.Send? || e.SendResume? {
      PlacedOnce(t.send, e.k, Tells(c, s, e), e.SendResume?);
    } else {
      PlacedOnce(t.recv, e.k, Tells(c, s, e), e.ReceiveResume?);
    }
  }

  lemma StepLosesSlots(c: Calls, s: State, e: Event)
    requires Inv(s) && Enabled(s, e) && s.discarded == s.len
    ensures Step(c, s, e).sent == s.sent && Step(c, s, e).discarded == Step(c, s, e).len == s.len
  {
    StepKeepsInv(c, s, e);
  }

  /** Messages dropped as too big are never given back as slots: once they number len, no message is stored in any run
      from then on. */
  lemma {:induction false} SlotsLostForGood(c: Calls, s: State, es: seq<Event>)
    requires Inv(s) && IsRun(c, s, es) && s.discarded == s.len
    ensures Run(c, s, es).sent == s.sent && Run(c, s, es).discarded == s.len
    decreases |es|
  {
    hide Inv, Step, Enabled;
    if es != [] {
      StepLosesSlots(c, s, es[0]);
      StepKeepsInv(c, s, es[0]);
      SlotsLostForGood(c, Step(c, s, es[0]), es[1..]);
    }
  }

  /** When a wait blocks, and when a try succeeds like one. */
  lemma WaitCases(s: Sem.State, w: Sem.Waiter)
    requires Sem.Balanced(s) && |s.queue| < 127
    ensures Sem.DoWait(s, w).value < 0 <==> s.value <= 0
    ensures s.value > 0 ==> Sem.DoTryWait(s) == Sem.DoWait(s, w)
    ensures s.value <= 0 ==> Sem.DoTryWait(s) == s
    ensures Sem.DoWait(s, w).alive
  {}

  /** An entry of msgq_heap with its two semaphores. */
  class Queue {
    const len: nat
    const full: Sem.Semaphore
    const empty: Sem.Semaphore
    var messages: seq<Message>
    ghost var wokenSenders: multiset<Token>
    ghost var wokenReceivers: multiset<Token>
    ghost var sent: seq<Message>
    ghost var received: seq<Message>
    ghost var discarded: nat

    ghost function Now(): State
      reads this, full, empty
    {
      State(len, full.Now(), empty.Now(), messages, wokenSenders, wokenReceivers, sent, received, discarded)
    }

    /** sys_msgget for a new queue. */
    constructor (len: nat)
      ensures Now() == Init(len) && full != empty && fresh(full) && fresh(empty)
    {
      this.len := len;
      full := new Sem.Semaphore(0, len);
      empty := new Sem.Semaphore(1, 0);
      messages, sent, received, discarded := [], [], [], 0;
      wokenSenders, wokenReceivers := multiset{}, multiset{};
    }

    /** sys_msgsnd once a slot is granted: the queue has room for the message. */
    method Store(m: Message, pick: nat)
      requires full != empty && empty.semId != -1 && CanPick(empty.Now(), pick)
      modifies this, empty
      ensures Now() == FinishSend(old(Now()), m, pick)
      ensures messages == old(messages) + [m]
    {
      hide Sem.S8, Sem.DoPost, Woken;
      ghost var before := empty.Now();
      messages := messages + [m];
      sent := sent + [m];
      var _ := empty.Post(pick);
      wokenReceivers := wokenReceivers + Woken(before, empty.Now(), pick);
    }

    /** sys_msgsnd up to the point where it blocks, fails or returns. */
    method Send(k: Token, m: Message, flags: Dword, pick: nat, ghost c: Calls) returns (rc: int, blocked: bool)
      requires full != empty && Inv(Now()) && Enabled(Now(), Event.Send(k, pick))
      requires c.message(k) == m && c.flags(k) == flags
      modifies this, full, empty
      ensures Now() == Step(c, old(Now()), Event.Send(k, pick))
      ensures rc == (if SendNoWait(flags) && old(full.semValue) <= 0 then -1 else 0)
      ensures blocked == (!SendNoWait(flags) && old(full.semValue) <= 0)
      ensures Tells(c, old(Now()), Event.Send(k, pick)) == if rc == -1 then Refused else if blocked then Asleep else Accepted
      ensures rc == -1 ==> Now() == old(Now())
      ensures blocked ==> full.waitQ == old(full.waitQ) + [Waiter(k)] && messages == old(messages)
      ensures rc == 0 && !blocked ==> full.waitQ == old(full.waitQ) && messages == old(messages) + [m]
    {
      hide Sem.S8, Sem.DoWait, Sem.DoTryWait, Sem.DoPost, FinishSend, Woken;
      WaitCases(full.Now(), Waiter(k));
      blocked := false;
      if And(flags, IPC_NOWAIT) != 0 {
        rc := full.TryWait();
        if rc < 0 {
          return;
        }
      } else {
        rc, blocked := full.Wait(Waiter(k));
        if blocked {
          return;
        }
      }
      Store(m, pick);
    }

    /** sys_msgsnd after process_block. */
    method SendResume(k: Token, m: Message, pick: nat, ghost c: Calls)
      requires full != empty && Inv(Now()) && Enabled(Now(), Event.SendResume(k, pick)) && c.message(k) == m
      modifies this, full, empty
      ensures Now() == Step(c, old(Now()), Event.SendResume(k, pick))
    {
      wokenSenders := wokenSenders - multiset{k};
      Store(m, pick);
    }

    /** sys_msgrcv once a message is granted: the queue is not empty. */
    method Take(a: RecvArgs, pick: nat) returns (rc: int, data: Message)
      requires full != empty && full.semId != -1 && CanPick(full.Now(), pick) && messages != []
      modifies this, full
      ensures Now() == FinishReceive(old(Now()), a, pick)
      ensures messages == old(messages)[1..]
      ensures Delivered(old(messages)[0], a, rc, data)
    {
      hide Sem.S8, Sem.DoPost, Woken;
      ghost var before := full.Now();
      var m := messages[0];
      messages := messages[1..];
      received := received + [m];
      data := [];
      if |m| > a.size {
        if And(a.flags, MSG_NOERROR) == 0 {
          discarded := discarded + 1;
          return -1, [];
        }
        rc := a.size;
      } else {
        rc := |m|;
      }
      data := m[..rc];
      var _ := full.Post(pick);
      wokenSenders := wokenSenders + Woken(before, full.Now(), pick);
    }

    /** sys_msgrcv up to the point where it blocks, fails or returns. */
    method Receive(k: Token, a: RecvArgs, pick: nat, ghost c: Calls) returns (rc: int, blocked: bool, data: Message)
      requires full != empty && Inv(Now()) && Enabled(Now(), Event.Receive(k, pick)) && c.recv(k) == a
      modifies this, full, empty
      ensures Now() == Step(c, old(Now()), Event.Receive(k, pick))
      ensures blocked == (!ReceiveNoWait(a) && old(empty.semValue) <= 0)
      ensures old(empty.semValue) <= 0 && !blocked ==> rc == -1 && Now() == old(Now())
      ensures blocked ==> empty.waitQ == old(empty.waitQ) + [Waiter(k)] && messages == old(messages)
      ensures Tells(c, old(Now()), Event.Receive(k, pick)) ==
              if blocked then Asleep else if old(empty.semValue) <= 0 then Refused
              else Got(old(messages)[0], TooBig(old(messages)[0], a))
      ensures old(empty.semValue) > 0 ==> old(messages) != [] && Delivered(old(messages)[0], a, rc, data)
    {
      hide Sem.S8, Sem.DoWait, Sem.DoTryWait, Sem.DoPost, FinishReceive, Woken;
      WaitCases(empty.Now(), Waiter(k));
      StepKeepsInv(c, Now(), Event.Receive(k, pick));
      blocked, data := false, [];
      if a.flags == IPC_NOWAIT {
        rc := empty.TryWait();
        if rc < 0 {
          return;
        }
      } else {
        rc, blocked := empty.Wait(Waiter(k));
        if blocked {
          return;
        }
      }
      rc, data := Take(a, pick);
    }

    /** sys_msgrcv after process_block. */
    method ReceiveResume(k: Token, a: RecvArgs, pick: nat, ghost c: Calls) returns (rc: int, data: Message)
      requires full != empty && Inv(Now()) && Enabled(Now(), Event.ReceiveResume(k, pick)) && c.recv(k) == a
      modifies this, full, empty
      ensures Now() == Step(c, old(Now()), Event.ReceiveResume(k, pick))
      ensures old(messages) != [] && Delivered(old(messages)[0], a, rc, data)
    {
      hide Sem.S8, Sem.DoWait, Sem.DoTryWait, Sem.DoPost, FinishReceive, Woken;
      StepKeepsInv(c, Now(), Event.ReceiveResume(k, pick));
      wokenReceivers := wokenReceivers - multiset{k};
      rc, data := Take(a, pick);
    }
  }
}
