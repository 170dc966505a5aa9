/** One full-duplex transfer of the SPI driver, 8 bits wide, against a device with a transmit and a receive
    FIFO of the same depth.  The transmit FIFO gives up a byte when its transfer on the bus is complete. */
module SpiTransfer {
  import opened Arithmetic

  datatype Status = Success | DeviceIsStopped | DeviceBusy | NoSlave

  /** What the slave answers to the last of all bytes it has been sent. */
  type Slave = seq<Byte> -> Byte

  /** The answers to data, sent after the bytes in past. */
  ghost function Replies(slave: Slave, past: seq<Byte>, data: seq<Byte>): (r: seq<Byte>)
    ensures |r| == |data|
  {
    seq(|data|, k requires 0 <= k < |data| => slave(past + data[..k + 1]))
  }

  lemma AllReplies(slave: Slave, past: seq<Byte>, data: seq<Byte>)
    ensures Replies(slave, past, data)[..|data|] == Replies(slave, past, data) && data[..|data|] == data
  {}

  /** The registers of the device, and the bytes that have gone over the bus. */
  datatype Registers = Registers(depth: nat, slave: Slave, tx: seq<Byte>, rx: seq<Byte>, inhibit: bool,
                                 pending: bool, overrun: bool, wire: seq<Byte>)

  /** The device exchanges one byte with the slave, unless it is held back or has nothing to send.  An answer
      that finds the receive FIFO full is lost.  Running empty raises the transmit-empty interrupt. */
  function Shifted(d: Registers): Registers {
    if d.inhibit || d.tx == [] then d
    else
      var wire := d.wire + [d.tx[0]];
      var room := |d.rx| < d.depth;
      d.(tx := d.tx[1..], wire := wire, rx := if room then d.rx + [d.slave(wire)] else d.rx,
         overrun := d.overrun || !room, pending := d.pending || |d.tx| == 1)
  }

  /** Of data, sent bytes have been given to the device and got answers taken from it. */
  ghost predicate Flight(d: Registers, past: seq<Byte>, data: seq<Byte>, got: nat, sent: nat) {
    && got + |d.rx| + |d.tx| == sent <= |data| && sent <= got + d.depth && !d.overrun
    && d.tx == data[sent - |d.tx|..sent]
    && d.wire == past + data[..sent - |d.tx|]
    && d.rx == Replies(d.slave, past, data)[got..sent - |d.tx|]
  }

  /** A byte on the bus stays within the transfer: the receive FIFO is never overrun. */
  lemma ShiftKeepsFlight(d: Registers, past: seq<Byte>, data: seq<Byte>, got: nat, sent: nat)
    requires Flight(d, past, data, got, sent)
    ensures Flight(Shifted(d), past, data, got, sent)
  {
    if !d.inhibit && d.tx != [] {
      var k := sent - |d.tx|;
      var e, r := Shifted(d), Replies(d.slave, past, data);
      assert d.tx[0] == data[k];
      assert past + data[..k] + [data[k]] == past + data[..k + 1];
      assert r[k] == d.slave(e.wire);
      assert e.rx == r[got..k + 1];
      assert e.tx == data[k + 1..sent];
    }
  }

  lemma GivenFlight(d: Registers, past: seq<Byte>, data: seq<Byte>, got: nat, sent: nat)
    requires Flight(d, past, data, got, sent) && d.rx == [] && |d.tx| < d.depth && sent < |data|
    ensures Flight(d.(tx := d.tx + [data[sent]]), past, data, got, sent + 1)
  {}

  lemma TakenFlight(d: Registers, past: seq<Byte>, data: seq<Byte>, got: nat, sent: nat)
    requires Flight(d, past, data, got, sent) && d.rx != []
    ensures got < sent <= |data| && d.rx[0] == Replies(d.slave, past, data)[got]
    ensures Flight(d.(rx := d.rx[1..]), past, data, got + 1, sent)
  {}

  lemma EmptyFlight(d: Registers, data: seq<Byte>)
    requires d.tx == [] && d.rx == [] && !d.overrun
    ensures Flight(d, d.wire, data, 0, 0)
  {
    assert d.wire + data[..0] == d.wire;
  }

  /** With both FIFOs empty, everything sent has been answered and taken. */
  lemma LandedFlight(d: Registers, past: seq<Byte>, data: seq<Byte>, got: nat, sent: nat)
    requires Flight(d, past, data, got, sent)
    ensures got + |d.rx| + |d.tx| == sent <= |data| && sent <= got + d.depth && !d.overrun
    ensures d.tx == [] && sent == |data| ==> d.wire == past + data
  {
    assert data[..|data|] == data;
  }

  /** Holding the transmitter back, letting it go and clearing the interrupt do not touch the transfer. */
  lemma ControlKeepsFlight(d: Registers, past: seq<Byte>, data: seq<Byte>, got: nat, sent: nat, inhibit: bool, pending: bool)
    requires Flight(d, past, data, got, sent)
    ensures Flight(d.(inhibit := inhibit, pending := pending), past, data, got, sent)
  {}

  /** Between two batches, exactly the bytes whose answers have been taken have gone over the bus. */
  lemma DrainedFlight(d: Registers, past: seq<Byte>, data: seq<Byte>, got: nat, sent: nat)
    requires Flight(d, past, data, got, sent) && d.rx == []
    ensures got <= |data| && d.wire == past + data[..got]
  {}

  /** A transfer in interrupt mode by numbers only: the bytes in the two FIFOs, the bytes still to be given to
      the device, and the answers taken. */
  datatype Tally = Tally(depth: nat, pending: bool, tx: nat, rx: nat, left: nat, got: nat)

  /** The FIFO is within its depth, and there is something on its way or an interrupt to serve. */
  ghost predicate Going(c: Tally) {
    c.tx <= c.depth && 1 <= c.depth && (c.tx > 0 || c.pending)
  }

  /** The device has exchanged up to k bytes. */
  ghost function Exchanged(c: Tally, k: nat): Tally {
    var m := Min(k, c.tx);
    c.(tx := c.tx - m, rx := c.rx + m, pending := c.pending || 0 < c.tx <= k)
  }

  /** The handler has run; between clearing the interrupt and holding the transmitter back, the device was
      still free and exchanged up to lag bytes. */
  ghost function Handled(c: Tally, lag: nat): Tally
    requires c.tx <= c.depth
  {
    var e := Exchanged(c.(pending := false), lag);
    var m := Min(e.left, e.depth - e.tx);
    e.(tx := e.tx + m, rx := 0, left := e.left - m, got := e.got + e.rx)
  }

  /** The answers taken when the transfer is reported as done.  A pending interrupt is served at step t if
      prompt(t), and at the latest when the transmit FIFO has run empty; lag(t) is how far the device gets
      inside the handler. */
  ghost function Delivered(c: Tally, prompt: nat -> bool, lag: nat -> nat, t: nat): nat
    requires Going(c)
    decreases c.left, c.tx, c.pending
  {
    if c.pending && (prompt(t) || c.tx == 0) then
      if c.left == 0 then Handled(c, lag(t)).got else Delivered(Handled(c, lag(t)), prompt, lag, t + 1)
    else Delivered(Exchanged(c, 1), prompt, lag, t + 1)
  }

  /** A transfer of n bytes that has been started on a device with or without an interrupt from before. */
  ghost function Started(depth: nat, pending: bool, n: nat): Tally {
    Tally(depth, pending, Min(n, depth), 0, n - Min(n, depth), 0)
  }

  /** As long as an interrupt is pending only with the FIFO empty, nothing is lost. */
  lemma {:induction false} FreshDelivers(c: Tally, prompt: nat -> bool, lag: nat -> nat, t: nat)
    requires Going(c) && (c.pending ==> c.tx == 0)
    ensures Delivered(c, prompt, lag, t) == c.got + c.rx + c.tx + c.left
    decreases c.left, c.tx, c.pending
  {
    if c.pending {
      if c.left > 0 {
        FreshDelivers(Handled(c, lag(t)), prompt, lag, t + 1);
      }
    } else {
      FreshDelivers(Exchanged(c, 1), prompt, lag, t + 1);
    }
  }

  /** How often the FIFO has to be refilled when it is empty each time. */
  function Refills(left: nat, depth: nat): nat
    requires 1 <= depth
  {
    if left == 0 then 0 else 1 + Refills(left - Min(left, depth), depth)
  }

  /** An interrupt pending with bytes in the FIFO: the handler is entered at once each time, and inside it the
      device runs empty, so that an interrupt is pending again over the refilled FIFO; the last batch is then
      reported before it is on the bus. */
  lemma {:induction false} StaleLoses(c: Tally, prompt: nat -> bool, lag: nat -> nat, t: nat)
    requires Going(c) && c.pending && c.tx > 0
    requires forall k :: t <= k <= t + Refills(c.left, c.depth) ==> prompt(k)
    requires forall k :: t <= k < t + Refills(c.left, c.depth) ==> lag(k) >= c.depth
    requires lag(t + Refills(c.left, c.depth)) == 0
    ensures Delivered(c, prompt, lag, t) < c.got + c.rx + c.tx + c.left
    decreases c.left
  {
    if c.left > 0 {
      StaleLoses(Handled(c, lag(t)), prompt, lag, t + 1);
    }
  }

  /** An interrupt-driven transfer takes place in full for every schedule exactly when no interrupt was pending
      before it. */
  lemma InterruptIff(depth: nat, pending: bool, n: nat)
    requires 1 <= depth && 0 < n
    ensures !pending <==>
              forall prompt: nat -> bool, lag: nat -> nat :: Delivered(Started(depth, pending, n), prompt, lag, 0) == n
  {
    var c := Started(depth, pending, n);
    if pending {
      var last := Refills(c.left, depth);
      var prompt: nat -> bool, lag: nat -> nat := (t: nat) => true, (t: nat) => if t < last then depth else 0;
      StaleLoses(c, prompt, lag, 0);
      assert Delivered(c, prompt, lag, 0) != n;
    } else {
      forall prompt: nat -> bool, lag: nat -> nat
        ensures Delivered(c, prompt, lag, 0) == n
      {
        FreshDelivers(c, prompt, lag, 0);
      }
    }
  }

  /** The first moment from t on, and before t + n, at which a pending interrupt is served, or t + n. */
  ghost function FirstPrompt(prompt: nat -> bool, t: nat, n: nat): (r: nat)
    ensures t <= r <= t + n && (r < t + n ==> prompt(r))
    ensures forall k :: t <= k < r ==> !prompt(k)
    decreases n
  {
    if n == 0 || prompt(t) then t else FirstPrompt(prompt, t + 1, n - 1)
  }

  /** A transfer that fits into the FIFO, with an interrupt pending from before, ends where that is served. */
  lemma {:induction false} OneBatchEnds(c: Tally, prompt: nat -> bool, lag: nat -> nat, t: nat)
    requires Going(c) && c.pending && c.left == 0
    ensures var r := FirstPrompt(prompt, t, c.tx);
            Delivered(c, prompt, lag, t) == c.got + c.rx + Min(c.tx, r - t + lag(r))
    decreases c.tx
  {
    if c.tx > 0 && !prompt(t) {
      OneBatchEnds(Exchanged(c, 1), prompt, lag, t + 1);
    }
  }

  /** Two bytes over a FIFO of one: the second is reported as sent before it is. */
  lemma SecondByteLost(prompt: nat -> bool, lag: nat -> nat)
    requires prompt(0) && prompt(1) && lag(0) == 1 && lag(1) == 0
    ensures Delivered(Started(1, true, 2), prompt, lag, 0) == 1
  {
    assert Handled(Started(1, true, 2), 1) == Tally(1, true, 1, 0, 0, 1);
    assert Delivered(Tally(1, true, 1, 0, 0, 1), prompt, lag, 1) == 1;
  }

  lemma NextToSend(buf: seq<Byte>, data: seq<Byte>, sent: nat)
    requires sent < |data| <= |buf| && buf[sent..|data|] == data[sent..]
    ensures buf[sent] == data[sent] && buf[sent + 1..|data|] == data[sent + 1..]
  {
    assert buf[sent] == buf[sent..|data|][0];
    assert buf[sent + 1..|data|] == buf[sent..|data|][1..];
  }

  class Spi {
    var d: Registers
    var sendBuf: array<Byte>
    var recvBuf: array?<Byte>
    var sendPos: nat
    var recvPos: nat
    var requestedBytes: nat
    var remainingBytes: nat
    var isBusy: bool
    var bytesTransferred: nat
    var reports: seq<nat>
    var globalIntr: bool
    ghost var past: seq<Byte>
    ghost var data: seq<Byte>
    ghost var got: nat

    /** A driver with nothing in progress on a device of the given depth. */
    constructor (depth: nat, slave: Slave, buf: array<Byte>)
      ensures Idle() && d.depth == depth && d.slave == slave && !d.pending && reports == [] && !globalIntr
    {
      globalIntr := false;
      d := Registers(depth, slave, [], [], true, false, false, []);
      sendBuf, recvBuf, sendPos, recvPos := buf, null, 0, 0;
      requestedBytes, remainingBytes, isBusy, bytesTransferred, reports := 0, 0, false, 0, [];
      past, data, got := [], [], 0;
    }

    ghost predicate Idle()
      reads this
    {
      !isBusy && d.tx == [] && d.rx == [] && d.inhibit && !d.overrun
    }

    /** The state of a transfer: what is sent, what is on its way, and what has arrived in the buffer.  Bytes
        not yet sent are still in the send buffer even when it is the receive buffer as well. */
    ghost predicate InTransfer()
      reads this, sendBuf, recvBuf
    {
      && Flight(d, past, data, got, sendPos)
      && requestedBytes == |data| == sendPos + remainingBytes
      && |data| <= sendBuf.Length && sendBuf[sendPos..|data|] == data[sendPos..]
      && (recvBuf != null ==>
            && recvPos == got && |data| <= recvBuf.Length
            && recvBuf[..got] == Replies(d.slave, past, data)[..got])
    }

    /** The transfer by numbers. */
    ghost function Count(): Tally
      reads this
    {
      Tally(d.depth, d.pending, |d.tx|, |d.rx|, remainingBytes, got)
    }

    /** Fills the transmit FIFO with as many bytes as it takes, the transmitter being held back. */
    method Fill()
      requires InTransfer() && d.inhibit && d.rx == []
      modifies this`d, this`sendPos, this`remainingBytes
      ensures InTransfer() && d == old(d).(tx := d.tx) && |old(d.tx)| <= |d.tx|
      ensures remainingBytes == 0 || |d.tx| >= d.depth
      ensures old(remainingBytes) > 0 && |old(d.tx)| < d.depth ==> |old(d.tx)| < |d.tx|
      ensures |d.tx| == |old(d.tx)| ==> d.tx == old(d.tx)
      ensures sendPos == old(sendPos) + (|d.tx| - |old(d.tx)|) && remainingBytes == old(remainingBytes) - (|d.tx| - |old(d.tx)|)
    {
      hide Flight, Replies;
      while |d.tx| < d.depth && remainingBytes > 0
        invariant InTransfer() && d == old(d).(tx := d.tx) && |old(d.tx)| <= |d.tx|
        invariant |d.tx| == |old(d.tx)| ==> d.tx == old(d.tx)
        invariant sendPos == old(sendPos) + (|d.tx| - |old(d.tx)|) && remainingBytes == old(remainingBytes) - (|d.tx| - |old(d.tx)|)
        decreases remainingBytes
      {
        GivenFlight(d, past, data, got, sendPos);
        NextToSend(sendBuf[..], data, sendPos);
        assert sendBuf[..][sendPos..|data|] == sendBuf[sendPos..|data|];
        assert sendBuf[..][sendPos + 1..|data|] == sendBuf[sendPos + 1..|data|];
        d := d.(tx := d.tx + [sendBuf[sendPos]]);
        sendPos := sendPos + 1;
        remainingBytes := remainingBytes - 1;
      }
    }

    /** Takes everything out of the receive FIFO; the bytes go into the receive buffer if there is one. */
    method Drain() returns (count: nat)
      requires InTransfer()
      modifies this`d, this`recvPos, this`bytesTransferred, this`got, recvBuf
      ensures InTransfer() && d == old(d).(rx := []) && got == old(got) + |old(d.rx)| && count == |old(d.rx)|
      ensures TailKept()
      ensures bytesTransferred == old(bytesTransferred) + count
    {
      hide Flight, Replies, InTransfer;
      count := 0;
      while d.rx != []
        invariant InTransfer() && d == old(d).(rx := d.rx) && count + |d.rx| == |old(d.rx)| && got == old(got) + count
        invariant TailKept()
        invariant bytesTransferred == old(bytesTransferred) + count
        decreases |d.rx|
      {
        TakeOne();
        count := count + 1;
      }
    }

    /** Takes one byte out of the receive FIFO. */
    method TakeOne()
      requires InTransfer() && d.rx != []
      modifies this`d, this`recvPos, this`bytesTransferred, this`got, recvBuf
      ensures InTransfer() && d == old(d).(rx := old(d.rx)[1..]) && got == old(got) + 1
      ensures TailKept() && bytesTransferred == old(bytesTransferred) + 1
    {
      hide Flight, Replies;
      TakenFlight(d, past, data, got, sendPos);
      ghost var sends, recvs := sendBuf[..], if recvBuf != null then recvBuf[..] else [];
      var b := d.rx[0];
      d := d.(rx := d.rx[1..]);
      bytesTransferred := bytesTransferred + 1;
      if recvBuf != null {
        recvBuf[recvPos] := b;
        assert recvBuf[..got + 1] == recvs[..got] + [b];
        assert sendBuf[sendPos..|data|] == sends[sendPos..|data|];
        recvPos := recvPos + 1;
      }
      got := got + 1;
    }

    /** XSpi_Transfer taking over the buffers. */
    method Setup(send: array<Byte>, recv: array?<Byte>, n: nat)
      requires Idle() && 0 < n <= send.Length && (recv != null ==> n <= recv.Length)
      modifies this`past, this`data, this`got, this`isBusy, this`sendBuf, this`recvBuf, this`sendPos, this`recvPos,
        this`requestedBytes, this`remainingBytes
      ensures InTransfer() && isBusy && got == 0 && remainingBytes == n && sendPos == 0
      ensures sendBuf == send && recvBuf == recv && data == old(send[..n]) && past == d.wire
    {
      hide Flight, Replies;
      past, data, got := d.wire, send[..n], 0;
      EmptyFlight(d, data);
      isBusy := true;
      sendBuf, recvBuf, sendPos, recvPos := send, recv, 0, 0;
      requestedBytes, remainingBytes := n, n;
      assert sendBuf[0..|data|] == data[0..];
    }

    /** XSpi_Transfer up to the choice of mode: fills the FIFO and lets the transmitter go. */
    method Begin(send: array<Byte>, recv: array?<Byte>, n: nat)
      requires Idle() && 0 < n <= send.Length && (recv != null ==> n <= recv.Length) && d.depth >= 1
      modifies this`past, this`data, this`got, this`isBusy, this`sendBuf, this`recvBuf, this`sendPos, this`recvPos,
        this`requestedBytes, this`remainingBytes, this`d
      ensures InTransfer() && isBusy && got == 0 && d == old(d).(tx := d.tx, inhibit := false) && d.tx != []
      ensures sendBuf == send && recvBuf == recv && data == old(send[..n]) && past == old(d.wire)
      ensures Count() == Started(d.depth, d.pending, n)
    {
      hide Flight, Replies, InTransfer;
      Setup(send, recv, n);
      Fill();
      WithinDepth();
      SetInhibit(false);
    }

    /** The FIFO never holds more than its depth. */
    lemma WithinDepth()
      requires InTransfer()
      ensures got + |d.rx| + |d.tx| == sendPos <= got + d.depth && !d.overrun
      ensures sendPos + remainingBytes == requestedBytes == |data|
      ensures d.tx == [] && remainingBytes == 0 ==> d.wire == past + data
    {
      LandedFlight(d, past, data, got, sendPos);
    }

    /** With the receive FIFO empty, the buffer holds the answers to what has gone over the bus. */
    lemma Received()
      requires InTransfer() && d.rx == []
      ensures got <= |data| && d.wire == past + data[..got]
      ensures recvBuf != null ==> |data| <= recvBuf.Length && recvBuf[..got] == Replies(d.slave, past, data)[..got]
    {
      DrainedFlight(d, past, data, got, sendPos);
    }

    /** Polling for the transmit FIFO to run empty; the device shifts at least one byte between two polls. */
    method WaitTxEmpty()
      requires InTransfer() && !d.inhibit
      modifies this`d
      ensures InTransfer() && d.tx == [] && !d.inhibit && d.depth == old(d.depth) && d.slave == old(d.slave)
      ensures d.pending == (old(d.pending) || old(d.tx) != [])
    {
      hide Flight, Replies;
      while d.tx != []
        invariant InTransfer() && !d.inhibit && d.depth == old(d.depth) && d.slave == old(d.slave)
        invariant d.pending == (old(d.pending) || (d.tx == [] && old(d.tx) != []))
        invariant old(d.tx) == [] ==> d.tx == []
        decreases |d.tx|
      {
        ShiftKeepsFlight(d, past, data, got, sendPos);
        d := Shifted(d);
      }
    }

    /** Writes the inhibit bit of the control register. */
    method SetInhibit(inhibit: bool)
      requires InTransfer()
      modifies this`d
      ensures InTransfer() && d == old(d).(inhibit := inhibit)
    {
      hide Flight, Replies;
      ControlKeepsFlight(d, past, data, got, sendPos, inhibit, d.pending);
      d := d.(inhibit := inhibit);
    }

    /** The part of the receive buffer behind the transfer has not changed. */
    twostate predicate TailKept()
      reads this, recvBuf
    {
      recvBuf == old(recvBuf) && |data| == |old(data)| &&
      (recvBuf != null ==> forall k :: |data| <= k < recvBuf.Length ==> recvBuf[k] == old(recvBuf[k]))
    }

    /** What both modes do when a batch is through: hold the transmitter back, take the answers, and send on
        if anything is left. */
    method Service() returns (count: nat, more: bool)
      requires InTransfer() && d.depth >= 1
      modifies this`d, this`recvPos, this`bytesTransferred, this`got, this`sendPos, this`remainingBytes, recvBuf
      ensures InTransfer() && d.rx == [] && d.depth == old(d.depth) && d.slave == old(d.slave) && d.pending == old(d.pending)
      ensures count == |old(d.rx)| && got == old(got) + count && bytesTransferred == old(bytesTransferred) + count
      ensures more == (old(remainingBytes) > 0)
      ensures d.inhibit == !more && |d.tx| == |old(d.tx)| + (old(remainingBytes) - remainingBytes)
      ensures |old(d.tx)| <= d.depth && remainingBytes == old(remainingBytes) - Min(old(remainingBytes), d.depth - |old(d.tx)|)
      ensures TailKept()
    {
      hide Flight, Replies, InTransfer;
      WithinDepth();
      SetInhibit(true);
      count := Drain();
      more := remainingBytes > 0;
      if more {
        Fill();
        WithinDepth();
        SetInhibit(false);
      }
    }

    /** One batch in polled mode. */
    method Poll() returns (count: nat)
      requires InTransfer() && d.depth >= 1 && !d.inhibit && d.tx != [] && d.rx == []
      modifies this`d, this`recvPos, this`bytesTransferred, this`got, this`sendPos, this`remainingBytes, recvBuf
      ensures InTransfer() && d.rx == [] && d.depth == old(d.depth) && d.slave == old(d.slave) && d.pending && TailKept()
      ensures 0 < count && got == old(got) + count <= |data| && bytesTransferred == old(bytesTransferred) + count
      ensures got < |data| ==> !d.inhibit && d.tx != []
    {
      hide Flight, Replies, InTransfer;
      WithinDepth();
      WaitTxEmpty();
      WithinDepth();
      var more;
      count, more := Service();
      WithinDepth();
    }

    /** XSpi_Transfer in polled mode. */
    method TransferPolled(send: array<Byte>, recv: array?<Byte>, n: nat)
      requires Idle() && 0 < n <= send.Length && (recv != null ==> n <= recv.Length) && d.depth >= 1
      modifies this, recv
      ensures Idle() && d.wire == old(d.wire) + old(send[..n])
      ensures recv != null ==> recv[..n] == Replies(d.slave, old(d.wire), old(send[..n])) && recv[n..] == old(recv[n..])
      ensures bytesTransferred == old(bytesTransferred) + n && reports == old(reports) && globalIntr == old(globalIntr)
      ensures d.depth == old(d.depth) && d.slave == old(d.slave) && d.pending
    {
      hide Flight, Replies, InTransfer;
      Begin(send, recv, n);
      var byteCount := n;
      while byteCount > 0
        invariant InTransfer() && byteCount == n - got && d.rx == [] && d.depth == old(d.depth) && d.slave == old(d.slave)
        invariant sendBuf == send && recvBuf == recv && data == old(send[..n]) && past == old(d.wire)
        invariant reports == old(reports) && bytesTransferred == old(bytesTransferred) + got && globalIntr == old(globalIntr)
        invariant recv != null ==> recv[n..] == old(recv[n..])
        invariant if byteCount > 0 then !d.inhibit && d.tx != [] else d.pending
      {
        var count := Poll();
        byteCount := byteCount - count;
      }
      WithinDepth();
      Received();
      AllReplies(d.slave, past, data);
      d := d.(inhibit := true);
      isBusy := false;
    }

    /** The handler of the transmit-empty interrupt.  It clears the interrupt first and holds the transmitter back
        only later; meanwhile the device exchanges up to lag bytes. */
    method Handler(lag: nat)
      requires InTransfer() && isBusy && d.pending && !d.inhibit && d.depth >= 1
      modifies this`d, this`recvPos, this`bytesTransferred, this`got, this`sendPos, this`remainingBytes, this`isBusy,
        this`reports, recvBuf
      ensures InTransfer() && d.depth == old(d.depth) && d.slave == old(d.slave) && TailKept()
      ensures |old(d.tx)| <= d.depth && Count() == Handled(old(Count()), lag)
      ensures bytesTransferred - got == old(bytesTransferred - got)
      ensures isBusy == (old(remainingBytes) > 0) && d.inhibit == !isBusy
      ensures reports == if isBusy then old(reports) else old(reports) + [requestedBytes]
    {
      hide Flight, Replies, InTransfer;
      WithinDepth();
      ClearPending();
      Exchange(lag);
      var count, more := Service();
      if !more {
        Done();
      }
    }

    /** The transfer is over as far as the driver is concerned. */
    method Done()
      requires InTransfer()
      modifies this`isBusy, this`reports
      ensures InTransfer() && !isBusy && reports == old(reports) + [requestedBytes]
    {
      isBusy := false;
      reports := reports + [requestedBytes];
    }

    /** The device at work by itself for k exchanges, or until it runs empty. */
    method Exchange(k: nat)
      requires InTransfer() && !d.inhibit
      modifies this`d
      ensures InTransfer() && !d.inhibit && d.slave == old(d.slave) && Count() == Exchanged(old(Count()), k)
    {
      hide Flight, Replies, InTransfer;
      for i := 0 to k
        invariant InTransfer() && !d.inhibit && d.slave == old(d.slave) && Count() == Exchanged(old(Count()), i)
      {
        Shift();
      }
    }

    method ClearPending()
      requires InTransfer()
      modifies this`d
      ensures InTransfer() && d == old(d).(pending := false)
    {
      hide Flight, Replies;
      ControlKeepsFlight(d, past, data, got, sendPos, d.inhibit, false);
      d := d.(pending := false);
    }

    /** One exchange on the bus, if there is anything to send. */
    method Shift()
      requires InTransfer() && !d.inhibit
      modifies this`d
      ensures InTransfer() && !d.inhibit && d.slave == old(d.slave) && Count() == Exchanged(old(Count()), 1)
    {
      hide Flight, Replies;
      ShiftKeepsFlight(d, past, data, got, sendPos);
      WithinDepth();
      d := Shifted(d);
      WithinDepth();
    }

    /** A started transfer in interrupt mode, until it is reported as done, for every schedule of the interrupts
        and of the device.  Without an interrupt from before, none is left behind. */
    method Serve(prompt: nat -> bool, lag: nat -> nat)
      requires InTransfer() && isBusy && d.depth >= 1 && !d.inhibit && d.tx != []
      modifies this`d, this`recvPos, this`bytesTransferred, this`got, this`sendPos, this`remainingBytes, this`isBusy,
        this`reports, recvBuf
      ensures InTransfer() && !isBusy && d.inhibit && d.rx == [] && remainingBytes == 0
      ensures d.depth == old(d.depth) && d.slave == old(d.slave) && TailKept()
      ensures reports == old(reports) + [requestedBytes] && bytesTransferred - got == old(bytesTransferred - got)
      ensures Going(old(Count())) && got == Delivered(old(Count()), prompt, lag, 0)
      ensures !old(d.pending) ==> !d.pending
    {
      hide Flight, Replies, InTransfer;
      WithinDepth();
      var t := 0;
      while isBusy
        invariant InTransfer() && d.depth == old(d.depth) && d.slave == old(d.slave) && TailKept()
        invariant bytesTransferred - got == old(bytesTransferred - got) && d.inhibit == !isBusy
        invariant reports == if isBusy then old(reports) else old(reports) + [requestedBytes]
        invariant isBusy ==> Going(Count()) && Delivered(Count(), prompt, lag, t) == Delivered(old(Count()), prompt, lag, 0)
        invariant !isBusy ==> d.rx == [] && remainingBytes == 0 && got == Delivered(old(Count()), prompt, lag, 0)
        invariant !old(d.pending) && d.pending ==> isBusy && d.tx == []
        decreases isBusy, remainingBytes, |d.tx|, d.pending
      {
        if d.pending && (prompt(t) || d.tx == []) {
          Handler(lag(t));
        } else {
          Shift();
        }
        t := t + 1;
      }
    }

    /** XSpi_Transfer in interrupt mode.  Exactly the answers that Delivered counts have arrived when the transfer
        is reported.  With no interrupt pending from before these are all of them, for every schedule, and none is
        pending afterwards. */
    method TransferInterrupt(send: array<Byte>, recv: array?<Byte>, n: nat, prompt: nat -> bool, lag: nat -> nat)
      requires Idle() && 0 < n <= send.Length && (recv != null ==> n <= recv.Length) && d.depth >= 1
      modifies this, recv
      ensures !isBusy && reports == old(reports) + [n] && globalIntr == old(globalIntr)
      ensures d.depth == old(d.depth) && d.slave == old(d.slave)
      ensures got == Delivered(Started(d.depth, old(d.pending), n), prompt, lag, 0) <= n
      ensures !old(d.pending) ==> got == n && !d.pending
      ensures d.wire == old(d.wire) + old(send[..n])[..got] && bytesTransferred == old(bytesTransferred) + got
      ensures recv != null ==> recv[..got] == Replies(d.slave, old(d.wire), old(send[..n]))[..got]
      ensures recv != null ==> recv[n..] == old(recv[n..])
      ensures Idle() <==> got == n
    {
      hide Flight, Replies, InTransfer, Delivered;
      Begin(send, recv, n);
      if !d.pending {
        FreshDelivers(Count(), prompt, lag, 0);
      }
      Serve(prompt, lag);
      WithinDepth();
      Received();
    }

    /** A polled transfer leaves an interrupt behind, so that an interrupt-driven one after it need not take place in
        full: for any n there is a schedule that ends it early, and reports n bytes all the same. */
    method PolledThenInterrupt(send: array<Byte>, n: nat)
      requires Idle() && 0 < n <= send.Length && d.depth >= 1
      modifies this
      ensures !isBusy && reports == old(reports) + [n]
      ensures old(d.wire) + send[..n] <= d.wire < old(d.wire) + send[..n] + send[..n]
    {
      hide Flight, Replies, InTransfer, Delivered;
      TransferPolled(send, null, n);
      var depth := d.depth;
      var last := Refills(n - Min(n, depth), depth);
      var prompt: nat -> bool, lag: nat -> nat := (t: nat) => true, (t: nat) => if t < last then depth else 0;
      StaleLoses(Started(depth, true, n), prompt, lag, 0);
      TransferInterrupt(send, null, n, prompt, lag);
    }

    /** XSpi_Transfer with its refusals: started tells whether the device is, and unselected that it is a master
        without loopback and no slave is selected.  The last refusal leaves the interrupts enabled whether they
        were or not: it turns a polled driver into an interrupt-driven one. */
    method Transfer(send: array<Byte>, recv: array?<Byte>, n: nat, started: bool, unselected: bool,
                    prompt: nat -> bool, lag: nat -> nat)
      returns (rc: Status)
      requires !isBusy ==> Idle()
      requires 0 < n <= send.Length && (recv != null ==> n <= recv.Length) && d.depth >= 1
      modifies this, recv
      ensures rc == if !started then DeviceIsStopped else if old(isBusy) then DeviceBusy
                    else if unselected then NoSlave else Success
      ensures globalIntr == (old(globalIntr) || rc == NoSlave)
      ensures rc != Success ==> d == old(d) && isBusy == old(isBusy) && reports == old(reports) &&
                                (recv != null ==> recv[..] == old(recv[..]))
      ensures rc == Success && !globalIntr ==>
                && Idle() && d.wire == old(d.wire) + old(send[..n]) && reports == old(reports)
                && (recv != null ==> recv[..n] == Replies(d.slave, old(d.wire), old(send[..n])))
      ensures rc == Success && globalIntr ==>
                && !isBusy && reports == old(reports) + [n]
                && got == Delivered(Started(old(d.depth), old(d.pending), n), prompt, lag, 0) <= n
                && (!old(d.pending) ==> got == n && !d.pending)
                && (recv != null ==> recv[..got] == Replies(d.slave, old(d.wire), old(send[..n]))[..got])
    {
      hide Replies, Delivered;
      if !started {
        return DeviceIsStopped;
      }
      if isBusy {
        return DeviceBusy;
      }
      var globalIntrReg := globalIntr;
      globalIntr := false;
      if unselected {
        globalIntr := true;
        return NoSlave;
      }
      if globalIntrReg {
        globalIntr := true;
        TransferInterrupt(send, recv, n, prompt, lag);
      } else {
        TransferPolled(send, recv, n);
      }
      rc := Success;
    }
  }
}
