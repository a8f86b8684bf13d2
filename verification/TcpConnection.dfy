/** One TCP connection: its state, its output buffer and the socket it writes to. */
module TcpConnectionModule {
  import opened Bytes
  import opened BufferModule

  datatype StateE = Disconnected | Connecting | Connected | Disconnecting

  /** Outcome of a write system call. */
  datatype WriteResult = Wrote(n: nat) | WouldBlock | Fault | OtherError

  /**
    * The connection as a value. `reading` and `writing` are the events its channel asks for, `wantsRead` is
    * the flag reading_, which a close does not reset. `wire` is everything the kernel took, `accepted` everything given to
    * sendInLoop while not disconnected, `dropped` the number of bytes given up after EPIPE or ECONNRESET,
    * `shutdowns` the number of shutdownWrite calls.
    */
  datatype Conn = Conn(state: StateE, wantsRead: bool, reading: bool, writing: bool, output: seq<byte>,
                       wire: seq<byte>, accepted: seq<byte>, dropped: nat, shutdowns: nat)

  const NEW_CONN := Conn(Connecting, true, false, false, [], [], [], 0, 0)

  predicate Up(c: Conn) {
    c.state == Connected || c.state == Disconnecting
  }

  // ----- Handlers on values -----

  predicate WriteOk(w: WriteResult, len: nat) {
    w.Wrote? ==> w.n <= len
  }

  function SendStep(c: Conn, data: seq<byte>, w: WriteResult): Conn
    requires WriteOk(w, |data|)
  {
    if c.state == Disconnected then c else
      var direct := !c.writing && c.output == [];
      var n := if direct && w.Wrote? then w.n else 0;
      var c' := c.(wire := c.wire + data[..n], accepted := c.accepted + data);
      if direct && w.Fault? then c'.(dropped := c.dropped + |data|)
      else if n < |data| then c'.(output := c.output + data[n..], writing := true)
      else c'
  }

  function ShutdownStep(c: Conn): Conn {
    if c.writing then c else c.(shutdowns := c.shutdowns + 1)
  }

  function WritableStep(c: Conn, w: WriteResult): Conn
    requires WriteOk(w, |c.output|)
  {
    if c.writing && w.Wrote? && w.n > 0 then
      var c' := c.(wire := c.wire + c.output[..w.n], output := c.output[w.n..]);
      if c'.output != [] then c'
      else
        var c'' := c'.(writing := false);
        if c.state == Disconnecting then ShutdownStep(c'') else c''
    else c
  }

  function CloseStep(c: Conn): Conn {
    c.(state := Disconnected, reading := false, writing := false)
  }

  /** Everything that can happen to a connection in its loop; user calls are split into call and queued part. */
  datatype Event =
    | Establish
    | Send(data: seq<byte>, w: WriteResult)
    | Writable(w: WriteResult)
    | CallShutdown
    | RunShutdown
    | CallForceClose
    | RunForceClose
    | PeerClosed
    | HangUp(endOfStream: bool)
    | StartRead
    | StopRead
    | Destroy

  /**
    * When an event can happen: end of stream is seen only by a channel that asks for reading. A hang-up without
    * input is reported whatever the channel asks for; its read callback may see the end of the stream as well.
    */
  predicate Possible(c: Conn, e: Event) {
    match e
    case Establish => c.state == Connecting
    case Send(data, w) => WriteOk(w, |data|)
    case Writable(w) => WriteOk(w, |c.output|)
    case PeerClosed => c.reading
    case _ => true
  }

  function Step(c: Conn, e: Event): Conn
    requires Possible(c, e)
  {
    match e
    case Establish => c.(state := Connected, reading := true)
    case Send(data, w) => SendStep(c, data, w)
    case Writable(w) => WritableStep(c, w)
    case CallShutdown => if c.state == Connected then c.(state := Disconnecting) else c
    case RunShutdown => ShutdownStep(c)
    case CallForceClose => if Up(c) then c.(state := Disconnecting) else c
    case RunForceClose => if Up(c) then CloseStep(c) else c
    case PeerClosed => CloseStep(c)
    case HangUp(_) => CloseStep(c)
    case StartRead => c.(reading := true, wantsRead := true)
    case StopRead => c.(reading := false, wantsRead := false)
    case Destroy => if c.state == Connected then CloseStep(c) else c
  }

  predicate PossibleRun(c: Conn, es: seq<Event>)
    decreases es
  {
    es == [] || (Possible(c, es[0]) && PossibleRun(Step(c, es[0]), es[1..]))
  }

  function Run(c: Conn, es: seq<Event>): Conn
    requires PossibleRun(c, es)
    decreases es
  {
    if es == [] then c else Run(Step(c, es[0]), es[1..])
  }

  /** A run in two parts. */
  lemma {:induction false} RunSplit(c: Conn, a: seq<Event>, b: seq<Event>)
    requires PossibleRun(c, a) && PossibleRun(Run(c, a), b)
    ensures PossibleRun(c, a + b) && Run(c, a + b) == Run(Run(c, a), b)
    decreases a
  {
    hide Possible, Step;
    if a == [] {
      assert a + b == b;
    } else {
      RunSplit(Step(c, a[0]), a[1..], b);
      assert (a + b)[1..] == a[1..] + b;
    }
  }

  lemma RunOne(c: Conn, e: Event)
    requires Possible(c, e)
    ensures PossibleRun(c, [e]) && Run(c, [e]) == Step(c, e)
  {
    hide Possible, Step;
    assert [e][1..] == [];
    assert PossibleRun(Step(c, e), []) && Run(Step(c, e), []) == Step(c, e);
  }

  // ----- The invariant -----

  predicate Inv(c: Conn) {
    |c.wire| + |c.output| + c.dropped == |c.accepted| &&
    (c.dropped == 0 ==> c.wire + c.output == c.accepted) &&
    (c.state != Disconnected ==> (c.writing <==> c.output != [])) &&
    (c.state == Disconnected ==> !c.writing)
  }

  /** Writing a prefix and queueing the rest keeps the order, if nothing was queued or nothing is written. */
  lemma SplitKeepsOrder(wire: seq<byte>, output: seq<byte>, data: seq<byte>, n: nat)
    requires n <= |data| && (output == [] || n == 0)
    ensures wire + data[..n] + (output + data[n..]) == wire + output + data
    ensures |wire + data[..n]| + |output + data[n..]| == |wire| + |output| + |data|
    ensures n == |data| ==> output + data[n..] == output
  {
    assert data == data[..n] + data[n..];
  }

  lemma SendKeepsInv(c: Conn, data: seq<byte>, w: WriteResult)
    requires Inv(c) && WriteOk(w, |data|)
    ensures Inv(SendStep(c, data, w))
  {
    if c.state != Disconnected {
      var direct := !c.writing && c.output == [];
      if direct && w.Fault? {
        assert data[..0] == [] && c.wire + [] == c.wire;
      } else {
        var n := if direct && w.Wrote? then w.n else 0;
        SplitKeepsOrder(c.wire, c.output, data, n);
      }
    }
  }

  lemma WritableKeepsInv(c: Conn, w: WriteResult)
    requires Inv(c) && WriteOk(w, |c.output|)
    ensures Inv(WritableStep(c, w))
  {
    if c.writing && w.Wrote? && w.n > 0 {
      assert c.output == c.output[..w.n] + c.output[w.n..];
      assert c.wire + c.output[..w.n] + c.output[w.n..] == c.wire + c.output;
    }
  }

  lemma StepKeepsInv(c: Conn, e: Event)
    requires Inv(c) && Possible(c, e)
    ensures Inv(Step(c, e))
  {
    match e
    case Send(data, w) => SendKeepsInv(c, data, w);
    case Writable(w) => WritableKeepsInv(c, w);
    case _ =>
  }

  /** Over every run: conservation, and the channel waits for writability exactly while bytes are queued. */
  lemma {:induction false} RunKeepsInv(c: Conn, es: seq<Event>)
    requires Inv(c) && PossibleRun(c, es)
    ensures Inv(Run(c, es))
    decreases es
  {
    if es == [] {
    } else {
      StepKeepsInv(c, es[0]);
      RunKeepsInv(Step(c, es[0]), es[1..]);
    }
  }

  predicate FaultDrops(c: Conn, e: Event) {
    e.Send? && e.w.Fault? && e.data != [] && c.state != Disconnected && !c.writing && c.output == []
  }

  /** No event of the run gives bytes up. */
  predicate Faultless(c: Conn, es: seq<Event>)
    requires PossibleRun(c, es)
    decreases es
  {
    es == [] || (!FaultDrops(c, es[0]) && Faultless(Step(c, es[0]), es[1..]))
  }

  lemma {:induction false} DroppedCounts(c: Conn, es: seq<Event>)
    requires PossibleRun(c, es)
    ensures Run(c, es).dropped >= c.dropped
    ensures Run(c, es).dropped == c.dropped <==> Faultless(c, es)
    decreases es
  {
    if es == [] {
    } else {
      DroppedCounts(Step(c, es[0]), es[1..]);
    }
  }

  /** The bytes on the wire and in the buffer are exactly the bytes accepted, iff no write fault gave bytes up. */
  lemma SendConserves(es: seq<Event>)
    requires PossibleRun(NEW_CONN, es)
    ensures var c := Run(NEW_CONN, es);
            c.wire + c.output == c.accepted <==> Faultless(NEW_CONN, es)
  {
    RunKeepsInv(NEW_CONN, es);
    DroppedCounts(NEW_CONN, es);
    var c := Run(NEW_CONN, es);
    assert |c.wire + c.output| == |c.wire| + |c.output|;
  }

  // ----- What the kernel took -----

  /** The event tries to write: directly when nothing is queued, or from the queue when the socket is writable. */
  predicate Attempts(c: Conn, e: Event) {
    (e.Send? && c.state != Disconnected && c.output == []) ||
    (e.Writable? && c.state != Disconnected && c.output != [])
  }

  /** The bytes the kernel took over a run. */
  function Taken(c: Conn, es: seq<Event>): nat
    requires PossibleRun(c, es)
    decreases es
  {
    if es == [] then 0 else
      (if Attempts(c, es[0]) && es[0].w.Wrote? then es[0].w.n else 0) + Taken(Step(c, es[0]), es[1..])
  }

  /** Over every run the wire holds exactly as many bytes as the kernel took, each counted once. */
  lemma {:induction false} WireIsTaken(c: Conn, es: seq<Event>)
    requires Inv(c) && PossibleRun(c, es)
    ensures |Run(c, es).wire| == |c.wire| + Taken(c, es)
    decreases es
  {
    if es == [] {
    } else {
      StepKeepsInv(c, es[0]);
      WireStep(c, es[0]);
      hide Inv, Step, Possible, Attempts;
      WireIsTaken(Step(c, es[0]), es[1..]);
    }
  }

  lemma WireStep(c: Conn, e: Event)
    requires Inv(c) && Possible(c, e)
    ensures |Step(c, e).wire| == |c.wire| + if Attempts(c, e) && e.w.Wrote? then e.w.n else 0
  {
  }

  // ----- Shutting down after the output has drained -----

  /** A shutdownWrite step leaves no output behind exactly when the connection is not yet closed or has none. */
  lemma ShutdownStepExact(c: Conn, e: Event)
    requires Inv(c) && Possible(c, e) && Step(c, e).shutdowns != c.shutdowns
    ensures Step(c, e).output == [] <==> c.state != Disconnected || c.output == []
    ensures Step(c, e).output == [] && c.dropped == 0 ==> Step(c, e).wire == c.accepted
  {
    StepKeepsInv(c, e);
    var d := Step(c, e);
    assert d.wire + d.output == d.wire || d.output != [];
  }

  /** Every shutdownWrite of the run happens with all output gone. */
  predicate Drained(c: Conn, es: seq<Event>)
    requires PossibleRun(c, es)
    decreases es
  {
    es == [] ||
    ((Step(c, es[0]).shutdowns != c.shutdowns ==> Step(c, es[0]).output == []) && Drained(Step(c, es[0]), es[1..]))
  }

  /** No queued shutdown runs after a close that left output behind. */
  predicate Timely(c: Conn, es: seq<Event>)
    requires PossibleRun(c, es)
    decreases es
  {
    es == [] ||
    (!(es[0].RunShutdown? && c.state == Disconnected && c.output != []) && Timely(Step(c, es[0]), es[1..]))
  }

  lemma {:induction false} DrainedExact(c: Conn, es: seq<Event>)
    requires Inv(c) && PossibleRun(c, es)
    ensures Drained(c, es) <==> Timely(c, es)
    decreases es
  {
    if es == [] {
    } else {
      if Step(c, es[0]).shutdowns != c.shutdowns {
        ShutdownStepExact(c, es[0]);
      }
      StepKeepsInv(c, es[0]);
      DrainedExact(Step(c, es[0]), es[1..]);
    }
  }

  /** Over every run: each shutdownWrite comes after the output drained, iff none was run late. */
  lemma ShutdownAfterDrain(es: seq<Event>)
    requires PossibleRun(NEW_CONN, es)
    ensures Drained(NEW_CONN, es) <==> Timely(NEW_CONN, es)
  {
    DrainedExact(NEW_CONN, es);
  }

  /** The write that drains a connection that is shutting down closes the writing side, exactly once. */
  lemma DrainShutsDown(c: Conn, w: WriteResult)
    requires Inv(c) && WriteOk(w, |c.output|) && c.output != [] && Step(c, Writable(w)).output == []
    ensures Step(c, Writable(w)).shutdowns == c.shutdowns + if c.state == Disconnecting then 1 else 0
  {
  }

  /** A connection that is closing stays so; when it has drained the writing side has been closed since. */
  predicate ShutWhenDrained(c: Conn, n: nat) {
    (c.state == Disconnecting || c.state == Disconnected) && c.shutdowns >= n &&
    (c.state == Disconnecting && c.output == [] ==> c.shutdowns > n)
  }

  lemma {:induction false} RunKeepsShut(c: Conn, es: seq<Event>, n: nat)
    requires Inv(c) && ShutWhenDrained(c, n) && PossibleRun(c, es)
    ensures ShutWhenDrained(Run(c, es), n)
    decreases es
  {
    if es == [] {
    } else {
      StepKeepsInv(c, es[0]);
      RunKeepsShut(Step(c, es[0]), es[1..], n);
    }
  }

  /**
    * Over every run in which the queued part of shutdown runs while disconnecting: as soon as the output has
    * drained and the connection is not closed, the peer has been told that nothing more comes.
    */
  lemma ShutdownHappens(c: Conn, es: seq<Event>)
    requires Inv(c) && c.state == Disconnecting && PossibleRun(Step(c, RunShutdown), es)
    ensures var d := Run(Step(c, RunShutdown), es);
            d.state != Connected && (d.state == Disconnecting && d.output == [] ==> d.shutdowns > c.shutdowns)
  {
    StepKeepsInv(c, RunShutdown);
    RunKeepsShut(Step(c, RunShutdown), es, c.shutdowns);
  }

  /** Once shutdown or forceClose was called, the connection is never connected again, and no close is undone. */
  lemma {:induction false} ClosingOnlyAdvances(c: Conn, es: seq<Event>)
    requires PossibleRun(c, es)
    ensures c.state == Disconnecting ==> var s := Run(c, es).state; s == Disconnecting || s == Disconnected
    ensures c.state == Disconnected ==> Run(c, es).state == Disconnected
    decreases es
  {
    if es == [] {
    } else {
      ClosingOnlyAdvances(Step(c, es[0]), es[1..]);
    }
  }

  /** Each call and each closing event has its effect for the rest of the run. */
  lemma CallsTakeEffect(c: Conn, e: Event, es: seq<Event>)
    requires Possible(c, e) && PossibleRun(Step(c, e), es)
    ensures var s := Run(Step(c, e), es).state;
            (e.CallShutdown? || e.CallForceClose? ==> (s == Connected ==> c.state == Connecting)) &&
            (e.RunForceClose? ==> Up(c) ==> s == Disconnected) && (e.PeerClosed? || e.HangUp? ==> s == Disconnected) &&
            (e.Destroy? && c.state == Connected ==> s == Disconnected)
  {
    ClosingOnlyAdvances(Step(c, e), es);
  }

  /** Over every run in which nobody stops reading, an open connection reads. */
  lemma {:induction false} OpenConnectionReads(c: Conn, es: seq<Event>)
    requires PossibleRun(c, es) && StopRead !in es && (Up(c) ==> c.reading)
    ensures Up(Run(c, es)) ==> Run(c, es).reading
    ensures c.wantsRead ==> Run(c, es).wantsRead
    decreases es
  {
    if es == [] {
    } else {
      assert es[0] in es;
      OpenConnectionReads(Step(c, es[0]), es[1..]);
    }
  }

  /** Over every run after stopRead without another startRead, an established connection does not read. */
  lemma {:induction false} StoppedStaysStopped(c: Conn, es: seq<Event>)
    requires PossibleRun(c, es) && StartRead !in es && c.state != Connecting && !c.reading && !c.wantsRead
    ensures !Run(c, es).reading && !Run(c, es).wantsRead
    decreases es
  {
    if es == [] {
    } else {
      assert es[0] in es;
      StoppedStaysStopped(Step(c, es[0]), es[1..]);
    }
  }

  /** startRead and stopRead take effect for the rest of the run, until the other is called or the connection closes. */
  lemma ReadCallsTakeEffect(c: Conn, es: seq<Event>)
    ensures PossibleRun(Step(c, StartRead), es) && StopRead !in es ==>
      var d := Run(Step(c, StartRead), es); d.wantsRead && (Up(d) ==> d.reading)
    ensures PossibleRun(Step(c, StopRead), es) && StartRead !in es && c.state != Connecting ==>
      var d := Run(Step(c, StopRead), es); !d.reading && !d.wantsRead
  {
    if PossibleRun(Step(c, StartRead), es) && StopRead !in es {
      OpenConnectionReads(Step(c, StartRead), es);
    }
    if PossibleRun(Step(c, StopRead), es) && StartRead !in es && c.state != Connecting {
      StoppedStaysStopped(Step(c, StopRead), es);
    }
  }

  /** After a close the queued part of shutdown still runs, with output undelivered. */
  lemma ShutdownAfterCloseLosesOutput(data: seq<byte>)
    requires data != []
    ensures var es := [Establish, Send(data, WouldBlock), CallShutdown, PeerClosed, RunShutdown];
            PossibleRun(NEW_CONN, es) && Run(NEW_CONN, es).shutdowns == 1 && Run(NEW_CONN, es).output == data
  {
    var c1 := Step(NEW_CONN, Establish);
    var c2 := Step(c1, Send(data, WouldBlock));
    var c3 := Step(c2, CallShutdown);
    var c4 := Step(c3, PeerClosed);
    var c5 := Step(c4, RunShutdown);
    var es := [Establish, Send(data, WouldBlock), CallShutdown, PeerClosed, RunShutdown];
    assert es[1..] == [Send(data, WouldBlock), CallShutdown, PeerClosed, RunShutdown];
    assert es[1..][1..] == [CallShutdown, PeerClosed, RunShutdown];
    assert es[1..][1..][1..] == [PeerClosed, RunShutdown];
    assert es[1..][1..][1..][1..] == [RunShutdown];
    assert PossibleRun(c4, [RunShutdown]) && Run(c4, [RunShutdown]) == c5;
    assert PossibleRun(c3, [PeerClosed, RunShutdown]) && Run(c3, [PeerClosed, RunShutdown]) == c5;
    assert PossibleRun(c2, es[1..][1..]) && Run(c2, es[1..][1..]) == c5;
    assert PossibleRun(c1, es[1..]) && Run(c1, es[1..]) == c5;
  }

  /** Once disconnected, always disconnected; the wire and the accepted bytes no longer change. */
  lemma {:induction false} DisconnectedIsFinal(c: Conn, es: seq<Event>)
    requires Inv(c) && c.state == Disconnected && PossibleRun(c, es)
    ensures var d := Run(c, es);
            d.state == Disconnected && d.wire == c.wire && d.accepted == c.accepted && d.output == c.output
    decreases es
  {
    if es == [] {
    } else {
      StepKeepsInv(c, es[0]);
      DisconnectedIsFinal(Step(c, es[0]), es[1..]);
    }
  }

  // ----- The assertions of closing and destroying -----

  /**
    * handleClose wants an open connection, so an event must not call it twice, and a channel is removed only
    * when it asks for no events.
    */
  predicate AssertsHold(c: Conn, e: Event) {
    match e
    case PeerClosed => Up(c)
    case HangUp(endOfStream) => Up(c) && !endOfStream
    case Destroy => c.state == Connected || (!c.reading && !c.writing)
    case _ => true
  }

  predicate NoAssertFails(c: Conn, es: seq<Event>)
    requires PossibleRun(c, es)
    decreases es
  {
    es == [] || (AssertsHold(c, es[0]) && NoAssertFails(Step(c, es[0]), es[1..]))
  }

  /** What callers owe: reading is restarted only while open, and no connection is destroyed half closed. */
  predicate Orderly(c: Conn, e: Event) {
    (e.StartRead? ==> Up(c)) && (e.Destroy? ==> c.state == Connected || c.state == Disconnected)
  }

  predicate OrderlyRun(c: Conn, es: seq<Event>)
    requires PossibleRun(c, es)
    decreases es
  {
    es == [] || (Orderly(c, es[0]) && OrderlyRun(Step(c, es[0]), es[1..]))
  }

  /** A hang-up without input finds the connection open, and the read that follows is not at the end of the stream. */
  predicate SafeHangUp(c: Conn, e: Event) {
    e.HangUp? ==> Up(c) && !e.endOfStream
  }

  predicate SafeHangUps(c: Conn, es: seq<Event>)
    requires PossibleRun(c, es)
    decreases es
  {
    es == [] || (SafeHangUp(c, es[0]) && SafeHangUps(Step(c, es[0]), es[1..]))
  }

  /** Over every run with orderly callers, no assertion fails iff every hang-up without input is safe. */
  lemma {:induction false} AssertsOverRun(c: Conn, es: seq<Event>)
    requires Inv(c) && (c.reading ==> Up(c)) && PossibleRun(c, es) && OrderlyRun(c, es)
    ensures NoAssertFails(c, es) <==> SafeHangUps(c, es)
    ensures Run(c, es).reading ==> Up(Run(c, es))
    decreases es
  {
    if es == [] {
    } else {
      StepKeepsInv(c, es[0]);
      AssertsOverRun(Step(c, es[0]), es[1..]);
    }
  }

  /**
    * connectDestroyed keeps its assertion iff connected, disconnected, or neither reading nor with output queued;
    * only a connected connection is changed by it.
    */
  lemma DestroyExact(c: Conn)
    requires Inv(c) && (c.reading ==> Up(c))
    ensures c.state != Connected ==> Step(c, Destroy) == c
    ensures AssertsHold(c, Destroy) <==>
            c.state == Connected || c.state == Disconnected || (!c.reading && c.output == [])
  {
  }

  /** After a restart of reading every next event that is orderly and no bad hang-up keeps its assertion, iff open. */
  lemma RestartExact(c: Conn)
    requires Inv(c) && (c.reading ==> Up(c))
    ensures var d := Step(c, StartRead);
            (forall e :: Possible(d, e) && Orderly(d, e) && SafeHangUp(d, e) ==> AssertsHold(d, e)) <==> Up(c)
  {
    var d := Step(c, StartRead);
    assert Possible(d, PeerClosed) && Orderly(d, PeerClosed) && SafeHangUp(d, PeerClosed);
    if Up(c) {
      forall e | Possible(d, e) && Orderly(d, e) && SafeHangUp(d, e)
        ensures AssertsHold(d, e)
      {
      }
    } else {
      assert !AssertsHold(d, PeerClosed);
    }
  }

  // ----- The class -----

  class TcpConnection {
    var state: StateE
    var reading: bool
    var channelReading: bool
    var channelWriting: bool
    const inputBuffer: Buffer
    const outputBuffer: Buffer
    var highWaterMark: nat
    ghost var wire: seq<byte>
    ghost var accepted: seq<byte>
    ghost var dropped: nat
    ghost var shutdowns: nat

    ghost predicate Valid()
      reads this, inputBuffer, outputBuffer
    {
      inputBuffer != outputBuffer &&
      inputBuffer.Valid() && outputBuffer.Valid() &&
      PREPEND <= inputBuffer.readIndex && PREPEND <= outputBuffer.readIndex &&
      Inv(Value())
    }

    ghost function Value(): Conn
      reads this, outputBuffer
      requires outputBuffer.Valid()
    {
      Conn(state, reading, channelReading, channelWriting, outputBuffer.Contents(), wire, accepted, dropped, shutdowns)
    }

    constructor ()
      ensures Valid() && Value() == NEW_CONN && inputBuffer.Contents() == []
      ensures fresh(inputBuffer) && fresh(outputBuffer)
      ensures inputBuffer.WritableBytes() == 1024 == outputBuffer.WritableBytes() && highWaterMark == 0x400_0000
    {
      state := Connecting;
      reading, channelReading, channelWriting := true, false, false;
      var i := new Buffer(INITIAL_SIZE);
      var o := new Buffer(INITIAL_SIZE);
      inputBuffer, outputBuffer := i, o;
      highWaterMark := 64 * 1024 * 1024;
      wire, accepted, dropped, shutdowns := [], [], 0, 0;
    }

    /** Writes directly when nothing is queued, and queues what the kernel did not take. */
    method SendInLoop(data: seq<byte>, w: WriteResult) returns (writeComplete: bool, highWater: bool)
      requires Valid() && WriteOk(w, |data|)
      modifies this, outputBuffer
      ensures Valid() && Value() == SendStep(old(Value()), data, w)
      ensures inputBuffer.Contents() == old(inputBuffer.Contents()) && highWaterMark == old(highWaterMark)
      ensures writeComplete ==> wire == old(wire) + data
      ensures writeComplete <==> old(state) != Disconnected && old(outputBuffer.Contents()) == [] && w == Wrote(|data|)
      ensures highWater <==> old(|outputBuffer.Contents()|) < highWaterMark <= |outputBuffer.Contents()|
                             && |outputBuffer.Contents()| > old(|outputBuffer.Contents()|)
    {
      assert state != Disconnected ==> (channelWriting <==> outputBuffer.Contents() != []);
      hide Inv;
      SendKeepsInv(Value(), data, w);
      writeComplete, highWater := false, false;
      var nwrote := 0;
      var remaining := |data|;
      var faultError := false;
      if state == Disconnected {
        return;
      }
      if !channelWriting && outputBuffer.ReadableBytes() == 0 {
        if w.Wrote? {
          nwrote := w.n;
          remaining := |data| - nwrote;
          writeComplete := remaining == 0;
        } else if w.Fault? {
          faultError := true;
          dropped := dropped + |data|;
        }
      }
      assert nwrote == |data| ==> data[..nwrote] == data;
      wire := wire + data[..nwrote];
      accepted := accepted + data;
      if !faultError && remaining > 0 {
        highWater := QueueOutput(data[nwrote..]);
      }
    }

    /** Queues bytes that were not written and waits for the socket to become writable. */
    method QueueOutput(rest: seq<byte>) returns (highWater: bool)
      requires outputBuffer.Valid() && PREPEND <= outputBuffer.readIndex && rest != []
      modifies `channelWriting, outputBuffer
      ensures outputBuffer.Valid() && PREPEND <= outputBuffer.readIndex && channelWriting
      ensures outputBuffer.Contents() == old(outputBuffer.Contents()) + rest
      ensures highWater <==> old(|outputBuffer.Contents()|) < highWaterMark <= |outputBuffer.Contents()|
    {
      var oldLen := outputBuffer.ReadableBytes();
      highWater := oldLen + |rest| >= highWaterMark && oldLen < highWaterMark;
      outputBuffer.Append(rest);
      if !channelWriting {
        channelWriting := true;
      }
    }

    /** Sends the whole content of a buffer and empties it; ignored unless connected. */
    method SendBuffer(buf: Buffer, w: WriteResult) returns (writeComplete: bool, highWater: bool)
      requires Valid() && buf.Valid() && buf != inputBuffer && buf != outputBuffer
      requires WriteOk(w, |buf.Contents()|)
      modifies this, outputBuffer, buf
      ensures Valid() && buf.Valid()
      ensures old(state) == Connected ==>
        buf.Contents() == [] && Value() == SendStep(old(Value()), old(buf.Contents()), w)
      ensures old(state) != Connected ==> Value() == old(Value()) && buf.Contents() == old(buf.Contents())
    {
      writeComplete, highWater := false, false;
      if state == Connected {
        writeComplete, highWater := SendInLoop(buf.Contents(), w);
        buf.RetrieveAll();
      }
    }

    /** Reports the end of a send: the output has drained. */
    method HandleWrite(w: WriteResult) returns (writeComplete: bool)
      requires Valid() && WriteOk(w, |outputBuffer.Contents()|)
      modifies this, outputBuffer
      ensures Valid() && Value() == WritableStep(old(Value()), w)
      ensures inputBuffer.Contents() == old(inputBuffer.Contents())
      ensures writeComplete <==> old(channelWriting) && !channelWriting
    {
      hide Inv;
      WritableKeepsInv(Value(), w);
      writeComplete := false;
      if channelWriting {
        if w.Wrote? && w.n > 0 {
          wire := wire + outputBuffer.Contents()[..w.n];
          outputBuffer.Retrieve(w.n);
          if outputBuffer.ReadableBytes() == 0 {
            channelWriting := false;
            writeComplete := true;
            if state == Disconnecting {
              ShutdownWrite();
            }
          }
        }
      }
    }

    /** The queued part of shutdown: close the writing side unless output is still queued. */
    method ShutdownWrite()
      requires outputBuffer.Valid()
      modifies this
      ensures outputBuffer.Valid() && Value() == ShutdownStep(old(Value()))
    {
      if !channelWriting {
        shutdowns := shutdowns + 1;
      }
    }

    method Shutdown() returns (queued: bool)
      requires Valid()
      modifies this
      ensures Valid() && Value() == Step(old(Value()), CallShutdown)
      ensures queued <==> old(state) == Connected
    {
      queued := state == Connected;
      if state == Connected {
        state := Disconnecting;
      }
    }

    method ForceClose() returns (queued: bool)
      requires Valid()
      modifies this
      ensures Valid() && Value() == Step(old(Value()), CallForceClose)
      ensures queued <==> old(Up(Value()))
    {
      queued := state == Connected || state == Disconnecting;
      if state == Connected || state == Disconnecting {
        state := Disconnecting;
      }
    }

    method ForceCloseInLoop()
      requires Valid()
      modifies this
      ensures Valid() && Value() == Step(old(Value()), RunForceClose)
    {
      if state == Connected || state == Disconnecting {
        HandleClose();
      }
    }

    /** Requires what the assertion at its head demands. */
    method HandleClose()
      requires Valid() && Up(Value())
      modifies this
      ensures Valid() && Value() == CloseStep(old(Value()))
    {
      StepKeepsInv(Value(), RunForceClose);
      state := Disconnected;
      channelReading, channelWriting := false, false;
    }

    /** Data goes to the input buffer; end of stream closes the connection, which must be open. */
    method HandleRead(result: ReadResult) returns (deliver: bool)
      requires Valid() && (result == Data([]) ==> Up(Value()))
      requires result.Data? ==> |result.bytes| <= inputBuffer.ReadCapacity()
      modifies this, inputBuffer
      ensures Valid()
      ensures result.Data? ==> inputBuffer.Contents() == old(inputBuffer.Contents()) + result.bytes
      ensures result.Error? ==> inputBuffer.Contents() == old(inputBuffer.Contents())
      ensures Value() == if result == Data([]) then CloseStep(old(Value())) else old(Value())
      ensures deliver <==> result.Data? && result.bytes != []
    {
      deliver := false;
      var n, savedErrno := inputBuffer.ReadFd(result);
      if n > 0 {
        deliver := true;
      } else if n == 0 {
        HandleClose();
      }
    }

    method StartReadInLoop()
      requires Valid()
      modifies this
      ensures Valid() && Value() == Step(old(Value()), StartRead)
    {
      if !reading || !channelReading {
        channelReading := true;
        reading := true;
      }
    }

    method StopReadInLoop()
      requires Valid()
      modifies this
      ensures Valid() && Value() == Step(old(Value()), StopRead)
    {
      if reading || channelReading {
        channelReading := false;
        reading := false;
      }
    }

    method ConnectEstablished()
      requires Valid() && state == Connecting
      modifies this
      ensures Valid() && Value() == Step(old(Value()), Establish)
    {
      state := Connected;
      channelReading := true;
    }

    method ConnectDestroyed()
      requires Valid() && AssertsHold(Value(), Destroy)
      modifies this
      ensures Valid() && Value() == Step(old(Value()), Destroy)
      ensures !channelReading && !channelWriting
    {
      if state == Connected {
        state := Disconnected;
        channelReading, channelWriting := false, false;
      }
    }
  }
}
