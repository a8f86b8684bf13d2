/** The connections of one loop together with its poller: which channel calls the handlers make. */
module Registration {
  import opened Poll = EpollPollerModule
  import Tcp = TcpConnectionModule

  /** The identity of a connection and of its channel. */
  type Id = nat

  /** `gone` are the connections that have been destroyed. */
  datatype System = System(conns: map<Id, Tcp.Conn>, gone: set<Id>, poller: Poller<Id>)

  /** A poller that may already hold other channels: the wakeup and timer descriptors, the acceptor. */
  function Start(p: Poller<Id>): System {
    System(map[], {}, p)
  }

  /** The events a connection asks for. */
  function MaskOf(c: Tcp.Conn): Mask {
    Mask(c.reading, c.writing)
  }

  // ----- The channel calls of each handler -----

  /** `m` is the mask the channel holds when the handler runs. */
  function Calls(k: Id, m: Mask, c: Tcp.Conn, e: Tcp.Event): seq<Call<Id>>
    requires Tcp.Possible(c, e)
  {
    match e
    case Establish => [Update(k, m.(reading := true))]
    case Send(_, _) => if !m.writing && Tcp.Step(c, e).output != c.output then [Update(k, m.(writing := true))] else []
    case Writable(w) =>
      if m.writing && w.Wrote? && w.n > 0 && w.n == |c.output| then [Update(k, m.(writing := false))] else []
    case RunForceClose => if Tcp.Up(c) then [Update(k, NONE)] else []
    case PeerClosed => [Update(k, NONE)]
    case HangUp(_) => [Update(k, NONE)]
    case StartRead => if !c.wantsRead || !m.reading then [Update(k, m.(reading := true))] else []
    case StopRead => if c.wantsRead || m.reading then [Update(k, m.(reading := false))] else []
    case Destroy => (if c.state == Tcp.Connected then [Update(k, NONE)] else []) + [Remove(k)]
    case _ => []
  }

  /** A new connection, a handler of one, or a call of a channel that belongs to no connection. */
  datatype Event = Accept(k: Id, fd: int) | On(k: Id, e: Tcp.Event) | Other(call: Call<Id>)

  /**
    * A new connection is a new object on a descriptor that no living channel has. A hang-up is reported for
    * every channel the kernel holds, whatever its mask. The other channels keep the poller's discipline.
    */
  predicate Possible(s: System, ev: Event) {
    match ev
    case Accept(k, fd) =>
      k !in s.conns && k !in s.poller.index &&
      forall j :: j in s.poller.fd && j !in s.gone ==> s.poller.fd[j] != fd
    case On(k, e) =>
      k in s.conns && Known(s.poller, k) && Tcp.Possible(s.conns[k], e) && (e.HangUp? ==> InKernel(s.poller, k))
    case Other(call) => call.c !in s.conns && Known(s.poller, call.c) && Disciplined(s.poller, call)
  }

  /** What callers owe a connection, and that a destroyed one is neither stopped nor destroyed again. */
  predicate Orderly(s: System, ev: Event)
    requires Possible(s, ev)
  {
    ev.On? ==> Tcp.Orderly(s.conns[ev.k], ev.e) && (ev.e.StopRead? || ev.e.Destroy? ==> ev.k !in s.gone)
  }

  /** A hang-up without input finds the connection open and does not also read the end of the stream. */
  predicate SafeHangUp(s: System, ev: Event)
    requires Possible(s, ev)
  {
    ev.On? ==> Tcp.SafeHangUp(s.conns[ev.k], ev.e)
  }

  function CallsOf(s: System, k: Id, e: Tcp.Event): seq<Call<Id>>
    requires Possible(s, On(k, e))
  {
    Calls(k, s.poller.events[k], s.conns[k], e)
  }

  /** The assertions of the connection, of the channel and of the poller, and that the kernel accepts the calls. */
  predicate AssertsHold(s: System, ev: Event)
    requires Possible(s, ev)
  {
    match ev
    case Accept(_, _) => true
    case On(k, e) =>
      Tcp.AssertsHold(s.conns[k], e) &&
      DisciplinedRun(s.poller, CallsOf(s, k, e)) && Poll.NoAssertFails(s.poller, CallsOf(s, k, e))
    case Other(call) => Poll.AssertsHold(s.poller, call)
  }

  function Meet(p: Poller<Id>, k: Id, fd: int): Poller<Id> {
    p.(index := p.index[k := New], events := p.events[k := NONE], fd := p.fd[k := fd])
  }

  function Step(s: System, ev: Event): System
    requires Possible(s, ev) && AssertsHold(s, ev)
  {
    match ev
    case Accept(k, fd) => s.(conns := s.conns[k := Tcp.NEW_CONN], poller := Meet(s.poller, k, fd))
    case On(k, e) =>
      System(s.conns[k := Tcp.Step(s.conns[k], e)], if e.Destroy? then s.gone + {k} else s.gone,
             Poll.Run(s.poller, CallsOf(s, k, e)))
    case Other(call) => s.(poller := Poll.Step(s.poller, call))
  }

  // ----- The invariant -----

  /** What poller, channel and connection hold of each other. */
  predicate ChannelOk(c: Tcp.Conn, gone: bool, index: Index, mask: Mask) {
    Tcp.Inv(c) && (c.reading ==> Tcp.Up(c)) && mask == MaskOf(c) && (mask != NONE ==> index == Added) &&
    (if gone then index == New && c.state == Tcp.Disconnected else c.state != Tcp.Connecting ==> index != New)
  }

  predicate ConnOk(s: System, k: Id)
    requires k in s.conns
  {
    Known(s.poller, k) && ChannelOk(s.conns[k], k in s.gone, s.poller.index[k], s.poller.events[k])
  }

  /** No two living channels have the same descriptor. */
  predicate OwnDescriptors(p: Poller<Id>, gone: set<Id>) {
    forall j, k :: j in p.fd && k in p.fd && j != k && j !in gone && k !in gone ==> p.fd[j] != p.fd[k]
  }

  predicate Inv(s: System) {
    Poll.Inv(s.poller) && OwnDescriptors(s.poller, s.gone) && s.gone <= s.conns.Keys &&
    forall k :: k in s.conns ==> ConnOk(s, k)
  }

  /** A channel that is not registered finds its descriptor free. */
  lemma DescriptorFree(s: System, k: Id)
    requires Inv(s) && k in s.conns && k !in s.gone && s.poller.index[k] == New
    ensures s.poller.fd[k] !in s.poller.channels
  {
    var p := s.poller;
    assert forall j :: j in s.gone ==> p.index[j] == New by {
      forall j | j in s.gone
        ensures p.index[j] == New
      {
        assert ConnOk(s, j);
      }
    }
    assert Agrees(p, k);
    assert p.fd[k] in p.channels ==> RegisteredAt(p, p.fd[k]);
    hide Tcp.Inv;
  }

  /** Every update of a living connection is disciplined. */
  lemma UpdateDisciplined(s: System, k: Id, mask: Mask)
    requires Inv(s) && k in s.conns && k !in s.gone
    ensures Known(s.poller, k) && Disciplined(s.poller, Update(k, mask))
  {
    assert ConnOk(s, k);
    if s.poller.index[k] == New {
      DescriptorFree(s, k);
    }
  }

  /**
    * A handler makes no call and leaves the mask alone, or makes one update to the mask the connection then asks
    * for. Sending and writing update only a mask that changes; starting and stopping to read update unless flag
    * and mask both say so already.
    */
  lemma CallsFollowMask(k: Id, c: Tcp.Conn, e: Tcp.Event)
    requires Tcp.Inv(c) && (c.reading ==> Tcp.Up(c)) && Tcp.Possible(c, e) && !e.Destroy?
    ensures var d, calls := Tcp.Step(c, e), Calls(k, MaskOf(c), c, e);
            (calls == [] && MaskOf(d) == MaskOf(c) && (d.state == Tcp.Connecting <==> c.state == Tcp.Connecting)) ||
            calls == [Update(k, MaskOf(d))]
    ensures var d, calls := Tcp.Step(c, e), Calls(k, MaskOf(c), c, e);
            (e.Send? || e.Writable? ==> (calls == [] <==> MaskOf(d) == MaskOf(c))) &&
            (e.StartRead? ==> (calls == [] <==> c.wantsRead && c.reading)) &&
            (e.StopRead? ==> (calls == [] <==> !c.wantsRead && !c.reading))
    ensures c.state == Tcp.Disconnected && !e.StartRead? && !e.StopRead? && !e.HangUp? ==>
      Calls(k, MaskOf(c), c, e) == []
  {
  }

  lemma UpdateEffect(p: Poller<Id>, k: Id, mask: Mask)
    requires Known(p, k)
    ensures var q := Poll.Step(p, Update(k, mask));
            q.events == p.events[k := mask] && q.fd == p.fd && q.index == p.index[k := q.index[k]] &&
            q.index[k] != New && (mask != NONE || p.index[k] == New ==> q.index[k] == Added)
  {
  }

  lemma RemoveEffect(p: Poller<Id>, k: Id)
    requires Known(p, k)
    ensures var q := Poll.Step(p, Remove(k));
            q.events == p.events && q.fd == p.fd && q.index == p.index[k := New]
  {
  }

  /** A sequence of one call. */
  lemma RunOne(p: Poller<Id>, call: Call<Id>)
    requires Poll.Inv(p) && Known(p, call.c) && Disciplined(p, call)
    ensures DisciplinedRun(p, [call]) && Poll.NoAssertFails(p, [call])
    ensures Poll.Run(p, [call]) == Poll.Step(p, call) && Poll.Inv(Poll.Step(p, call))
  {
    hide Poll.Inv, Poll.Step, Disciplined, Known, Poll.AssertsHold;
    assert DisciplinedRun(p, [call]);
    assert Poll.Run(Poll.Step(p, call), []) == Poll.Step(p, call);
    Poll.RunKeepsInv(p, [call]);
  }

  /** The state after one connection and its channel changed keeps the invariant of all others. */
  lemma OneChanged(s: System, t: System, k: Id)
    requires Inv(s) && k in s.conns && t.conns.Keys == s.conns.Keys && Poll.Inv(t.poller) && t.poller.fd == s.poller.fd
    requires forall j :: j in s.conns && j != k ==> t.conns[j] == s.conns[j] && (j in t.gone <==> j in s.gone)
    requires s.gone <= t.gone <= s.gone + {k}
    requires forall j :: j in s.poller.index && j != k ==>
      j in t.poller.index && t.poller.index[j] == s.poller.index[j]
    requires forall j :: j in s.poller.events && j != k ==>
      j in t.poller.events && t.poller.events[j] == s.poller.events[j]
    requires ConnOk(t, k)
    ensures Inv(t)
  {
    hide ChannelOk, Poll.Inv;
    forall j | j in t.conns
      ensures ConnOk(t, j)
    {
      assert ConnOk(s, j);
    }
  }

  lemma HandlerKeepsInv(s: System, k: Id, e: Tcp.Event)
    requires Inv(s) && Possible(s, On(k, e)) && Orderly(s, On(k, e)) && SafeHangUp(s, On(k, e)) && !e.Destroy?
    ensures AssertsHold(s, On(k, e)) && Inv(Step(s, On(k, e)))
  {
    hide Inv, Poll.Inv, Poll.Step, Disciplined, Tcp.Step, Tcp.Inv;
    ConnFacts(s, k);
    var c, p := s.conns[k], s.poller;
    var d := Tcp.Step(c, e);
    CallsFollowMask(k, c, e);
    ConnKeeps(c, e);
    hide Calls;
    if CallsOf(s, k, e) != [] {
      UpdateDisciplined(s, k, MaskOf(d));
      RunOne(p, Update(k, MaskOf(d)));
      UpdateEffect(p, k, MaskOf(d));
    }
    OneChanged(s, Step(s, On(k, e)), k);
  }

  lemma ConnKeeps(c: Tcp.Conn, e: Tcp.Event)
    requires Tcp.Inv(c) && (c.reading ==> Tcp.Up(c)) && Tcp.Possible(c, e)
    requires Tcp.Orderly(c, e) && Tcp.SafeHangUp(c, e)
    ensures var d := Tcp.Step(c, e);
            Tcp.Inv(d) && (d.reading ==> Tcp.Up(d)) && Tcp.AssertsHold(c, e) &&
            (c.state == Tcp.Disconnected ==> d.state == Tcp.Disconnected) &&
            (e.Destroy? ==> d.state == Tcp.Disconnected && MaskOf(d) == NONE)
  {
    Tcp.StepKeepsInv(c, e);
  }

  /** Two calls one after the other. */
  lemma RunTwo(p: Poller<Id>, first: Call<Id>, second: Call<Id>)
    requires Poll.Inv(p) && Known(p, first.c) && Disciplined(p, first)
    requires Known(Poll.Step(p, first), second.c) && Disciplined(Poll.Step(p, first), second)
    ensures DisciplinedRun(p, [first, second]) && Poll.NoAssertFails(p, [first, second])
    ensures Poll.Run(p, [first, second]) == Poll.Step(Poll.Step(p, first), second)
    ensures Poll.Inv(Poll.Step(Poll.Step(p, first), second))
  {
    hide Poll.Inv, Poll.Step, Disciplined, Known, Poll.AssertsHold;
    RunOne(p, first);
    RunOne(Poll.Step(p, first), second);
    assert [first, second][1..] == [second];
    assert DisciplinedRun(p, [first, second]);
    Poll.RunKeepsInv(p, [first, second]);
  }

  /** What the channel calls of connectDestroyed leave behind. */
  predicate Removed(p: Poller<Id>, calls: seq<Call<Id>>, k: Id) {
    DisciplinedRun(p, calls) && Poll.NoAssertFails(p, calls) &&
    var q := Poll.Run(p, calls);
    Poll.Inv(q) && q.fd == p.fd && q.events == p.events[k := NONE] && q.index == p.index[k := New]
  }

  lemma DisableThenRemove(p: Poller<Id>, k: Id)
    requires Poll.Inv(p) && Known(p, k) && Disciplined(p, Update(k, NONE))
    ensures Removed(p, [Update(k, NONE), Remove(k)], k)
  {
    hide Poll.Inv, Poll.Step;
    var q := Poll.Step(p, Update(k, NONE));
    UpdateEffect(p, k, NONE);
    RunTwo(p, Update(k, NONE), Remove(k));
    RemoveEffect(q, k);
    hide DisciplinedRun, Poll.NoAssertFails, Poll.Run;
  }

  lemma JustRemove(p: Poller<Id>, k: Id)
    requires Poll.Inv(p) && Known(p, k) && Disciplined(p, Remove(k))
    ensures Removed(p, [Remove(k)], k)
  {
    hide Poll.Inv, Poll.Step;
    RunOne(p, Remove(k));
    RemoveEffect(p, k);
    hide DisciplinedRun, Poll.NoAssertFails, Poll.Run;
    assert p.events[k := NONE] == p.events;
  }

  /** connectDestroyed: whether or not it has to disable the channel first, the removal is disciplined. */
  lemma DestroyCalls(s: System, k: Id)
    requires Inv(s) && Possible(s, On(k, Tcp.Destroy)) && Orderly(s, On(k, Tcp.Destroy))
    ensures Removed(s.poller, CallsOf(s, k, Tcp.Destroy), k)
  {
    ConnFacts(s, k);
    DestroyList(k, s.poller.events[k], s.conns[k]);
    hide Inv, Removed, Calls, Tcp.Inv, ConnOk;
    if s.conns[k].state == Tcp.Connected {
      UpdateDisciplined(s, k, NONE);
      DisableThenRemove(s.poller, k);
    } else {
      JustRemove(s.poller, k);
    }
  }

  lemma ConnFacts(s: System, k: Id)
    requires Inv(s) && k in s.conns
    ensures Poll.Inv(s.poller) && ConnOk(s, k)
    ensures s.conns[k].state == Tcp.Disconnected ==> s.poller.events[k] == NONE
  {
    hide Poll.Inv;
  }

  lemma DestroyList(k: Id, m: Mask, c: Tcp.Conn)
    requires Tcp.Possible(c, Tcp.Destroy)
    ensures Calls(k, m, c, Tcp.Destroy) ==
            if c.state == Tcp.Connected then [Update(k, NONE), Remove(k)] else [Remove(k)]
  {
  }

  lemma DestroyKeepsInv(s: System, k: Id)
    requires Inv(s) && Possible(s, On(k, Tcp.Destroy)) && Orderly(s, On(k, Tcp.Destroy))
    ensures AssertsHold(s, On(k, Tcp.Destroy)) && Inv(Step(s, On(k, Tcp.Destroy)))
  {
    hide Poll.Inv, Tcp.Step, Tcp.Inv, OwnDescriptors, CallsOf;
    assert ConnOk(s, k);
    DestroyCalls(s, k);
    ConnKeeps(s.conns[k], Tcp.Destroy);
    OneChanged(s, Step(s, On(k, Tcp.Destroy)), k);
  }

  lemma AcceptKeepsInv(s: System, k: Id, fd: int)
    requires Inv(s) && Possible(s, Accept(k, fd))
    ensures Inv(Step(s, Accept(k, fd)))
  {
    var t := Step(s, Accept(k, fd));
    MeetKeepsInv(s.poller, k, fd);
    MeetOwns(s.poller, s.gone, k, fd);
    forall j | j in t.conns
      ensures ConnOk(t, j)
    {
      AcceptedOk(s, k, fd, j);
    }
    hide Poll.Inv, OwnDescriptors, ConnOk, Possible, Meet;
  }

  lemma AcceptedOk(s: System, k: Id, fd: int, j: Id)
    requires Inv(s) && Possible(s, Accept(k, fd)) && j in s.conns.Keys + {k}
    ensures ConnOk(Step(s, Accept(k, fd)), j)
  {
    hide Poll.Inv, OwnDescriptors;
    NewConnOk();
    if j != k {
      assert ConnOk(s, j);
    }
    hide Inv, ChannelOk;
  }

  lemma NewConnOk()
    ensures ChannelOk(Tcp.NEW_CONN, false, New, NONE)
  {
  }

  lemma OtherKeepsInv(s: System, call: Call<Id>)
    requires Inv(s) && Possible(s, Other(call))
    ensures AssertsHold(s, Other(call)) && Inv(Step(s, Other(call)))
  {
    AssertsExact(s.poller, call);
    Poll.StepKeepsInv(s.poller, call);
    match call {
      case Update(c, mask) => UpdateEffect(s.poller, c, mask);
      case Remove(c) => RemoveEffect(s.poller, c);
    }
    hide Poll.Inv, Poll.Step, Poll.AssertsHold, Disciplined, ChannelOk, OwnDescriptors;
    var t := Step(s, Other(call));
    OwnsSame(s.poller, t.poller, s.gone);
    forall k | k in t.conns
      ensures ConnOk(t, k)
    {
      assert ConnOk(s, k);
    }
  }

  lemma OwnsSame(p: Poller<Id>, q: Poller<Id>, gone: set<Id>)
    requires OwnDescriptors(p, gone) && q.fd == p.fd
    ensures OwnDescriptors(q, gone)
  {
  }

  lemma MeetOwns(p: Poller<Id>, gone: set<Id>, k: Id, fd: int)
    requires OwnDescriptors(p, gone) && forall j :: j in p.fd && j !in gone ==> p.fd[j] != fd
    ensures OwnDescriptors(Meet(p, k, fd), gone)
  {
  }

  lemma MeetKeepsInv(p: Poller<Id>, k: Id, fd: int)
    requires Poll.Inv(p) && k !in p.index
    ensures Poll.Inv(Meet(p, k, fd))
  {
    var q := Meet(p, k, fd);
    assert forall f :: f in p.channels ==> RegisteredAt(p, f) && RegisteredAt(q, f);
    assert forall f :: f in p.kernel ==> RegisteredAt(p, f) && RegisteredAt(q, f);
    forall j | j in q.index
      ensures Agrees(q, j)
    {
      if j != k {
        assert Agrees(p, j);
      }
    }
  }

  /**
    * In an orderly event no assertion of connection, channel or poller fails, unless it is a hang-up that is not
    * safe, and the invariant is kept.
    */
  lemma StepKeepsInv(s: System, ev: Event)
    requires Inv(s) && Possible(s, ev) && Orderly(s, ev)
    ensures AssertsHold(s, ev) <==> SafeHangUp(s, ev)
    ensures AssertsHold(s, ev) ==> Inv(Step(s, ev))
  {
    hide Inv, Possible, Orderly;
    match ev
    case Accept(k, fd) => AcceptKeepsInv(s, k, fd);
    case On(k, e) =>
      if e.Destroy? {
        DestroyKeepsInv(s, k);
      } else if SafeHangUp(s, ev) {
        HandlerKeepsInv(s, k, e);
      }
    case Other(call) => OtherKeepsInv(s, call);
  }

  // ----- Every run -----

  predicate Schedule(s: System, es: seq<Event>)
    decreases |es|
  {
    es == [] || (Possible(s, es[0]) && (AssertsHold(s, es[0]) ==> Schedule(Step(s, es[0]), es[1..])))
  }

  /** The state a run ends in, stopping at a failed assertion. */
  function Run(s: System, es: seq<Event>): System
    requires Schedule(s, es)
    decreases |es|
  {
    if es == [] || !AssertsHold(s, es[0]) then s else Run(Step(s, es[0]), es[1..])
  }

  predicate NoAssertFails(s: System, es: seq<Event>)
    requires Schedule(s, es)
    decreases |es|
  {
    es == [] || (AssertsHold(s, es[0]) && NoAssertFails(Step(s, es[0]), es[1..]))
  }

  predicate OrderlyRun(s: System, es: seq<Event>)
    requires Schedule(s, es)
    decreases |es|
  {
    es == [] || (Orderly(s, es[0]) && (AssertsHold(s, es[0]) ==> OrderlyRun(Step(s, es[0]), es[1..])))
  }

  predicate SafeHangUps(s: System, es: seq<Event>)
    requires Schedule(s, es)
    decreases |es|
  {
    es == [] || (SafeHangUp(s, es[0]) && (AssertsHold(s, es[0]) ==> SafeHangUps(Step(s, es[0]), es[1..])))
  }

  lemma {:induction false} RunKeepsInv(s: System, es: seq<Event>)
    requires Inv(s) && Schedule(s, es) && OrderlyRun(s, es)
    ensures Inv(Run(s, es)) && (NoAssertFails(s, es) <==> SafeHangUps(s, es))
    decreases |es|
  {
    hide Inv, Step, AssertsHold, Possible, Orderly, SafeHangUp;
    if es == [] {
    } else {
      StepKeepsInv(s, es[0]);
      if AssertsHold(s, es[0]) {
        RunKeepsInv(Step(s, es[0]), es[1..]);
      }
    }
  }

  /** The kernel watches the channel's descriptor for exactly these events. */
  predicate Watched(p: Poller<Id>, k: Id, mask: Mask) {
    Known(p, k) && p.fd[k] in p.kernel && p.kernel[p.fd[k]] == (mask, k)
  }

  /**
    * Over every run of any number of connections with orderly callers, beside the other channels of the loop: no
    * assertion of connection, channel or poller fails iff every hang-up without input is safe; the kernel watches
    * a connection for exactly what it asks for, in particular for writability while output is queued; and nothing
    * of a destroyed connection is left.
    */
  lemma KernelFollowsConnections(p: Poller<Id>, es: seq<Event>)
    requires Poll.Inv(p) && OwnDescriptors(p, {}) && Schedule(Start(p), es) && OrderlyRun(Start(p), es)
    ensures NoAssertFails(Start(p), es) <==> SafeHangUps(Start(p), es)
    ensures var s := Run(Start(p), es);
            forall k :: k in s.conns ==>
              var c := s.conns[k];
              (MaskOf(c) != NONE ==> Watched(s.poller, k, MaskOf(c))) &&
              (c.state != Tcp.Disconnected && c.output != [] ==> Watched(s.poller, k, Mask(c.reading, true))) &&
              (forall mask :: Watched(s.poller, k, mask) ==> mask == MaskOf(c)) &&
              (k in s.gone ==> k !in s.poller.channels.Values && !Watched(s.poller, k, MaskOf(c)))
  {
    RunKeepsInv(Start(p), es);
    var s := Run(Start(p), es);
    hide Run, Schedule, NoAssertFails, SafeHangUps;
    forall k | k in s.conns
      ensures var c := s.conns[k];
              (MaskOf(c) != NONE ==> Watched(s.poller, k, MaskOf(c))) &&
              (c.state != Tcp.Disconnected && c.output != [] ==> Watched(s.poller, k, Mask(c.reading, true))) &&
              (forall mask :: Watched(s.poller, k, mask) ==> mask == MaskOf(c)) &&
              (k in s.gone ==> k !in s.poller.channels.Values && !Watched(s.poller, k, MaskOf(c)))
    {
      WatchedExactly(s, k);
    }
  }

  lemma WatchedExactly(s: System, k: Id)
    requires Inv(s) && k in s.conns
    ensures var c := s.conns[k];
            (MaskOf(c) != NONE ==> Watched(s.poller, k, MaskOf(c))) &&
            (c.state != Tcp.Disconnected && c.output != [] ==> Watched(s.poller, k, Mask(c.reading, true))) &&
            (forall mask :: Watched(s.poller, k, mask) ==> mask == MaskOf(c)) &&
            (k in s.gone ==> k !in s.poller.channels.Values && !Watched(s.poller, k, MaskOf(c)))
  {
    var p := s.poller;
    assert ConnOk(s, k) && Agrees(p, k);
    assert p.fd[k] in p.kernel ==> RegisteredAt(p, p.fd[k]);
    forall fd | fd in p.channels
      ensures k in s.gone ==> p.channels[fd] != k
    {
      assert RegisteredAt(p, fd);
    }
  }

  /** Stopping a destroyed connection registers its channel again, iff its flag reading_ is still set. */
  lemma StopAfterDestroyExact(s: System, k: Id)
    requires Inv(s) && k in s.gone
    ensures var calls := Calls(k, s.poller.events[k], s.conns[k], Tcp.StopRead);
            if s.conns[k].wantsRead then calls == [Update(k, NONE)] && Poll.Step(s.poller, calls[0]).index[k] == Added
            else calls == []
  {
    assert k in s.conns;
    hide Inv, Poll.Inv, Tcp.Inv, Poll.Step;
    ConnFacts(s, k);
    UpdateEffect(s.poller, k, NONE);
  }

  // ----- Leaving the kernel -----

  /** What a handler other than connectDestroyed does to the poller. */
  lemma HandlerCalls(s: System, k: Id, e: Tcp.Event)
    requires Inv(s) && Possible(s, On(k, e)) && Orderly(s, On(k, e)) && SafeHangUp(s, On(k, e)) && !e.Destroy?
    ensures AssertsHold(s, On(k, e)) && Known(s.poller, k)
    ensures var t, calls := Step(s, On(k, e)), CallsOf(s, k, e);
            k in t.conns && (calls == [] ==> t.poller == s.poller && MaskOf(t.conns[k]) == MaskOf(s.conns[k])) &&
            (calls != [] ==>
              calls == [Update(k, MaskOf(t.conns[k]))] && Disciplined(s.poller, calls[0]) &&
              t.poller == Poll.Step(s.poller, calls[0]))
  {
    hide Inv, Poll.Inv, Poll.Step, Disciplined, Tcp.Step, Tcp.Inv, AssertsHold, Step;
    ConnFacts(s, k);
    StepKeepsInv(s, On(k, e));
    StepOfConn(s, k, e);
    CallsFollowMask(k, s.conns[k], e);
    hide Calls;
    if CallsOf(s, k, e) != [] {
      UpdateDisciplined(s, k, MaskOf(Tcp.Step(s.conns[k], e)));
      RunOne(s.poller, CallsOf(s, k, e)[0]);
    }
  }

  /** A step that leaves a connection asking for nothing, after it asked for something, takes it out of the kernel. */
  lemma EmptyMaskLeavesKernel(s: System, k: Id, e: Tcp.Event)
    requires Inv(s) && Possible(s, On(k, e)) && Orderly(s, On(k, e)) && SafeHangUp(s, On(k, e))
    ensures AssertsHold(s, On(k, e))
    ensures var t := Step(s, On(k, e));
            k in t.conns && (MaskOf(s.conns[k]) != NONE && MaskOf(t.conns[k]) == NONE ==> !InKernel(t.poller, k))
  {
    hide Inv, Poll.Inv, Poll.Step, Disciplined, Tcp.Step, Tcp.Inv, AssertsHold, Step, Calls;
    ConnFacts(s, k);
    WatchedExactly(s, k);
    StepKeepsInv(s, On(k, e));
    StepOfConn(s, k, e);
    if e.Destroy? {
      WatchedExactly(Step(s, On(k, e)), k);
      GoneNotHeld(Step(s, On(k, e)), k);
    } else {
      HandlerCalls(s, k, e);
      if CallsOf(s, k, e) != [] && MaskOf(Step(s, On(k, e)).conns[k]) == NONE {
        UpdateExact(s.poller, k, NONE);
      }
    }
  }

  /** The events that close an open connection. */
  predicate ClosesOpen(c: Tcp.Conn, e: Tcp.Event) {
    Tcp.Up(c) && (e.PeerClosed? || e.RunForceClose? || e.HangUp?)
  }

  /**
    * A close takes the channel out of the kernel iff it was there; a channel that was out, because reading was
    * stopped with nothing to write, is put back without events.
    */
  lemma CloseTogglesKernel(s: System, k: Id, e: Tcp.Event)
    requires Inv(s) && Possible(s, On(k, e)) && SafeHangUp(s, On(k, e)) && ClosesOpen(s.conns[k], e)
    ensures Orderly(s, On(k, e)) && AssertsHold(s, On(k, e))
    ensures var t := Step(s, On(k, e));
            k in t.conns && t.conns[k].state == Tcp.Disconnected && MaskOf(t.conns[k]) == NONE &&
            (InKernel(t.poller, k) <==> !InKernel(s.poller, k)) && k in t.poller.channels.Values
  {
    hide Inv, Poll.Inv, Poll.Step, Disciplined, Tcp.Inv, AssertsHold, Step;
    ConnFacts(s, k);
    StepKeepsInv(s, On(k, e));
    StepOfConn(s, k, e);
    HandlerCalls(s, k, e);
    assert CallsOf(s, k, e) == [Update(k, NONE)];
    UpdateExact(s.poller, k, NONE);
    UpdateEffect(s.poller, k, NONE);
    var t := Step(s, On(k, e));
    assert t.poller.channels[s.poller.fd[k]] == k;
  }

  lemma GoneNotHeld(s: System, k: Id)
    requires Inv(s) && k in s.gone
    ensures !InKernel(s.poller, k)
  {
    ConnFacts(s, k);
    assert Agrees(s.poller, k);
  }

  /** The channel calls of connectDestroyed are disciplined iff connected, or registered and asking for no events. */
  lemma DestroyCallsExact(s: System, k: Id)
    requires Inv(s) && k in s.conns && k !in s.gone
    ensures var c := s.conns[k];
            DisciplinedRun(s.poller, Calls(k, s.poller.events[k], c, Tcp.Destroy)) <==>
            c.state == Tcp.Connected || (MaskOf(c) == NONE && s.poller.index[k] != New)
  {
    ConnFacts(s, k);
    DestroyList(k, s.poller.events[k], s.conns[k]);
    hide Inv, Calls, Tcp.Inv;
    if s.conns[k].state == Tcp.Connected {
      UpdateDisciplined(s, k, NONE);
      DisableThenRemove(s.poller, k);
    } else if Disciplined(s.poller, Remove(k)) {
      JustRemove(s.poller, k);
    }
  }

  /**
    * Stopping a closed connection puts its channel back into the kernel, without events, iff reading_ is still
    * set; a hang-up is then possible, and every hang-up fails the assertion of handleClose.
    */
  lemma LateStopExposesHangUp(s: System, k: Id, endOfStream: bool)
    requires Inv(s) && k in s.conns && k !in s.gone && s.conns[k].state == Tcp.Disconnected
    requires s.poller.index[k] == Deleted
    ensures Possible(s, On(k, Tcp.StopRead)) && Orderly(s, On(k, Tcp.StopRead)) && AssertsHold(s, On(k, Tcp.StopRead))
    ensures var t, e := Step(s, On(k, Tcp.StopRead)), On(k, Tcp.HangUp(endOfStream));
            (Possible(t, e) <==> s.conns[k].wantsRead) && (Watched(t.poller, k, NONE) <==> s.conns[k].wantsRead) &&
            (Possible(t, e) ==> !AssertsHold(t, e))
  {
    hide Inv, Poll.Inv, Poll.Step, Step, Tcp.Inv, Calls, Orderly, DisciplinedRun, Poll.NoAssertFails;
    ConnFacts(s, k);
    LateStop(s, k);
    DeletedAddedBack(s.poller, k);
  }

  /** What stopRead does to a closed connection that is not yet destroyed. */
  lemma LateStop(s: System, k: Id)
    requires Inv(s) && k in s.conns && k !in s.gone && s.conns[k].state == Tcp.Disconnected
    ensures var e := On(k, Tcp.StopRead);
            Possible(s, e) && Orderly(s, e) && AssertsHold(s, e) &&
            Step(s, e).conns == s.conns[k := Tcp.Step(s.conns[k], Tcp.StopRead)] &&
            Step(s, e).poller == if s.conns[k].wantsRead then Poll.Step(s.poller, Update(k, NONE)) else s.poller
  {
    var c, p := s.conns[k], s.poller;
    hide Inv, Poll.Inv, Poll.Step, Tcp.Inv, Tcp.Step, AssertsHold, Step;
    ConnFacts(s, k);
    StepKeepsInv(s, On(k, Tcp.StopRead));
    StepOfConn(s, k, Tcp.StopRead);
    assert CallsOf(s, k, Tcp.StopRead) == if c.wantsRead then [Update(k, NONE)] else [];
    hide Calls, ConnOk;
    if c.wantsRead {
      UpdateDisciplined(s, k, NONE);
      RunOne(p, Update(k, NONE));
    }
  }

  lemma DeletedAddedBack(p: Poller<Id>, k: Id)
    requires Known(p, k) && p.index[k] == Deleted
    ensures var q := Poll.Step(p, Update(k, NONE));
            InKernel(q, k) && Watched(q, k, NONE)
    ensures Poll.Inv(p) ==> !InKernel(p, k)
  {
    assert Poll.Inv(p) ==> Agrees(p, k);
  }

  // ----- The callbacks of one event, run on a connection -----

  /** Whether the next read sees the end of the stream, and what the next write achieves. */
  datatype Socket = Socket(endOfStream: bool, write: Tcp.WriteResult)

  /** handleClose asserts that the connection is open; handleRead calls it at the end of the stream. */
  predicate CallbackAsserts(c: Tcp.Conn, cb: Callback, io: Socket) {
    cb.CloseCallback? || (cb.ReadCallback? && io.endOfStream) ==> Tcp.Up(c)
  }

  /** A write takes no more than there is. */
  function RunCallback(c: Tcp.Conn, cb: Callback, io: Socket): Tcp.Conn {
    match cb
    case CloseCallback => Tcp.CloseStep(c)
    case ErrorCallback => c
    case ReadCallback => if io.endOfStream then Tcp.CloseStep(c) else c
    case WriteCallback => if Tcp.WriteOk(io.write, |c.output|) then Tcp.WritableStep(c, io.write) else c
  }

  predicate DispatchAsserts(c: Tcp.Conn, cbs: seq<Callback>, io: Socket)
    decreases |cbs|
  {
    cbs == [] || (CallbackAsserts(c, cbs[0], io) && DispatchAsserts(RunCallback(c, cbs[0], io), cbs[1..], io))
  }

  lemma DispatchOne(c: Tcp.Conn, called: bool, cb: Callback, rest: seq<Callback>, io: Socket)
    ensures DispatchAsserts(c, (if called then [cb] else []) + rest, io) <==>
            if called then CallbackAsserts(c, cb, io) && DispatchAsserts(RunCallback(c, cb, io), rest, io)
            else DispatchAsserts(c, rest, io)
  {
    if called {
      assert ([cb] + rest)[1..] == rest;
    } else {
      assert [] + rest == rest;
    }
  }

  /** The read and write callbacks, the last two of an event. */
  lemma DispatchReadWrite(c: Tcp.Conn, readable: bool, writable: bool, io: Socket)
    ensures var write := if writable then [WriteCallback] else [];
            DispatchAsserts(c, (if readable then [ReadCallback] else []) + write, io) <==>
            (readable && io.endOfStream ==> Tcp.Up(c))
  {
    hide Tcp.WritableStep;
    var write := if writable then [WriteCallback] else [];
    DispatchOne(c, readable, ReadCallback, write, io);
    assert forall d: Tcp.Conn :: DispatchAsserts(d, write, io);
  }

  /**
    * For every event on every connection, handleClose's assertion holds in all callbacks iff an event that
    * closes finds the connection open, and does not both hang up without input and read the end of the stream.
    */
  lemma DispatchAssertsExact(c: Tcp.Conn, r: Revents, io: Socket)
    ensures var hangUp, ends := r.epollHup && !r.epollIn, io.endOfStream && (r.epollIn || r.epollPri || r.epollHup);
            DispatchAsserts(c, Dispatch(r), io) <==> (hangUp || ends ==> Tcp.Up(c)) && !(hangUp && ends)
  {
    var hangUp, readable := r.epollHup && !r.epollIn, r.epollIn || r.epollPri || r.epollHup;
    var last := (if readable then [ReadCallback] else []) + (if r.epollOut then [WriteCallback] else []);
    var middle := (if r.epollErr then [ErrorCallback] else []) + last;
    assert Dispatch(r) == (if hangUp then [CloseCallback] else []) + middle;
    var d := if hangUp then Tcp.CloseStep(c) else c;
    hide DispatchAsserts, Dispatch;
    DispatchOne(c, hangUp, CloseCallback, middle, io);
    DispatchOne(d, r.epollErr, ErrorCallback, last, io);
    DispatchReadWrite(d, readable, r.epollOut, io);
  }

  // ----- One polled event as events of the run -----

  /** What the kernel can report for a mask: input and output only when asked for, errors and hang-ups always. */
  predicate Reported(m: Mask, r: Revents) {
    (r.epollIn || r.epollPri ==> m.reading) && (r.epollOut ==> m.writing)
  }

  function RunCallbacks(c: Tcp.Conn, cbs: seq<Callback>, io: Socket): Tcp.Conn
    decreases |cbs|
  {
    if cbs == [] then c else RunCallbacks(RunCallback(c, cbs[0], io), cbs[1..], io)
  }

  predicate Closes(r: Revents, io: Socket) {
    (r.epollHup && !r.epollIn) || (io.endOfStream && (r.epollIn || r.epollPri || r.epollHup))
  }

  /** The event of the run that closes the connection, if the polled event does. */
  function ClosingEvent(r: Revents, io: Socket): Tcp.Event {
    if r.epollHup && !r.epollIn then Tcp.HangUp(io.endOfStream) else Tcp.PeerClosed
  }

  /** The polled event as events of the run. */
  function DispatchEvents(k: Id, r: Revents, io: Socket): seq<Event> {
    (if Closes(r, io) then [On(k, ClosingEvent(r, io))] else []) +
    (if r.epollOut then [On(k, Tcp.Writable(io.write))] else [])
  }

  lemma CallbacksOne(c: Tcp.Conn, called: bool, cb: Callback, rest: seq<Callback>, io: Socket)
    ensures RunCallbacks(c, (if called then [cb] else []) + rest, io) ==
            RunCallbacks(if called then RunCallback(c, cb, io) else c, rest, io)
  {
    if called {
      assert ([cb] + rest)[1..] == rest;
    } else {
      assert [] + rest == rest;
    }
  }

  /** The callbacks close once or not at all, whichever callback does it, and then write. */
  lemma CallbacksClose(c: Tcp.Conn, r: Revents, io: Socket)
    requires Tcp.WriteOk(io.write, |c.output|)
    ensures var d := if Closes(r, io) then Tcp.CloseStep(c) else c;
            RunCallbacks(c, Dispatch(r), io) == if r.epollOut then Tcp.WritableStep(d, io.write) else d
  {
    hide Tcp.WritableStep;
    var hangUp, readable := r.epollHup && !r.epollIn, r.epollIn || r.epollPri || r.epollHup;
    var write := (if r.epollOut then [WriteCallback] else []) + [];
    var last := (if readable then [ReadCallback] else []) + write;
    var middle := (if r.epollErr then [ErrorCallback] else []) + last;
    assert Dispatch(r) == (if hangUp then [CloseCallback] else []) + middle;
    var d := if hangUp then Tcp.CloseStep(c) else c;
    var u := if readable && io.endOfStream then Tcp.CloseStep(d) else d;
    assert RunCallbacks(if r.epollOut then RunCallback(u, WriteCallback, io) else u, [], io) ==
           if r.epollOut then RunCallback(u, WriteCallback, io) else u;
    hide RunCallbacks, Dispatch;
    CallbacksOne(c, hangUp, CloseCallback, middle, io);
    CallbacksOne(d, r.epollErr, ErrorCallback, last, io);
    CallbacksOne(d, readable, ReadCallback, write, io);
    CallbacksOne(u, r.epollOut, WriteCallback, [], io);
  }

  /** A schedule of one orderly event. */
  lemma ScheduleOne(s: System, ev: Event, rest: seq<Event>)
    requires Inv(s) && Possible(s, ev) && Orderly(s, ev)
    requires AssertsHold(s, ev) ==> Schedule(Step(s, ev), rest) && OrderlyRun(Step(s, ev), rest)
    ensures Schedule(s, [ev] + rest) && OrderlyRun(s, [ev] + rest)
    ensures NoAssertFails(s, [ev] + rest) <==> AssertsHold(s, ev) && NoAssertFails(Step(s, ev), rest)
    ensures AssertsHold(s, ev) ==> Run(s, [ev] + rest) == Run(Step(s, ev), rest)
  {
    hide Inv, Possible, Orderly, AssertsHold, Step;
    assert ([ev] + rest)[1..] == rest;
  }

  /** The write callback is possible at any time and never fails. */
  lemma ScheduleWrite(s: System, k: Id, r: Revents, io: Socket)
    requires Inv(s) && k in s.conns && Tcp.WriteOk(io.write, |s.conns[k].output|)
    ensures var es := if r.epollOut then [On(k, Tcp.Writable(io.write))] else [];
            Schedule(s, es) && OrderlyRun(s, es) && NoAssertFails(s, es) && k in Run(s, es).conns &&
            Run(s, es).conns[k] == if r.epollOut then Tcp.WritableStep(s.conns[k], io.write) else s.conns[k]
  {
    hide Inv, Poll.Inv, Tcp.Inv, Tcp.WritableStep, Calls, Step, AssertsHold;
    ConnFacts(s, k);
    if r.epollOut {
      var ev := On(k, Tcp.Writable(io.write));
      assert Possible(s, ev) && Orderly(s, ev) && SafeHangUp(s, ev);
      StepKeepsInv(s, ev);
      StepOfConn(s, k, ev.e);
      ScheduleOne(s, ev, []);
      assert [ev] + [] == [ev];
    }
  }

  /**
    * Whatever the kernel reports for a watched connection is a schedule of the model, its callbacks keep their
    * assertions iff that schedule does, and then they leave the connection as it does.
    */
  lemma DispatchIsSchedule(s: System, k: Id, m: Mask, r: Revents, io: Socket)
    requires Inv(s) && k in s.conns && Watched(s.poller, k, m) && Reported(m, r)
    requires Tcp.WriteOk(io.write, |s.conns[k].output|)
    ensures var es, c := DispatchEvents(k, r, io), s.conns[k];
            Schedule(s, es) && OrderlyRun(s, es) &&
            (NoAssertFails(s, es) <==> DispatchAsserts(c, Dispatch(r), io)) &&
            (NoAssertFails(s, es) ==> k in Run(s, es).conns && Run(s, es).conns[k] == RunCallbacks(c, Dispatch(r), io))
  {
    var c := s.conns[k];
    DispatchAssertsExact(c, r, io);
    CallbacksClose(c, r, io);
    WatchedExactly(s, k);
    ConnFacts(s, k);
    var write := if r.epollOut then [On(k, Tcp.Writable(io.write))] else [];
    if Closes(r, io) {
      var ev := On(k, ClosingEvent(r, io));
      ClosingEventExact(s, k, m, r, io);
      hide Inv, Orderly, Dispatch, DispatchAsserts, RunCallbacks, Tcp.WritableStep, Tcp.Inv, Calls, Possible;
      if AssertsHold(s, ev) {
        ScheduleWrite(Step(s, ev), k, r, io);
      }
      ScheduleOne(s, ev, write);
    } else {
      hide Inv, Dispatch, DispatchAsserts, RunCallbacks, Tcp.WritableStep, Tcp.Inv, Calls, Possible;
      ScheduleWrite(s, k, r, io);
      assert [] + write == write;
    }
  }

  /** The closing event of a watched connection is possible and orderly; when it may close, it does. */
  lemma ClosingEventExact(s: System, k: Id, m: Mask, r: Revents, io: Socket)
    requires Inv(s) && k in s.conns && Watched(s.poller, k, m) && Reported(m, r) && Closes(r, io)
    ensures var ev := On(k, ClosingEvent(r, io));
            Possible(s, ev) && Orderly(s, ev) &&
            (AssertsHold(s, ev) <==> Tcp.Up(s.conns[k]) && !(r.epollHup && !r.epollIn && io.endOfStream)) &&
            (AssertsHold(s, ev) ==>
              Inv(Step(s, ev)) && k in Step(s, ev).conns && Step(s, ev).conns[k] == Tcp.CloseStep(s.conns[k]))
  {
    hide Inv, Poll.Inv, Tcp.Inv, Calls, AssertsHold, Step;
    WatchedExactly(s, k);
    ConnFacts(s, k);
    var e := ClosingEvent(r, io);
    StepKeepsInv(s, On(k, e));
    if AssertsHold(s, On(k, e)) {
      StepOfConn(s, k, e);
    }
  }

  lemma StepOfConn(s: System, k: Id, e: Tcp.Event)
    requires Possible(s, On(k, e)) && AssertsHold(s, On(k, e))
    ensures Step(s, On(k, e)).conns == s.conns[k := Tcp.Step(s.conns[k], e)]
    ensures Step(s, On(k, e)).gone == if e.Destroy? then s.gone + {k} else s.gone
    ensures DisciplinedRun(s.poller, CallsOf(s, k, e)) && Step(s, On(k, e)).poller == Poll.Run(s.poller, CallsOf(s, k, e))
  {
  }

  // ----- Two runs: a close that leaves the kernel, and one that does not -----

  /** The loop has just established a connection, beside whatever channels it had. */
  predicate Fresh(p: Poller<Id>, k: Id, fd: int) {
    Poll.Inv(p) && OwnDescriptors(p, {}) && k !in p.index && k !in p.fd && forall j :: j in p.fd ==> p.fd[j] != fd
  }

  function Accepted(p: Poller<Id>, k: Id, fd: int): System {
    System(map[k := Tcp.NEW_CONN], {}, Meet(p, k, fd))
  }

  lemma AcceptedFacts(p: Poller<Id>, k: Id, fd: int)
    requires Fresh(p, k, fd)
    ensures var s, ev := Start(p), Accept(k, fd);
            Possible(s, ev) && Orderly(s, ev) && AssertsHold(s, ev) && Step(s, ev) == Accepted(p, k, fd) &&
            Inv(s) && Inv(Step(s, ev))
  {
    hide Poll.Inv;
    assert Inv(Start(p));
    assert map[][k := Tcp.NEW_CONN] == map[k := Tcp.NEW_CONN];
    StepKeepsInv(Start(p), Accept(k, fd));
  }

  lemma EstablishedFacts(p: Poller<Id>, k: Id, fd: int)
    requires Fresh(p, k, fd)
    ensures var s, ev := Accepted(p, k, fd), On(k, Tcp.Establish);
            Inv(s) && Possible(s, ev) && Orderly(s, ev) && SafeHangUp(s, ev) && AssertsHold(s, ev) &&
            var t := Step(s, ev);
            Inv(t) && k in t.conns && k !in t.gone && t.conns[k] == Tcp.Step(Tcp.NEW_CONN, Tcp.Establish) &&
            InKernel(t.poller, k)
  {
    hide Inv, AssertsHold, Step, Poll.Inv, OwnDescriptors;
    var s := Accepted(p, k, fd);
    AcceptedFacts(p, k, fd);
    StepKeepsInv(s, On(k, Tcp.Establish));
    StepOfConn(s, k, Tcp.Establish);
    WatchedExactly(Step(s, On(k, Tcp.Establish)), k);
  }

  /** The peer closes a connection that reads: its channel is out of the kernel, and in the map as kDeleted. */
  lemma DeletedIsReached(p: Poller<Id>, k: Id, fd: int)
    requires Fresh(p, k, fd)
    ensures var es := [Accept(k, fd)] + ([On(k, Tcp.Establish)] + ([On(k, Tcp.PeerClosed)] + []));
            Schedule(Start(p), es) && OrderlyRun(Start(p), es) &&
            var s := Run(Start(p), es);
            Inv(s) && k in s.conns && k !in s.gone && s.conns[k].state == Tcp.Disconnected && s.conns[k].wantsRead &&
            s.poller.index[k] == Deleted && !InKernel(s.poller, k)
  {
    hide Inv, AssertsHold, Step, Poll.Inv, OwnDescriptors, Possible, Orderly, Schedule, OrderlyRun, Run;
    var s1, e2, e3 := Accepted(p, k, fd), On(k, Tcp.Establish), On(k, Tcp.PeerClosed);
    AcceptedFacts(p, k, fd);
    EstablishedFacts(p, k, fd);
    var s2 := Step(s1, e2);
    PossibleWhileUp(s2, k, Tcp.PeerClosed);
    CloseTogglesKernel(s2, k, Tcp.PeerClosed);
    StepKeepsInv(s2, e3);
    StepOfConn(s2, k, Tcp.PeerClosed);
    var s3 := Step(s2, e3);
    ClosedIsDeleted(s3, k);
    NothingMore(s3);
    ScheduleOne(s2, e3, []);
    ScheduleOne(s1, e2, [e3] + []);
    ScheduleOne(Start(p), Accept(k, fd), [e2] + ([e3] + []));
  }

  /** What an open connection can do at any time. */
  lemma PossibleWhileUp(s: System, k: Id, e: Tcp.Event)
    requires Inv(s) && k in s.conns && k !in s.gone && Tcp.Up(s.conns[k])
    requires e.StopRead? || e.RunForceClose? || (e.PeerClosed? && s.conns[k].reading)
    ensures Possible(s, On(k, e)) && Orderly(s, On(k, e)) && SafeHangUp(s, On(k, e))
  {
    ConnFacts(s, k);
    hide Inv, Poll.Inv;
  }

  lemma ClosedIsDeleted(s: System, k: Id)
    requires Inv(s) && k in s.conns && k !in s.gone && s.conns[k].state == Tcp.Disconnected && !InKernel(s.poller, k)
    ensures Known(s.poller, k) && s.poller.index[k] == Deleted
  {
    ConnFacts(s, k);
    assert Agrees(s.poller, k);
  }

  lemma NothingMore(s: System)
    ensures Schedule(s, []) && OrderlyRun(s, []) && Run(s, []) == s
  {
  }

  /**
    * Reading is stopped with nothing to write, then the connection is closed by force: the kernel holds its
    * channel again, and the next hang-up fails the assertion of handleClose.
    */
  lemma StoppedCloseIsHeld(p: Poller<Id>, k: Id, fd: int, endOfStream: bool)
    requires Fresh(p, k, fd)
    ensures var es := [Accept(k, fd)] + ([On(k, Tcp.Establish)] + ([On(k, Tcp.StopRead)] + ([On(k, Tcp.RunForceClose)] + [])));
            Schedule(Start(p), es) && OrderlyRun(Start(p), es) &&
            var s, hangUp := Run(Start(p), es), On(k, Tcp.HangUp(endOfStream));
            k in s.conns && s.conns[k].state == Tcp.Disconnected && InKernel(s.poller, k) &&
            Possible(s, hangUp) && !AssertsHold(s, hangUp)
  {
    hide Inv, Step, Poll.Inv, OwnDescriptors, Orderly, Schedule, OrderlyRun, Run, DisciplinedRun, Poll.NoAssertFails, Calls;
    var s1, e2, e3, e4 := Accepted(p, k, fd), On(k, Tcp.Establish), On(k, Tcp.StopRead), On(k, Tcp.RunForceClose);
    AcceptedFacts(p, k, fd);
    EstablishedFacts(p, k, fd);
    var s2 := Step(s1, e2);
    PossibleWhileUp(s2, k, Tcp.StopRead);
    StepKeepsInv(s2, e3);
    StepOfConn(s2, k, Tcp.StopRead);
    EmptyMaskLeavesKernel(s2, k, Tcp.StopRead);
    var s3 := Step(s2, e3);
    PossibleWhileUp(s3, k, Tcp.RunForceClose);
    CloseTogglesKernel(s3, k, Tcp.RunForceClose);
    var s4 := Step(s3, e4);
    NothingMore(s4);
    ScheduleOne(s3, e4, []);
    ScheduleOne(s2, e3, [e4] + []);
    ScheduleOne(s1, e2, [e3] + ([e4] + []));
    ScheduleOne(Start(p), Accept(k, fd), [e2] + ([e3] + ([e4] + [])));
  }
}
