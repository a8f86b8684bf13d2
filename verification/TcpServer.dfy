/** Life cycle of the connections of a server across its base loop and its I/O loops. */
module TcpServerModule {
  import Tcp = TcpConnectionModule

  type Id = nat

  /** Functors that cross loops. */
  datatype Task = EstablishTask(id: Id) | ForceCloseTask(id: Id) | RemoveTask(id: Id) | DestroyTask(id: Id)

  /** A connection: its loop, the connection itself, and how often each life event happened. */
  datatype Peer = Peer(loop: nat, conn: Tcp.Conn, established: nat, removed: nat, destroyed: nat)

  /** `connections` is the server's map, `queues` the functor queue of each loop; loop 0 is the base loop. */
  datatype Server = Server(nextConnId: Id, connections: set<Id>, peers: map<Id, Peer>, queues: seq<seq<Task>>)

  function Start(loops: nat): Server {
    Server(1, {}, map[], seq(loops, i => []))
  }

  predicate IsUp(p: Peer) {
    Tcp.Up(p.conn)
  }

  // ----- Operations -----

  function Enqueue(s: Server, l: nat, t: Task): Server {
    if l < |s.queues| then s.(queues := s.queues[l := s.queues[l] + [t]]) else s
  }

  function SetPeer(s: Server, id: Id, p: Peer): Server {
    s.(peers := s.peers[id := p])
  }

  /** TcpConnection::connectEstablished. */
  function Establish(s: Server, id: Id): Server
    requires id in s.peers && s.peers[id].conn.state == Tcp.Connecting
  {
    var p := s.peers[id];
    SetPeer(s, id, p.(conn := Tcp.Step(p.conn, Tcp.Establish), established := p.established + 1))
  }

  /** TcpServer::removeConnectionInLoop: out of the map, then the connection's loop gets connectDestroyed. */
  function RemoveInLoop(s: Server, id: Id): Server
    requires id in s.peers
  {
    var p := s.peers[id];
    Enqueue(SetPeer(s.(connections := s.connections - {id}), id, p.(removed := p.removed + 1)),
            p.loop, DestroyTask(id))
  }

  /** TcpConnection::handleClose with TcpServer::removeConnection as its close callback. */
  function Close(s: Server, id: Id): Server
    requires id in s.peers
  {
    var p := s.peers[id];
    var t := SetPeer(s, id, p.(conn := Tcp.CloseStep(p.conn)));
    if p.loop == 0 then RemoveInLoop(t, id) else Enqueue(t, 0, RemoveTask(id))
  }

  /** TcpConnection::connectDestroyed. */
  function Destroy(s: Server, id: Id): Server
    requires id in s.peers && Tcp.Possible(s.peers[id].conn, Tcp.Destroy)
  {
    var p := s.peers[id];
    SetPeer(s, id, p.(conn := Tcp.Step(p.conn, Tcp.Destroy), destroyed := p.destroyed + 1))
  }

  /** The assertion of handleClose, and, when it removes at once, that the map holds the connection. */
  predicate CloseAsserts(s: Server, id: Id) {
    id in s.peers && IsUp(s.peers[id]) && (s.peers[id].loop == 0 ==> id in s.connections)
  }

  predicate TaskAsserts(s: Server, t: Task) {
    t.id in s.peers &&
    match t
    case EstablishTask(id) => s.peers[id].conn.state == Tcp.Connecting
    case ForceCloseTask(id) => IsUp(s.peers[id]) ==> CloseAsserts(s, id)
    case RemoveTask(id) => id in s.connections
    // the channel wants no events and is still registered
    case DestroyTask(id) =>
      s.peers[id].conn.state == Tcp.Disconnected && Tcp.AssertsHold(s.peers[id].conn, Tcp.Destroy) &&
      s.peers[id].established == 1 && s.peers[id].destroyed == 0
  }

  function RunTask(s: Server, t: Task): Server
    requires TaskAsserts(s, t)
  {
    match t
    case EstablishTask(id) => Establish(s, id)
    case ForceCloseTask(id) => if IsUp(s.peers[id]) then Close(s, id) else s
    case RemoveTask(id) => RemoveInLoop(s, id)
    case DestroyTask(id) => Destroy(s, id)
  }

  function Dequeue(s: Server, l: nat): Server
    requires l < |s.queues| && s.queues[l] != []
  {
    s.(queues := s.queues[l := s.queues[l][1..]])
  }

  function Accept(s: Server, loop: nat): Server {
    var id := s.nextConnId;
    var t := SetPeer(s.(nextConnId := id + 1, connections := s.connections + {id}), id,
                     Peer(loop, Tcp.NEW_CONN, 0, 0, 0));
    if loop == 0 then Establish(t, id) else Enqueue(t, loop, EstablishTask(id))
  }

  /**
    * `PeerClosed` is the end of the stream, or a hang-up of an open connection; `InLoop` is any event of one
    * connection that concerns no other part of the server.
    */
  datatype Event =
    | NewConnection(loop: nat)
    | RunNext(loop: nat)
    | PeerClosed(id: Id)
    | CallForceClose(id: Id)
    | InLoop(id: Id, e: Tcp.Event)

  predicate IsLocal(e: Tcp.Event) {
    e.Send? || e.Writable? || e.CallShutdown? || e.RunShutdown? || e.StartRead? || e.StopRead?
  }

  /** What a connection can do in its loop; reading is restarted only while the connection is open. */
  predicate LocalPossible(c: Tcp.Conn, e: Tcp.Event) {
    IsLocal(e) && Tcp.Possible(c, e) && (e.StartRead? ==> Tcp.Up(c))
  }

  predicate Possible(s: Server, e: Event) {
    match e
    case NewConnection(l) => l < |s.queues|
    case RunNext(l) => l < |s.queues| && s.queues[l] != []
    case PeerClosed(id) => id in s.peers && (s.peers[id].conn.reading || IsUp(s.peers[id]))
    case CallForceClose(id) => id in s.peers
    case InLoop(id, e) => id in s.peers && LocalPossible(s.peers[id].conn, e)
  }

  predicate AssertsHold(s: Server, e: Event)
    requires Possible(s, e)
  {
    match e
    case NewConnection(l) => s.nextConnId !in s.connections
    case RunNext(l) => TaskAsserts(s, s.queues[l][0])
    case PeerClosed(id) => CloseAsserts(s, id)
    case _ => true
  }

  function Step(s: Server, e: Event): Server
    requires Possible(s, e) && AssertsHold(s, e)
  {
    match e
    case NewConnection(l) => Accept(s, l)
    case RunNext(l) => RunTask(Dequeue(s, l), s.queues[l][0])
    case PeerClosed(id) => Close(s, id)
    case CallForceClose(id) =>
      if IsUp(s.peers[id]) then
        Enqueue(SetPeer(s, id, s.peers[id].(conn := Tcp.Step(s.peers[id].conn, Tcp.CallForceClose))),
                s.peers[id].loop, ForceCloseTask(id))
      else s
    case InLoop(id, e) => SetPeer(s, id, s.peers[id].(conn := Tcp.Step(s.peers[id].conn, e)))
  }

  // ----- The invariant -----

  /** How often a task must be queued on a loop, given how far its connection has come. */
  function ExpectedOf(p: Peer, l: nat, t: Task): nat {
    match t
    case EstablishTask(_) => if l == p.loop && p.conn.state == Tcp.Connecting then 1 else 0
    case RemoveTask(_) => if l == 0 && p.conn.state == Tcp.Disconnected && p.removed == 0 then 1 else 0
    case DestroyTask(_) => if l == p.loop && p.removed == 1 && p.destroyed == 0 then 1 else 0
    case ForceCloseTask(_) => 0
  }

  function Expected(s: Server, l: nat, t: Task): nat {
    if t.id !in s.peers then 0 else ExpectedOf(s.peers[t.id], l, t)
  }

  /** Established once, then removed at most once, then destroyed at most once; its bytes are conserved. */
  predicate LifeOk(p: Peer) {
    p.established == (if p.conn.state == Tcp.Connecting then 0 else 1) &&
    p.removed <= 1 && p.destroyed <= p.removed &&
    (p.removed == 1 ==> p.conn.state == Tcp.Disconnected) &&
    (p.conn.reading ==> IsUp(p)) && Tcp.Inv(p.conn)
  }

  predicate PeersOk(s: Server) {
    forall id :: id in s.peers ==>
      id < s.nextConnId && s.peers[id].loop < |s.queues| && LifeOk(s.peers[id]) &&
      (id in s.connections <==> s.peers[id].removed == 0)
  }

  /** The queue of a loop holds a task exactly as often as expected; a forced close may be queued any number of times. */
  predicate TaskOk(s: Server, l: nat, t: Task) {
    l < |s.queues| ==>
      if t.ForceCloseTask? then t in s.queues[l] ==> t.id in s.peers && s.peers[t.id].conn.state != Tcp.Connecting
      else multiset(s.queues[l])[t] == Expected(s, l, t)
  }

  ghost predicate QueuesOk(s: Server) {
    forall l: nat, t: Task :: TaskOk(s, l, t)
  }

  ghost predicate Inv(s: Server) {
    |s.queues| > 0 && PeersOk(s) && QueuesOk(s) && s.connections <= s.peers.Keys
  }

  lemma EnqueueCount(s: Server, l: nat, t: Task, l': nat, t': Task)
    requires l < |s.queues| && l' < |s.queues|
    ensures var q := Enqueue(s, l, t).queues[l'];
            multiset(q)[t'] == multiset(s.queues[l'])[t'] + (if l == l' && t == t' then 1 else 0) &&
            (t' in q <==> t' in s.queues[l'] || (l == l' && t == t'))
  {
  }

  lemma EnqueueLength(s: Server, l: nat, t: Task)
    ensures |Enqueue(s, l, t).queues| == |s.queues|
  {
  }

  lemma DequeueCount(s: Server, l: nat, l': nat, t': Task)
    requires l < |s.queues| && s.queues[l] != [] && l' < |s.queues|
    ensures var q := Dequeue(s, l).queues[l'];
            multiset(q)[t'] == multiset(s.queues[l'])[t'] - (if l == l' && t' == s.queues[l][0] then 1 else 0) &&
            (t' in q ==> t' in s.queues[l'])
  {
    assert s.queues[l] == [s.queues[l][0]] + s.queues[l][1..];
  }

  /** A task at the head of a queue is expected there. */
  lemma HeadExpected(s: Server, l: nat)
    requires Inv(s) && l < |s.queues| && s.queues[l] != []
    ensures var t := s.queues[l][0];
            t.id in s.peers &&
            (if t.ForceCloseTask? then s.peers[t.id].conn.state != Tcp.Connecting else Expected(s, l, t) == 1)
  {
    var t := s.queues[l][0];
    assert TaskOk(s, l, t);
    assert t in s.queues[l];
    assert multiset(s.queues[l])[t] > 0;
  }

  /** In every state that keeps the invariant the source's assertions hold. */
  lemma AssertsAlwaysHold(s: Server, e: Event)
    requires Inv(s) && Possible(s, e)
    ensures AssertsHold(s, e)
  {
    if e.RunNext? {
      HeadExpected(s, e.loop);
    }
  }

  lemma AcceptKeepsInv(s: Server, loop: nat)
    requires Inv(s) && loop < |s.queues|
    ensures Inv(Accept(s, loop))
  {
    var r := Accept(s, loop);
    forall l: nat, t: Task
      ensures TaskOk(r, l, t)
    {
      assert TaskOk(s, l, t);
      if l < |s.queues| {
        EnqueueCount(s, loop, EstablishTask(s.nextConnId), l, t);
      }
    }
  }

  /** The task with which a close hands the connection on. */
  function NextTask(p: Peer, id: Id): Task {
    if p.loop == 0 then DestroyTask(id) else RemoveTask(id)
  }

  lemma CloseEffect(s: Server, id: Id)
    requires id in s.peers
    ensures var p, r := s.peers[id], Close(s, id);
            r.queues == Enqueue(s, 0, NextTask(p, id)).queues && |r.queues| == |s.queues| &&
            r.peers == s.peers[id := p.(conn := Tcp.CloseStep(p.conn),
                                        removed := p.removed + if p.loop == 0 then 1 else 0)]
  {
  }

  lemma CloseExpected(p: Peer, q: Peer, l: nat, t: Task)
    requires LifeOk(p) && IsUp(p)
    requires q == p.(conn := Tcp.CloseStep(p.conn), removed := p.removed + if p.loop == 0 then 1 else 0)
    ensures ExpectedOf(q, l, t) == ExpectedOf(p, l, t) + (if l == 0 && t == NextTask(p, t.id) then 1 else 0)
  {
    hide Tcp.Inv;
  }

  lemma CloseTaskOk(s: Server, id: Id, l: nat, t: Task)
    requires id in s.peers && IsUp(s.peers[id]) && LifeOk(s.peers[id])
    requires s.peers[id].loop < |s.queues| && TaskOk(s, l, t)
    ensures TaskOk(Close(s, id), l, t)
  {
    hide Close, Enqueue, LifeOk, ExpectedOf;
    var r := Close(s, id);
    CloseEffect(s, id);
    if l < |s.queues| {
      EnqueueCount(s, 0, NextTask(s.peers[id], id), l, t);
      if t.id == id {
        CloseExpected(s.peers[id], r.peers[id], l, t);
      }
    }
  }

  lemma CloseKeepsInv(s: Server, id: Id)
    requires Inv(s) && id in s.peers && IsUp(s.peers[id])
    ensures Inv(Close(s, id))
  {
    var r := Close(s, id);
    assert QueuesOk(r) by {
      hide Close, Expected, LifeOk, TaskOk, IsUp;
      forall l: nat, t: Task
        ensures TaskOk(r, l, t)
      {
        assert TaskOk(s, l, t);
        CloseTaskOk(s, id, l, t);
      }
    }
    assert |r.queues| > 0 && PeersOk(r) && r.connections <= r.peers.Keys by {
      hide TaskOk;
    }
  }

  /** What running a task other than a forced close does to its connection. */
  predicate TaskEffect(p: Peer, q: Peer, t: Task) {
    q.loop == p.loop &&
    q.conn.state == (if t.EstablishTask? then Tcp.Connected else p.conn.state) &&
    q.established == p.established + (if t.EstablishTask? then 1 else 0) &&
    q.removed == p.removed + (if t.RemoveTask? then 1 else 0) &&
    q.destroyed == p.destroyed + (if t.DestroyTask? then 1 else 0)
  }

  lemma RunTaskEffect(s: Server, t: Task)
    requires TaskAsserts(s, t) && !t.ForceCloseTask?
    ensures var r := RunTask(s, t);
            r.peers == s.peers[t.id := r.peers[t.id]] && TaskEffect(s.peers[t.id], r.peers[t.id], t) &&
            r.queues == (if t.RemoveTask? then Enqueue(s, s.peers[t.id].loop, DestroyTask(t.id)).queues else s.queues)
  {
    hide Tcp.Inv;
  }

  /** The expectation changes by the task taken off its queue, and by the destruction that a removal queues. */
  lemma EffectExpected(p: Peer, q: Peer, h: Task, l: nat, l': nat, t: Task)
    requires LifeOk(p) && TaskEffect(p, q, h) && ExpectedOf(p, l, h) == 1 && t.id == h.id
    ensures ExpectedOf(q, l', t) == ExpectedOf(p, l', t) - (if l == l' && t == h then 1 else 0) +
                                    (if h.RemoveTask? && l' == p.loop && t == DestroyTask(h.id) then 1 else 0)
    ensures q.conn.state == Tcp.Connecting ==> p.conn.state == Tcp.Connecting
  {
    hide Tcp.Inv;
  }

  lemma RunNextTaskOk(s: Server, l: nat, l': nat, t: Task)
    requires l < |s.queues| && s.queues[l] != [] && !s.queues[l][0].ForceCloseTask?
    requires TaskAsserts(s, s.queues[l][0]) && Expected(s, l, s.queues[l][0]) == 1
    requires s.peers[s.queues[l][0].id].loop < |s.queues| && LifeOk(s.peers[s.queues[l][0].id])
    requires TaskOk(s, l', t)
    ensures TaskOk(RunTask(Dequeue(s, l), s.queues[l][0]), l', t)
  {
    hide RunTask, LifeOk, TaskAsserts, ExpectedOf, TaskEffect, Enqueue;
    var h, m := s.queues[l][0], Dequeue(s, l);
    assert TaskAsserts(m, h) by { DequeueAsserts(s, l, h); }
    RunTaskEffect(m, h);
    var r := RunTask(m, h);
    assert |r.queues| == |s.queues| by { EnqueueLength(m, s.peers[h.id].loop, DestroyTask(h.id)); }
    if l' < |s.queues| {
      DequeueCount(s, l, l', t);
      if h.RemoveTask? {
        EnqueueCount(m, s.peers[h.id].loop, DestroyTask(h.id), l', t);
      }
      if t.id == h.id {
        EffectExpected(s.peers[h.id], r.peers[h.id], h, l, l', t);
      }
    }
  }

  /** The assertions of a task do not depend on the queues. */
  lemma DequeueAsserts(s: Server, l: nat, t: Task)
    requires l < |s.queues| && s.queues[l] != [] && TaskAsserts(s, t)
    ensures TaskAsserts(Dequeue(s, l), t)
  {
  }

  lemma RunNextKeepsInv(s: Server, l: nat)
    requires Inv(s) && l < |s.queues| && s.queues[l] != [] && !s.queues[l][0].ForceCloseTask?
    requires TaskAsserts(s, s.queues[l][0])
    ensures Inv(RunTask(Dequeue(s, l), s.queues[l][0]))
  {
    HeadExpected(s, l);
    var r := RunTask(Dequeue(s, l), s.queues[l][0]);
    assert QueuesOk(r) by {
      hide RunTask, Dequeue, Expected, LifeOk, TaskOk;
      forall l': nat, t: Task
        ensures TaskOk(r, l', t)
      {
        assert TaskOk(s, l', t);
        RunNextTaskOk(s, l, l', t);
      }
    }
    assert |r.queues| > 0 && PeersOk(r) && r.connections <= r.peers.Keys by {
      hide TaskOk;
    }
  }

  lemma DropForceCloseKeepsInv(s: Server, l: nat)
    requires Inv(s) && l < |s.queues| && s.queues[l] != [] && s.queues[l][0].ForceCloseTask?
    ensures Inv(Dequeue(s, l))
  {
    var r := Dequeue(s, l);
    forall l': nat, t: Task
      ensures TaskOk(r, l', t)
    {
      assert TaskOk(s, l', t);
      if l' < |s.queues| {
        DequeueCount(s, l, l', t);
      }
    }
  }

  /** The events that change one connection and perhaps queue a forced close. */
  predicate IsCall(e: Event) {
    e.CallForceClose? || e.InLoop?
  }

  /** The coarse state of a connection, which the queues depend on. */
  lemma LocalKeeps(c: Tcp.Conn, e: Tcp.Event)
    requires Tcp.Inv(c) && (c.reading ==> Tcp.Up(c))
    requires LocalPossible(c, e) || (e.CallForceClose? && Tcp.Up(c))
    ensures var d := Tcp.Step(c, e);
            Tcp.Inv(d) && (d.reading ==> Tcp.Up(d)) && (Tcp.Up(d) <==> Tcp.Up(c)) &&
            (d.state == Tcp.Connecting <==> c.state == Tcp.Connecting)
  {
    Tcp.StepKeepsInv(c, e);
  }

  lemma CallTaskOk(s: Server, e: Event, l: nat, t: Task)
    requires IsCall(e) && Possible(s, e) && LifeOk(s.peers[e.id])
    requires s.peers[e.id].loop < |s.queues| && TaskOk(s, l, t)
    ensures TaskOk(Step(s, e), l, t)
  {
    var c := s.peers[e.id].conn;
    if e.InLoop? {
      LocalKeeps(c, e.e);
    } else if Tcp.Up(c) {
      LocalKeeps(c, Tcp.CallForceClose);
    }
    if l < |s.queues| {
      EnqueueCount(s, s.peers[e.id].loop, ForceCloseTask(e.id), l, t);
    }
    var r := Step(s, e);
    assert r.peers.Keys == s.peers.Keys;
    assert t.id != e.id && t.id in s.peers ==> r.peers[t.id] == s.peers[t.id];
    assert r.peers[e.id].loop == s.peers[e.id].loop && r.peers[e.id].removed == s.peers[e.id].removed;
    hide Tcp.Inv, Tcp.Step, LocalPossible;
  }

  lemma CallKeepsInv(s: Server, e: Event)
    requires Inv(s) && Possible(s, e) && IsCall(e)
    ensures Inv(Step(s, e))
  {
    var r := Step(s, e);
    assert QueuesOk(r) by {
      hide Step, Expected, LifeOk, TaskOk;
      forall l: nat, t: Task
        ensures TaskOk(r, l, t)
      {
        assert TaskOk(s, l, t);
        CallTaskOk(s, e, l, t);
      }
    }
    assert |r.queues| > 0 && PeersOk(r) && r.connections <= r.peers.Keys by {
      var c := s.peers[e.id].conn;
      if e.InLoop? {
        LocalKeeps(c, e.e);
      } else if Tcp.Up(c) {
        LocalKeeps(c, Tcp.CallForceClose);
      }
      hide TaskOk, Tcp.Step, Tcp.Inv, LocalPossible;
    }
  }

  lemma StepKeepsInv(s: Server, e: Event)
    requires Inv(s) && Possible(s, e) && AssertsHold(s, e)
    ensures Inv(Step(s, e))
  {
    hide Inv, Accept, Close, IsUp;
    match e
    case NewConnection(l) => AcceptKeepsInv(s, l);
    case RunNext(l) =>
      var h := s.queues[l][0];
      if h.ForceCloseTask? {
        DropForceCloseKeepsInv(s, l);
        if IsUp(s.peers[h.id]) {
          CloseKeepsInv(Dequeue(s, l), h.id);
        }
      } else {
        RunNextKeepsInv(s, l);
      }
    case PeerClosed(id) => CloseKeepsInv(s, id);
    case _ => CallKeepsInv(s, e);
  }

  // ----- Every run -----

  predicate Schedule(s: Server, es: seq<Event>)
    decreases |es|
  {
    es == [] || (Possible(s, es[0]) && (AssertsHold(s, es[0]) ==> Schedule(Step(s, es[0]), es[1..])))
  }

  /** The state a run ends in, stopping at a failed assertion. */
  function Run(s: Server, es: seq<Event>): Server
    requires Schedule(s, es)
    decreases |es|
  {
    if es == [] || !AssertsHold(s, es[0]) then s else Run(Step(s, es[0]), es[1..])
  }

  predicate NoAssertFails(s: Server, es: seq<Event>)
    requires Schedule(s, es)
    decreases |es|
  {
    es == [] || (AssertsHold(s, es[0]) && NoAssertFails(Step(s, es[0]), es[1..]))
  }

  lemma {:induction false} RunKeepsInv(s: Server, es: seq<Event>)
    requires Inv(s) && Schedule(s, es)
    ensures Inv(Run(s, es)) && NoAssertFails(s, es)
    decreases |es|
  {
    hide Inv, Step, AssertsHold, Possible;
    if es == [] {
    } else {
      AssertsAlwaysHold(s, es[0]);
      StepKeepsInv(s, es[0]);
      RunKeepsInv(Step(s, es[0]), es[1..]);
    }
  }

  lemma StartInv(loops: nat)
    requires loops > 0
    ensures Inv(Start(loops))
  {
    forall l: nat, t: Task
      ensures TaskOk(Start(loops), l, t)
    {
    }
  }

  /**
    * Over every run on any number of loops: no assertion fails, and every connection is established at most
    * once, removed from the map at most once and only after that destroyed at most once, each only after a close.
    */
  lemma LifeCycle(loops: nat, es: seq<Event>)
    requires loops > 0 && Schedule(Start(loops), es)
    ensures NoAssertFails(Start(loops), es)
    ensures var s := Run(Start(loops), es);
            forall id :: id in s.peers ==> LifeOk(s.peers[id]) && (id in s.connections <==> s.peers[id].removed == 0)
  {
    StartInv(loops);
    RunKeepsInv(Start(loops), es);
  }

  /** When all queues are empty, every connection is open and in the map, or closed, removed and destroyed. */
  lemma QuiescentServer(s: Server, id: Id)
    requires Inv(s) && id in s.peers && forall l :: 0 <= l < |s.queues| ==> s.queues[l] == []
    ensures var p := s.peers[id];
            (IsUp(p) && id in s.connections) || (p.conn.state == Tcp.Disconnected && p.removed == 1 && p.destroyed == 1)
  {
    var p := s.peers[id];
    assert TaskOk(s, p.loop, EstablishTask(id));
    assert TaskOk(s, 0, RemoveTask(id));
    assert TaskOk(s, p.loop, DestroyTask(id));
  }

  /** How far a connection has come: its life events so far, and whether it is closed. */
  predicate Later(p: Peer, q: Peer) {
    p.loop == q.loop && p.established <= q.established && p.removed <= q.removed && p.destroyed <= q.destroyed &&
    (p.conn.state == Tcp.Disconnected ==> q.conn.state == Tcp.Disconnected) &&
    (q.conn.state == Tcp.Connecting ==> p.conn.state == Tcp.Connecting)
  }

  /** No connection is forgotten, none leaves Disconnected, none returns to Connecting. */
  lemma {:induction false} LifeOnlyAdvances(s: Server, es: seq<Event>, id: Id)
    requires Inv(s) && Schedule(s, es) && id in s.peers
    ensures id in Run(s, es).peers && Later(s.peers[id], Run(s, es).peers[id])
    decreases |es|
  {
    if es == [] {
    } else {
      AssertsAlwaysHold(s, es[0]);
      StepAdvances(s, es[0], id);
      StepKeepsInv(s, es[0]);
      LifeOnlyAdvances(Step(s, es[0]), es[1..], id);
    }
  }

  lemma RunNextAdvances(s: Server, l: nat, id: Id)
    requires l < |s.queues| && s.queues[l] != [] && TaskAsserts(s, s.queues[l][0])
    requires id in s.peers && LifeOk(s.peers[id])
    ensures var r := RunTask(Dequeue(s, l), s.queues[l][0]);
            id in r.peers && Later(s.peers[id], r.peers[id])
  {
    var h, m := s.queues[l][0], Dequeue(s, l);
    DequeueAsserts(s, l, h);
    if h.ForceCloseTask? {
      hide LifeOk;
    } else {
      RunTaskEffect(m, h);
      assert h.EstablishTask? ==> s.peers[h.id].conn.state == Tcp.Connecting;
      hide RunTask, LifeOk;
    }
  }

  lemma StepAdvances(s: Server, e: Event, id: Id)
    requires Inv(s) && Possible(s, e) && AssertsHold(s, e) && id in s.peers
    ensures id in Step(s, e).peers && Later(s.peers[id], Step(s, e).peers[id])
  {
    assert id < s.nextConnId && LifeOk(s.peers[id]);
    hide Inv, PeersOk, QueuesOk, Tcp.Inv;
    match e
    case InLoop(c, ce) =>
      if c == id {
        LocalKeeps(s.peers[c].conn, ce);
      }
      hide Tcp.Step, LocalPossible, LifeOk;
    case RunNext(l) =>
      RunNextAdvances(s, l, id);
      hide RunTask, LifeOk, TaskAsserts, Later;
    case _ => hide LifeOk, RunTask;
  }

  // ----- Every connection of the server is a run of a connection -----

  /** The handlers of a connection that an event of the server calls. */
  function Handlers(s: Server, e: Event, id: Id): seq<Tcp.Event>
    requires Possible(s, e)
  {
    match e
    case NewConnection(_) => []
    case RunNext(l) =>
      (match s.queues[l][0]
       case EstablishTask(i) => if i == id then [Tcp.Establish] else []
       case ForceCloseTask(i) => if i == id then [Tcp.RunForceClose] else []
       case RemoveTask(_) => []
       case DestroyTask(i) => if i == id then [Tcp.Destroy] else [])
    case PeerClosed(i) => if i == id then [Tcp.HangUp(false)] else []
    case CallForceClose(i) => if i == id then [Tcp.CallForceClose] else []
    case InLoop(i, event) => if i == id then [event] else []
  }

  /** All of them over a run. */
  function Trace(s: Server, es: seq<Event>, id: Id): seq<Tcp.Event>
    requires Schedule(s, es)
    decreases |es|
  {
    if es == [] || !AssertsHold(s, es[0]) then [] else Handlers(s, es[0], id) + Trace(Step(s, es[0]), es[1..], id)
  }

  lemma StepIsHandlers(s: Server, e: Event, id: Id)
    requires Inv(s) && Possible(s, e) && AssertsHold(s, e) && id in s.peers
    ensures id in Step(s, e).peers && Tcp.PossibleRun(s.peers[id].conn, Handlers(s, e, id)) &&
            Step(s, e).peers[id].conn == Tcp.Run(s.peers[id].conn, Handlers(s, e, id))
  {
    var c := s.peers[id].conn;
    assert id < s.nextConnId;
    HandlersEffect(s, e, id);
    hide Inv, Step;
    var hs := Handlers(s, e, id);
    if hs == [] {
      assert Tcp.Run(c, []) == c;
    } else {
      Tcp.RunOne(c, hs[0]);
    }
  }

  lemma HandlersEffect(s: Server, e: Event, id: Id)
    requires Possible(s, e) && AssertsHold(s, e) && id in s.peers && id < s.nextConnId
    ensures var c, hs := s.peers[id].conn, Handlers(s, e, id);
            id in Step(s, e).peers && (hs == [] || (hs == [hs[0]] && Tcp.Possible(c, hs[0]))) &&
            Step(s, e).peers[id].conn == if hs == [] then c else Tcp.Step(c, hs[0])
  {
    if e.RunNext? {
      RunNextEffect(s, e.loop, id);
      hide RunTask, TaskAsserts;
    }
    hide Tcp.SendStep, Tcp.WritableStep, Tcp.ShutdownStep;
  }

  lemma RunNextEffect(s: Server, l: nat, id: Id)
    requires l < |s.queues| && s.queues[l] != [] && TaskAsserts(s, s.queues[l][0]) && id in s.peers
    ensures var h, c, r := s.queues[l][0], s.peers[id].conn, RunTask(Dequeue(s, l), s.queues[l][0]);
            id in r.peers &&
            r.peers[id].conn ==
            if h.id != id || h.RemoveTask? then c
            else Tcp.Step(c, if h.EstablishTask? then Tcp.Establish else if h.DestroyTask? then Tcp.Destroy else Tcp.RunForceClose)
  {
    DequeueAsserts(s, l, s.queues[l][0]);
    if s.queues[l][0].ForceCloseTask? && IsUp(s.peers[s.queues[l][0].id]) {
      CloseEffect(Dequeue(s, l), s.queues[l][0].id);
      hide Close;
    }
  }

  /** Over every run, what happens to a connection is a run of a connection: the handlers the server called. */
  lemma {:induction false} ConnectionIsRun(s: Server, es: seq<Event>, id: Id)
    requires Inv(s) && Schedule(s, es) && id in s.peers
    ensures id in Run(s, es).peers && Tcp.PossibleRun(s.peers[id].conn, Trace(s, es, id)) &&
            Run(s, es).peers[id].conn == Tcp.Run(s.peers[id].conn, Trace(s, es, id))
    decreases |es|
  {
    hide Inv, Step, AssertsHold, Possible, Handlers;
    if es == [] {
      assert Tcp.Run(s.peers[id].conn, []) == s.peers[id].conn;
    } else {
      AssertsAlwaysHold(s, es[0]);
      StepKeepsInv(s, es[0]);
      StepIsHandlers(s, es[0], id);
      var t := Step(s, es[0]);
      ConnectionIsRun(t, es[1..], id);
      Tcp.RunSplit(s.peers[id].conn, Handlers(s, es[0], id), Trace(t, es[1..], id));
    }
  }

  /** A new connection has the next number and its loop; on the base loop it is established at once. */
  lemma NewConnectionEffect(s: Server, l: nat)
    requires Inv(s) && l < |s.queues|
    ensures var r, id := Accept(s, l), s.nextConnId;
            id !in s.peers && r.peers.Keys == s.peers.Keys + {id} && r.nextConnId == id + 1 &&
            (forall i :: i in s.peers ==> r.peers[i] == s.peers[i]) &&
            r.peers[id].loop == l && id in r.connections &&
            r.peers[id].conn == (if l == 0 then Tcp.Step(Tcp.NEW_CONN, Tcp.Establish) else Tcp.NEW_CONN)
  {
    hide QueuesOk;
  }

  /** The connections made by a list of events. */
  function Made(es: seq<Event>): nat {
    if es == [] then 0 else (if es[0].NewConnection? then 1 else 0) + Made(es[1..])
  }

  /** The numbers of the connections are consecutive. */
  ghost predicate Numbered(s: Server) {
    s.nextConnId >= 1 && forall id: nat :: id in s.peers <==> 1 <= id < s.nextConnId
  }

  /** Over every run of a new server the connections have the numbers from 1 on, one for each one made. */
  lemma ConnectionsAreNumbered(loops: nat, es: seq<Event>)
    requires loops > 0 && Schedule(Start(loops), es)
    ensures var s := Run(Start(loops), es);
            s.nextConnId == 1 + Made(es) && forall id: nat :: id in s.peers <==> 1 <= id <= Made(es)
  {
    StartInv(loops);
    NumbersFollow(Start(loops), es);
  }

  lemma {:induction false} NumbersFollow(s: Server, es: seq<Event>)
    requires Inv(s) && Numbered(s) && Schedule(s, es)
    ensures Numbered(Run(s, es)) && Run(s, es).nextConnId == s.nextConnId + Made(es)
    decreases |es|
  {
    hide Inv, Numbered, Step, AssertsHold, Possible;
    if es == [] {
    } else {
      AssertsAlwaysHold(s, es[0]);
      StepKeepsInv(s, es[0]);
      StepNumbers(s, es[0]);
      NumbersFollow(Step(s, es[0]), es[1..]);
    }
  }

  lemma StepNumbers(s: Server, e: Event)
    requires Inv(s) && Numbered(s) && Possible(s, e) && AssertsHold(s, e)
    ensures Numbered(Step(s, e)) && Step(s, e).nextConnId == s.nextConnId + if e.NewConnection? then 1 else 0
  {
    if e.NewConnection? {
      NewConnectionEffect(s, e.loop);
      hide Accept, Inv;
    } else {
      OthersKeepNumbers(s, e);
      hide Inv, Step;
    }
  }

  lemma OthersKeepNumbers(s: Server, e: Event)
    requires Possible(s, e) && AssertsHold(s, e) && !e.NewConnection?
    ensures Step(s, e).nextConnId == s.nextConnId && Step(s, e).peers.Keys == s.peers.Keys
  {
    hide Tcp.Step, Tcp.CloseStep;
  }

  // ----- The queues are first come, first served -----

  /** No event changes the order of a queue: only its head leaves, and new tasks go behind. */
  lemma StepIsFifo(s: Server, e: Event, l: nat)
    requires Possible(s, e) && AssertsHold(s, e) && l < |s.queues|
    ensures |Step(s, e).queues| == |s.queues|
    ensures (if e == RunNext(l) then s.queues[l][1..] else s.queues[l]) <= Step(s, e).queues[l]
  {
    hide Tcp.Step, Tcp.CloseStep;
  }

  /** How often a loop runs a task. */
  function Turns(es: seq<Event>, l: nat): nat {
    if es == [] then 0 else (if es[0] == RunNext(l) then 1 else 0) + Turns(es[1..], l)
  }

  /** Over every run, the tasks of a loop are run in the order they were queued. */
  lemma {:induction false} FirstComeFirstServed(s: Server, es: seq<Event>, l: nat)
    requires Inv(s) && Schedule(s, es) && l < |s.queues| && Turns(es, l) <= |s.queues[l]|
    ensures |Run(s, es).queues| == |s.queues| && s.queues[l][Turns(es, l)..] <= Run(s, es).queues[l]
    decreases |es|
  {
    hide Inv, Step, AssertsHold, Possible;
    if es == [] {
      assert s.queues[l][0..] == s.queues[l];
    } else {
      AssertsAlwaysHold(s, es[0]);
      StepKeepsInv(s, es[0]);
      StepIsFifo(s, es[0], l);
      var t, n := Step(s, es[0]), Turns(es[1..], l);
      FirstComeFirstServed(t, es[1..], l);
      var left := if es[0] == RunNext(l) then s.queues[l][1..] else s.queues[l];
      assert left[n..] <= t.queues[l][n..];
      assert left[n..] == s.queues[l][Turns(es, l)..];
    }
  }

  // ----- A forced close happens -----

  /** The connection is closed, or the task that closes it is queued on its loop. */
  predicate WillClose(s: Server, id: Id) {
    id in s.peers && s.peers[id].loop < |s.queues| &&
    (s.peers[id].conn.state == Tcp.Disconnected ||
     (IsUp(s.peers[id]) && ForceCloseTask(id) in s.queues[s.peers[id].loop]))
  }

  lemma StepKeepsWillClose(s: Server, e: Event, id: Id)
    requires Inv(s) && WillClose(s, id) && Possible(s, e) && AssertsHold(s, e)
    ensures WillClose(Step(s, e), id)
  {
    var l := s.peers[id].loop;
    StepIsHandlers(s, e, id);
    StepAdvances(s, e, id);
    StepIsFifo(s, e, l);
    StepKeepsInv(s, e);
    if IsUp(s.peers[id]) {
      ForcedOrQueued(s, e, id);
    }
    hide Inv, Step, Possible, AssertsHold, Handlers;
  }

  lemma ForcedOrQueued(s: Server, e: Event, id: Id)
    requires Inv(s) && WillClose(s, id) && IsUp(s.peers[id]) && Possible(s, e) && AssertsHold(s, e)
    ensures var r := Step(s, e);
            id in r.peers && r.peers[id].loop == s.peers[id].loop &&
            (r.peers[id].conn.state == Tcp.Disconnected ||
             (IsUp(r.peers[id]) && ForceCloseTask(id) in s.queues[s.peers[id].loop] &&
              (e == RunNext(s.peers[id].loop) ==> s.queues[s.peers[id].loop][0] != ForceCloseTask(id))))
  {
    StepIsHandlers(s, e, id);
    StepAdvances(s, e, id);
    HandlersEffect(s, e, id);
    hide Inv, Step;
  }

  lemma {:induction false} RunKeepsWillClose(s: Server, es: seq<Event>, id: Id)
    requires Inv(s) && WillClose(s, id) && Schedule(s, es)
    ensures WillClose(Run(s, es), id)
    ensures var r := Run(s, es);
            (forall l :: 0 <= l < |r.queues| ==> r.queues[l] == []) ==>
              r.peers[id].conn.state == Tcp.Disconnected && r.peers[id].destroyed == 1
    decreases |es|
  {
    hide Inv, Step, AssertsHold, Possible;
    if es == [] {
      if forall l :: 0 <= l < |s.queues| ==> s.queues[l] == [] {
        QuiescentServer(s, id);
      }
    } else {
      AssertsAlwaysHold(s, es[0]);
      StepKeepsInv(s, es[0]);
      StepKeepsWillClose(s, es[0], id);
      RunKeepsWillClose(Step(s, es[0]), es[1..], id);
    }
  }

  lemma ForceCloseIsQueued(s: Server, id: Id)
    requires Inv(s) && id in s.peers && IsUp(s.peers[id])
    ensures WillClose(Step(s, CallForceClose(id)), id)
  {
  }

  /**
    * After forceClose on an open connection, over every run it is closed or the task that closes it is queued on
    * its loop; when no task is left, it has been closed, removed and destroyed.
    */
  lemma ForceCloseHappens(s: Server, es: seq<Event>, id: Id)
    requires Inv(s) && id in s.peers && IsUp(s.peers[id]) && Schedule(Step(s, CallForceClose(id)), es)
    ensures var r := Run(Step(s, CallForceClose(id)), es);
            WillClose(r, id) &&
            ((forall l :: 0 <= l < |r.queues| ==> r.queues[l] == []) ==>
              r.peers[id].conn.state == Tcp.Disconnected && r.peers[id].destroyed == 1)
  {
    ForceCloseIsQueued(s, id);
    StepKeepsInv(s, CallForceClose(id));
    hide Inv, Step;
    RunKeepsWillClose(Step(s, CallForceClose(id)), es, id);
  }

  // ----- The class -----

  /** The server with the connections and queues it works on. */
  class TcpServer {
    var nextConnId: Id
    var connections: set<Id>
    var peers: map<Id, Peer>
    var queues: seq<seq<Task>>

    function Value(): Server
      reads this
    {
      Server(nextConnId, connections, peers, queues)
    }

    ghost predicate Valid()
      reads this
    {
      Inv(Value())
    }

    constructor (loops: nat)
      requires loops > 0
      ensures Valid() && Value() == Start(loops)
    {
      StartInv(loops);
      nextConnId, connections, peers := 1, {}, map[];
      queues := seq(loops, i => []);
    }

    /** runInLoop to another loop, or queueInLoop. */
    method QueueInLoop(l: nat, t: Task)
      requires l < |queues|
      modifies this
      ensures Value() == Enqueue(old(Value()), l, t)
    {
      queues := queues[l := queues[l] + [t]];
    }

    method OnNewConnection(ioLoop: nat)
      requires Valid() && ioLoop < |queues|
      modifies this
      ensures Valid() && Value() == Accept(old(Value()), ioLoop)
    {
      AcceptKeepsInv(Value(), ioLoop);
      hide Inv;
      var id := nextConnId;
      nextConnId := nextConnId + 1;
      peers := peers[id := Peer(ioLoop, Tcp.NEW_CONN, 0, 0, 0)];
      connections := connections + {id};
      if ioLoop == 0 {
        ConnectEstablished(id);
      } else {
        QueueInLoop(ioLoop, EstablishTask(id));
      }
    }

    method ConnectEstablished(id: Id)
      requires id in peers && peers[id].conn.state == Tcp.Connecting
      modifies this
      ensures Value() == Establish(old(Value()), id)
    {
      var p := peers[id];
      peers := peers[id := p.(conn := Tcp.Step(p.conn, Tcp.Establish), established := p.established + 1)];
    }

    /** Requires what the assertion on the erase demands: the map holds the connection. */
    method RemoveConnectionInLoop(id: Id)
      requires id in peers && id in connections && peers[id].loop < |queues|
      modifies this
      ensures Value() == RemoveInLoop(old(Value()), id)
    {
      connections := connections - {id};
      var p := peers[id];
      peers := peers[id := p.(removed := p.removed + 1)];
      QueueInLoop(p.loop, DestroyTask(id));
    }

    /** The close handler of a connection, with the server's removal as its callback. */
    method HandleClose(id: Id)
      requires Valid() && id in peers && IsUp(peers[id])
      modifies this
      ensures Valid() && Value() == Close(old(Value()), id)
    {
      CloseKeepsInv(Value(), id);
      var p := peers[id];
      assert p.loop < |queues| && id in connections;
      hide Inv;
      peers := peers[id := p.(conn := Tcp.CloseStep(p.conn))];
      if p.loop == 0 {
        RemoveConnectionInLoop(id);
      } else {
        QueueInLoop(0, RemoveTask(id));
      }
    }
  }
}
