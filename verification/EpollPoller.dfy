/** Registration of channels with the poller and the kernel, and the dispatch of their events. */
module EpollPollerModule {

  /** The two event groups a channel can ask for. */
  datatype Mask = Mask(reading: bool, writing: bool)

  const NONE := Mask(false, false)

  /** The poller's bookkeeping on a channel: kNew, kAdded or kDeleted. */
  datatype Index = New | Added | Deleted

  /** The poller's map, the kernel's interest set, and what each channel holds. */
  datatype Poller<C> = Poller(channels: map<int, C>, kernel: map<int, (Mask, C)>,
                              index: map<C, Index>, events: map<C, Mask>, fd: map<C, int>)

  /** Any enable or disable call sets the channel's mask and updates; remove takes the channel out. */
  datatype Call<C> = Update(c: C, mask: Mask) | Remove(c: C)

  predicate Known<C>(p: Poller<C>, c: C) {
    c in p.index && c in p.events && c in p.fd
  }

  // ----- The operations -----

  /**
    * The source's assertions, and that the kernel accepts the epoll_ctl call: ADD needs an absent
    * descriptor, MOD and DEL a present one.
    */
  predicate AssertsHold<C(==)>(p: Poller<C>, call: Call<C>)
    requires Known(p, call.c)
  {
    var c := call.c;
    var fd := p.fd[c];
    match call
    case Update(_, _) =>
      (match p.index[c]
       case New => fd !in p.channels && fd !in p.kernel
       case Deleted => fd in p.channels && p.channels[fd] == c && fd !in p.kernel
       case Added => fd in p.channels && p.channels[fd] == c && fd in p.kernel)
    case Remove(_) =>
      p.events[c] == NONE && fd in p.channels && p.channels[fd] == c && p.index[c] != New &&
      (p.index[c] == Added ==> fd in p.kernel)
  }

  function Step<C(==)>(p: Poller<C>, call: Call<C>): Poller<C>
    requires Known(p, call.c)
  {
    var c := call.c;
    var fd := p.fd[c];
    match call
    case Update(_, mask) =>
      var q := p.(events := p.events[c := mask]);
      (match p.index[c]
       case New => q.(channels := p.channels[fd := c], index := p.index[c := Added],
                      kernel := p.kernel[fd := (mask, c)])
       case Deleted => q.(index := p.index[c := Added], kernel := p.kernel[fd := (mask, c)])
       case Added => if mask == NONE then q.(kernel := p.kernel - {fd}, index := p.index[c := Deleted])
                     else q.(kernel := p.kernel[fd := (mask, c)]))
    case Remove(_) =>
      p.(channels := p.channels - {fd}, index := p.index[c := New],
         kernel := if p.index[c] == Added then p.kernel - {fd} else p.kernel)
  }

  // ----- The invariant -----

  /** What the index of a channel says about the map and the kernel. */
  predicate Agrees<C(==)>(p: Poller<C>, c: C)
    requires Known(p, c)
  {
    var fd := p.fd[c];
    match p.index[c]
    case New => (fd in p.channels ==> p.channels[fd] != c) && (fd in p.kernel ==> p.kernel[fd].1 != c)
    case Added => fd in p.channels && p.channels[fd] == c && fd in p.kernel && p.kernel[fd] == (p.events[c], c)
    case Deleted => fd in p.channels && p.channels[fd] == c && fd !in p.kernel
  }

  /** The map and the kernel hold only registered channels, each under its descriptor. */
  predicate RegisteredAt<C(==)>(p: Poller<C>, fd: int)
    requires p.index.Keys == p.fd.Keys
  {
    (fd in p.channels ==>
      p.channels[fd] in p.fd && p.fd[p.channels[fd]] == fd && p.index[p.channels[fd]] != New) &&
    (fd in p.kernel ==> fd in p.channels && p.kernel[fd].1 == p.channels[fd])
  }

  predicate Inv<C(==)>(p: Poller<C>) {
    p.index.Keys == p.events.Keys == p.fd.Keys &&
    (forall fd :: fd in p.channels ==> RegisteredAt(p, fd)) &&
    (forall fd :: fd in p.kernel ==> RegisteredAt(p, fd)) &&
    (forall c :: c in p.index ==> Agrees(p, c))
  }

  /** What callers owe: one channel per descriptor, and removal only of a registered channel that wants no events. */
  predicate Disciplined<C(==)>(p: Poller<C>, call: Call<C>)
    requires Known(p, call.c)
  {
    match call
    case Update(c, _) => p.index[c] == New ==> p.fd[c] !in p.channels
    case Remove(c) => p.events[c] == NONE && p.index[c] != New
  }

  /** The assertions hold, and the kernel accepts, exactly the disciplined calls. */
  lemma AssertsExact<C>(p: Poller<C>, call: Call<C>)
    requires Inv(p) && Known(p, call.c)
    ensures AssertsHold(p, call) <==> Disciplined(p, call)
  {
    assert Agrees(p, call.c);
  }

  lemma StepKeepsInv<C>(p: Poller<C>, call: Call<C>)
    requires Inv(p) && Known(p, call.c) && Disciplined(p, call)
    ensures Inv(Step(p, call))
  {
    var q := Step(p, call);
    forall d | d in q.index
      ensures Agrees(q, d)
    {
      StepAgrees(p, call, d);
    }
    forall fd | fd in q.channels || fd in q.kernel
      ensures RegisteredAt(q, fd)
    {
      StepRegistered(p, call, fd);
    }
    hide Disciplined, Agrees, RegisteredAt, Known;
  }

  lemma StepRegistered<C>(p: Poller<C>, call: Call<C>, fd: int)
    requires Inv(p) && Known(p, call.c) && Disciplined(p, call)
    ensures Step(p, call).index.Keys == p.index.Keys && RegisteredAt(Step(p, call), fd)
  {
    assert Agrees(p, call.c) && RegisteredAt(p, fd);
    hide Inv;
  }

  /** A registered channel is the only one on its descriptor, so no other channel is affected. */
  lemma StepAgrees<C>(p: Poller<C>, call: Call<C>, d: C)
    requires Inv(p) && Known(p, call.c) && Disciplined(p, call) && d in p.index
    ensures Known(Step(p, call), d) && Agrees(Step(p, call), d)
  {
    assert Agrees(p, call.c) && Agrees(p, d);
  }

  /** The kernel holds the channel and reports its events. */
  predicate InKernel<C(==)>(p: Poller<C>, c: C) {
    Known(p, c) && p.fd[c] in p.kernel && p.kernel[p.fd[c]].1 == c
  }

  /**
    * After an update the channel has the mask and is in the map. The kernel holds it with that mask, unless the
    * mask is empty and the kernel held it before: then it is deleted. No other descriptor is touched.
    */
  lemma UpdateExact<C>(p: Poller<C>, c: C, mask: Mask)
    requires Inv(p) && Known(p, c) && Disciplined(p, Update(c, mask))
    ensures var q, fd := Step(p, Update(c, mask)), p.fd[c];
            q.fd == p.fd && q.events == p.events[c := mask] && q.channels == p.channels[fd := c] &&
            q.kernel == if mask == NONE && InKernel(p, c) then p.kernel - {fd} else p.kernel[fd := (mask, c)]
  {
    assert Agrees(p, c);
    assert p.fd[c] in p.channels ==> RegisteredAt(p, p.fd[c]);
    assert p.fd[c] in p.kernel ==> RegisteredAt(p, p.fd[c]);
    hide Inv;
  }

  /** After a removal neither the map nor the kernel has the descriptor; no other descriptor is touched. */
  lemma RemoveExact<C>(p: Poller<C>, c: C)
    requires Inv(p) && Known(p, c) && Disciplined(p, Remove(c))
    ensures var q, fd := Step(p, Remove(c)), p.fd[c];
            q.fd == p.fd && q.events == p.events && q.channels == p.channels - {fd} && q.kernel == p.kernel - {fd} &&
            fd in p.channels && p.channels[fd] == c && (forall f :: f in q.channels ==> q.channels[f] != c)
  {
    assert Agrees(p, c);
    forall f | f in p.channels
      ensures f != p.fd[c] ==> p.channels[f] != c
    {
      assert RegisteredAt(p, f);
    }
    hide Inv;
  }

  predicate DisciplinedRun<C(==)>(p: Poller<C>, calls: seq<Call<C>>)
    decreases |calls|
  {
    calls == [] ||
    (Known(p, calls[0].c) && Disciplined(p, calls[0]) && DisciplinedRun(Step(p, calls[0]), calls[1..]))
  }

  function Run<C(==)>(p: Poller<C>, calls: seq<Call<C>>): Poller<C>
    requires DisciplinedRun(p, calls)
    decreases |calls|
  {
    if calls == [] then p else Run(Step(p, calls[0]), calls[1..])
  }

  predicate NoAssertFails<C(==)>(p: Poller<C>, calls: seq<Call<C>>)
    requires DisciplinedRun(p, calls)
    decreases |calls|
  {
    calls == [] || (AssertsHold(p, calls[0]) && NoAssertFails(Step(p, calls[0]), calls[1..]))
  }

  /** Over every disciplined sequence of calls, map, kernel and index agree and no assertion fails. */
  lemma {:induction false} RunKeepsInv<C>(p: Poller<C>, calls: seq<Call<C>>)
    requires Inv(p) && DisciplinedRun(p, calls)
    ensures Inv(Run(p, calls)) && NoAssertFails(p, calls)
    decreases |calls|
  {
    hide Inv, Step, AssertsHold, Disciplined, Known;
    if calls == [] {
    } else {
      AssertsExact(p, calls[0]);
      StepKeepsInv(p, calls[0]);
      RunKeepsInv(Step(p, calls[0]), calls[1..]);
    }
  }

  // ----- The classes -----

  class Channel {
    const fd: int
    var events: Mask
    var index: Index
    var addedToLoop: bool

    constructor (fd: int)
      ensures this.fd == fd && events == NONE && index == New && !addedToLoop
    {
      this.fd := fd;
      events, index, addedToLoop := NONE, New, false;
    }
  }

  class EpollPoller {
    var channels: map<int, Channel>
    var kernel: map<int, (Mask, Channel)>
    ghost var known: set<Channel>

    ghost function Value(): Poller<Channel>
      reads this, known
    {
      Poller(channels, kernel, map c | c in known :: c.index, map c | c in known :: c.events,
             map c | c in known :: c.fd)
    }

    ghost predicate Valid()
      reads this, known
    {
      Inv(Value())
    }

    constructor ()
      ensures Valid() && known == {} && channels == map[] && kernel == map[]
    {
      channels, kernel, known := map[], map[], {};
    }

    /** A channel enters the model with its creation. */
    ghost method Meet(c: Channel)
      requires Valid() && c !in known && c.index == New
      modifies this
      ensures Valid() && known == old(known) + {c} && channels == old(channels) && kernel == old(kernel)
    {
      ghost var p := Value();
      known := known + {c};
      ghost var q := Value();
      forall d | d in q.index
        ensures Agrees(q, d)
      {
        if d in p.index {
          assert Agrees(p, d);
        }
      }
    }

    /** The channel's new mask. */
    method SetMask(c: Channel, mask: Mask)
      requires c in known
      modifies c
      ensures Value() == old(Value()).(events := old(Value()).events[c := mask])
      ensures c.events == mask && c.addedToLoop && c.index == old(c.index)
    {
      ghost var p := Value();
      c.events := mask;
      c.addedToLoop := true;
      assert Value().events == p.events[c := mask];
      assert Value().index == p.index;
    }

    /** setIndex together with the epoll_ctl call, whose effect is the new interest set. */
    method SetIndexAndKernel(c: Channel, index: Index, interest: map<int, (Mask, Channel)>)
      requires c in known
      modifies this, c
      ensures Value() == old(Value()).(index := old(Value()).index[c := index], kernel := interest)
      ensures known == old(known) && c.addedToLoop == old(c.addedToLoop) && c.events == old(c.events)
    {
      ghost var p := Value();
      kernel := interest;
      c.index := index;
      assert Value().index == p.index[c := index];
      assert Value().events == p.events;
    }

    /** Channel::update: the channel sets its mask, then the poller adds, modifies or deletes in the kernel. */
    method SetEvents(c: Channel, mask: Mask)
      requires Valid() && c in known && Disciplined(Value(), Update(c, mask))
      modifies this, c
      ensures Valid() && known == old(known) && Value() == Step(old(Value()), Update(c, mask))
      ensures c.addedToLoop
    {
      hide Inv, Disciplined;
      ghost var p := Value();
      StepKeepsInv(p, Update(c, mask));
      AssertsExact(p, Update(c, mask));
      assert p.index[c] == c.index && p.fd[c] == c.fd;
      SetMask(c, mask);
      if c.index == New {
        assert c.fd !in channels;
        Add(c, channels[c.fd := c]);
      } else if c.index == Deleted {
        assert c.fd in channels && channels[c.fd] == c;
        Add(c, channels);
      } else {
        assert c.fd in channels && channels[c.fd] == c;
        if c.events == NONE {
          SetIndexAndKernel(c, Deleted, kernel - {c.fd});
        } else {
          assert p.index[c := Added] == p.index;
          SetIndexAndKernel(c, Added, kernel[c.fd := (c.events, c)]);
        }
      }
    }

    /** The branch of an unregistered channel: the map, the index and the kernel take it in. */
    method Add(c: Channel, registered: map<int, Channel>)
      requires c in known
      modifies this, c
      ensures Value() == old(Value()).(channels := registered, index := old(Value()).index[c := Added],
                                       kernel := old(kernel)[c.fd := (old(c.events), c)])
      ensures known == old(known) && c.addedToLoop == old(c.addedToLoop)
    {
      channels := registered;
      SetIndexAndKernel(c, Added, kernel[c.fd := (c.events, c)]);
    }

    method EnableReading(c: Channel)
      requires Valid() && c in known && Disciplined(Value(), Update(c, NONE))
      modifies this, c
      ensures Valid() && known == old(known)
      ensures Value() == Step(old(Value()), Update(c, old(c.events).(reading := true)))
    {
      SetEvents(c, c.events.(reading := true));
    }

    method DisableReading(c: Channel)
      requires Valid() && c in known && Disciplined(Value(), Update(c, NONE))
      modifies this, c
      ensures Valid() && known == old(known)
      ensures Value() == Step(old(Value()), Update(c, old(c.events).(reading := false)))
    {
      SetEvents(c, c.events.(reading := false));
    }

    method EnableWriting(c: Channel)
      requires Valid() && c in known && Disciplined(Value(), Update(c, NONE))
      modifies this, c
      ensures Valid() && known == old(known)
      ensures Value() == Step(old(Value()), Update(c, old(c.events).(writing := true)))
    {
      SetEvents(c, c.events.(writing := true));
    }

    method DisableWriting(c: Channel)
      requires Valid() && c in known && Disciplined(Value(), Update(c, NONE))
      modifies this, c
      ensures Valid() && known == old(known)
      ensures Value() == Step(old(Value()), Update(c, old(c.events).(writing := false)))
    {
      SetEvents(c, c.events.(writing := false));
    }

    method DisableAll(c: Channel)
      requires Valid() && c in known && Disciplined(Value(), Update(c, NONE))
      modifies this, c
      ensures Valid() && known == old(known) && Value() == Step(old(Value()), Update(c, NONE))
    {
      SetEvents(c, NONE);
    }

    method RemoveChannel(c: Channel)
      requires Valid() && c in known && Disciplined(Value(), Remove(c))
      modifies this, c
      ensures Valid() && known == old(known) && Value() == Step(old(Value()), Remove(c))
      ensures !c.addedToLoop
    {
      hide Inv, Disciplined;
      ghost var p := Value();
      StepKeepsInv(p, Remove(c));
      AssertsExact(p, Remove(c));
      assert p.index[c] == c.index && p.fd[c] == c.fd && p.events[c] == c.events;
      c.addedToLoop := false;
      assert c.fd in channels;
      assert channels[c.fd] == c;
      assert c.events == NONE;
      channels := channels - {c.fd};
      if c.index == Added {
        kernel := kernel - {c.fd};
      }
      c.index := New;
      assert Value() == Step(p, Remove(c));
    }

    method HasChannel(c: Channel) returns (has: bool)
      requires Valid() && c in known
      ensures has <==> c.index != New
    {
      assert Agrees(Value(), c);
      has := c.fd in channels && channels[c.fd] == c;
    }
  }

  // ----- Dispatch -----

  datatype Revents = Revents(epollIn: bool, epollPri: bool, epollOut: bool, epollErr: bool, epollHup: bool)

  datatype Callback = CloseCallback | ErrorCallback | ReadCallback | WriteCallback

  /** The callbacks one event calls, in order. */
  function Dispatch(r: Revents): seq<Callback> {
    (if r.epollHup && !r.epollIn then [CloseCallback] else []) +
    (if r.epollErr then [ErrorCallback] else []) +
    (if r.epollIn || r.epollPri || r.epollHup then [ReadCallback] else []) +
    (if r.epollOut then [WriteCallback] else [])
  }
}
