/** The cross-thread functor queue of the event loop and its wakeup descriptor. */
module EventLoopModule {
  type Functor = int

  /** Where the loop thread is: blocked in poll, handling events, about to swap, running a batch, or stopped. */
  datatype Pc = Polling | Handling | BeforeSwap | Running | Stopped

  /**
    * `pending` is the shared queue, `batch` the rest of the batch being run. `counter` is the unread value of
    * the wakeup descriptor, `wakeupActive` says that its channel is in the active list. `inflight` threads and
    * (`ownWrite`) the loop thread itself are between their push and their write. `history` is every functor
    * ever queued; its first `silent` ones were queued before the loop started and never announced.
    */
  datatype Loop = Loop(pc: Pc, pending: seq<Functor>, batch: seq<Functor>, executed: seq<Functor>,
                       counter: nat, wakeupActive: bool, inflight: nat, ownWrite: bool, quit: bool,
                       history: seq<Functor>, silent: nat)

  /** What the loop finds when it starts: a queue, an unread counter, and threads that have yet to write. */
  datatype Before = Before(queued: seq<Functor>, counter: nat, inflight: nat)

  /** Something is queued and no wakeup is there or on its way, as when the loop thread queued it itself. */
  predicate Unannounced(b: Before) {
    b.queued != [] && b.counter == 0 && b.inflight == 0
  }

  function Start(b: Before): Loop {
    Loop(Polling, b.queued, [], [], b.counter, false, b.inflight, false, false, b.queued,
         if Unannounced(b) then |b.queued| else 0)
  }

  /** The flag callingPendingFunctors_. */
  predicate Calling(s: Loop) {
    s.pc == BeforeSwap || s.pc == Running
  }

  /** One atomic step of the loop thread or of another thread. */
  datatype Event =
    | OtherPush(f: Functor)
    | OtherWrite
    | OtherQuit
    | PollReturn(wakeup: bool)
    | ReadWakeup
    | LoopPush(f: Functor)
    | LoopWrite
    | LoopQuit
    | StartPending
    | Swap
    | RunOne
    | Finish

  predicate Possible(s: Loop, e: Event) {
    match e
    case OtherPush(_) => true
    case OtherWrite => s.inflight > 0
    case OtherQuit => true
    case PollReturn(wakeup) => s.pc == Polling && (wakeup ==> s.counter > 0)
    case ReadWakeup => s.pc == Handling && s.wakeupActive
    case LoopPush(_) => (s.pc == Handling || s.pc == Running) && !s.ownWrite
    case LoopWrite => s.ownWrite
    case LoopQuit => s.pc == Handling || s.pc == Running
    case StartPending => s.pc == Handling && !s.wakeupActive
    case Swap => s.pc == BeforeSwap
    case RunOne => s.pc == Running && !s.ownWrite && s.batch != []
    case Finish => s.pc == Running && !s.ownWrite && s.batch == []
  }

  function Step(s: Loop, e: Event): Loop
    requires Possible(s, e)
  {
    match e
    case OtherPush(f) => s.(pending := s.pending + [f], history := s.history + [f], inflight := s.inflight + 1)
    case OtherWrite => s.(inflight := s.inflight - 1, counter := s.counter + 1)
    case OtherQuit => s.(quit := true, inflight := s.inflight + 1)
    case PollReturn(wakeup) => s.(pc := Handling, wakeupActive := wakeup)
    case ReadWakeup => s.(counter := 0, wakeupActive := false)
    case LoopPush(f) => s.(pending := s.pending + [f], history := s.history + [f], ownWrite := Calling(s))
    case LoopWrite => s.(counter := s.counter + 1, ownWrite := false)
    case LoopQuit => s.(quit := true)
    case StartPending => s.(pc := BeforeSwap)
    case Swap => s.(batch := s.pending, pending := [], pc := Running)
    case RunOne => s.(executed := s.executed + [s.batch[0]], batch := s.batch[1..])
    case Finish => s.(pc := if s.quit then Stopped else Polling)
  }

  predicate Schedule(s: Loop, es: seq<Event>)
    decreases |es|
  {
    es == [] || (Possible(s, es[0]) && Schedule(Step(s, es[0]), es[1..]))
  }

  function Run(s: Loop, es: seq<Event>): Loop
    requires Schedule(s, es)
    decreases |es|
  {
    if es == [] then s else Run(Step(s, es[0]), es[1..])
  }

  // ----- The invariant -----

  /** Nothing has been run yet and the queue still starts with the functors queued before the loop. */
  predicate Untouched(s: Loop) {
    s.executed == [] && s.batch == [] && s.silent <= |s.pending|
  }

  predicate Inv(s: Loop) {
    s.executed + s.batch + s.pending == s.history &&
    s.silent <= |s.history| &&
    (s.batch != [] ==> s.pc == Running) &&
    (s.ownWrite ==> s.pc == Running) &&
    (s.wakeupActive ==> s.pc == Handling) &&
    // a functor queued since the loop began is announced, unless the loop will still look at the queue
    (s.pc == Polling || s.pc == Running ==>
      s.pending == [] || s.counter > 0 || s.inflight > 0 || s.ownWrite ||
      (Untouched(s) && |s.pending| == s.silent))
  }

  lemma StepKeepsInv(s: Loop, e: Event)
    requires Inv(s) && Possible(s, e)
    ensures Inv(Step(s, e))
  {
    var t := Step(s, e);
    match e
    case OtherPush(f) => assert t.executed + t.batch + t.pending == s.history + [f];
    case LoopPush(f) => assert t.executed + t.batch + t.pending == s.history + [f];
    case RunOne => assert t.executed + t.batch + t.pending == s.executed + s.batch + s.pending;
    case _ =>
  }

  lemma {:induction false} RunKeepsInv(s: Loop, es: seq<Event>)
    requires Inv(s) && Schedule(s, es)
    ensures Inv(Run(s, es)) && Run(s, es).silent == s.silent
    decreases |es|
  {
    if es == [] {
    } else {
      StepKeepsInv(s, es[0]);
      RunKeepsInv(Step(s, es[0]), es[1..]);
    }
  }

  // ----- Main results -----

  /** Under every interleaving the functors run at most once each and in the order they were queued. */
  lemma RunInOrder(b: Before, es: seq<Event>)
    requires Schedule(Start(b), es)
    ensures var s := Run(Start(b), es);
            s.executed + s.batch + s.pending == s.history && s.executed <= s.history
  {
    StartInv(b);
    RunKeepsInv(Start(b), es);
    var s := Run(Start(b), es);
    assert s.executed == s.history[..|s.executed|];
  }

  lemma StartInv(b: Before)
    ensures Inv(Start(b))
  {
    assert [] + [] + b.queued == b.queued;
  }

  /** The loop is blocked with no unread wakeup and no writer on its way, yet some functor has not run. */
  predicate Stranded(s: Loop) {
    s.pc == Polling && s.counter == 0 && s.inflight == 0 && s.executed != s.history
  }

  /** A stranded functor was queued unannounced before the loop began, and nothing has been queued since. */
  lemma OnlyEarlyFunctorsStrand(b: Before, es: seq<Event>)
    requires Schedule(Start(b), es)
    ensures var s := Run(Start(b), es);
            Stranded(s) ==> Unannounced(b) && s.history == b.queued && s.executed == []
  {
    hide Possible, Step;
    StartInv(b);
    RunKeepsInv(Start(b), es);
    HistoryGrows(Start(b), es);
    var s := Run(Start(b), es);
    if Stranded(s) {
      StrandedUntouched(s);
      hide Inv, Run;
    }
  }

  /** A stranded loop has not run anything: all it knows was queued unannounced before it began. */
  lemma StrandedUntouched(s: Loop)
    requires Inv(s) && Stranded(s)
    ensures s.executed == [] && |s.history| == s.silent > 0
  {
    assert s.pending == [] ==> s.executed + s.batch + s.pending == s.executed;
    assert s.executed == [] && s.batch == [] ==> s.executed + s.batch + s.pending == s.pending;
  }

  // ----- The state as a function of the events -----

  /** The functors queued by a list of events, in order. */
  function Pushed(es: seq<Event>): seq<Functor> {
    if es == [] then [] else Pushed(es[..|es| - 1]) + PushedBy(es[|es| - 1])
  }

  function PushedBy(e: Event): seq<Functor> {
    match e
    case OtherPush(f) => [f]
    case LoopPush(f) => [f]
    case _ => []
  }

  /** The wakeups written since the descriptor was last read, with `n` unread before. */
  function Unread(n: nat, es: seq<Event>): nat {
    if es == [] then n else UnreadAfter(Unread(n, es[..|es| - 1]), es[|es| - 1])
  }

  function UnreadAfter(n: nat, e: Event): nat {
    match e
    case OtherWrite => n + 1
    case LoopWrite => n + 1
    case ReadWakeup => 0
    case _ => n
  }

  /** One of the events asks the loop to quit. */
  predicate AsksToQuit(es: seq<Event>) {
    OtherQuit in es || LoopQuit in es
  }

  lemma {:induction false} RunSnoc(s: Loop, es: seq<Event>)
    requires es != [] && Schedule(s, es)
    ensures var pre, e := es[..|es| - 1], es[|es| - 1];
            Schedule(s, pre) && Possible(Run(s, pre), e) && Run(s, es) == Step(Run(s, pre), e)
    decreases |es|
  {
    hide Possible, Step;
    var pre, e := es[..|es| - 1], es[|es| - 1];
    if |es| == 1 {
      assert pre == [] && es[1..] == [];
      assert Run(Step(s, e), []) == Step(s, e);
    } else {
      RunSnoc(Step(s, es[0]), es[1..]);
      assert pre[1..] == es[1..][..|es| - 2] && pre[0] == es[0];
    }
  }

  /**
    * Over every run the history is what was queued before and then exactly the functors the events queued, the
    * wakeup descriptor holds exactly the wakeups written since it was last read, and quit is set iff asked for.
    */
  lemma {:induction false} StateFollowsEvents(s: Loop, es: seq<Event>)
    requires Schedule(s, es)
    ensures var r := Run(s, es);
            r.history == s.history + Pushed(es) && r.counter == Unread(s.counter, es) &&
            (r.quit <==> s.quit || AsksToQuit(es))
    decreases |es|
  {
    if es == [] {
    } else {
      hide Schedule, Run, Possible, Step, AsksToQuit, Pushed, Unread;
      var n := |es| - 1;
      RunSnoc(s, es);
      StateFollowsEvents(s, es[..n]);
      StepFollowsEvent(Run(s, es[..n]), es[n]);
      EventsSnoc(s.counter, es);
    }
  }

  /** What the last event adds. */
  lemma EventsSnoc(n: nat, es: seq<Event>)
    requires es != []
    ensures var pre, e := es[..|es| - 1], es[|es| - 1];
            Pushed(es) == Pushed(pre) + PushedBy(e) && Unread(n, es) == UnreadAfter(Unread(n, pre), e) &&
            (AsksToQuit(es) <==> AsksToQuit(pre) || e == OtherQuit || e == LoopQuit)
  {
    assert es == es[..|es| - 1] + [es[|es| - 1]];
  }

  lemma StepFollowsEvent(s: Loop, e: Event)
    requires Possible(s, e)
    ensures var r := Step(s, e);
            r.history == s.history + PushedBy(e) && r.counter == UnreadAfter(s.counter, e) &&
            (r.quit <==> s.quit || e == OtherQuit || e == LoopQuit)
  {
  }

  // ----- Stopping -----

  /** The loop has stopped only because it was asked to; a blocked loop that was asked has a wakeup to come. */
  predicate QuitOk(s: Loop) {
    (s.pc == Stopped ==> s.quit) && (s.pc == Polling && s.quit ==> s.counter > 0 || s.inflight > 0)
  }

  lemma {:induction false} QuitIsSeen(s: Loop, es: seq<Event>)
    requires QuitOk(s) && Schedule(s, es)
    ensures QuitOk(Run(s, es))
    decreases |es|
  {
    if es == [] {
    } else {
      assert QuitOk(Step(s, es[0]));
      hide Possible, Step, QuitOk;
      QuitIsSeen(Step(s, es[0]), es[1..]);
    }
  }

  lemma {:induction false} StoppedIsFinal(s: Loop, es: seq<Event>)
    requires s.pc == Stopped && !s.ownWrite && Schedule(s, es)
    ensures Run(s, es).pc == Stopped
    decreases |es|
  {
    if es == [] {
    } else {
      StoppedIsFinal(Step(s, es[0]), es[1..]);
    }
  }

  /**
    * Over every run the loop stops only after quit was asked for, a blocked loop that was asked has a wakeup there
    * or on its way, and the first batch that ends after the request is the last one.
    */
  lemma QuitExactly(b: Before, es: seq<Event>, later: seq<Event>)
    requires Schedule(Start(b), es)
    ensures var s := Run(Start(b), es);
            (s.pc == Stopped ==> AsksToQuit(es)) &&
            (s.pc == Polling && AsksToQuit(es) ==> s.counter > 0 || s.inflight > 0) &&
            (Possible(s, Finish) && Schedule(Step(s, Finish), later) ==>
              (AsksToQuit(es) ==> Run(Step(s, Finish), later).pc == Stopped) &&
              (!AsksToQuit(es) ==> Step(s, Finish).pc == Polling))
  {
    StateFollowsEvents(Start(b), es);
    QuitIsSeen(Start(b), es);
    var s := Run(Start(b), es);
    if Possible(s, Finish) && Schedule(Step(s, Finish), later) && s.quit {
      StoppedIsFinal(Step(s, Finish), later);
    }
    hide Run, Schedule;
  }

  /** A wakeup that poll reported is read before the loop turns to its functors. */
  lemma {:induction false} WakeupIsReadFirst(s: Loop, es: seq<Event>)
    requires s.pc == Handling && s.wakeupActive && ReadWakeup !in es && Schedule(s, es)
    ensures Run(s, es).pc == Handling
    decreases |es|
  {
    if es == [] {
    } else {
      assert es[0] in es;
      WakeupIsReadFirst(Step(s, es[0]), es[1..]);
    }
  }

  lemma ReportedWakeupIsRead(s: Loop, es: seq<Event>)
    requires Possible(s, PollReturn(true)) && Schedule(Step(s, PollReturn(true)), es) && ReadWakeup !in es
    ensures Run(Step(s, PollReturn(true)), es).pc == Handling
  {
    WakeupIsReadFirst(Step(s, PollReturn(true)), es);
  }

  lemma {:induction false} HistoryGrows(s: Loop, es: seq<Event>)
    requires Schedule(s, es)
    ensures s.history <= Run(s, es).history
    decreases |es|
  {
    if es != [] {
      HistoryGrows(Step(s, es[0]), es[1..]);
    }
  }

  /** A schedule that ends with a functor stranded. */
  predicate Strands(b: Before, es: seq<Event>) {
    Schedule(Start(b), es) && Stranded(Run(Start(b), es))
  }

  /** No schedule strands a functor iff nothing was queued unannounced before the loop began. */
  lemma NoFunctorStranded(b: Before)
    ensures (forall es :: !Strands(b, es)) <==> !Unannounced(b)
  {
    if !Unannounced(b) {
      forall es
        ensures !Strands(b, es)
      {
        if Schedule(Start(b), es) {
          OnlyEarlyFunctorsStrand(b, es);
        }
      }
    } else {
      // without any step the loop is already blocked, and what was queued before it began has not run
      assert Strands(b, []);
    }
  }

  // ----- The class -----

  class EventLoop {
    var pc: Pc
    var quit: bool
    var callingPendingFunctors: bool
    var pendingFunctors: seq<Functor>
    var functors: seq<Functor>
    var wakeupCounter: nat
    var wakeupActive: bool
    ghost var executed: seq<Functor>
    ghost var history: seq<Functor>
    ghost var silent: nat
    ghost var inflight: nat
    ghost var ownWrite: bool

    ghost function Value(): Loop
      reads this
    {
      Loop(pc, pendingFunctors, functors, executed, wakeupCounter, wakeupActive, inflight, ownWrite, quit,
           history, silent)
    }

    ghost predicate Valid()
      reads this
    {
      Inv(Value()) && callingPendingFunctors == Calling(Value())
    }

    constructor ()
      ensures Valid() && Value() == Start(Before([], 0, 0))
    {
      pc, quit, callingPendingFunctors := Polling, false, false;
      pendingFunctors, functors := [], [];
      wakeupCounter, wakeupActive := 0, false;
      executed, history, silent, inflight, ownWrite := [], [], 0, 0, false;
    }

    /** queueInLoop by another thread, up to the end of the critical section. */
    method QueueFromOther(f: Functor)
      requires Valid()
      modifies this
      ensures Valid() && Value() == Step(old(Value()), OtherPush(f))
    {
      StepKeepsInv(Value(), OtherPush(f));
      pendingFunctors := pendingFunctors + [f];
      history, inflight := history + [f], inflight + 1;
    }

    /** The write that follows it. */
    method WakeupFromOther()
      requires Valid() && inflight > 0
      modifies this
      ensures Valid() && Value() == Step(old(Value()), OtherWrite)
    {
      StepKeepsInv(Value(), OtherWrite);
      wakeupCounter := wakeupCounter + 1;
      inflight := inflight - 1;
    }

    /** queueInLoop by the loop thread: it writes a wakeup only while it runs a batch. */
    method QueueFromLoop(f: Functor)
      requires Valid() && (pc == Handling || pc == Running) && !ownWrite
      modifies this
      ensures Valid()
      ensures var s := Step(old(Value()), LoopPush(f));
              Value() == if old(pc) == Running then Step(s, LoopWrite) else s
    {
      StepKeepsInv(Value(), LoopPush(f));
      ghost var s := Step(Value(), LoopPush(f));
      pendingFunctors := pendingFunctors + [f];
      history := history + [f];
      if callingPendingFunctors {
        StepKeepsInv(s, LoopWrite);
        wakeupCounter := wakeupCounter + 1;
      }
    }

    /** Reading the descriptor takes its whole value. */
    method HandleRead()
      requires Valid() && Possible(Value(), ReadWakeup)
      modifies this
      ensures Valid() && Value() == Step(old(Value()), ReadWakeup)
    {
      StepKeepsInv(Value(), ReadWakeup);
      wakeupCounter := 0;
      wakeupActive := false;
    }

    /** One turn of the batch loop: the functor runs and queues functors of its own, each with a wakeup. */
    method RunFunctor(own: seq<Functor>)
      requires Valid() && pc == Running && !ownWrite && functors != []
      modifies this
      ensures Valid() && pc == Running && !ownWrite && quit == old(quit) && inflight == old(inflight)
      ensures executed == old(executed) + [old(functors)[0]] && functors == old(functors)[1..]
      ensures pendingFunctors == old(pendingFunctors) + own && history == old(history) + own
      ensures wakeupCounter == old(wakeupCounter) + |own| && silent == old(silent)
    {
      hide Inv;
      StepKeepsInv(Value(), RunOne);
      executed := executed + [functors[0]];
      functors := functors[1..];
      label Ran:
      for k := 0 to |own|
        invariant Valid() && pc == Running && !ownWrite && quit == old(quit) && inflight == old(inflight)
        invariant functors == old@Ran(functors) && executed == old@Ran(executed) && silent == old(silent)
        invariant pendingFunctors == old(pendingFunctors) + own[..k] && history == old(history) + own[..k]
        invariant wakeupCounter == old(wakeupCounter) + k
      {
        QueueFromLoop(own[k]);
        assert own[..k + 1] == own[..k] + [own[k]];
      }
      assert own[..|own|] == own;
    }

    /** Raising the flag, then the critical section that takes the whole queue. */
    method TakeBatch()
      requires Valid() && Possible(Value(), StartPending)
      modifies this
      ensures Valid() && !ownWrite
      ensures Value() == Step(Step(old(Value()), StartPending), Swap)
      ensures pc == Running && functors == old(pendingFunctors) && pendingFunctors == []
      ensures executed == old(executed) && history == old(history) && wakeupCounter == old(wakeupCounter)
      ensures inflight == old(inflight) && quit == old(quit)
    {
      StepKeepsInv(Value(), StartPending);
      callingPendingFunctors := true;
      pc := BeforeSwap;
      StepKeepsInv(Value(), Swap);
      functors, pendingFunctors := pendingFunctors, [];
      pc := Running;
    }

    method FinishBatch()
      requires Valid() && pc == Running && !ownWrite && functors == []
      modifies this
      ensures Valid() && Value() == Step(old(Value()), Finish)
      ensures pc == (if quit then Stopped else Polling) && quit == old(quit) && functors == []
      ensures executed == old(executed) && history == old(history) && wakeupCounter == old(wakeupCounter)
      ensures inflight == old(inflight) && pendingFunctors == old(pendingFunctors)
    {
      StepKeepsInv(Value(), Finish);
      callingPendingFunctors := false;
      pc := if quit then Stopped else Polling;
    }

    /**
      * The end of an iteration when no other thread interferes: the queue is taken as one batch and run in
      * order; what functor f queues itself (`queues(f)`) waits for the next iteration, with a wakeup written.
      */
    method DoPendingFunctors(queues: Functor -> seq<Functor>)
      requires Valid() && Possible(Value(), StartPending)
      modifies this
      ensures Valid() && pc == (if old(quit) then Stopped else Polling)
      ensures executed == old(executed) + old(pendingFunctors) && functors == []
      ensures pendingFunctors == Queued(old(pendingFunctors), queues)
      ensures wakeupCounter == old(wakeupCounter) + |pendingFunctors| && inflight == old(inflight)
      ensures history == old(history) + pendingFunctors
    {
      hide Inv, Step, Calling, Possible;
      TakeBatch();
      var i := 0;
      var all := functors;
      while i < |all|
        invariant Valid() && pc == Running && !ownWrite && quit == old(quit) && inflight == old(inflight)
        invariant 0 <= i <= |all| && functors == all[i..]
        invariant executed == old(executed) + all[..i]
        invariant pendingFunctors == Queued(all[..i], queues)
        invariant wakeupCounter == old(wakeupCounter) + |pendingFunctors|
        invariant history == old(history) + pendingFunctors
      {
        assert all[..i + 1] == all[..i] + [all[i]];
        QueuedSnoc(all[..i], all[i], queues);
        RunFunctor(queues(functors[0]));
        i := i + 1;
      }
      assert all[..i] == all;
      FinishBatch();
    }
  }

  /** What a batch of functors queues, in order. */
  function Queued(batch: seq<Functor>, queues: Functor -> seq<Functor>): seq<Functor> {
    if batch == [] then [] else Queued(batch[..|batch| - 1], queues) + queues(batch[|batch| - 1])
  }

  lemma QueuedSnoc(batch: seq<Functor>, f: Functor, queues: Functor -> seq<Functor>)
    ensures Queued(batch + [f], queues) == Queued(batch, queues) + queues(f)
  {
    assert (batch + [f])[..|batch|] == batch;
  }
}
