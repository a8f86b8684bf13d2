/** The timer queue: five containers, a timer descriptor, and callbacks that add and cancel timers. */
module TimerQueueModule {
  import opened CInt

  /** A timer is known by its address, which never changes and is never reused while the queue lives. */
  type TimerPtr = nat

  datatype Entry = Entry(when: int, t: TimerPtr)

  /** Whether a timer repeats and its interval in microseconds. */
  datatype Info = Info(repeat: bool, delta: nat)

  /** The timer descriptor: disarmed, armed at `setAt` for a deadline, or expired and not yet read. */
  datatype TimerFd = Disarmed | Armed(deadline: int, setAt: int) | Readable

  const MICROS_PER_SECOND := 1000 * 1000
  const MIN_DELAY := 100

  // ----- The descriptor -----

  /** The delay programmed, in microseconds. */
  function Delay(when: int, now: int): (d: int)
    ensures d >= MIN_DELAY && now + d >= when
    ensures now + d == if when >= now + MIN_DELAY then when else now + MIN_DELAY
  {
    if when - now < MIN_DELAY then MIN_DELAY else when - now
  }

  /** Seconds and nanoseconds of the delay: never zero, since zero would disarm the descriptor. */
  method HowMuchTimeFromNow(when: int, now: int) returns (sec: int, nsec: int)
    ensures 0 <= sec && 0 <= nsec < 1000 * MICROS_PER_SECOND && (sec > 0 || nsec > 0)
    ensures sec * MICROS_PER_SECOND * 1000 + nsec == Delay(when, now) * 1000
  {
    var microseconds := when - now;
    if microseconds < 100 {
      microseconds := 100;
    }
    sec := TruncDiv(microseconds, MICROS_PER_SECOND);
    nsec := TruncMod(microseconds, MICROS_PER_SECOND) * 1000;
  }

  function Arm(when: int, now: int): TimerFd {
    Armed(now + Delay(when, now), now)
  }

  // ----- The ordered set of entries -----

  predicate Less(a: Entry, b: Entry) {
    a.when < b.when || (a.when == b.when && a.t < b.t)
  }

  predicate Sorted(s: seq<Entry>) {
    forall i, j :: 0 <= i < j < |s| ==> Less(s[i], s[j])
  }

  /** Where an entry is, or belongs. */
  function Position(s: seq<Entry>, e: Entry): (i: nat)
    ensures i <= |s|
    ensures forall k :: 0 <= k < i ==> Less(s[k], e)
    ensures i < |s| ==> !Less(s[i], e)
  {
    if s == [] || !Less(s[0], e) then 0 else 1 + Position(s[1..], e)
  }

  function InsertEntry(s: seq<Entry>, e: Entry): seq<Entry> {
    s[..Position(s, e)] + [e] + s[Position(s, e)..]
  }

  function EraseEntry(s: seq<Entry>, e: Entry): seq<Entry> {
    var i := Position(s, e);
    if i < |s| && s[i] == e then s[..i] + s[i + 1..] else s
  }

  lemma LessTransitive(a: Entry, b: Entry, c: Entry)
    ensures Less(a, b) && Less(b, c) ==> Less(a, c)
    ensures Less(a, b) || Less(b, a) || a == b
    ensures !(Less(a, b) && Less(b, a))
  {
  }

  lemma InsertEntrySorted(s: seq<Entry>, e: Entry)
    requires Sorted(s) && e !in s
    ensures Sorted(InsertEntry(s, e))
    ensures forall x :: x in InsertEntry(s, e) <==> x in s || x == e
  {
    var i, r := Position(s, e), InsertEntry(s, e);
    forall k | i <= k < |s|
      ensures Less(e, s[k])
    {
      assert s[i] in s;
      LessTransitive(e, s[i], s[k]);
    }
    hide Less, Position;
    assert forall k :: 0 <= k < |r| ==> r[k] == if k < i then s[k] else if k == i then e else s[k - 1];
    InsertMembers(s, i, e);
  }

  lemma InsertMembers(s: seq<Entry>, i: nat, e: Entry)
    requires i <= |s|
    ensures forall x :: x in s[..i] + [e] + s[i..] <==> x in s || x == e
  {
    assert s == s[..i] + s[i..];
  }

  lemma EraseEntrySorted(s: seq<Entry>, e: Entry)
    requires Sorted(s) && e in s
    ensures Sorted(EraseEntry(s, e)) && |EraseEntry(s, e)| == |s| - 1
    ensures forall x :: x in EraseEntry(s, e) <==> x in s && x != e
  {
    var i := Position(s, e);
    PositionFound(s, e);
    hide Less, Position;
    var r := s[..i] + s[i + 1..];
    assert forall k :: 0 <= k < |r| ==> r[k] == if k < i then s[k] else s[k + 1];
    RemoveMember(s, i, e);
  }

  /** The entry itself is at its position, and nowhere else. */
  lemma PositionFound(s: seq<Entry>, e: Entry)
    requires Sorted(s) && e in s
    ensures var i := Position(s, e);
            i < |s| && s[i] == e && forall k :: 0 <= k < |s| && k != i ==> s[k] != e
  {
    var i := Position(s, e);
    var j :| 0 <= j < |s| && s[j] == e;
    LessTransitive(e, e, e);
    assert i == j;
    forall k | 0 <= k < |s| && k != i
      ensures s[k] != e
    {
      assert k < i ==> Less(s[k], s[i]);
      assert i < k ==> Less(s[i], s[k]);
    }
  }

  lemma RemoveMember(s: seq<Entry>, i: nat, e: Entry)
    requires i < |s| && s[i] == e && forall k :: 0 <= k < |s| && k != i ==> s[k] != e
    ensures forall x :: x in s[..i] + s[i + 1..] <==> x in s && x != e
  {
    var r := s[..i] + s[i + 1..];
    assert s == s[..i] + [e] + s[i + 1..];
    forall x | x in r
      ensures x != e
    {
      var k :| 0 <= k < |r| && r[k] == x;
      assert x == s[if k < i then k else k + 1];
    }
  }

  // ----- Lists of timers -----

  predicate NoDup(s: seq<TimerPtr>) {
    forall i, j :: 0 <= i < j < |s| ==> s[i] != s[j]
  }

  /** std::find. */
  function Find(s: seq<TimerPtr>, t: TimerPtr): (i: nat)
    ensures i <= |s| && (i < |s| <==> t in s) && (i < |s| ==> s[i] == t)
    ensures forall k :: 0 <= k < i ==> s[k] != t
  {
    if s == [] || s[0] == t then 0 else 1 + Find(s[1..], t)
  }

  function Erase(s: seq<TimerPtr>, t: TimerPtr): seq<TimerPtr> {
    var i := Find(s, t);
    if i < |s| then s[..i] + s[i + 1..] else s
  }

  lemma EraseKeeps(s: seq<TimerPtr>, t: TimerPtr)
    requires NoDup(s)
    ensures NoDup(Erase(s, t))
    ensures forall x :: x in Erase(s, t) <==> x in s && x != t
    ensures |Erase(s, t)| == if t in s then |s| - 1 else |s|
  {
    var i, r := Find(s, t), Erase(s, t);
    if i < |s| {
      assert forall k :: 0 <= k < |r| ==> r[k] == if k < i then s[k] else s[k + 1];
      assert forall k :: 0 <= k < |s| && k != i ==> s[k] == r[if k < i then k else k - 1];
    }
  }

  function EraseAll(s: seq<TimerPtr>, ts: seq<TimerPtr>): seq<TimerPtr> {
    if ts == [] then s else Erase(EraseAll(s, ts[..|ts| - 1]), ts[|ts| - 1])
  }

  lemma {:induction false} EraseAllKeeps(s: seq<TimerPtr>, ts: seq<TimerPtr>)
    requires NoDup(s) && NoDup(ts) && forall t :: t in ts ==> t in s
    ensures NoDup(EraseAll(s, ts)) && |EraseAll(s, ts)| == |s| - |ts|
    ensures forall x :: x in EraseAll(s, ts) <==> x in s && x !in ts
  {
    if ts == [] {
    } else {
      var n := |ts| - 1;
      assert ts == ts[..n] + [ts[n]];
      EraseAllKeeps(s, ts[..n]);
      EraseKeeps(EraseAll(s, ts[..n]), ts[n]);
      assert forall x :: x in ts <==> x in ts[..n] || x == ts[n];
    }
  }

  // ----- The queue as a value -----

  /** One callback run, and the batch it ran in. */
  datatype Ran = Ran(batch: nat, t: TimerPtr)

  /**
    * The five containers (`timers` in set order), the batch flag, what each timer holds, the descriptor and
    * the clock. `done` callbacks of the batch have run; `ran` is the log of all callbacks, `batch` numbers
    * the batches, `batchNow` is the time the batch was taken at.
    */
  datatype Queue = Queue(timers: seq<Entry>, wait: seq<TimerPtr>, active: seq<TimerPtr>,
                         canceling: seq<TimerPtr>, free: seq<TimerPtr>, calling: bool,
                         expiration: map<TimerPtr, int>, info: map<TimerPtr, Info>,
                         fd: TimerFd, clock: int, done: nat, ran: seq<Ran>, batch: nat, batchNow: int)

  function Start(clock: int): Queue {
    Queue([], [], [], [], [], false, map[], map[], Disarmed, clock, 0, [], 0, 0)
  }

  /** TimerQueue::insert. */
  function Insert(s: Queue, t: TimerPtr): Queue
    requires t in s.expiration
  {
    s.(timers := InsertEntry(s.timers, Entry(s.expiration[t], t)), wait := s.wait + [t])
  }

  predicate EarliestChanged(s: Queue, when: int) {
    s.timers == [] || when < s.timers[0].when
  }

  function Add(s: Queue, t: TimerPtr, when: int, info: Info): Queue {
    var u := Insert(s.(expiration := s.expiration[t := when], info := s.info[t := info]), t);
    if EarliestChanged(s, when) then u.(fd := Arm(when, s.clock)) else u
  }

  function Cancel(s: Queue, t: TimerPtr): Queue {
    if t in s.wait && t in s.expiration then
      s.(free := s.free + [t], timers := EraseEntry(s.timers, Entry(s.expiration[t], t)), wait := Erase(s.wait, t))
    else if s.calling && t in s.active then s.(canceling := s.canceling + [t])
    else s
  }

  /** The number of entries up to a time: lower_bound of a sentry with the greatest address. */
  function ExpiredCount(s: seq<Entry>, now: int): (n: nat)
    ensures n <= |s|
    ensures forall k :: 0 <= k < n ==> s[k].when <= now
    ensures n < |s| ==> s[n].when > now
  {
    if s == [] || s[0].when > now then 0 else 1 + ExpiredCount(s[1..], now)
  }

  function Pointers(s: seq<Entry>): (ts: seq<TimerPtr>)
    ensures |ts| == |s| && forall i :: 0 <= i < |s| ==> ts[i] == s[i].t
  {
    seq(|s|, i requires 0 <= i < |s| => s[i].t)
  }

  /** The expired prefix of the set goes to the active list and off the waiting list. */
  function Expire(s: Queue, now: int): Queue {
    var n := ExpiredCount(s.timers, now);
    var expired := Pointers(s.timers[..n]);
    s.(active := expired, wait := EraseAll(s.wait, expired), timers := s.timers[n..])
  }

  /** Reading the descriptor, taking the expired timers, raising the flag. */
  function Begin(s: Queue): Queue {
    Expire(s.(fd := if s.fd.Readable? then Disarmed else s.fd), s.clock)
      .(calling := true, canceling := [], done := 0, batch := s.batch + 1, batchNow := s.clock)
  }

  function RunOne(s: Queue): Queue
    requires s.done < |s.active|
  {
    s.(ran := s.ran + [Ran(s.batch, s.active[s.done])], done := s.done + 1)
  }

  /** One turn of the reset loop: a repeating timer that was not cancelled goes back, any other is freed. */
  function ResetOne(s: Queue, t: TimerPtr): Queue
    requires t in s.info
  {
    if s.info[t].repeat && t !in s.canceling then
      Insert(s.(expiration := s.expiration[t := s.batchNow + s.info[t].delta]), t)
    else s.(free := s.free + [t])
  }

  function ResetAll(s: Queue, ts: seq<TimerPtr>): (r: Queue)
    requires forall t :: t in ts ==> t in s.info
    ensures r == s.(timers := r.timers, wait := r.wait, free := r.free, expiration := r.expiration)
    decreases |ts|
  {
    if ts == [] then s else ResetAll(ResetOne(s, ts[0]), ts[1..])
  }

  /** Lowering the flag, the reset loop, and arming for the earliest timer. */
  function End(s: Queue): Queue
    requires forall t :: t in s.active ==> t in s.info
  {
    var r := ResetAll(s.(calling := false), s.active);
    if r.timers != [] && r.timers[0].when > 0 then r.(fd := Arm(r.timers[0].when, r.clock)) else r
  }

  function Tick(s: Queue, clock: int): Queue {
    s.(clock := clock, fd := if s.fd.Armed? && s.fd.deadline <= clock then Readable else s.fd)
  }

  // ----- Events: callbacks may add and cancel between any two steps of a batch -----

  datatype Event =
    | AddTimer(t: TimerPtr, when: int, info: Info)
    | CancelTimer(t: TimerPtr)
    | TimePasses(clock: int)
    | BeginBatch
    | RunNext
    | EndBatch

  /** A new timer has a new address and, like the clock, a positive time. */
  predicate Possible(s: Queue, e: Event) {
    match e
    case AddTimer(t, when, info) => t !in s.expiration && when > 0
    case CancelTimer(_) => true
    case TimePasses(clock) => s.clock <= clock
    case BeginBatch => !s.calling
    case RunNext => s.calling && s.done < |s.active|
    case EndBatch => s.calling && s.done == |s.active|
  }

  /** The assertions of the source, and that every pointer it follows is a known timer. */
  predicate AssertsHold(s: Queue, e: Event) {
    match e
    case AddTimer(t, when, _) => Entry(when, t) !in s.timers
    case CancelTimer(t) => t in s.wait ==> t in s.expiration && Entry(s.expiration[t], t) in s.timers
    case BeginBatch => ExpireAsserts(s.timers, s.wait, s.clock)
    case EndBatch =>
      (forall t :: t in s.active ==> t in s.info) && ResetAsserts(s.(calling := false), s.active)
    case _ => true
  }

  /** The sentry splits the set at the time, each expired timer is still waiting, and the sizes agree after. */
  predicate ExpireAsserts(timers: seq<Entry>, wait: seq<TimerPtr>, now: int) {
    var n := ExpiredCount(timers, now);
    (n < |timers| ==> now < timers[n].when) &&
    (forall i :: 0 <= i < n ==> timers[i].t in EraseAll(wait, Pointers(timers[..i]))) &&
    |timers[n..]| == |EraseAll(wait, Pointers(timers[..n]))|
  }

  /** Each insertion of the reset loop is of a new entry. */
  predicate ResetAsserts(s: Queue, ts: seq<TimerPtr>)
    requires forall t :: t in ts ==> t in s.info
    decreases |ts|
  {
    ts == [] ||
    ((s.info[ts[0]].repeat && ts[0] !in s.canceling ==>
        Entry(s.batchNow + s.info[ts[0]].delta, ts[0]) !in s.timers) &&
     ResetAsserts(ResetOne(s, ts[0]), ts[1..]))
  }

  function Step(s: Queue, e: Event): Queue
    requires Possible(s, e) && AssertsHold(s, e)
  {
    match e
    case AddTimer(t, when, info) => Add(s, t, when, info)
    case CancelTimer(t) => Cancel(s, t)
    case TimePasses(clock) => Tick(s, clock)
    case BeginBatch => Begin(s)
    case RunNext => RunOne(s)
    case EndBatch => End(s)
  }

  // ----- The invariant: the containers agree -----

  /** `timers` is exactly the waiting timers with their expirations. */
  ghost predicate Agree(timers: seq<Entry>, wait: seq<TimerPtr>, expiration: map<TimerPtr, int>) {
    Sorted(timers) && NoDup(wait) && |timers| == |wait| &&
    (forall e :: e in timers ==> e.t in wait && e.t in expiration && expiration[e.t] == e.when) &&
    (forall t :: t in wait ==> t in expiration && Entry(expiration[t], t) in timers)
  }

  /** Every known timer is in exactly one place: waiting, freed, or in the given rest of a batch. */
  ghost predicate Placed(known: set<TimerPtr>, wait: seq<TimerPtr>, free: seq<TimerPtr>, rest: seq<TimerPtr>) {
    NoDup(rest) && NoDup(free) &&
    (forall t :: t in known <==> t in wait || t in free || t in rest) &&
    (forall t :: t in wait ==> t !in free && t !in rest) &&
    (forall t :: t in free ==> t !in rest)
  }

  ghost predicate Positive(expiration: map<TimerPtr, int>) {
    forall t :: t in expiration ==> expiration[t] > 0
  }

  function Batch(s: Queue): seq<TimerPtr> {
    if s.calling then s.active else []
  }

  ghost predicate Inv(s: Queue) {
    Agree(s.timers, s.wait, s.expiration) && Placed(s.expiration.Keys, s.wait, s.free, Batch(s)) &&
    s.expiration.Keys == s.info.Keys && Positive(s.expiration) && s.clock > 0 &&
    (s.calling ==>
      s.batchNow > 0 && s.done <= |s.active| && forall t :: t in s.canceling ==> t in s.active)
  }

  lemma InsertKeeps(timers: seq<Entry>, wait: seq<TimerPtr>, expiration: map<TimerPtr, int>, t: TimerPtr, when: int)
    requires Agree(timers, wait, expiration) && t !in wait
    ensures Entry(when, t) !in timers
    ensures Agree(InsertEntry(timers, Entry(when, t)), wait + [t], expiration[t := when])
  {
    hide InsertEntry;
    InsertEntrySorted(timers, Entry(when, t));
    InsertEntryLength(timers, Entry(when, t));
    assert forall x :: x in wait + [t] <==> x in wait || x == t;
  }

  lemma InsertEntryLength(timers: seq<Entry>, e: Entry)
    ensures |InsertEntry(timers, e)| == |timers| + 1
  {
  }

  lemma CancelKeeps(timers: seq<Entry>, wait: seq<TimerPtr>, expiration: map<TimerPtr, int>, t: TimerPtr)
    requires Agree(timers, wait, expiration) && t in wait
    ensures Entry(expiration[t], t) in timers
    ensures Agree(EraseEntry(timers, Entry(expiration[t], t)), Erase(wait, t), expiration)
  {
    hide EraseEntry, Erase;
    EraseEntrySorted(timers, Entry(expiration[t], t));
    EraseKeeps(wait, t);
  }

  /** The first n timers are distinct and waiting. */
  lemma FirstDistinct(timers: seq<Entry>, wait: seq<TimerPtr>, expiration: map<TimerPtr, int>, n: nat)
    requires Agree(timers, wait, expiration) && n <= |timers|
    ensures NoDup(Pointers(timers[..n])) && forall t :: t in Pointers(timers[..n]) ==> t in wait
  {
    var ts := Pointers(timers[..n]);
    assert forall i :: 0 <= i < n ==> timers[i] in timers && timers[i].t == ts[i];
    forall i, j | 0 <= i < j < |ts|
      ensures ts[i] != ts[j]
    {
      assert Less(timers[i], timers[j]);
    }
  }

  /** The later timers are those that wait and are not among the first n. */
  lemma LaterTimers(timers: seq<Entry>, wait: seq<TimerPtr>, expiration: map<TimerPtr, int>, n: nat)
    requires Agree(timers, wait, expiration) && n <= |timers|
    ensures forall e :: e in timers[n..] ==> e in timers && e.t !in Pointers(timers[..n])
    ensures forall t :: t in wait && t !in Pointers(timers[..n]) ==> Entry(expiration[t], t) in timers[n..]
  {
    hide NoDup;
    var ts, late := Pointers(timers[..n]), timers[n..];
    assert forall k :: 0 <= k < n ==> timers[k] in timers && timers[k].t == ts[k] && ts[k] in ts;
    forall e | e in late
      ensures e in timers && e.t !in ts
    {
      var j :| 0 <= j < |late| && late[j] == e;
      assert timers[n + j] == e;
      assert forall i :: 0 <= i < n ==> Less(timers[i], timers[n + j]);
    }
    forall t | t in wait && t !in ts
      ensures Entry(expiration[t], t) in late
    {
      var j :| 0 <= j < |timers| && timers[j] == Entry(expiration[t], t);
      assert late[j - n] == timers[j];
    }
  }

  lemma DropFirstKeeps(timers: seq<Entry>, wait: seq<TimerPtr>, expiration: map<TimerPtr, int>, n: nat)
    requires Agree(timers, wait, expiration) && n <= |timers|
    ensures Agree(timers[n..], EraseAll(wait, Pointers(timers[..n])), expiration)
  {
    FirstDistinct(timers, wait, expiration, n);
    LaterTimers(timers, wait, expiration, n);
    assert Sorted(timers[n..]);
    hide EraseAll, Pointers, Less, Sorted, NoDup;
    EraseAllKeeps(wait, Pointers(timers[..n]));
  }

  /** The head of the rest of a batch is in no other place; freeing it or making it wait places it again. */
  lemma PlaceHead(known: set<TimerPtr>, wait: seq<TimerPtr>, free: seq<TimerPtr>, t: TimerPtr, rest: seq<TimerPtr>)
    requires Placed(known, wait, free, [t] + rest)
    ensures t in known && t !in wait
    ensures Placed(known, wait + [t], free, rest) && Placed(known, wait, free + [t], rest)
  {
    var all := [t] + rest;
    assert all[0] == t && forall i :: 0 <= i < |rest| ==> all[i + 1] == rest[i];
    assert forall x :: x in all <==> x == t || x in rest;
    assert forall x :: x in wait + [t] <==> x in wait || x == t;
    assert forall x :: x in free + [t] <==> x in free || x == t;
    assert t in known && t !in wait && t !in free && t !in rest;
  }

  lemma ResetOneKeeps(s: Queue, t: TimerPtr, rest: seq<TimerPtr>)
    requires Agree(s.timers, s.wait, s.expiration) && Placed(s.expiration.Keys, s.wait, s.free, [t] + rest)
    requires s.expiration.Keys == s.info.Keys && Positive(s.expiration) && s.batchNow > 0
    ensures t in s.info
    ensures s.info[t].repeat && t !in s.canceling ==> Entry(s.batchNow + s.info[t].delta, t) !in s.timers
    ensures var u := ResetOne(s, t);
            Agree(u.timers, u.wait, u.expiration) && Placed(u.expiration.Keys, u.wait, u.free, rest) &&
            u.expiration.Keys == u.info.Keys && Positive(u.expiration)
  {
    hide Agree, Placed, InsertEntry;
    PlaceHead(s.expiration.Keys, s.wait, s.free, t, rest);
    var u := ResetOne(s, t);
    if s.info[t].repeat && t !in s.canceling {
      InsertKeeps(s.timers, s.wait, s.expiration, t, s.batchNow + s.info[t].delta);
      assert u.expiration.Keys == s.expiration.Keys;
    }
  }

  lemma {:induction false} ResetAllKeeps(s: Queue, ts: seq<TimerPtr>)
    requires Agree(s.timers, s.wait, s.expiration) && Placed(s.expiration.Keys, s.wait, s.free, ts)
    requires s.expiration.Keys == s.info.Keys && Positive(s.expiration) && s.batchNow > 0
    ensures (forall t :: t in ts ==> t in s.info) && ResetAsserts(s, ts)
    ensures var r := ResetAll(s, ts);
            Agree(r.timers, r.wait, r.expiration) && Placed(r.expiration.Keys, r.wait, r.free, []) &&
            r.expiration.Keys == r.info.Keys && Positive(r.expiration)
    decreases |ts|
  {
    hide Agree, Placed, Positive;
    RestIsKnown(s.expiration.Keys, s.wait, s.free, ts);
    if ts == [] {
    } else {
      assert ts == [ts[0]] + ts[1..];
      ResetOneKeeps(s, ts[0], ts[1..]);
      ResetAllKeeps(ResetOne(s, ts[0]), ts[1..]);
    }
  }

  lemma RestIsKnown(known: set<TimerPtr>, wait: seq<TimerPtr>, free: seq<TimerPtr>, rest: seq<TimerPtr>)
    requires Placed(known, wait, free, rest)
    ensures forall t :: t in rest ==> t in known
  {
  }

  lemma PlaceNew(known: set<TimerPtr>, wait: seq<TimerPtr>, free: seq<TimerPtr>, rest: seq<TimerPtr>, t: TimerPtr)
    requires Placed(known, wait, free, rest) && t !in known
    ensures t !in wait && Placed(known + {t}, wait + [t], free, rest)
  {
    assert forall x :: x in wait + [t] <==> x in wait || x == t;
  }

  lemma PlaceBatch(
      known: set<TimerPtr>, wait: seq<TimerPtr>, free: seq<TimerPtr>, ts: seq<TimerPtr>, wait': seq<TimerPtr>)
    requires Placed(known, wait, free, [])
    requires NoDup(ts) && (forall t :: t in ts ==> t in wait)
    requires forall t :: t in wait' <==> t in wait && t !in ts
    ensures Placed(known, wait', free, ts)
  {
  }

  lemma AddKeepsInv(s: Queue, t: TimerPtr, when: int, info: Info)
    requires Inv(s) && t !in s.expiration && when > 0
    ensures Entry(when, t) !in s.timers && Inv(Add(s, t, when, info))
  {
    hide InsertEntry, Agree, Placed;
    var u := Add(s, t, when, info);
    PlaceNew(s.expiration.Keys, s.wait, s.free, Batch(s), t);
    InsertKeeps(s.timers, s.wait, s.expiration, t, when);
    assert u.expiration.Keys == s.expiration.Keys + {t};
  }

  lemma CancelKeepsInv(s: Queue, t: TimerPtr)
    requires Inv(s)
    ensures AssertsHold(s, CancelTimer(t)) && Inv(Cancel(s, t))
  {
    assert NoDup(s.wait) && (t in s.wait ==> t in s.expiration);
    hide EraseEntry, Erase, Agree, Placed, Positive;
    var u := Cancel(s, t);
    if t in s.wait {
      CancelKeeps(s.timers, s.wait, s.expiration, t);
      PlaceFreed(s.expiration.Keys, s.wait, s.free, Batch(s), t);
    } else {
      assert forall x :: x in u.canceling ==> x in s.canceling || x == t;
    }
  }

  lemma PlaceFreed(known: set<TimerPtr>, wait: seq<TimerPtr>, free: seq<TimerPtr>, rest: seq<TimerPtr>, t: TimerPtr)
    requires Placed(known, wait, free, rest) && NoDup(wait) && t in wait
    ensures Placed(known, Erase(wait, t), free + [t], rest)
  {
    hide Erase;
    EraseKeeps(wait, t);
    assert forall x :: x in free + [t] <==> x in free || x == t;
  }

  /** A timer is still on the waiting list when those before it have been taken off. */
  lemma StillWaiting(timers: seq<Entry>, wait: seq<TimerPtr>, expiration: map<TimerPtr, int>, i: nat)
    requires Agree(timers, wait, expiration) && i < |timers|
    ensures timers[i].t in EraseAll(wait, Pointers(timers[..i]))
  {
    FirstDistinct(timers, wait, expiration, i);
    FirstDistinct(timers, wait, expiration, i + 1);
    assert NoDup(wait);
    hide EraseAll, Agree;
    EraseAllKeeps(wait, Pointers(timers[..i]));
    var before, ts := Pointers(timers[..i]), Pointers(timers[..i + 1]);
    assert ts[i] in ts && forall k :: 0 <= k < i ==> before[k] == ts[k];
  }

  lemma BeginAsserts(timers: seq<Entry>, wait: seq<TimerPtr>, expiration: map<TimerPtr, int>, now: int)
    requires Agree(timers, wait, expiration)
    ensures ExpireAsserts(timers, wait, now)
  {
    var n := ExpiredCount(timers, now);
    FirstDistinct(timers, wait, expiration, n);
    assert NoDup(wait) && |timers| == |wait|;
    hide EraseAll, Agree, NoDup, Pointers;
    EraseAllKeeps(wait, Pointers(timers[..n]));
    forall i | 0 <= i < n
      ensures timers[i].t in EraseAll(wait, Pointers(timers[..i]))
    {
      StillWaiting(timers, wait, expiration, i);
    }
  }

  lemma BeginKeepsInv(s: Queue)
    requires Inv(s) && !s.calling
    ensures Inv(Begin(s))
  {
    var n := ExpiredCount(s.timers, s.clock);
    var ts := Pointers(s.timers[..n]);
    FirstDistinct(s.timers, s.wait, s.expiration, n);
    assert NoDup(s.wait);
    hide EraseAll, Agree, Placed, Positive, NoDup, Pointers;
    EraseAllKeeps(s.wait, ts);
    PlaceBatch(s.expiration.Keys, s.wait, s.free, ts, EraseAll(s.wait, ts));
    DropFirstKeeps(s.timers, s.wait, s.expiration, n);
  }

  lemma EndKeepsInv(s: Queue)
    requires Inv(s) && s.calling
    ensures AssertsHold(s, EndBatch) && Inv(End(s))
  {
    hide Agree, Placed, Positive;
    ResetAllKeeps(s.(calling := false), s.active);
  }

  /** In every state that keeps the invariant, the assertions of the source hold and the step keeps it. */
  lemma StepKeepsInv(s: Queue, e: Event)
    requires Inv(s) && Possible(s, e)
    ensures AssertsHold(s, e) && Inv(Step(s, e))
  {
    hide Agree, Placed, Positive;
    match e
    case AddTimer(t, when, info) => AddKeepsInv(s, t, when, info);
    case CancelTimer(t) => CancelKeepsInv(s, t);
    case BeginBatch =>
      BeginAsserts(s.timers, s.wait, s.expiration, s.clock);
      BeginKeepsInv(s);
    case EndBatch => EndKeepsInv(s);
    case _ =>
  }

  // ----- Every run -----

  predicate Schedule(s: Queue, es: seq<Event>)
    decreases |es|
  {
    es == [] || (Possible(s, es[0]) && (AssertsHold(s, es[0]) ==> Schedule(Step(s, es[0]), es[1..])))
  }

  /** The state a run ends in, stopping at a failed assertion. */
  function Run(s: Queue, es: seq<Event>): Queue
    requires Schedule(s, es)
    decreases |es|
  {
    if es == [] || !AssertsHold(s, es[0]) then s else Run(Step(s, es[0]), es[1..])
  }

  predicate NoAssertFails(s: Queue, es: seq<Event>)
    requires Schedule(s, es)
    decreases |es|
  {
    es == [] || (AssertsHold(s, es[0]) && NoAssertFails(Step(s, es[0]), es[1..]))
  }

  lemma StartInv(clock: int)
    requires clock > 0
    ensures Inv(Start(clock))
  {
  }

  // ----- Each batch -----

  /** A batch is exactly the waiting timers whose time has come, in order of expiration; its wakeup is used up. */
  lemma BatchIsExpired(s: Queue)
    requires Inv(s) && !s.calling
    ensures var b := Begin(s);
            !b.fd.Readable? && (s.fd.Armed? ==> b.fd == s.fd) &&
            (forall t :: t in b.active <==> t in s.wait && s.expiration[t] <= s.clock) &&
            (forall i, j :: 0 <= i < j < |b.active| ==>
              b.active[i] in s.expiration && b.active[j] in s.expiration &&
              s.expiration[b.active[i]] <= s.expiration[b.active[j]])
  {
    hide Placed, Positive, EraseAll;
    ExpiredAreFirst(s.timers, s.wait, s.expiration, s.clock);
  }

  lemma ExpiredAreFirst(timers: seq<Entry>, wait: seq<TimerPtr>, expiration: map<TimerPtr, int>, now: int)
    requires Agree(timers, wait, expiration)
    ensures var ts := Pointers(timers[..ExpiredCount(timers, now)]);
            (forall t :: t in ts <==> t in wait && expiration[t] <= now) &&
            (forall i, j :: 0 <= i < j < |ts| ==>
              ts[i] in expiration && ts[j] in expiration && expiration[ts[i]] <= expiration[ts[j]])
  {
    var n := ExpiredCount(timers, now);
    var ts := Pointers(timers[..n]);
    assert forall k :: 0 <= k < n ==> timers[k].t == ts[k] && timers[k] in timers;
    SortedByTime(timers);
    forall t | t in wait && expiration[t] <= now
      ensures t in ts
    {
      ExpiredPosition(timers, wait, expiration, now, t);
    }
    hide ExpiredCount, Sorted, Pointers;
  }

  lemma SortedByTime(timers: seq<Entry>)
    requires Sorted(timers)
    ensures forall i, j :: 0 <= i < j < |timers| ==> timers[i].when <= timers[j].when
  {
    forall i, j | 0 <= i < j < |timers|
      ensures timers[i].when <= timers[j].when
    {
      assert Less(timers[i], timers[j]);
    }
  }

  lemma ExpiredPosition(timers: seq<Entry>, wait: seq<TimerPtr>, expiration: map<TimerPtr, int>, now: int, t: TimerPtr)
    requires Agree(timers, wait, expiration) && t in wait && expiration[t] <= now
    ensures t in Pointers(timers[..ExpiredCount(timers, now)])
  {
    var ts := Pointers(timers[..ExpiredCount(timers, now)]);
    var j :| 0 <= j < |timers| && timers[j] == Entry(expiration[t], t);
    SortedByTime(timers);
    assert j < |ts|;
    assert ts[j] == t;
  }

  // ----- The descriptor is never left unarmed -----

  function Max(a: int, b: int): int {
    if a < b then b else a
  }

  /**
    * A deadline is the minimum delay ahead of its setting and not yet reached, and only a queue that has had
    * timers sets one. Outside a batch, a waiting timer
    * has the descriptor expired, or armed no later than for its expiration or the minimum delay.
    */
  predicate FdOk(s: Queue) {
    (s.fd.Armed? ==> s.fd.setAt + 100 <= s.fd.deadline && s.fd.setAt <= s.clock < s.fd.deadline) &&
    (s.fd != Disarmed ==> s.expiration != map[]) &&
    (!s.calling && s.timers != [] ==>
      s.fd.Readable? || (s.fd.Armed? && s.fd.deadline <= Max(s.timers[0].when, s.fd.setAt + 100)))
  }

  lemma InsertEntryFirst(s: seq<Entry>, e: Entry)
    ensures InsertEntry(s, e)[0].when == if s == [] || e.when < s[0].when then e.when else s[0].when
  {
  }

  lemma EraseEntryFirst(s: seq<Entry>, e: Entry)
    requires Sorted(s)
    ensures EraseEntry(s, e) != [] ==> s != [] && s[0].when <= EraseEntry(s, e)[0].when
  {
    assert |s| > 1 ==> Less(s[0], s[1]);
  }

  lemma FirstIsPositive(timers: seq<Entry>, wait: seq<TimerPtr>, expiration: map<TimerPtr, int>)
    requires Agree(timers, wait, expiration) && Positive(expiration) && timers != []
    ensures timers[0].when > 0
  {
    assert timers[0] in timers;
  }

  lemma StepKeepsFd(s: Queue, e: Event)
    requires Inv(s) && FdOk(s) && Possible(s, e) && AssertsHold(s, e)
    ensures FdOk(Step(s, e))
  {
    hide InsertEntry, EraseEntry, Placed, End;
    match e
    case AddTimer(t, when, _) => InsertEntryFirst(s.timers, Entry(when, t));
    case CancelTimer(t) =>
      if t in s.wait {
        EraseEntryFirst(s.timers, Entry(s.expiration[t], t));
      }
    case EndBatch => EndKeepsFd(s);
    case _ =>
  }

  /** Adding a timer arms the descriptor iff the timer is earlier than every waiting one, else leaves it alone. */
  lemma OnlyEarliestArms(s: Queue, t: TimerPtr, when: int, info: Info)
    requires Inv(s)
    ensures var earliest := forall x :: x in s.wait ==> when < s.expiration[x];
            Add(s, t, when, info).fd == if earliest then Arm(when, s.clock) else s.fd
  {
    hide Placed, Positive, InsertEntry;
    if s.timers != [] {
      SortedByTime(s.timers);
      assert s.timers[0] in s.timers;
      forall x | x in s.wait
        ensures s.timers[0].when <= s.expiration[x]
      {
        var j :| 0 <= j < |s.timers| && s.timers[j] == Entry(s.expiration[x], x);
        assert j == 0 || s.timers[0].when <= s.timers[j].when;
      }
    } else {
      assert |s.wait| == 0;
    }
  }

  lemma EndKeepsFd(s: Queue)
    requires Inv(s) && FdOk(s) && Possible(s, EndBatch) && AssertsHold(s, EndBatch)
    ensures FdOk(End(s))
  {
    EndKeepsInv(s);
    var u := End(s);
    assert u.timers != [] ==> u.expiration != map[] by {
      if u.timers != [] {
        assert u.timers[0] in u.timers;
      }
    }
    hide Inv, ResetAll, ResetAsserts, Agree, Placed, Positive;
    if u.timers != [] {
      FirstIsPositive(u.timers, u.wait, u.expiration);
    }
  }

  // ----- Every timer of a batch runs once in it, in order -----

  /** The log ends with what the batch has run so far; everything before that ran in earlier batches. */
  predicate LogOk(s: Queue) {
    (forall i :: 0 <= i < |s.ran| ==> s.ran[i].batch <= s.batch) &&
    (s.calling ==>
      (s.done <= |s.active| && s.done <= |s.ran| &&
       (forall i :: 0 <= i < |s.ran| - s.done ==> s.ran[i].batch < s.batch) &&
       forall i :: 0 <= i < s.done ==> s.ran[|s.ran| - s.done + i] == Ran(s.batch, s.active[i])))
  }

  lemma StepKeepsLog(s: Queue, e: Event)
    requires LogOk(s) && Possible(s, e) && AssertsHold(s, e)
    ensures LogOk(Step(s, e)) && s.ran <= Step(s, e).ran
  {
    hide InsertEntry, EraseEntry, Erase, EraseAll, ExpiredCount;
  }

  /** The timers run in a batch, in the order they ran. */
  function RunsIn(ran: seq<Ran>, batch: nat): seq<TimerPtr> {
    if ran == [] then []
    else RunsIn(ran[..|ran| - 1], batch) + (if ran[|ran| - 1].batch == batch then [ran[|ran| - 1].t] else [])
  }

  lemma {:induction false} RunsInTail(ran: seq<Ran>, batch: nat, ts: seq<TimerPtr>)
    requires |ts| <= |ran| && forall i :: 0 <= i < |ran| - |ts| ==> ran[i].batch < batch
    requires forall i :: 0 <= i < |ts| ==> ran[|ran| - |ts| + i] == Ran(batch, ts[i])
    ensures RunsIn(ran, batch) == ts
    decreases |ran|
  {
    if ran == [] {
    } else if ts == [] {
      RunsInTail(ran[..|ran| - 1], batch, []);
    } else {
      var n := |ts| - 1;
      assert ran[|ran| - |ts| + n] == Ran(batch, ts[n]);
      RunsInTail(ran[..|ran| - 1], batch, ts[..n]);
      assert ts == ts[..n] + [ts[n]];
    }
  }

  // ----- Cancelled timers -----

  lemma {:induction false} ResetFrees(s: Queue, ts: seq<TimerPtr>, t: TimerPtr)
    requires forall x :: x in ts ==> x in s.info
    requires t in s.free || (t in ts && (t in s.canceling || !s.info[t].repeat))
    ensures t in ResetAll(s, ts).free
    decreases |ts|
  {
    hide InsertEntry;
    if ts == [] {
    } else {
      ResetFrees(ResetOne(s, ts[0]), ts[1..], t);
    }
  }

  /** Freed, or cancelled in the running batch b. */
  predicate Doomed(s: Queue, t: TimerPtr, b: nat) {
    t in s.free || (s.calling && s.batch == b && t in s.canceling && t in s.active)
  }

  /** The timer does not run between two states, except in batch b while it was not yet freed. */
  predicate RunsOnlyIn(s: Queue, u: Queue, t: TimerPtr, b: nat) {
    s.ran <= u.ran && forall i :: |s.ran| <= i < |u.ran| && u.ran[i].t == t ==> u.ran[i].batch == b && t !in s.free
  }

  lemma StepDoomed(s: Queue, e: Event, t: TimerPtr, b: nat)
    requires Inv(s) && Doomed(s, t, b) && Possible(s, e) && AssertsHold(s, e)
    ensures Doomed(Step(s, e), t, b) && RunsOnlyIn(s, Step(s, e), t, b)
    ensures t in s.free ==> t in Step(s, e).free
  {
    hide Inv, Doomed, RunsOnlyIn, Add, Cancel, Tick, Begin, RunOne, End, AssertsHold;
    match e
    case RunNext => RunDoomed(s, t, b);
    case BeginBatch => BeginDoomed(s, t, b);
    case EndBatch => EndDoomed(s, t, b);
    case _ => CallDoomed(s, e, t, b);
  }

  lemma RunDoomed(s: Queue, t: TimerPtr, b: nat)
    requires Inv(s) && Doomed(s, t, b) && Possible(s, RunNext)
    ensures Doomed(RunOne(s), t, b) && RunsOnlyIn(s, RunOne(s), t, b)
    ensures t in s.free ==> t in RunOne(s).free
  {
    hide Agree, Positive, NoDup;
    assert s.active[s.done] in s.active;
  }

  lemma BeginDoomed(s: Queue, t: TimerPtr, b: nat)
    requires Doomed(s, t, b) && !s.calling
    ensures Doomed(Begin(s), t, b) && RunsOnlyIn(s, Begin(s), t, b)
    ensures t in s.free ==> t in Begin(s).free
  {
    hide EraseAll, ExpiredCount, Pointers;
  }

  lemma EndDoomed(s: Queue, t: TimerPtr, b: nat)
    requires Doomed(s, t, b) && Possible(s, EndBatch) && AssertsHold(s, EndBatch)
    ensures Doomed(End(s), t, b) && RunsOnlyIn(s, End(s), t, b)
    ensures t in s.free ==> t in End(s).free
  {
    ResetFrees(s.(calling := false), s.active, t);
    hide ResetAll, ResetAsserts;
  }

  lemma CallDoomed(s: Queue, e: Event, t: TimerPtr, b: nat)
    requires Doomed(s, t, b) && Possible(s, e) && AssertsHold(s, e)
    requires e.AddTimer? || e.CancelTimer? || e.TimePasses?
    ensures Doomed(Step(s, e), t, b) && RunsOnlyIn(s, Step(s, e), t, b)
    ensures t in s.free ==> t in Step(s, e).free
  {
    hide InsertEntry, EraseEntry, Erase;
  }

  lemma {:induction false} DoomedNeverRunsLater(s: Queue, es: seq<Event>, t: TimerPtr, b: nat)
    requires Inv(s) && Doomed(s, t, b) && Schedule(s, es)
    ensures Doomed(Run(s, es), t, b) && RunsOnlyIn(s, Run(s, es), t, b)
    decreases |es|
  {
    hide Inv, Doomed, Step, AssertsHold, Possible;
    if es == [] {
    } else {
      StepKeepsInv(s, es[0]);
      StepDoomed(s, es[0], t, b);
      var u := Step(s, es[0]);
      DoomedNeverRunsLater(u, es[1..], t, b);
      var r := Run(s, es);
      assert forall i :: |s.ran| <= i < |u.ran| ==> r.ran[i] == u.ran[i];
    }
  }

  // ----- One-shot timers -----

  function Times(ran: seq<Ran>, t: TimerPtr): nat {
    if ran == [] then 0 else Times(ran[..|ran| - 1], t) + (if ran[|ran| - 1].t == t then 1 else 0)
  }

  /** A log that grows counts more runs of a timer exactly when a new entry is one. */
  lemma {:induction false} TimesGrow(a: seq<Ran>, b: seq<Ran>, t: TimerPtr)
    requires a <= b
    ensures Times(a, t) <= Times(b, t)
    ensures Times(a, t) < Times(b, t) <==> exists i :: |a| <= i < |b| && b[i].t == t
    decreases |b|
  {
    if |a| == |b| {
      assert a == b;
    } else {
      var n := |b| - 1;
      TimesGrow(a, b[..n], t);
      assert forall i :: |a| <= i < n ==> b[..n][i] == b[i];
    }
  }

  // ----- Cancelling a timer of the running batch -----

  /** The timer is in the running batch b and its callback is still to come. */
  predicate Upcoming(s: Queue, t: TimerPtr, b: nat) {
    s.calling && s.batch == b && s.done <= |s.active| && t in s.active[s.done..]
  }

  /** The runs of a cancelled timer so far, and the one that cannot be stopped any more. */
  function RunsInAll(s: Queue, t: TimerPtr, b: nat): nat {
    Times(s.ran, t) + if Upcoming(s, t, b) then 1 else 0
  }

  lemma RunKeepsCount(s: Queue, t: TimerPtr, b: nat)
    requires Inv(s) && Doomed(s, t, b) && Possible(s, RunNext)
    ensures RunsInAll(RunOne(s), t, b) == RunsInAll(s, t, b)
  {
    var x := s.active[s.done];
    TimesSnoc(s.ran, Ran(s.batch, x), t);
    NextIsTaken(s.active, s.done, t);
    assert x in s.active && x !in s.free;
    hide Inv, Times, NoDup;
  }

  lemma TimesSnoc(ran: seq<Ran>, last: Ran, t: TimerPtr)
    ensures Times(ran + [last], t) == Times(ran, t) + if last.t == t then 1 else 0
  {
    assert (ran + [last])[..|ran|] == ran;
  }

  /** The callbacks still to come lose the next one and nothing else. */
  lemma NextIsTaken(active: seq<TimerPtr>, done: nat, t: TimerPtr)
    requires NoDup(active) && done < |active|
    ensures t in active[done..] <==> t == active[done] || t in active[done + 1..]
    ensures active[done] !in active[done + 1..]
  {
    assert active[done..] == [active[done]] + active[done + 1..];
  }

  lemma BeginKeepsCount(s: Queue, t: TimerPtr, b: nat)
    requires Inv(s) && Doomed(s, t, b) && !s.calling
    ensures RunsInAll(Begin(s), t, b) == RunsInAll(s, t, b)
  {
    BatchIsExpired(s);
    hide Agree, Positive, EraseAll, ExpiredCount, Pointers;
    assert forall x :: x in Begin(s).active[0..] ==> x in Begin(s).active;
  }

  /** Every step keeps the number of runs of a cancelled timer, the upcoming one included. */
  lemma StepKeepsCount(s: Queue, e: Event, t: TimerPtr, b: nat)
    requires Inv(s) && Doomed(s, t, b) && Possible(s, e) && AssertsHold(s, e)
    ensures RunsInAll(Step(s, e), t, b) == RunsInAll(s, t, b)
  {
    hide Inv, Doomed, Begin, RunOne, Times, ResetAll, InsertEntry, EraseEntry, Erase, ExpireAsserts, ResetAsserts;
    match e
    case RunNext => RunKeepsCount(s, t, b);
    case BeginBatch => BeginKeepsCount(s, t, b);
    case _ =>
  }

  lemma {:induction false} RunsAreSettled(s: Queue, es: seq<Event>, t: TimerPtr, b: nat)
    requires Inv(s) && Doomed(s, t, b) && Schedule(s, es)
    ensures RunsInAll(Run(s, es), t, b) == RunsInAll(s, t, b)
    decreases |es|
  {
    hide Inv, Doomed, Step, AssertsHold, Possible, RunsInAll;
    if es == [] {
    } else {
      StepKeepsInv(s, es[0]);
      StepDoomed(s, es[0], t, b);
      StepKeepsCount(s, es[0], t, b);
      RunsAreSettled(Step(s, es[0]), es[1..], t, b);
    }
  }

  lemma CancelDooms(s: Queue, t: TimerPtr)
    requires Inv(s) && t in s.expiration
    ensures var u := Cancel(s, t);
            Inv(u) && Doomed(u, t, s.batch) && u.ran == s.ran && (Upcoming(u, t, s.batch) <==> Upcoming(s, t, s.batch))
  {
    hide EraseEntry, Erase, Agree, Positive;
    CancelKeepsInv(s, t);
  }

  /**
    * After any known timer is cancelled, it runs again only if it is in the running batch with its callback
    * still to come, and then only in that batch.
    */
  lemma CancelledNeverRuns(s: Queue, t: TimerPtr, es: seq<Event>)
    requires Inv(s) && t in s.expiration && Schedule(Cancel(s, t), es)
    ensures var r := Run(Cancel(s, t), es);
            s.ran <= r.ran &&
            forall i :: |s.ran| <= i < |r.ran| && r.ran[i].t == t ==>
              s.calling && t in s.active[s.done..] && r.ran[i].batch == s.batch
  {
    var u, r := Cancel(s, t), Run(Cancel(s, t), es);
    CancelDooms(s, t);
    DoomedNeverRunsLater(u, es, t, s.batch);
    RunsAreSettled(u, es, t, s.batch);
    TimesGrow(s.ran, r.ran, t);
    hide Inv, Cancel, Run, Schedule, Times;
  }

  /**
    * Once the batch running at the time of the cancel is over: the cancelled timer has run again, exactly once
    * more, iff its callback in that batch was still to come.
    */
  lemma CancelledExact(s: Queue, t: TimerPtr, es: seq<Event>)
    requires Inv(s) && t in s.expiration && Schedule(Cancel(s, t), es)
    requires var r := Run(Cancel(s, t), es); !r.calling || r.batch != s.batch
    ensures var r := Run(Cancel(s, t), es);
            var late := s.calling && t in s.active[s.done..];
            ((exists i :: |s.ran| <= i < |r.ran| && r.ran[i].t == t) <==> late) &&
            Times(r.ran, t) == Times(s.ran, t) + if late then 1 else 0
  {
    var u, r := Cancel(s, t), Run(Cancel(s, t), es);
    CancelDooms(s, t);
    DoomedNeverRunsLater(u, es, t, s.batch);
    RunsAreSettled(u, es, t, s.batch);
    TimesGrow(s.ran, r.ran, t);
    hide Inv, Cancel, Run, Schedule, Times;
  }

  /** A schedule goes one step further. */
  lemma OneStep(s: Queue, e: Event, es: seq<Event>)
    requires Possible(s, e) && AssertsHold(s, e) && Schedule(Step(s, e), es)
    ensures Schedule(s, [e] + es) && Run(s, [e] + es) == Run(Step(s, e), es)
  {
    hide Possible, AssertsHold, Step;
    assert ([e] + es)[1..] == es;
  }

  lemma TwoExpired(a: Entry, b: Entry, now: int)
    requires a.when <= now && b.when <= now && a.t != b.t
    ensures ExpiredCount([a, b], now) == 2 && Pointers([a, b][..2]) == [a.t, b.t]
    ensures EraseAll([a.t, b.t], [a.t, b.t]) == []
  {
    assert ExpiredCount([a, b], now) == 2 by { assert [a, b][1..] == [b]; }
    hide ExpiredCount;
    EraseTwo(a.t, b.t);
  }

  lemma EraseTwo(a: TimerPtr, b: TimerPtr)
    requires a != b
    ensures EraseAll([a, b], [a, b]) == []
  {
    var ts := [a, b];
    assert ts[..1] == [a] && ts[..1][..0] == [];
    assert EraseAll(ts, [a]) == Erase(ts, a) == [b];
    assert EraseAll(ts, ts) == Erase([b], b) == [];
  }

  /** Both timers are added and the descriptor expires. */
  lemma BothWait(clock: int, a: TimerPtr, b: TimerPtr)
    requires clock > 0 && a < b
    ensures var i, later := Info(false, 0), clock + MIN_DELAY;
            var s := Tick(Add(Add(Start(clock), a, clock, i), b, clock, i), later);
            s.timers == [Entry(clock, a), Entry(clock, b)] && s.wait == [a, b] && s.fd.Readable? && !s.calling &&
            s.ran == [] && s.batch == 0 && s.clock == later
  {
    var u := Add(Start(clock), a, clock, Info(false, 0));
    assert u.timers == [Entry(clock, a)];
    assert Position(u.timers, Entry(clock, b)) == 1;
  }

  /** Two timers wait and both are due. */
  predicate TwoDue(s: Queue, a: TimerPtr, b: TimerPtr) {
    |s.timers| == 2 && s.timers[0].t == a && s.timers[1].t == b && s.wait == [a, b] && a != b && !s.calling &&
    s.timers[0].when <= s.clock && s.timers[1].when <= s.clock
  }

  /** Taking the batch and running its first callback. */
  lemma FirstOfTwoRuns(s: Queue, a: TimerPtr, b: TimerPtr)
    requires Inv(s) && TwoDue(s, a, b) && s.ran == []
    ensures var u := RunOne(Begin(s));
            AssertsHold(s, BeginBatch) && Possible(Begin(s), RunNext) && Inv(u) &&
            u.calling && u.active == [a, b] && u.done == 1 && u.wait == [] && u.ran == [Ran(s.batch + 1, a)] &&
            u.batch == s.batch + 1
  {
    var u := Begin(s);
    hide Inv, Begin, Expire, ExpireAsserts;
    BeginTwo(s, a, b);
    StepKeepsInv(s, BeginBatch);
    StepKeepsInv(u, RunNext);
  }

  lemma BeginTwo(s: Queue, a: TimerPtr, b: TimerPtr)
    requires TwoDue(s, a, b)
    ensures var u := Begin(s);
            u.active == [a, b] && u.wait == [] && u.ran == s.ran && u.done == 0 && u.calling && u.batch == s.batch + 1
  {
    hide EraseAll, ExpiredCount, Pointers;
    assert s.timers == [s.timers[0], s.timers[1]];
    TwoExpired(s.timers[0], s.timers[1], s.clock);
  }

  /** The callback cancels the second timer of its batch, which runs all the same. */
  lemma SecondRunsAnyway(u: Queue, a: TimerPtr, b: TimerPtr)
    requires Inv(u) && u.calling && u.active == [a, b] && u.done == 1 && b !in u.wait
    ensures var es := [CancelTimer(b)] + ([RunNext] + []);
            Schedule(u, es) && Run(u, es).ran == u.ran + [Ran(u.batch, b)]
  {
    var v := Cancel(u, b);
    assert b in u.active && v == u.(canceling := u.canceling + [b]);
    hide Inv;
    OneStep(v, RunNext, []);
    OneStep(u, CancelTimer(b), [RunNext] + []);
  }

  lemma BatchOfTwo(s: Queue, a: TimerPtr, b: TimerPtr)
    requires Inv(s) && TwoDue(s, a, b) && s.ran == []
    ensures var es := [BeginBatch] + ([RunNext] + ([CancelTimer(b)] + ([RunNext] + [])));
            Schedule(s, es) && Run(s, es).ran == [Ran(s.batch + 1, a), Ran(s.batch + 1, b)]
  {
    var rest := [CancelTimer(b)] + ([RunNext] + []);
    hide Inv, ExpireAsserts, Begin, RunOne, Schedule, Run;
    FirstOfTwoRuns(s, a, b);
    SecondRunsAnyway(RunOne(Begin(s)), a, b);
    assert [Ran(s.batch + 1, a)] + [Ran(s.batch + 1, b)] == [Ran(s.batch + 1, a), Ran(s.batch + 1, b)];
    OneStep(Begin(s), RunNext, rest);
    OneStep(s, BeginBatch, [RunNext] + rest);
  }

  /** Two timers expire together; the callback of the first cancels the second, which runs all the same. */
  lemma CancelInBatchIsTooLate(clock: int, a: TimerPtr, b: TimerPtr)
    requires clock > 0 && a < b
    ensures var i := Info(false, 0);
            var es := [AddTimer(a, clock, i)] + ([AddTimer(b, clock, i)] + ([TimePasses(clock + MIN_DELAY)] +
                      ([BeginBatch] + ([RunNext] + ([CancelTimer(b)] + ([RunNext] + []))))));
            Schedule(Start(clock), es) && Run(Start(clock), es).ran == [Ran(1, a), Ran(1, b)]
  {
    hide *;
    AddTwo(clock, a, b);
    var s := TwoAdded(clock, a, b);
    BatchOfTwo(s, a, b);
    var i := Info(false, 0);
    var rest := [BeginBatch] + ([RunNext] + ([CancelTimer(b)] + ([RunNext] + [])));
    var es := [AddTimer(a, clock, i)] + ([AddTimer(b, clock, i)] + ([TimePasses(clock + MIN_DELAY)] + rest));
    assert Schedule(Start(clock), es) && Run(Start(clock), es) == Run(s, rest) by { AddTwoSchedule(clock, a, b, rest); }
  }

  /** The queue after both timers were added and the descriptor expired. */
  function TwoAdded(clock: int, a: TimerPtr, b: TimerPtr): Queue {
    var i := Info(false, 0);
    Tick(Add(Add(Start(clock), a, clock, i), b, clock, i), clock + MIN_DELAY)
  }

  lemma AddTwo(clock: int, a: TimerPtr, b: TimerPtr)
    requires clock > 0 && a < b
    ensures var s := TwoAdded(clock, a, b);
            Inv(s) && TwoDue(s, a, b) && s.ran == [] && s.batch == 0
  {
    var i, later := Info(false, 0), clock + MIN_DELAY;
    var s1 := Add(Start(clock), a, clock, i);
    AddPossible(clock, a, b);
    BothWait(clock, a, b);
    StartInv(clock);
    hide Inv, Add, Tick, Start, AssertsHold, Possible;
    StepKeepsInv(Start(clock), AddTimer(a, clock, i));
    StepKeepsInv(s1, AddTimer(b, clock, i));
    StepKeepsInv(Add(s1, b, clock, i), TimePasses(later));
  }

  lemma AddTwoSchedule(clock: int, a: TimerPtr, b: TimerPtr, rest: seq<Event>)
    requires clock > 0 && a < b && Schedule(TwoAdded(clock, a, b), rest)
    ensures var i := Info(false, 0);
            var es := [AddTimer(a, clock, i)] + ([AddTimer(b, clock, i)] + ([TimePasses(clock + MIN_DELAY)] + rest));
            Schedule(Start(clock), es) && Run(Start(clock), es) == Run(TwoAdded(clock, a, b), rest)
  {
    var i, later := Info(false, 0), clock + MIN_DELAY;
    var s1 := Add(Start(clock), a, clock, i);
    AddPossible(clock, a, b);
    hide Inv, Add, Tick, Start, Possible, Schedule, Run;
    OneStep(Add(s1, b, clock, i), TimePasses(later), rest);
    OneStep(s1, AddTimer(b, clock, i), [TimePasses(later)] + rest);
    OneStep(Start(clock), AddTimer(a, clock, i), [AddTimer(b, clock, i)] + ([TimePasses(later)] + rest));
  }

  lemma AddPossible(clock: int, a: TimerPtr, b: TimerPtr)
    requires clock > 0 && a < b
    ensures var i := Info(false, 0);
            var s1 := Add(Start(clock), a, clock, i);
            Possible(Start(clock), AddTimer(a, clock, i)) && AssertsHold(Start(clock), AddTimer(a, clock, i)) &&
            Possible(s1, AddTimer(b, clock, i)) && AssertsHold(s1, AddTimer(b, clock, i)) &&
            Possible(Add(s1, b, clock, i), TimePasses(clock + MIN_DELAY))
  {
    assert Add(Start(clock), a, clock, Info(false, 0)).timers == [Entry(clock, a)];
  }

  /** How often a one-shot timer has run, by where it is. */
  predicate ShotOk(s: Queue, t: TimerPtr) {
    var n := Times(s.ran, t);
    (t !in s.expiration ==> n == 0) &&
    (t in s.info && !s.info[t].repeat ==>
      (t in s.wait ==> n == 0) && (t in s.free ==> n <= 1) &&
      (s.calling && t in s.active && s.done <= |s.active| ==> n == if t in s.active[..s.done] then 1 else 0))
  }

  lemma StepKeepsShot(s: Queue, e: Event, t: TimerPtr)
    requires Inv(s) && ShotOk(s, t) && Possible(s, e) && AssertsHold(s, e)
    ensures ShotOk(Step(s, e), t)
  {
    hide Inv, ShotOk, Add, Cancel, Tick, Begin, RunOne, End, AssertsHold;
    match e
    case RunNext => RunKeepsShot(s, t);
    case BeginBatch => BeginKeepsShot(s, t);
    case EndBatch => EndKeepsShot(s, t);
    case _ => CallKeepsShot(s, e, t);
  }

  lemma CallKeepsShot(s: Queue, e: Event, t: TimerPtr)
    requires Inv(s) && ShotOk(s, t) && Possible(s, e) && AssertsHold(s, e)
    requires e.AddTimer? || e.CancelTimer? || e.TimePasses?
    ensures ShotOk(Step(s, e), t)
  {
    hide InsertEntry, EraseEntry, Erase, Agree, Positive;
    if e.CancelTimer? {
      EraseMembers(s.wait, e.t);
    }
  }

  lemma EraseMembers(s: seq<TimerPtr>, t: TimerPtr)
    ensures forall x :: x in Erase(s, t) ==> x in s
  {
  }

  lemma RunKeepsShot(s: Queue, t: TimerPtr)
    requires Inv(s) && ShotOk(s, t) && Possible(s, RunNext)
    ensures ShotOk(RunOne(s), t)
  {
    var u := RunOne(s);
    assert u.ran[..|u.ran| - 1] == s.ran;
    assert s.active[..u.done] == s.active[..s.done] + [s.active[s.done]];
    assert s.active[s.done] !in s.active[..s.done];
    assert s.active[s.done] in s.active;
  }

  lemma BeginKeepsShot(s: Queue, t: TimerPtr)
    requires Inv(s) && ShotOk(s, t) && !s.calling
    ensures ShotOk(Begin(s), t)
  {
    BatchIsExpired(s);
    var n := ExpiredCount(s.timers, s.clock);
    FirstDistinct(s.timers, s.wait, s.expiration, n);
    EraseAllKeeps(s.wait, Pointers(s.timers[..n]));
    hide EraseAll, ExpiredCount, Agree, Placed, Positive;
    assert Begin(s).active[..0] == [];
  }

  lemma EndKeepsShot(s: Queue, t: TimerPtr)
    requires Inv(s) && ShotOk(s, t) && Possible(s, EndBatch) && AssertsHold(s, EndBatch)
    ensures ShotOk(End(s), t)
  {
    EndKeepsInv(s);
    var r := End(s);
    assert s.active[..s.done] == s.active;
    if t in s.info && !s.info[t].repeat {
      if t in s.active || t in s.free {
        ResetFrees(s.(calling := false), s.active, t);
      } else {
        ResetLeaves(s.(calling := false), s.active, t);
      }
    }
  }

  /** The reset loop touches only the timers of the batch. */
  lemma {:induction false} ResetLeaves(s: Queue, ts: seq<TimerPtr>, t: TimerPtr)
    requires (forall x :: x in ts ==> x in s.info) && t !in ts
    ensures t in ResetAll(s, ts).free <==> t in s.free
    ensures t in ResetAll(s, ts).wait <==> t in s.wait
    ensures t in s.expiration ==> t in ResetAll(s, ts).expiration && ResetAll(s, ts).expiration[t] == s.expiration[t]
    decreases |ts|
  {
    hide InsertEntry;
    if ts == [] {
    } else {
      ResetLeaves(ResetOne(s, ts[0]), ts[1..], t);
    }
  }

  /** What a finished batch does with a timer: back to waiting one interval on, freed, or left alone. */
  lemma ResetExact(s: Queue, t: TimerPtr)
    requires Inv(s) && s.calling && t in s.expiration && AssertsHold(s, EndBatch)
    ensures var r := End(s);
            t in r.expiration &&
            if t !in s.active then (t in r.wait <==> t in s.wait) && r.expiration[t] == s.expiration[t]
            else if s.info[t].repeat && t !in s.canceling then
              t in r.wait && r.expiration[t] == s.batchNow + s.info[t].delta
            else t in r.free
  {
    EndKeepsInv(s);
    var u := s.(calling := false);
    if t !in s.active {
      ResetLeaves(u, s.active, t);
    } else if s.info[t].repeat && t !in s.canceling {
      assert NoDup(s.active);
      ResetRestarts(u, s.active, t);
    } else {
      ResetFrees(u, s.active, t);
    }
  }

  lemma {:induction false} ResetRestarts(s: Queue, ts: seq<TimerPtr>, t: TimerPtr)
    requires (forall x :: x in ts ==> x in s.info) && NoDup(ts) && t in ts
    requires s.info[t].repeat && t !in s.canceling
    ensures var r := ResetAll(s, ts);
            t in r.wait && t in r.expiration && r.expiration[t] == s.batchNow + s.info[t].delta
    decreases |ts|
  {
    hide InsertEntry;
    if ts[0] == t {
      assert forall i :: 0 <= i < |ts[1..]| ==> ts[1..][i] == ts[i + 1];
      ResetLeaves(ResetOne(s, t), ts[1..], t);
    } else {
      ResetRestarts(ResetOne(s, ts[0]), ts[1..], t);
    }
  }

  lemma {:induction false} ShotRun(s: Queue, es: seq<Event>, t: TimerPtr)
    requires Inv(s) && ShotOk(s, t) && Schedule(s, es)
    ensures Inv(Run(s, es)) && ShotOk(Run(s, es), t)
    decreases |es|
  {
    hide Inv, ShotOk, Step, AssertsHold, Possible;
    if es == [] {
    } else {
      StepKeepsInv(s, es[0]);
      StepKeepsShot(s, es[0], t);
      ShotRun(Step(s, es[0]), es[1..], t);
    }
  }

  /** Over every run a one-shot timer runs at most once. */
  lemma OneShotRunsOnce(clock: int, es: seq<Event>, t: TimerPtr)
    requires clock > 0 && Schedule(Start(clock), es)
    ensures var r := Run(Start(clock), es);
            t in r.info && !r.info[t].repeat ==> Times(r.ran, t) <= 1
  {
    hide Agree, Positive;
    StartInv(clock);
    ShotRun(Start(clock), es, t);
  }

  /** Over every run, with any re-entrant adds and cancels, no assertion fails and everything is kept. */
  lemma {:induction false} QueueStaysHealthy(s: Queue, es: seq<Event>)
    requires Healthy(s) && Schedule(s, es)
    ensures Healthy(Run(s, es)) && NoAssertFails(s, es)
    decreases |es|
  {
    hide Healthy, Step, AssertsHold, Possible;
    if es == [] {
    } else {
      StepKeepsHealthy(s, es[0]);
      QueueStaysHealthy(Step(s, es[0]), es[1..]);
    }
  }

  /** Over every run of a new queue. */
  lemma NewQueueStaysHealthy(clock: int, es: seq<Event>)
    requires clock > 0 && Schedule(Start(clock), es)
    ensures Healthy(Run(Start(clock), es)) && NoAssertFails(Start(clock), es)
  {
    StartInv(clock);
    QueueStaysHealthy(Start(clock), es);
  }

  /** Over every run of a new queue: when a batch ends, it has run exactly its timers, each once, in order. */
  lemma BatchRunsAll(clock: int, es: seq<Event>)
    requires clock > 0 && Schedule(Start(clock), es)
    ensures var s := Run(Start(clock), es);
            (s.calling ==> s.done <= |s.active| && RunsIn(s.ran, s.batch) == s.active[..s.done]) &&
            (Possible(s, EndBatch) ==> RunsIn(s.ran, s.batch) == s.active && NoDup(s.active))
  {
    NewQueueStaysHealthy(clock, es);
    hide Healthy, Run, Schedule;
    BatchSoFar(Run(Start(clock), es));
  }

  lemma BatchSoFar(s: Queue)
    requires Healthy(s)
    ensures s.calling ==>
      s.done <= |s.active| && RunsIn(s.ran, s.batch) == s.active[..s.done] && NoDup(s.active) &&
      (s.done == |s.active| ==> s.active[..s.done] == s.active)
  {
    hide Agree, FdOk, Positive;
    if s.calling {
      RunsInTail(s.ran, s.batch, s.active[..s.done]);
    }
  }

  /** Outside a batch, with a timer waiting and the descriptor not expired. */
  predicate WaitsForDescriptor(s: Queue) {
    !s.calling && s.timers != [] && !s.fd.Readable?
  }

  /**
    * Over every run, a waiting timer always has the descriptor armed; it is armed no later than the earliest
    * expiration iff that was at least the minimum delay ahead when the descriptor was set.
    */
  lemma DescriptorExact(clock: int, es: seq<Event>)
    requires clock > 0 && Schedule(Start(clock), es)
    ensures var s := Run(Start(clock), es);
            WaitsForDescriptor(s) ==>
              (s.fd.Armed? &&
               (s.fd.deadline <= s.timers[0].when <==> s.timers[0].when >= s.fd.setAt + 100))
  {
    NewQueueStaysHealthy(clock, es);
  }

  /** A reachable state that is armed too late: a timer added less than the minimum delay ahead. */
  lemma LateDeadlineIsReached(clock: int, t: TimerPtr, when: int)
    requires clock > 0 && 0 < when < clock + 100
    ensures var es := [AddTimer(t, when, Info(false, 0))];
            Schedule(Start(clock), es) &&
            var s := Run(Start(clock), es);
            WaitsForDescriptor(s) && s.fd.Armed? && s.fd.deadline > s.timers[0].when
  {
    var e := AddTimer(t, when, Info(false, 0));
    var s := Start(clock);
    assert Possible(s, e) && AssertsHold(s, e);
    var u := Step(s, e);
    assert u.timers == [Entry(when, t)];
    var es := [e];
    assert es[1..] == [];
    assert Schedule(u, []) && Run(u, []) == u;
  }

  /** One turn of the reset loop. */
  lemma ResetTurn(s: Queue, ts: seq<TimerPtr>)
    requires ts != [] && forall t :: t in ts ==> t in s.info
    ensures ts[0] in s.info && ResetOne(s, ts[0]).info == s.info && (forall t :: t in ts[1..] ==> t in s.info)
    ensures ResetAll(s, ts) == ResetAll(ResetOne(s, ts[0]), ts[1..])
  {
    hide InsertEntry, ResetAsserts;
    assert ts[0] in ts && forall t :: t in ts[1..] ==> t in ts;
  }

  lemma ResetTurnAsserts(s: Queue, ts: seq<TimerPtr>)
    requires ts != [] && (forall t :: t in ts ==> t in s.info) && ResetAsserts(s, ts)
    requires ts[0] in s.info && forall t :: t in ts[1..] ==> t in ResetOne(s, ts[0]).info
    ensures ResetAsserts(ResetOne(s, ts[0]), ts[1..])
    ensures s.info[ts[0]].repeat && ts[0] !in s.canceling ==>
      Entry(s.batchNow + s.info[ts[0]].delta, ts[0]) !in s.timers
  {
    hide ResetAll, ResetOne;
  }

  lemma ResetNothing(s: Queue)
    ensures ResetAll(s, []) == s
  {
  }

  lemma ExpireStart(timers: seq<Entry>, wait: seq<TimerPtr>)
    ensures Pointers(timers[..0]) == [] && EraseAll(wait, []) == wait
  {
  }

  /** One turn of the loop that takes expired timers. */
  lemma ExpireTurn(timers: seq<Entry>, wait: seq<TimerPtr>, i: nat)
    requires i < |timers|
    ensures var ts := Pointers(timers[..i]);
            Pointers(timers[..i + 1]) == ts + [timers[i].t] &&
            EraseAll(wait, ts + [timers[i].t]) == Erase(EraseAll(wait, ts), timers[i].t)
  {
    var ts := Pointers(timers[..i]);
    assert (ts + [timers[i].t])[..i] == ts;
  }

  // ----- What a caller asked for -----

  /** No event of the schedule cancels the timer. */
  predicate NoCancel(es: seq<Event>, t: TimerPtr) {
    forall e :: e in es ==> e != CancelTimer(t)
  }

  /** A repeating timer that nobody has cancelled: waiting, or in the running batch. */
  predicate Alive(s: Queue, t: TimerPtr, info: Info) {
    t in s.info && s.info[t] == info && t in s.expiration && t !in s.free && (s.calling ==> t !in s.canceling) &&
    (t in s.wait || (s.calling && t in s.active))
  }

  lemma EndKeepsAlive(s: Queue, t: TimerPtr, info: Info)
    requires Inv(s) && Alive(s, t, info) && info.repeat && Possible(s, EndBatch) && AssertsHold(s, EndBatch)
    ensures Alive(End(s), t, info)
  {
    EndKeepsInv(s);
    var u := s.(calling := false);
    if t in s.active {
      assert NoDup(s.active);
      ResetRestarts(u, s.active, t);
    } else {
      ResetLeaves(u, s.active, t);
    }
    hide Agree, Positive, ResetAll, ResetAsserts;
  }

  lemma BeginKeepsAlive(s: Queue, t: TimerPtr, info: Info)
    requires Inv(s) && Alive(s, t, info) && !s.calling
    ensures Alive(Begin(s), t, info)
  {
    var n := ExpiredCount(s.timers, s.clock);
    FirstDistinct(s.timers, s.wait, s.expiration, n);
    assert NoDup(s.wait);
    EraseAllKeeps(s.wait, Pointers(s.timers[..n]));
    hide EraseAll, ExpiredCount, Agree, Placed, Positive;
  }

  lemma StepKeepsAlive(s: Queue, e: Event, t: TimerPtr, info: Info)
    requires Inv(s) && Alive(s, t, info) && info.repeat && e != CancelTimer(t) && Possible(s, e) && AssertsHold(s, e)
    ensures Alive(Step(s, e), t, info)
  {
    match e
    case BeginBatch => BeginKeepsAlive(s, t, info);
    case EndBatch => EndKeepsAlive(s, t, info);
    case CancelTimer(c) =>
      assert NoDup(s.wait);
      EraseKeeps(s.wait, c);
      hide Inv, Erase, EraseEntry, NoDup;
    case _ => hide Inv, InsertEntry;
  }

  lemma {:induction false} RunKeepsAlive(s: Queue, es: seq<Event>, t: TimerPtr, info: Info)
    requires Inv(s) && Alive(s, t, info) && info.repeat && NoCancel(es, t) && Schedule(s, es)
    ensures Alive(Run(s, es), t, info)
    decreases |es|
  {
    hide Inv, Alive, Step, AssertsHold, Possible;
    if es == [] {
    } else {
      assert es[0] in es && forall e :: e in es[1..] ==> e in es;
      StepKeepsInv(s, es[0]);
      StepKeepsAlive(s, es[0], t, info);
      RunKeepsAlive(Step(s, es[0]), es[1..], t, info);
    }
  }

  /**
    * Over every run after runEvery that does not cancel the timer, it keeps its interval, is never freed, and
    * outside a batch it waits.
    */
  lemma RepeatingTimerStays(s: Queue, t: TimerPtr, when: int, delta: nat, es: seq<Event>)
    requires Inv(s) && Possible(s, AddTimer(t, when, Info(true, delta))) && NoCancel(es, t)
    requires Schedule(Add(s, t, when, Info(true, delta)), es)
    ensures var r := Run(Add(s, t, when, Info(true, delta)), es);
            t in r.info && r.info[t] == Info(true, delta) && t !in r.free && (!r.calling ==> t in r.wait)
  {
    var e := AddTimer(t, when, Info(true, delta));
    StepKeepsInv(s, e);
    AddedIsAlive(s, t, when, Info(true, delta));
    hide Inv, Add, Possible, AssertsHold;
    RunKeepsAlive(Add(s, t, when, Info(true, delta)), es, t, Info(true, delta));
  }

  lemma AddedIsAlive(s: Queue, t: TimerPtr, when: int, info: Info)
    requires Inv(s) && t !in s.expiration
    ensures Alive(Add(s, t, when, info), t, info)
  {
    hide Agree, Positive;
  }

  /** No timer changes what it was made with. */
  lemma {:induction false} InfoIsKept(s: Queue, es: seq<Event>, t: TimerPtr)
    requires Inv(s) && t in s.info && Schedule(s, es)
    ensures t in Run(s, es).info && Run(s, es).info[t] == s.info[t]
    decreases |es|
  {
    if es == [] {
    } else {
      StepKeepsInv(s, es[0]);
      InfoStep(s, es[0], t);
      hide Inv, Step, AssertsHold, Possible;
      InfoIsKept(Step(s, es[0]), es[1..], t);
    }
  }

  lemma InfoStep(s: Queue, e: Event, t: TimerPtr)
    requires s.info.Keys == s.expiration.Keys && t in s.info && Possible(s, e) && AssertsHold(s, e)
    ensures t in Step(s, e).info && Step(s, e).info[t] == s.info[t]
  {
    hide ResetAll, InsertEntry, EraseEntry, Erase, EraseAll, ExpiredCount;
  }

  /**
    * Over every run after a timer is added it keeps what the caller asked for, and a timer added as one-shot
    * runs at most once.
    */
  lemma AskedIsKept(clock: int, before: seq<Event>, t: TimerPtr, when: int, info: Info, es: seq<Event>)
    requires clock > 0 && Schedule(Start(clock), before) && NoAssertFails(Start(clock), before)
    requires var s := Run(Start(clock), before);
             Possible(s, AddTimer(t, when, info)) && Schedule(Add(s, t, when, info), es)
    ensures var r := Run(Add(Run(Start(clock), before), t, when, info), es);
            t in r.info && r.info[t] == info && (!info.repeat ==> Times(r.ran, t) <= 1)
  {
    var s := Run(Start(clock), before);
    hide Agree, Positive, Run, Schedule, NoAssertFails;
    StartInv(clock);
    ShotRun(Start(clock), before, t);
    var e := AddTimer(t, when, info);
    StepKeepsInv(s, e);
    StepKeepsShot(s, e, t);
    ShotRun(Add(s, t, when, info), es, t);
    InfoIsKept(Add(s, t, when, info), es, t);
  }

  // ----- Not before its time, and one interval after a batch -----

  /** The timer has not run since it was added, unless its time has come. */
  predicate NotEarly(s: Queue, t: TimerPtr, when: int, n: nat) {
    s.clock >= when ||
    (Times(s.ran, t) == n && t in s.expiration && (t in s.wait ==> s.expiration[t] == when) &&
     !(s.calling && t in s.active))
  }

  lemma StepKeepsNotEarly(s: Queue, e: Event, t: TimerPtr, when: int, n: nat)
    requires Inv(s) && NotEarly(s, t, when, n) && Possible(s, e) && AssertsHold(s, e)
    ensures NotEarly(Step(s, e), t, when, n)
  {
    hide Inv, Add, Cancel, Tick, Begin, RunOne, End, AssertsHold;
    match e
    case RunNext => RunNotEarly(s, t, when, n);
    case BeginBatch => BeginNotEarly(s, t, when, n);
    case EndBatch => EndNotEarly(s, t, when, n);
    case _ => CallNotEarly(s, e, t, when, n);
  }

  lemma RunNotEarly(s: Queue, t: TimerPtr, when: int, n: nat)
    requires NotEarly(s, t, when, n) && Possible(s, RunNext)
    ensures NotEarly(RunOne(s), t, when, n)
  {
    TimesSnoc(s.ran, Ran(s.batch, s.active[s.done]), t);
    assert s.active[s.done] in s.active;
    hide Times;
  }

  lemma BeginNotEarly(s: Queue, t: TimerPtr, when: int, n: nat)
    requires Inv(s) && NotEarly(s, t, when, n) && !s.calling
    ensures NotEarly(Begin(s), t, when, n)
  {
    BatchIsExpired(s);
    BeginWaits(s);
    hide Inv, Times, EraseAll, ExpiredCount, Pointers;
  }

  lemma EndNotEarly(s: Queue, t: TimerPtr, when: int, n: nat)
    requires NotEarly(s, t, when, n) && Possible(s, EndBatch) && AssertsHold(s, EndBatch)
    ensures NotEarly(End(s), t, when, n)
  {
    if t !in s.active {
      ResetLeaves(s.(calling := false), s.active, t);
    }
    hide Times, ResetAll, ResetAsserts;
  }

  lemma CallNotEarly(s: Queue, e: Event, t: TimerPtr, when: int, n: nat)
    requires NotEarly(s, t, when, n) && Possible(s, e) && AssertsHold(s, e)
    requires e.AddTimer? || e.CancelTimer? || e.TimePasses?
    ensures NotEarly(Step(s, e), t, when, n)
  {
    if e.CancelTimer? {
      EraseMembers(s.wait, e.t);
    }
    hide Times, Erase, EraseEntry, InsertEntry;
  }

  lemma BeginWaits(s: Queue)
    requires Inv(s)
    ensures forall t :: t in Begin(s).wait ==> t in s.wait
  {
    var n := ExpiredCount(s.timers, s.clock);
    FirstDistinct(s.timers, s.wait, s.expiration, n);
    assert NoDup(s.wait);
    EraseAllKeeps(s.wait, Pointers(s.timers[..n]));
    hide EraseAll, ExpiredCount, Agree, Placed, Positive;
  }

  lemma {:induction false} RunKeepsNotEarly(s: Queue, es: seq<Event>, t: TimerPtr, when: int, n: nat)
    requires Inv(s) && NotEarly(s, t, when, n) && Schedule(s, es)
    ensures NotEarly(Run(s, es), t, when, n)
    decreases |es|
  {
    hide Inv, NotEarly, Step, AssertsHold, Possible;
    if es == [] {
    } else {
      StepKeepsInv(s, es[0]);
      StepKeepsNotEarly(s, es[0], t, when, n);
      RunKeepsNotEarly(Step(s, es[0]), es[1..], t, when, n);
    }
  }

  /** Over every run after a timer is added, its callback has not run before its time. */
  lemma NoTimerRunsEarly(s: Queue, t: TimerPtr, when: int, info: Info, es: seq<Event>)
    requires Inv(s) && Possible(s, AddTimer(t, when, info)) && Schedule(Add(s, t, when, info), es)
    ensures var r := Run(Add(s, t, when, info), es);
            Times(r.ran, t) != Times(s.ran, t) ==> r.clock >= when
  {
    var u := Add(s, t, when, info);
    StepKeepsInv(s, AddTimer(t, when, info));
    assert NotEarly(u, t, when, Times(s.ran, t)) by { hide Agree, Positive, Times, InsertEntry; }
    hide Inv, Add, Possible, AssertsHold;
    RunKeepsNotEarly(u, es, t, when, Times(s.ran, t));
  }

  /** Until a batch ends, its time stays that of its beginning. */
  lemma {:induction false} BatchTimeIsKept(s: Queue, es: seq<Event>)
    requires s.calling && EndBatch !in es && Schedule(s, es)
    ensures var r := Run(s, es); r.calling && r.batchNow == s.batchNow && r.active == s.active
    decreases |es|
  {
    if es == [] {
    } else if AssertsHold(s, es[0]) {
      assert es[0] in es && forall e :: e in es[1..] ==> e in es;
      hide ResetAll, InsertEntry, EraseEntry, Erase, EraseAll, ExpiredCount, AssertsHold;
      BatchTimeIsKept(Step(s, es[0]), es[1..]);
    }
  }

  /**
    * Whatever happens while a batch runs, a repeating timer of it that was not cancelled waits, when the batch
    * has ended, for one interval after the clock at the beginning of the batch.
    */
  lemma RestartsOneIntervalLater(s: Queue, es: seq<Event>, t: TimerPtr)
    requires Inv(s) && !s.calling && EndBatch !in es && Schedule(Begin(s), es)
    requires var r := Run(Begin(s), es); Possible(r, EndBatch) && t in r.active && t !in r.canceling
    requires var r := Run(Begin(s), es); t in r.info && r.info[t].repeat
    ensures var r := Run(Begin(s), es);
            AssertsHold(r, EndBatch) && t in s.wait && s.expiration[t] <= s.clock &&
            var u := End(r);
            t in u.wait && t in u.expiration && u.expiration[t] == s.clock + s.info[t].delta
  {
    var b, r := Begin(s), Run(Begin(s), es);
    StepKeepsInv(s, BeginBatch);
    BatchIsExpired(s);
    RunInv(b, es);
    BatchTimeIsKept(b, es);
    assert t in s.info;
    InfoIsKept(b, es, t);
    StepKeepsInv(r, EndBatch);
    ResetExact(r, t);
    hide Inv, Run, Schedule, End;
  }

  lemma {:induction false} RunInv(s: Queue, es: seq<Event>)
    requires Inv(s) && Schedule(s, es)
    ensures Inv(Run(s, es))
    decreases |es|
  {
    hide Inv, Step, AssertsHold, Possible;
    if es == [] {
    } else {
      StepKeepsInv(s, es[0]);
      RunInv(Step(s, es[0]), es[1..]);
    }
  }

  // ----- The class -----

  /** Everything the queue keeps: the containers agree, the descriptor covers the earliest timer, the log is right. */
  ghost predicate Healthy(s: Queue) {
    Inv(s) && FdOk(s) && LogOk(s)
  }

  lemma StepKeepsHealthy(s: Queue, e: Event)
    requires Healthy(s) && Possible(s, e)
    ensures AssertsHold(s, e) && Healthy(Step(s, e))
  {
    hide Inv, FdOk, LogOk, Step, AssertsHold;
    StepKeepsInv(s, e);
    StepKeepsFd(s, e);
    StepKeepsLog(s, e);
  }

  lemma BeginKeepsHealthy(s: Queue)
    requires Healthy(s) && !s.calling
    ensures Healthy(Begin(s)) && ExpireAsserts(s.timers, s.wait, s.clock)
  {
    hide Healthy, Begin, ExpireAsserts;
    StepKeepsHealthy(s, BeginBatch);
  }

  /** handleRead is split where callbacks run: BeginBatch, RunNextTimer for each timer, EndBatch. */
  class TimerQueue {
    var timers: seq<Entry>
    var waitTimers: seq<TimerPtr>
    var activeTimers: seq<TimerPtr>
    var cancelingTimers: seq<TimerPtr>
    var freeTimers: seq<TimerPtr>
    var callingExpiredTimers: bool
    var expiration: map<TimerPtr, int>
    var info: map<TimerPtr, Info>
    var timerfd: TimerFd
    var clock: int
    var batchNow: int
    var done: nat
    ghost var ran: seq<Ran>
    ghost var batch: nat

    ghost function Value(): Queue
      reads this
    {
      Queue(timers, waitTimers, activeTimers, cancelingTimers, freeTimers, callingExpiredTimers, expiration, info,
            timerfd, clock, done, ran, batch, batchNow)
    }

    ghost predicate Valid()
      reads this
    {
      Healthy(Value())
    }

    constructor (clock: int)
      requires clock > 0
      ensures Valid() && Value() == Start(clock)
    {
      StartInv(clock);
      timers, waitTimers, activeTimers, cancelingTimers, freeTimers := [], [], [], [], [];
      callingExpiredTimers, expiration, info := false, map[], map[];
      timerfd, this.clock, batchNow, done := Disarmed, clock, 0, 0;
      ran, batch := [], 0;
    }

    /** The assertion after the set insertion is its precondition. */
    method InsertTimer(t: TimerPtr) returns (earliestChanged: bool)
      requires t in expiration && Entry(expiration[t], t) !in timers
      modifies `timers, `waitTimers
      ensures Value() == Insert(old(Value()), t)
      ensures earliestChanged <==> EarliestChanged(old(Value()), expiration[t])
    {
      earliestChanged := false;
      var when := expiration[t];
      if |timers| == 0 || when < timers[0].when {
        earliestChanged := true;
      }
      timers := InsertEntry(timers, Entry(when, t));
      waitTimers := waitTimers + [t];
    }

    method AddTimerInLoop(t: TimerPtr, when: int, timerInfo: Info)
      requires Valid() && Possible(Value(), AddTimer(t, when, timerInfo))
      modifies this
      ensures Valid() && Value() == Add(old(Value()), t, when, timerInfo)
    {
      hide Healthy, InsertEntry, Delay;
      ghost var e := AddTimer(t, when, timerInfo);
      StepKeepsHealthy(Value(), e);
      expiration := expiration[t := when];
      info := info[t := timerInfo];
      var earliestChanged := InsertTimer(t);
      if earliestChanged {
        timerfd := Arm(when, clock);
      }
    }

    method CancelInLoop(t: TimerPtr)
      requires Valid()
      modifies this
      ensures Valid() && Value() == Cancel(old(Value()), t)
    {
      hide Healthy, EraseEntry;
      StepKeepsHealthy(Value(), CancelTimer(t));
      var it := Find(waitTimers, t);
      if it != |waitTimers| {
        freeTimers := freeTimers + [waitTimers[it]];
        assert Entry(expiration[t], t) in timers;
        timers := EraseEntry(timers, Entry(expiration[t], t));
        waitTimers := waitTimers[..it] + waitTimers[it + 1..];
      } else if callingExpiredTimers {
        var activeIter := Find(activeTimers, t);
        if activeIter != |activeTimers| {
          cancelingTimers := cancelingTimers + [t];
        }
      }
    }

    /** Moves the expired timers, one by one, from the waiting list to the active list. */
    method GetExpired(now: int)
      requires ExpireAsserts(timers, waitTimers, now)
      modifies `timers, `waitTimers, `activeTimers
      ensures Value() == Expire(old(Value()), now)
      ensures |timers| == |waitTimers|
    {
      hide EraseAll, Pointers, ExpiredCount, Find;
      ghost var s := Value();
      activeTimers := [];
      var end := ExpiredCount(timers, now);
      assert end == |timers| || now < timers[end].when;
      ExpireStart(timers, waitTimers);
      for it := 0 to end
        invariant timers == old(timers)
        invariant activeTimers == Pointers(timers[..it]) && waitTimers == EraseAll(old(waitTimers), activeTimers)
      {
        assert timers[it].t in waitTimers;
        ExpireTurn(timers, old(waitTimers), it);
        activeTimers := activeTimers + [timers[it].t];
        var waitIter := Find(waitTimers, timers[it].t);
        waitTimers := waitTimers[..waitIter] + waitTimers[waitIter + 1..];
      }
      timers := timers[end..];
      assert Value() == Expire(s, now);
    }

    /** A read takes the expirations, if there are any. */
    method ReadTimerfd()
      modifies `timerfd
      ensures Value() == old(Value()).(fd := if old(timerfd).Readable? then Disarmed else old(timerfd))
    {
      if timerfd.Readable? {
        timerfd := Disarmed;
      }
    }

    method BeginBatchOfTimers()
      requires Valid() && !callingExpiredTimers
      modifies this
      ensures Valid() && Value() == Begin(old(Value()))
    {
      hide Healthy, Expire, ExpireAsserts;
      BeginKeepsHealthy(Value());
      ReadTimerfd();
      GetExpired(clock);
      RaiseFlag();
    }

    method RaiseFlag()
      modifies `callingExpiredTimers, `cancelingTimers, `done, `batchNow, `batch
      ensures Value() == old(Value()).(calling := true, canceling := [], done := 0,
                                       batch := old(batch) + 1, batchNow := clock)
    {
      callingExpiredTimers := true;
      cancelingTimers := [];
      done, batchNow := 0, clock;
      batch := batch + 1;
    }

    method RunNextTimer() returns (t: TimerPtr)
      requires Valid() && Possible(Value(), RunNext)
      modifies this
      ensures Valid() && t == old(activeTimers[done]) && Value() == RunOne(old(Value()))
    {
      hide Healthy;
      StepKeepsHealthy(Value(), RunNext);
      t := activeTimers[done];
      ran := ran + [Ran(batch, t)];
      done := done + 1;
    }

    /** The reset loop; every insertion is of an entry the set does not hold. */
    method ResetTimers()
      requires (forall t :: t in activeTimers ==> t in info) && ResetAsserts(Value(), activeTimers)
      modifies this
      ensures (forall t :: t in activeTimers ==> t in old(info)) && Value() == ResetAll(old(Value()), activeTimers)
    {
      hide InsertEntry, ResetAll, ResetAsserts, EarliestChanged;
      ghost var s := Value();
      assert activeTimers[0..] == activeTimers;
      for i := 0 to |activeTimers|
        invariant activeTimers == s.active && info == s.info
        invariant forall t :: t in activeTimers[i..] ==> t in info
        invariant ResetAsserts(Value(), activeTimers[i..])
        invariant ResetAll(s, activeTimers) == ResetAll(Value(), activeTimers[i..])
      {
        ResetTurn(Value(), activeTimers[i..]);
        assert activeTimers[i..][1..] == activeTimers[i + 1..];
        ResetTurnAsserts(Value(), activeTimers[i..]);
        var t := activeTimers[i];
        if info[t].repeat && Find(cancelingTimers, t) == |cancelingTimers| {
          expiration := expiration[t := batchNow + info[t].delta];
          var _ := InsertTimer(t);
        } else {
          freeTimers := freeTimers + [t];
        }
      }
      ResetNothing(Value());
    }

    method EndBatchOfTimers()
      requires Valid() && Possible(Value(), EndBatch)
      modifies this
      ensures Valid() && AssertsHold(old(Value()), EndBatch) && Value() == End(old(Value()))
    {
      hide Healthy, Delay;
      StepKeepsHealthy(Value(), EndBatch);
      callingExpiredTimers := false;
      ResetTimers();
      if |timers| != 0 && timers[0].when > 0 {
        timerfd := Arm(timers[0].when, clock);
      }
    }
  }
}
