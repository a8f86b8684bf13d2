/** Multi-buffer asynchronous logging: front-end threads fill buffers, one thread writes them. */
module AsyncLoggingModule {
  import opened Bytes

  /** Size of a large log buffer. */
  const LARGE_BUFFER := 4000 * 1000

  /** As much of a line as there is room for. */
  function Cut(room: nat, line: seq<byte>): (r: seq<byte>)
    ensures r <= line && |r| == if |line| <= room then |line| else room
  {
    if |line| <= room then line else line[..room]
  }

  function Truncate(line: seq<byte>): seq<byte> {
    Cut(LARGE_BUFFER, line)
  }

  /** The bytes of a buffer of some size after an append. */
  function Filled(size: nat, b: seq<byte>, line: seq<byte>): seq<byte>
    requires |b| <= size
  {
    b + Cut(size - |b|, line)
  }

  // ----- One buffer -----

  /** A fixed array and a cursor; what does not fit is cut off. */
  class LogBuffer {
    const data: array<byte>
    var cur: nat

    ghost predicate Valid()
      reads this
    {
      cur <= data.Length
    }

    ghost function Contents(): seq<byte>
      reads this, data
      requires Valid()
    {
      data[..cur]
    }

    constructor (size: nat)
      ensures Valid() && fresh(data) && data.Length == size && Contents() == []
    {
      data := new byte[size](i => 0);
      cur := 0;
    }

    function Avail(): int
      reads this
    {
      data.Length - cur
    }

    method Append(buf: seq<byte>)
      requires Valid()
      modifies this, data
      ensures Valid()
      ensures Contents() == Filled(data.Length, old(Contents()), buf)
    {
      if Avail() > |buf| {
        Copy(buf);
        assert data[..cur + |buf|] == data[..cur] + data[cur..cur + |buf|];
        cur := cur + |buf|;
      } else {
        var room := Avail();
        Copy(buf[..room]);
        assert data[..cur + room] == data[..cur] + data[cur..cur + room];
        assert |buf| == room ==> buf[..room] == buf;
        cur := data.Length;
      }
    }

    /** memcpy to the cursor. */
    method Copy(buf: seq<byte>)
      requires Valid() && |buf| <= Avail()
      modifies data
      ensures data[..cur] == old(data[..cur]) && data[cur..cur + |buf|] == buf
    {
      for i := 0 to |buf|
        invariant data[..cur] == old(data[..cur])
        invariant data[cur..cur + i] == buf[..i]
      {
        data[cur + i] := buf[i];
        assert data[cur..cur + i + 1] == data[cur..cur + i] + [buf[i]];
        assert buf[..i + 1] == buf[..i] + [buf[i]];
      }
    }

    method Reset()
      modifies this
      ensures Valid() && Contents() == []
    {
      cur := 0;
    }
  }

  // ----- The protocol on values: a buffer is the list of the lines in it -----

  type Line = seq<byte>
  type Buf = seq<Line>

  datatype Phase = Collecting | Writing

  /**
    * `current`, `next` and `buffers` are shared under the mutex; the spares, `toWrite` and `done` (how many
    * of `toWrite` are written) belong to the writing thread. `written` is the file, line by line, and
    * `appended` every line ever given to append.
    */
  datatype Logging = Logging(current: Buf, next: Option<Buf>, buffers: seq<Buf>,
                             phase: Phase, spare1: Option<Buf>, spare2: Option<Buf>,
                             toWrite: seq<Buf>, done: nat, written: seq<Line>, appended: seq<Line>)

  const START := Logging([], Some([]), [], Collecting, Some([]), Some([]), [], 0, [], [])

  function Room(b: Buf): int {
    LARGE_BUFFER - |Flatten(b)|
  }

  /** LogBuffer's append, on lines. */
  function Push(b: Buf, line: Line): Buf
    requires Room(b) >= 0
  {
    b + [Cut(Room(b), line)]
  }

  datatype Event = Append(line: Line) | Collect | WriteOne | Recycle

  predicate Possible(s: Logging, e: Event) {
    match e
    case Append(_) => true
    case Collect => s.phase == Collecting
    case WriteOne => s.phase == Writing && s.done < |s.toWrite|
    case Recycle => s.phase == Writing && s.done == |s.toWrite|
  }

  /** The writer keeps at most two of the buffers it wrote. */
  function Kept(s: Logging): nat {
    if |s.toWrite| > 2 then 2 else |s.toWrite|
  }

  /** The assertions of the source: there is a buffer for each spare that was given away. */
  predicate AssertsHold(s: Logging, e: Event) {
    match e
    case Append(_) => Room(s.current) >= 0 && (s.next.Some? ==> Room(s.next.value) >= 0)
    case Collect => s.toWrite == [] && s.spare1.Some? && s.spare2.Some?
    case WriteOne => true
    case Recycle =>
      s.toWrite != [] &&
      Kept(s) >= (if s.spare1.None? then 1 else 0) + (if s.spare2.None? then 1 else 0)
  }

  function Step(s: Logging, e: Event): Logging
    requires Possible(s, e) && AssertsHold(s, e)
  {
    match e
    case Append(line) =>
      var t := s.(appended := s.appended + [line]);
      if Room(s.current) > |line| then t.(current := Push(s.current, line))
      else if s.next.Some? then
        t.(buffers := s.buffers + [s.current], current := Push(s.next.value, line), next := None)
      else
        t.(buffers := s.buffers + [s.current], current := Push([], line))
    case Collect =>
      s.(toWrite := s.buffers + [s.current], done := 0, buffers := [], current := s.spare1.value, spare1 := None,
         next := if s.next.None? then s.spare2 else s.next, spare2 := if s.next.None? then None else s.spare2,
         phase := Writing)
    case WriteOne =>
      s.(written := s.written + s.toWrite[s.done], done := s.done + 1)
    case Recycle =>
      s.(spare1 := if s.spare1.None? then Some([]) else s.spare1,
         spare2 := if s.spare2.None? then Some([]) else s.spare2,
         toWrite := [], done := 0, phase := Collecting)
  }

  // ----- The invariant -----

  function Truncated(lines: seq<Line>): seq<Line> {
    if lines == [] then [] else Truncated(lines[..|lines| - 1]) + [Truncate(lines[|lines| - 1])]
  }

  /** Every line in the system, oldest first. */
  function AllLines(s: Logging): seq<Line>
    requires s.done <= |s.toWrite|
  {
    s.written + Flatten(s.toWrite[s.done..]) + Flatten(s.buffers) + s.current
  }

  predicate Inv(s: Logging) {
    s.done <= |s.toWrite| &&
    Room(s.current) >= 0 &&
    (s.next.Some? ==> s.next.value == []) &&
    (s.next.None? ==> s.buffers != []) &&
    (s.phase == Collecting ==> s.toWrite == [] && s.spare1 == Some([]) && s.spare2 == Some([])) &&
    (s.phase == Writing ==>
      s.toWrite != [] && s.spare1 == None &&
      (s.spare2 == Some([]) || (s.spare2 == None && |s.toWrite| >= 2))) &&
    AllLines(s) == Truncated(s.appended)
  }

  lemma TruncatedSnoc(lines: seq<Line>, line: Line)
    ensures Truncated(lines + [line]) == Truncated(lines) + [Truncate(line)]
  {
    assert (lines + [line])[..|lines|] == lines;
  }

  lemma PushFits(b: Buf, line: Line)
    requires Room(b) >= 0 && (Room(b) > |line| || b == [])
    ensures Push(b, line) == b + [Truncate(line)] && Room(Push(b, line)) >= 0
  {
    FlattenSnoc(b, Truncate(line));
  }

  /** The source's assertions hold in every state that keeps the invariant: the spares can always be refilled. */
  lemma AssertsAlwaysHold(s: Logging, e: Event)
    requires Inv(s) && Possible(s, e)
    ensures AssertsHold(s, e)
  {
  }

  lemma AppendKeepsInv(s: Logging, line: Line)
    requires Inv(s)
    ensures AssertsHold(s, Append(line)) && Inv(Step(s, Append(line)))
  {
    EmptyRoom();
    hide Flatten, Truncated, Push, Truncate;
    var t := Step(s, Append(line));
    TruncatedSnoc(s.appended, line);
    if Room(s.current) > |line| {
      PushFits(s.current, line);
      assert AllLines(t) == AllLines(s) + [Truncate(line)];
    } else {
      PushFits([], line);
      FlattenSnoc(s.buffers, s.current);
      assert [] + [Truncate(line)] == [Truncate(line)];
      assert AllLines(t) == AllLines(s) + [Truncate(line)];
    }
  }

  lemma EmptyRoom()
    ensures Room([]) == LARGE_BUFFER
  {
  }

  lemma CollectKeepsInv(s: Logging)
    requires Inv(s) && Possible(s, Collect)
    ensures AssertsHold(s, Collect) && Inv(Step(s, Collect))
  {
    hide Flatten, Truncated;
    var t := Step(s, Collect);
    EmptyRoom();
    NothingLeft<Line>();
    FlattenSnoc(s.buffers, s.current);
    assert s.toWrite[s.done..] == [] && t.toWrite[t.done..] == t.toWrite;
    assert AllLines(t) == AllLines(s);
  }

  lemma NothingLeft<T>()
    ensures Flatten<T>([]) == []
  {
  }

  lemma WriterKeepsInv(s: Logging, e: Event)
    requires Inv(s) && Possible(s, e) && (e.WriteOne? || e.Recycle?)
    ensures AssertsHold(s, e) && Inv(Step(s, e))
  {
    hide Flatten, Truncated, Room;
    var t := Step(s, e);
    if e.WriteOne? {
      assert s.toWrite[s.done..] == [s.toWrite[s.done]] + s.toWrite[s.done + 1..];
      FlattenConcat([s.toWrite[s.done]], s.toWrite[s.done + 1..]);
      FlattenOne(s.toWrite[s.done]);
      assert AllLines(t) == AllLines(s);
    } else {
      assert s.toWrite[s.done..] == [];
    }
  }

  lemma StepKeepsInv(s: Logging, e: Event)
    requires Inv(s) && Possible(s, e) && AssertsHold(s, e)
    ensures Inv(Step(s, e))
  {
    hide Inv, Step, AssertsHold;
    match e
    case Append(line) => AppendKeepsInv(s, line);
    case Collect => CollectKeepsInv(s);
    case _ => WriterKeepsInv(s, e);
  }

  // ----- Every interleaving -----

  predicate Interleaving(s: Logging, es: seq<Event>)
    decreases |es|
  {
    es == [] ||
    (Possible(s, es[0]) && (AssertsHold(s, es[0]) ==> Interleaving(Step(s, es[0]), es[1..])))
  }

  /** The state a run ends in, stopping at a failed assertion. */
  function Run(s: Logging, es: seq<Event>): Logging
    requires Interleaving(s, es)
    decreases |es|
  {
    if es == [] || !AssertsHold(s, es[0]) then s else Run(Step(s, es[0]), es[1..])
  }

  predicate NoAssertFails(s: Logging, es: seq<Event>)
    requires Interleaving(s, es)
    decreases |es|
  {
    es == [] || (AssertsHold(s, es[0]) && NoAssertFails(Step(s, es[0]), es[1..]))
  }

  lemma {:induction false} RunKeepsInv(s: Logging, es: seq<Event>)
    requires Inv(s) && Interleaving(s, es)
    ensures Inv(Run(s, es)) && NoAssertFails(s, es)
    decreases |es|
  {
    hide Inv, AssertsHold, Step;
    if es == [] {
    } else {
      AssertsAlwaysHold(s, es[0]);
      StepKeepsInv(s, es[0]);
      RunKeepsInv(Step(s, es[0]), es[1..]);
    }
  }

  predicate AllFit(lines: seq<Line>) {
    forall l :: l in lines ==> |l| <= 4000000
  }

  lemma {:induction false} TruncatedExact(lines: seq<Line>)
    ensures |Truncated(lines)| == |lines|
    ensures Truncated(lines) == lines <==> AllFit(lines)
  {
    if lines == [] {
    } else {
      var n := |lines| - 1;
      TruncatedExact(lines[..n]);
      assert lines == lines[..n] + [lines[n]];
      assert Truncated(lines)[..n] == Truncated(lines[..n]) && Truncated(lines)[n] == Truncate(lines[n]);
      assert lines[n] in lines;
      assert AllFit(lines) <==> AllFit(lines[..n]) && |lines[n]| <= LARGE_BUFFER;
    }
  }

  /**
    * At every interleaving no assertion fails; the lines written, being written, full and current are, in
    * order, the lines appended - exactly iff none exceeds a buffer - and the file ends at a line boundary.
    */
  lemma LoggingConserves(es: seq<Event>)
    requires Interleaving(START, es)
    ensures NoAssertFails(START, es)
    ensures var s := Run(START, es);
            s.done <= |s.toWrite| && AllLines(s) == Truncated(s.appended) && s.written <= Truncated(s.appended) &&
            (AllLines(s) == s.appended <==> AllFit(s.appended)) &&
            (AllFit(s.appended) ==> s.written == s.appended[..|s.written|])
  {
    RunKeepsInv(START, es);
    var s := Run(START, es);
    TruncatedExact(s.appended);
    assert AllLines(s)[..|s.written|] == s.written;
  }

  function Present(b: Option<Buf>): nat {
    if b.Some? then 1 else 0
  }

  /** The buffers in the system. */
  function Buffers(s: Logging): nat {
    1 + Present(s.next) + |s.buffers| + Present(s.spare1) + Present(s.spare2) + |s.toWrite|
  }

  /** Buffers are reused: a new one is made only when the current one is full and no next one is there. */
  lemma BuffersAreReused(s: Logging, e: Event)
    requires Inv(s) && Possible(s, e) && AssertsHold(s, e)
    ensures var n := Buffers(Step(s, e));
            if e.Append? then n == Buffers(s) + (if Room(s.current) <= |e.line| && s.next.None? then 1 else 0)
            else if e.Recycle? then n <= Buffers(s)
            else n == Buffers(s)
  {
    hide Push, Room;
  }

  /** The lines given to append by a list of events, in order. */
  function Appended(es: seq<Event>): seq<Line> {
    if es == [] then [] else (if es[0].Append? then [es[0].line] else []) + Appended(es[1..])
  }

  lemma {:induction false} AppendedFollows(s: Logging, es: seq<Event>)
    requires Inv(s) && Interleaving(s, es)
    ensures Run(s, es).appended == s.appended + Appended(es)
    decreases |es|
  {
    hide Inv, AssertsHold, Step, Possible;
    if es == [] {
    } else {
      AssertsAlwaysHold(s, es[0]);
      StepKeepsInv(s, es[0]);
      AppendedStep(s, es[0]);
      var t, first, later := Step(s, es[0]), if es[0].Append? then [es[0].line] else [], Appended(es[1..]);
      AppendedFollows(t, es[1..]);
      assert s.appended + first + later == s.appended + (first + later);
    }
  }

  lemma AppendedStep(s: Logging, e: Event)
    requires Possible(s, e) && AssertsHold(s, e)
    ensures Step(s, e).appended == s.appended + if e.Append? then [e.line] else []
  {
    hide Push, Room, Kept;
  }

  /**
    * Over every interleaving the file is, line by line, a prefix of the lines the threads appended, in their
    * order; a line is cut only after 4000000 bytes.
    */
  lemma FileFollowsEvents(es: seq<Event>)
    requires Interleaving(START, es)
    ensures var s, lines := Run(START, es), Appended(es);
            |s.written| <= |lines| &&
            forall i :: 0 <= i < |s.written| ==>
              s.written[i] <= lines[i] && (|lines[i]| <= 4000000 ==> s.written[i] == lines[i]) &&
              (|lines[i]| > 4000000 ==> |s.written[i]| == 4000000)
  {
    LoggingConserves(es);
    AppendedFollows(START, es);
    var s := Run(START, es);
    assert [] + Appended(es) == Appended(es);
    TruncatedExact(s.appended);
    TruncatedAt(s.appended);
    hide Inv, Run, Interleaving, NoAssertFails, Truncated, Appended;
  }

  lemma {:induction false} TruncatedAt(lines: seq<Line>)
    ensures |Truncated(lines)| == |lines| && forall i :: 0 <= i < |lines| ==> Truncated(lines)[i] == Truncate(lines[i])
  {
    if lines != [] {
      TruncatedAt(lines[..|lines| - 1]);
    }
  }

  /** Nothing appended is lost once the writer has caught up: the file is the concatenation of all lines. */
  lemma CaughtUp(s: Logging)
    requires Inv(s) && AllFit(s.appended)
    requires s.done == |s.toWrite| && s.buffers == [] && s.current == []
    ensures Flatten(s.written) == Flatten(s.appended)
  {
    TruncatedExact(s.appended);
    assert s.toWrite[s.done..] == [];
    assert AllLines(s) == s.written;
  }

  // ----- The class: buffers are their bytes; `state` relates them to lines -----

  /** The bytes of each buffer in a list. */
  function ContentsOf(bs: seq<Buf>): seq<seq<byte>> {
    seq(|bs|, i requires 0 <= i < |bs| => Flatten(bs[i]))
  }

  function BytesOf(b: Option<Buf>): Option<seq<byte>> {
    if b.Some? then Some(Flatten(b.value)) else None
  }

  class AsyncLogging {
    var currentBuffer: seq<byte>
    var nextBuffer: Option<seq<byte>>
    var buffers: seq<seq<byte>>
    var newBuffer1: Option<seq<byte>>
    var newBuffer2: Option<seq<byte>>
    var buffersToWrite: seq<seq<byte>>
    var output: seq<byte>
    ghost var state: Logging

    ghost predicate Valid()
      reads this
    {
      Inv(state) &&
      currentBuffer == Flatten(state.current) && nextBuffer == BytesOf(state.next) &&
      buffers == ContentsOf(state.buffers) &&
      newBuffer1 == BytesOf(state.spare1) && newBuffer2 == BytesOf(state.spare2) &&
      buffersToWrite == ContentsOf(state.toWrite) &&
      output == Flatten(state.written)
    }

    constructor ()
      ensures Valid() && state == START && output == []
    {
      currentBuffer, nextBuffer, buffers := [], Some([]), [];
      newBuffer1, newBuffer2, buffersToWrite := Some([]), Some([]), [];
      output := [];
      state := START;
    }

    /** The front end, under the mutex. */
    method AppendLine(logline: seq<byte>) returns (notify: bool)
      requires Valid()
      modifies this
      ensures Valid() && AssertsHold(old(state), Append(logline)) && state == Step(old(state), Append(logline))
      ensures notify <==> old(LARGE_BUFFER - |currentBuffer|) <= |logline|
    {
      hide Inv, Flatten, Push, Filled;
      AppendKeepsInv(state, logline);
      CurrentFits(state);
      NothingLeft<byte>();
      ghost var s, t := state, Step(state, Append(logline));
      notify := false;
      if LARGE_BUFFER - |currentBuffer| > |logline| {
        PushBytes(s.current, logline);
        currentBuffer := Filled(LARGE_BUFFER, currentBuffer, logline);
      } else {
        buffers := buffers + [currentBuffer];
        if nextBuffer.Some? {
          PushBytes([], logline);
          currentBuffer := nextBuffer.value;
          nextBuffer := None;
        } else {
          PushBytes([], logline);
          currentBuffer := [];
        }
        currentBuffer := Filled(LARGE_BUFFER, currentBuffer, logline);
        notify := true;
      }
      state := t;
    }

    /** The writer's critical section: take all buffers, leave the spares. */
    method CollectBuffers()
      requires Valid() && state.phase == Collecting
      modifies this
      ensures Valid() && AssertsHold(old(state), Collect) && state == Step(old(state), Collect)
      ensures buffersToWrite != [] && output == old(output)
    {
      CollectKeepsInv(state);
      ghost var t := Step(state, Collect);
      buffers := buffers + [currentBuffer];
      currentBuffer := newBuffer1.value;
      newBuffer1 := None;
      buffersToWrite := buffers;
      buffers := [];
      if nextBuffer.None? {
        nextBuffer := newBuffer2;
        newBuffer2 := None;
      }
      state := t;
    }

    /** The writer's output loop; each turn is one step of the protocol. */
    method WriteBuffers()
      requires Valid() && state.phase == Writing && state.done == 0
      modifies this
      ensures Valid() && state == old(state).(done := |old(state).toWrite|,
                                              written := old(state).written + Flatten(old(state).toWrite))
      ensures output == old(output) + Flatten(old(buffersToWrite))
    {
      hide Inv, Flatten, AssertsHold;
      ghost var s := state;
      NothingLeft<Line>();
      NothingLeft<byte>();
      assert s.toWrite[..0] == [] && s.written + [] == s.written && output + [] == output;
      assert buffersToWrite[..0] == [];
      for i := 0 to |buffersToWrite|
        invariant Valid() && buffersToWrite == old(buffersToWrite)
        invariant state == s.(done := i, written := s.written + Flatten(s.toWrite[..i]))
        invariant output == old(output) + Flatten(buffersToWrite[..i])
      {
        WriterKeepsInv(state, WriteOne);
        ghost var t := Step(state, WriteOne);
        assert s.toWrite[..i + 1] == s.toWrite[..i] + [s.toWrite[i]];
        assert buffersToWrite[..i + 1] == buffersToWrite[..i] + [buffersToWrite[i]];
        FlattenSnoc(s.toWrite[..i], s.toWrite[i]);
        FlattenSnoc(buffersToWrite[..i], buffersToWrite[i]);
        FlattenConcat(state.written, s.toWrite[i]);
        assert t == s.(done := i + 1, written := s.written + Flatten(s.toWrite[..i + 1]));
        assert buffersToWrite[i] == Flatten(s.toWrite[i]);
        assert output + buffersToWrite[i] == old(output) + Flatten(buffersToWrite[..i + 1]);
        output := output + buffersToWrite[i];
        state := t;
      }
      assert s.toWrite[..|s.toWrite|] == s.toWrite;
      assert buffersToWrite[..|buffersToWrite|] == buffersToWrite;
    }

    /** The writer refills its spares from the buffers it wrote; both pops are from non-empty lists. */
    method RecycleBuffers()
      requires Valid() && state.phase == Writing && state.done == |state.toWrite|
      modifies this
      ensures Valid() && AssertsHold(old(state), Recycle) && state == Step(old(state), Recycle)
      ensures newBuffer1 == Some([]) && newBuffer2 == Some([]) && buffersToWrite == [] && output == old(output)
    {
      WriterKeepsInv(state, Recycle);
      ghost var t := Step(state, Recycle);
      if |buffersToWrite| > 2 {
        buffersToWrite := buffersToWrite[..2];
      }
      if newBuffer1.None? {
        assert buffersToWrite != [];
        buffersToWrite := buffersToWrite[..|buffersToWrite| - 1];
        newBuffer1 := Some([]);
      }
      if newBuffer2.None? {
        assert buffersToWrite != [];
        buffersToWrite := buffersToWrite[..|buffersToWrite| - 1];
        newBuffer2 := Some([]);
      }
      buffersToWrite := [];
      state := t;
    }
  }

  lemma CurrentFits(s: Logging)
    requires Inv(s)
    ensures Room(s.current) >= 0 && (s.next.Some? ==> s.next.value == [])
  {
  }

  /** The append on lines and the append of LogBuffer are the same on bytes. */
  lemma PushBytes(b: Buf, line: Line)
    requires Room(b) >= 0
    ensures Flatten(Push(b, line)) == Filled(LARGE_BUFFER, Flatten(b), line)
  {
    FlattenSnoc(b, Cut(Room(b), line));
  }
}
