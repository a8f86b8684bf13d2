/** Several requests on one connection: which of them the server has handed over after some chunks. */
module HttpServing {
  import opened Bytes
  import opened Http
  import opened HttpRoundTrip

  /** Bytes that arrived together, and when. */
  datatype Chunk = Chunk(bytes: seq<byte>, time: int)

  /** The connection's parser and unread bytes, the requests handed over, and whether a request was refused. */
  datatype Serving = Serving(ctx: Context, buf: seq<byte>, handed: seq<Request>, failed: bool)

  /** Everything of a request but the time it was received. */
  function Strip(r: Request): Request {
    r.(receiveTime := 0)
  }

  /** One call of the message callback per chunk; after a refused request nothing more is read. */
  function Serve(chunks: seq<Chunk>): (s: Serving)
    ensures !s.failed ==> Ready(s.ctx)
  {
    if chunks == [] then Serving(NEW_CONTEXT, [], [], false) else
      Receive(Serve(chunks[..|chunks| - 1]), chunks[|chunks| - 1])
  }

  function Receive(s: Serving, c: Chunk): (r: Serving)
    requires !s.failed ==> Ready(s.ctx)
    ensures !r.failed ==> Ready(r.ctx)
  {
    if s.failed then s else
      var h := Handle(s.ctx, s.buf + c.bytes, c.time);
      Serving(h.ctx, h.rest, if h.complete.Some? then s.handed + [Strip(h.complete.value)] else s.handed, h.failed)
  }

  function Stream(chunks: seq<Chunk>): seq<byte> {
    if chunks == [] then [] else Stream(chunks[..|chunks| - 1]) + chunks[|chunks| - 1].bytes
  }

  // ----- The complete requests of a stream -----

  /** A request that completes has consumed bytes, unless its request line was consumed before. */
  lemma {:induction false} CompleteConsumes(ctx: Context, buf: seq<byte>, time: int)
    requires Ready(ctx)
    ensures var o := Parse(ctx, buf, time);
            |o.rest| <= |buf| && (Completes(o) && ctx.state == ExpectRequestLine ==> |o.rest| < |buf|)
    decreases |buf|
  {
    hide ProcessRequestLine, StoI;
    StepProgress(ctx, buf, time);
    match ParseStep(ctx, buf, time)
    case Continue(c, rest) => CompleteConsumes(c, rest, time);
    case _ =>
  }

  /** All complete requests at the front of the bytes, up to the first that is refused or incomplete. */
  function Requests(ctx: Context, buf: seq<byte>): seq<Request>
    requires Ready(ctx)
    decreases |buf|, if ctx.state == ExpectRequestLine then 0 else 1
  {
    CompleteConsumes(ctx, buf, 0);
    var o := Parse(ctx, buf, 0);
    if Completes(o) then [Strip(o.ctx.request)] + Requests(NEW_CONTEXT, o.rest) else []
  }

  lemma RequestsTimeless(a: Context, b: Context, buf: seq<byte>)
    requires Ready(a) && Ready(b) && SameButTime(a, b)
    ensures Requests(a, buf) == Requests(b, buf)
  {
    hide Parse;
    TimeIrrelevant(a, b, buf, 0, 0);
  }

  /** The callback takes the first complete request off, if there is one, and leaves the others. */
  lemma ReceiveTakesOne(ctx: Context, buf: seq<byte>, later: seq<byte>, time: int)
    requires Ready(ctx)
    ensures var h, all := Handle(ctx, buf, time), Requests(ctx, buf + later);
            !h.failed ==>
              (Ready(h.ctx) &&
               all == (if h.complete.Some? then [Strip(h.complete.value)] else []) + Requests(h.ctx, h.rest + later))
    ensures Handle(ctx, buf, time).failed ==> Handle(ctx, buf, time).complete.None? && Requests(ctx, buf + later) == []
    ensures Handle(ctx, buf, time).complete.Some? <==> Requests(ctx, buf) != []
  {
    hide Parse;
    ThrowKeepsState(ctx, buf, time);
    TimeIrrelevant(ctx, ctx, buf, 0, time);
    ParseSplit(ctx, buf, later, 0);
    var o, p := Parse(ctx, buf, 0), Parse(ctx, buf, time);
    if Waiting(o) {
      RequestsTimeless(o.ctx, p.ctx, o.rest + later);
    }
  }

  /** The complete requests a server has still to hand over, if these bytes came next. */
  function Unserved(s: Serving, later: seq<byte>): seq<Request>
    requires !s.failed ==> Ready(s.ctx)
  {
    if s.failed then [] else Requests(s.ctx, s.buf + later)
  }

  /** Whatever follows, the requests handed over and those still to come are the complete requests of the stream. */
  lemma {:induction false} ServeConserves(chunks: seq<Chunk>, later: seq<byte>)
    ensures var s := Serve(chunks);
            Requests(NEW_CONTEXT, Stream(chunks) + later) == s.handed + Unserved(s, later)
  {
    hide Requests, Handle;
    if chunks == [] {
      assert [] + later == later;
    } else {
      var pre, c := chunks[..|chunks| - 1], chunks[|chunks| - 1];
      ServeConserves(pre, c.bytes + later);
      assert Stream(chunks) + later == Stream(pre) + (c.bytes + later);
      ReceiveConserves(Serve(pre), c, later);
    }
  }

  lemma ReceiveConserves(s: Serving, c: Chunk, later: seq<byte>)
    requires !s.failed ==> Ready(s.ctx)
    ensures var r := Receive(s, c);
            s.handed + Unserved(s, c.bytes + later) == r.handed + Unserved(r, later)
    ensures |Receive(s, c).handed| == |s.handed| + if Unserved(s, c.bytes) == [] then 0 else 1
  {
    hide Requests, Handle;
    if !s.failed {
      assert s.buf + (c.bytes + later) == s.buf + c.bytes + later;
      ReceiveTakesOne(s.ctx, s.buf + c.bytes, later, c.time);
    }
  }

  // ----- How many requests are handed over -----

  /** The number of complete requests in what has arrived. */
  function Arrived(chunks: seq<Chunk>): nat {
    |Requests(NEW_CONTEXT, Stream(chunks))|
  }

  function HandedOver(chunks: seq<Chunk>): nat {
    |Serve(chunks).handed|
  }

  /** Each chunk hands over one request more, as long as there is one. */
  lemma HandedStep(chunks: seq<Chunk>)
    ensures HandedOver(chunks) <= Arrived(chunks)
    ensures chunks != [] ==>
      var before := HandedOver(chunks[..|chunks| - 1]);
      HandedOver(chunks) == if before < Arrived(chunks) then before + 1 else before
  {
    hide Requests, Handle;
    ServeConserves(chunks, []);
    assert Stream(chunks) + [] == Stream(chunks);
    if chunks != [] {
      var pre, c := chunks[..|chunks| - 1], chunks[|chunks| - 1];
      ServeConserves(pre, c.bytes);
      ReceiveConserves(Serve(pre), c, []);
    }
  }

  lemma {:induction false} HandedBound(chunks: seq<Chunk>, j: nat)
    requires j <= |chunks|
    ensures HandedOver(chunks) <= Arrived(chunks[..j]) + |chunks| - j
    decreases |chunks|
  {
    hide HandedOver, Arrived;
    HandedStep(chunks);
    if j == |chunks| {
      assert chunks[..j] == chunks;
    } else {
      var pre := chunks[..|chunks| - 1];
      assert pre[..j] == chunks[..j];
      HandedBound(pre, j);
    }
  }

  /** The last moment at which nothing was waiting; since then every chunk has handed over one request. */
  lemma {:induction false} LastCaughtUp(chunks: seq<Chunk>) returns (j: nat)
    ensures j <= |chunks| && HandedOver(chunks) == Arrived(chunks[..j]) + |chunks| - j
    decreases |chunks|
  {
    HandedStep(chunks);
    if HandedOver(chunks) == Arrived(chunks) || chunks == [] {
      j := |chunks|;
      assert chunks[..j] == chunks;
    } else {
      hide HandedOver, Arrived;
      var pre := chunks[..|chunks| - 1];
      j := LastCaughtUp(pre);
      assert pre[..j] == chunks[..j];
    }
  }

  /** The last chunks, however many, never complete more requests than they are. */
  predicate KeepsPace(chunks: seq<Chunk>) {
    forall j :: 0 <= j <= |chunks| ==> Arrived(chunks) <= Arrived(chunks[..j]) + |chunks| - j
  }

  /**
    * For every list of chunks, the requests handed over are the first of the complete requests that arrived, and
    * they are all of them iff the chunks keep pace.
    */
  lemma ServedExactly(chunks: seq<Chunk>)
    ensures var all := Requests(NEW_CONTEXT, Stream(chunks));
            Serve(chunks).handed <= all && (Serve(chunks).handed == all <==> KeepsPace(chunks))
  {
    var s := Serve(chunks);
    ServeConserves(chunks, []);
    assert Stream(chunks) + [] == Stream(chunks);
    assert s.handed == Requests(NEW_CONTEXT, Stream(chunks)) <==> HandedOver(chunks) == Arrived(chunks);
    var j := LastCaughtUp(chunks);
    hide Serve, Requests, HandedOver, Arrived;
    forall i | 0 <= i <= |chunks|
      ensures HandedOver(chunks) <= Arrived(chunks[..i]) + |chunks| - i
    {
      HandedBound(chunks, i);
    }
  }

  // ----- Printed requests -----

  function PrintAll(ms: seq<Message>): seq<byte> {
    if ms == [] then [] else Print(ms[0]) + PrintAll(ms[1..])
  }

  function Denoted(ms: seq<Message>): seq<Request> {
    if ms == [] then [] else [Denotes(ms[0], 0)] + Denoted(ms[1..])
  }

  /** The complete requests of printed messages are the messages. */
  lemma {:induction false} PrintedRequests(ms: seq<Message>)
    requires forall m :: m in ms ==> WellFormed(m)
    ensures Requests(NEW_CONTEXT, PrintAll(ms)) == Denoted(ms)
  {
    hide WellFormed, Print;
    if ms == [] {
      assert Parse(NEW_CONTEXT, [], 0) == Stop(NEW_CONTEXT, [], true);
    } else {
      hide Parse;
      PrintParse(ms[0], PrintAll(ms[1..]), 0);
      PrintedRequests(ms[1..]);
    }
  }

  /** Of messages that arrive in one chunk only the first is handed over; the others wait for another chunk. */
  lemma PipelinedRequestsWait(ms: seq<Message>, time: int)
    requires ms != [] && forall m :: m in ms ==> WellFormed(m)
    ensures var s := Serve([Chunk(PrintAll(ms), time)]);
            s.handed == [Denotes(ms[0], 0)] && s.handed + Unserved(s, []) == Denoted(ms)
  {
    hide Requests, Handle, WellFormed, PrintAll;
    var one := [Chunk(PrintAll(ms), time)];
    PrintedRequests(ms);
    assert one[..0] == [] && Stream(one) == PrintAll(ms) && Stream(one) + [] == Stream(one);
    ServeConserves(one, []);
    HandedStep(one);
    assert HandedOver(one[..0]) == 0 && HandedOver(one) == 1;
    assert Serve(one).handed == Denoted(ms)[..1];
  }
}
