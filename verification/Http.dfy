/** The incremental parser of HTTP requests. */
module Http {
  import opened CInt
  import opened Bytes
  import opened BufferModule

  datatype Method = INVALID | GET | POST | HEAD | PUT | DELETE

  datatype Version = UNKNOWN | HTTP10 | HTTP11

  datatype Request = Request(httpMethod: Method, version: Version, path: seq<byte>, query: seq<byte>,
                             receiveTime: int, headers: map<seq<byte>, seq<byte>>)

  datatype ParseState = ExpectRequestLine | ExpectHeaders | ExpectBody | GotAll

  datatype Context = Context(state: ParseState, request: Request)

  const EMPTY_REQUEST := Request(INVALID, UNKNOWN, [], [], 0, map[])
  const NEW_CONTEXT := Context(ExpectRequestLine, EMPTY_REQUEST)

  // ----- Bytes of the protocol -----

  const CR: byte := 13
  const SP: byte := 32
  const COLON: byte := 58
  const QUESTION: byte := 63
  const CRLF: seq<byte> := [13, 10]

  /** "HTTP/1." */
  const HTTP1_DOT: seq<byte> := [72, 84, 84, 80, 47, 49, 46]

  /** "Content-Length" */
  const CONTENT_LENGTH: seq<byte> := [67, 111, 110, 116, 101, 110, 116, 45, 76, 101, 110, 103, 116, 104]

  predicate IsSpace(b: byte) {
    9 <= b <= 13 || b == 32
  }

  function MethodOf(s: seq<byte>): Method {
    if s == [71, 69, 84] then GET
    else if s == [80, 79, 83, 84] then POST
    else if s == [72, 69, 65, 68] then HEAD
    else if s == [80, 85, 84] then PUT
    else if s == [68, 69, 76, 69, 84, 69] then DELETE
    else INVALID
  }

  // ----- Header values -----

  function TrimLeft(s: seq<byte>): seq<byte> {
    if s != [] && IsSpace(s[0]) then TrimLeft(s[1..]) else s
  }

  function TrimRight(s: seq<byte>): seq<byte> {
    if s != [] && IsSpace(s[|s| - 1]) then TrimRight(s[..|s| - 1]) else s
  }

  function Trim(s: seq<byte>): seq<byte> {
    TrimRight(TrimLeft(s))
  }

  function HeaderOr(req: Request, field: seq<byte>): seq<byte> {
    if field in req.headers then req.headers[field] else []
  }

  /** A header line split at its first colon. */
  function WithHeader(req: Request, line: seq<byte>, colon: nat): Request
    requires colon < |line|
  {
    req.(headers := req.headers[line[..colon] := Trim(line[colon + 1..])])
  }

  method AddHeader(req: Request, line: seq<byte>, colon: nat) returns (r: Request)
    requires colon < |line|
    ensures r == WithHeader(req, line, colon)
  {
    var field := line[..colon];
    var i := colon + 1;
    while i < |line| && IsSpace(line[i])
      invariant colon < i <= |line|
      invariant TrimLeft(line[i..]) == TrimLeft(line[colon + 1..])
    {
      assert line[i..][1..] == line[i + 1..];
      i := i + 1;
    }
    var value := line[i..];
    while value != [] && IsSpace(value[|value| - 1])
      invariant TrimRight(value) == TrimRight(line[i..])
      decreases |value|
    {
      value := value[..|value| - 1];
    }
    r := req.(headers := req.headers[field := value]);
  }

  // ----- std::stoi -----

  predicate IsDigit(b: byte) {
    48 <= b <= 57
  }

  /** The leading decimal digits. */
  function Digits(s: seq<byte>): (d: seq<byte>)
    ensures forall b :: b in d ==> IsDigit(b)
  {
    if s != [] && IsDigit(s[0]) then [s[0]] + Digits(s[1..]) else []
  }

  function DecimalValue(d: seq<byte>): int {
    if d == [] then 0 else DecimalValue(d[..|d| - 1]) * 10 + d[|d| - 1] - 48
  }

  /** White space, an optional sign, digits; None where the library throws. */
  function StoI(s: seq<byte>): Option<int> {
    var t := TrimLeft(s);
    var negative := t != [] && t[0] == 45;
    var d := Digits(if t != [] && (t[0] == 45 || t[0] == 43) then t[1..] else t);
    var v := if negative then -DecimalValue(d) else DecimalValue(d);
    if d == [] || !Int32(v) then None else Some(v)
  }

  // ----- The request line -----

  /** Success, and the request with the fields set so far. */
  function ProcessRequestLine(req: Request, line: seq<byte>): (bool, Request) {
    var space := FindByte(line, SP);
    if space == |line| then (false, req) else
      var r1 := req.(httpMethod := MethodOf(line[..space]));
      if r1.httpMethod == INVALID then (false, r1) else
        ProcessTarget(r1, line[space + 1..])
  }

  /** The part of the request line after the method. */
  function ProcessTarget(req: Request, line: seq<byte>): (bool, Request) {
    var space := FindByte(line, SP);
    if space == |line| then (false, req) else
      var target := line[..space];
      var question := FindByte(target, QUESTION);
      var r2 := if question != |target| then req.(path := target[..question], query := target[question..])
                else req.(path := target);
      var v := line[space + 1..];
      if |v| == 8 && v[..7] == HTTP1_DOT then
        if v[7] == 49 then (true, r2.(version := HTTP11))
        else if v[7] == 48 then (true, r2.(version := HTTP10))
        else (false, r2)
      else (false, r2)
  }

  // ----- One turn of the parsing loop, and the loop -----

  /** Continue the loop, leave it (ok or not), or an exception from stoi. */
  datatype Outcome =
    | Continue(ctx: Context, rest: seq<byte>)
    | Stop(ctx: Context, rest: seq<byte>, ok: bool)
    | Throw(ctx: Context, rest: seq<byte>)

  /** The request line sets a method that was not set before, and a complete request is not parsed again. */
  predicate Ready(ctx: Context) {
    ctx.state != GotAll && (ctx.state == ExpectRequestLine ==> ctx.request.httpMethod == INVALID)
  }

  function ParseStep(ctx: Context, buf: seq<byte>, time: int): Outcome
    requires Ready(ctx)
  {
    match ctx.state
    case ExpectRequestLine => RequestLineStep(ctx, buf, time)
    case ExpectHeaders => HeaderStep(ctx, buf)
    case ExpectBody => BodyStep(ctx, buf)
  }

  function RequestLineStep(ctx: Context, buf: seq<byte>, time: int): Outcome {
    match IndexOf(buf, CRLF, 0)
    case None => Stop(ctx, buf, true)
    case Some(i) =>
      var (ok, req) := ProcessRequestLine(ctx.request, buf[..i]);
      if ok then Continue(Context(ExpectHeaders, req.(receiveTime := time)), buf[i + 2..])
      else Stop(ctx.(request := req), buf, false)
  }

  function HeaderStep(ctx: Context, buf: seq<byte>): Outcome {
    match IndexOf(buf, CRLF, 0)
    case None => Stop(ctx, buf, true)
    case Some(i) =>
      var line, rest := buf[..i], buf[i + 2..];
      var colon := FindByte(line, COLON);
      if colon != |line| then Continue(ctx.(request := WithHeader(ctx.request, line, colon)), rest)
      else if ctx.request.httpMethod == GET then Stop(ctx.(state := GotAll), rest, true)
      else if ctx.request.httpMethod == POST then Continue(ctx.(state := ExpectBody), rest)
      else Continue(ctx, rest)
  }

  function BodyStep(ctx: Context, buf: seq<byte>): Outcome {
    var length := HeaderOr(ctx.request, CONTENT_LENGTH);
    if length == [] then Stop(ctx, buf, true) else
      match StoI(length)
      case None => Throw(ctx, buf)
      case Some(n) =>
        // a negative length becomes a huge size_t
        if 0 <= n <= |buf| then Stop(Context(GotAll, ctx.request.(query := buf[..n])), buf[n..], true)
        else Stop(ctx, buf, true)
  }

  lemma StepProgress(ctx: Context, buf: seq<byte>, time: int)
    requires Ready(ctx)
    ensures var o := ParseStep(ctx, buf, time);
            o.Continue? ==> Ready(o.ctx) && |o.rest| < |buf|
  {
  }

  function Parse(ctx: Context, buf: seq<byte>, time: int): (o: Outcome)
    requires Ready(ctx)
    ensures !o.Continue?
    ensures o.Stop? && o.ok && o.ctx.state != GotAll ==> Ready(o.ctx)
    decreases |buf|
  {
    StepProgress(ctx, buf, time);
    match ParseStep(ctx, buf, time)
    case Continue(c, rest) => Parse(c, rest, time)
    case o => o
  }

  /** What one call of the server's message callback leaves: at most one request is handed over. */
  datatype Handled = Handled(ctx: Context, rest: seq<byte>, complete: Option<Request>, failed: bool)

  predicate Completes(o: Outcome) {
    o.Stop? && o.ctx.state == GotAll
  }

  function Handle(ctx: Context, buf: seq<byte>, time: int): Handled
    requires Ready(ctx)
  {
    var o := Parse(ctx, buf, time);
    if Completes(o) then Handled(NEW_CONTEXT, o.rest, Some(o.ctx.request), !o.ok)
    else Handled(o.ctx, o.rest, None, o.Throw? || !o.ok)
  }

  // ----- The class -----

  class HttpContext {
    var state: ParseState
    var request: Request

    function Value(): Context
      reads this
    {
      Context(state, request)
    }

    constructor ()
      ensures Value() == NEW_CONTEXT
    {
      state := ExpectRequestLine;
      request := EMPTY_REQUEST;
    }

    method Reset()
      modifies this
      ensures Value() == NEW_CONTEXT
    {
      state := ExpectRequestLine;
      request := EMPTY_REQUEST;
    }

    /** One turn of the parsing loop. */
    method Turn(buf: Buffer, receiveTime: int) returns (hasMore: bool, ok: bool, threw: bool)
      requires buf.Valid() && Ready(Value())
      modifies this, buf
      ensures buf.Valid() && (PREPEND <= old(buf.readIndex) ==> PREPEND <= buf.readIndex)
      ensures ParseStep(old(Value()), old(buf.Contents()), receiveTime) ==
              if hasMore then Continue(Value(), buf.Contents())
              else if threw then Throw(Value(), buf.Contents())
              else Stop(Value(), buf.Contents(), ok)
    {
      hide ProcessRequestLine, StoI, WithHeader, IndexOf, FindByte;
      hasMore, ok, threw := true, true, false;
      if state == ExpectRequestLine {
        var crlf := buf.FindSubString(CRLF, 0);
        if crlf.Some? {
          var (good, req) := ProcessRequestLine(request, buf.Contents()[..crlf.value]);
          ok := good;
          request := req;
          if ok {
            request := request.(receiveTime := receiveTime);
            buf.RetrieveUntil(crlf.value + 2);
            state := ExpectHeaders;
          } else {
            hasMore := false;
          }
        } else {
          hasMore := false;
        }
      } else if state == ExpectHeaders {
        var crlf := buf.FindSubString(CRLF, 0);
        if crlf.Some? {
          var line := buf.Contents()[..crlf.value];
          var colon := FindByte(line, COLON);
          if colon != crlf.value {
            request := AddHeader(request, line, colon);
          } else if request.httpMethod == GET {
            state := GotAll;
            hasMore := false;
          } else if request.httpMethod == POST {
            state := ExpectBody;
          }
          buf.RetrieveUntil(crlf.value + 2);
        } else {
          hasMore := false;
        }
      } else {
        var contentLength := HeaderOr(request, CONTENT_LENGTH);
        hasMore := false;
        if contentLength != [] {
          var n := StoI(contentLength);
          if n.None? {
            threw := true;
          } else if 0 <= n.value <= buf.ReadableBytes() {
            request := request.(query := buf.Contents()[..n.value]);
            buf.Retrieve(n.value);
            state := GotAll;
          }
        }
      }
    }

    /** The loop ends from every state but GotAll: each turn consumes bytes or clears hasMore. */
    method ParseRequest(buf: Buffer, receiveTime: int) returns (ok: bool, threw: bool)
      requires buf.Valid() && Ready(Value())
      modifies this, buf
      ensures buf.Valid() && (PREPEND <= old(buf.readIndex) ==> PREPEND <= buf.readIndex)
      ensures Parse(old(Value()), old(buf.Contents()), receiveTime) ==
              if threw then Throw(Value(), buf.Contents()) else Stop(Value(), buf.Contents(), ok)
    {
      hide ParseStep, Ready;
      ok, threw := true, false;
      var hasMore := true;
      while hasMore
        invariant buf.Valid() && (PREPEND <= old(buf.readIndex) ==> PREPEND <= buf.readIndex)
        invariant hasMore ==> Ready(Value())
        invariant Parse(old(Value()), old(buf.Contents()), receiveTime) ==
                  if hasMore then Parse(Value(), buf.Contents(), receiveTime)
                  else if threw then Throw(Value(), buf.Contents())
                  else Stop(Value(), buf.Contents(), ok)
        decreases hasMore, buf.ReadableBytes()
      {
        StepProgress(Value(), buf.Contents(), receiveTime);
        hasMore, ok, threw := Turn(buf, receiveTime);
      }
    }

    /** The server's message callback: a complete request is handed over and the context starts afresh. */
    method OnMessage(buf: Buffer, receiveTime: int)
      returns (complete: Option<Request>, bad: bool, threw: bool)
      requires buf.Valid() && Ready(Value())
      modifies this, buf
      ensures buf.Valid() && state != GotAll
      ensures !bad && !threw ==> Ready(Value())
      ensures var o := Parse(old(Value()), old(buf.Contents()), receiveTime);
              buf.Contents() == o.rest && (bad <==> o.Stop? && !o.ok) && (threw <==> o.Throw?) &&
              (complete == if o.Stop? && o.ctx.state == GotAll then Some(o.ctx.request) else None) &&
              Value() == if complete.Some? then NEW_CONTEXT else o.ctx
      ensures Handle(old(Value()), old(buf.Contents()), receiveTime) ==
              Handled(Value(), buf.Contents(), complete, bad || threw)
    {
      var ok;
      ok, threw := ParseRequest(buf, receiveTime);
      bad := !threw && !ok;
      complete := None;
      ThrowKeepsState(old(Value()), old(buf.Contents()), receiveTime);
      if !threw && state == GotAll {
        complete := Some(request);
        Reset();
      }
    }
  }

  /** An exception or a rejected request line leaves the context in an unfinished state. */
  lemma {:induction false} ThrowKeepsState(ctx: Context, buf: seq<byte>, time: int)
    requires Ready(ctx)
    ensures var o := Parse(ctx, buf, time);
            (o.Throw? || (o.Stop? && !o.ok)) ==> o.ctx.state != GotAll
    decreases |buf|
  {
    StepProgress(ctx, buf, time);
    match ParseStep(ctx, buf, time)
    case Continue(c, rest) => ThrowKeepsState(c, rest, time);
    case _ =>
  }

  // ----- Chunk independence -----

  /** Nothing more can be done with the bytes at hand. */
  predicate Waiting(o: Outcome) {
    o.Stop? && o.ok && o.ctx.state != GotAll
  }

  /** The same outcome with further bytes behind it. */
  function Extend(o: Outcome, b: seq<byte>): Outcome {
    o.(rest := o.rest + b)
  }

  /** Everything but the receive time. */
  function Timeless(o: Outcome): Outcome {
    o.(ctx := o.ctx.(request := o.ctx.request.(receiveTime := 0)))
  }

  predicate SameButTime(a: Context, b: Context) {
    a.(request := a.request.(receiveTime := 0)) == b.(request := b.request.(receiveTime := 0))
  }

  lemma IndexOfExtend(a: seq<byte>, b: seq<byte>)
    ensures IndexOf(a, CRLF, 0).Some? ==> IndexOf(a + b, CRLF, 0) == IndexOf(a, CRLF, 0)
  {
    var i, j := IndexOf(a, CRLF, 0), IndexOf(a + b, CRLF, 0);
    if i.Some? {
      assert (a + b)[i.value..i.value + 2] == a[i.value..i.value + 2];
      assert MatchAt(a + b, CRLF, i.value);
      assert j.Some? && j.value <= i.value;
      assert (a + b)[j.value..j.value + 2] == a[j.value..j.value + 2];
      assert MatchAt(a, CRLF, j.value);
    }
  }

  /** A turn that does not wait does the same with more bytes behind; a turn that waits changes nothing. */
  lemma StepExtend(ctx: Context, a: seq<byte>, b: seq<byte>, time: int)
    requires Ready(ctx)
    ensures var o := ParseStep(ctx, a, time);
            if Waiting(o) then o == Stop(ctx, a, true)
            else ParseStep(ctx, a + b, time) == Extend(o, b)
  {
    hide ProcessRequestLine, StoI, WithHeader, IndexOf, FindByte;
    IndexOfExtend(a, b);
    var i := IndexOf(a, CRLF, 0);
    if i.Some? {
      assert (a + b)[..i.value] == a[..i.value];
      assert (a + b)[i.value + 2..] == a[i.value + 2..] + b;
    }
    var n := StoI(HeaderOr(ctx.request, CONTENT_LENGTH));
    if n.Some? && 0 <= n.value <= |a| {
      assert (a + b)[..n.value] == a[..n.value];
      assert (a + b)[n.value..] == a[n.value..] + b;
    }
  }

  lemma ProcessRequestLineTime(a: Request, b: Request, line: seq<byte>)
    requires a.(receiveTime := 0) == b.(receiveTime := 0)
    ensures var (ok1, r1) := ProcessRequestLine(a, line);
            var (ok2, r2) := ProcessRequestLine(b, line);
            ok1 == ok2 && r1.(receiveTime := 0) == r2.(receiveTime := 0)
  {
  }

  /** The receive time has no influence on the rest of the result. */
  lemma {:induction false} TimeIrrelevant(a: Context, b: Context, buf: seq<byte>, s: int, t: int)
    requires Ready(a) && Ready(b) && SameButTime(a, b)
    ensures Timeless(Parse(a, buf, s)) == Timeless(Parse(b, buf, t))
    decreases |buf|
  {
    hide ProcessRequestLine, StoI;
    StepProgress(a, buf, s);
    StepProgress(b, buf, t);
    if IndexOf(buf, CRLF, 0).Some? {
      ProcessRequestLineTime(a.request, b.request, buf[..IndexOf(buf, CRLF, 0).value]);
    }
    var o, p := ParseStep(a, buf, s), ParseStep(b, buf, t);
    assert Timeless(o) == Timeless(p);
    if o.Continue? {
      TimeIrrelevant(o.ctx, p.ctx, o.rest, s, t);
    }
  }

  /** Parsing on after a wait, with the new bytes behind the unread ones, is parsing everything at once. */
  lemma {:induction false} ParseSplit(ctx: Context, a: seq<byte>, b: seq<byte>, time: int)
    requires Ready(ctx)
    ensures var o := Parse(ctx, a, time);
            Parse(ctx, a + b, time) == if Waiting(o) then Parse(o.ctx, o.rest + b, time) else Extend(o, b)
    decreases |a|
  {
    hide ParseStep;
    StepProgress(ctx, a, time);
    StepExtend(ctx, a, b, time);
    match ParseStep(ctx, a, time)
    case Continue(c, rest) =>
      StepProgress(ctx, a + b, time);
      ParseSplit(c, rest, b, time);
    case _ =>
  }

  /** As ParseSplit, with the second part received at another time. */
  lemma ChunkIndependence(ctx: Context, a: seq<byte>, b: seq<byte>, s: int, t: int)
    requires Ready(ctx)
    ensures var o := Parse(ctx, a, s);
            Timeless(Parse(ctx, a + b, s)) ==
            if Waiting(o) then Timeless(Parse(o.ctx, o.rest + b, t)) else Timeless(Extend(o, b))
  {
    ParseSplit(ctx, a, b, s);
    var o := Parse(ctx, a, s);
    if Waiting(o) {
      TimeIrrelevant(o.ctx, o.ctx, o.rest + b, s, t);
    }
  }

  /** Feeding chunks, each at its own time, until the request is complete or rejected. */
  function ParseChunks(ctx: Context, buf: seq<byte>, chunks: seq<seq<byte>>, times: seq<int>): Outcome
    requires Ready(ctx) && |chunks| == |times|
    decreases |chunks|
  {
    if chunks == [] then Stop(ctx, buf, true) else
      var o := Parse(ctx, buf + chunks[0], times[0]);
      if Waiting(o) then ParseChunks(o.ctx, o.rest, chunks[1..], times[1..])
      else Extend(o, Flatten(chunks[1..]))
  }

  /** However a stream is cut, the parser ends in the same state, request and unread bytes. */
  lemma {:induction false} ParseAnyChunking(
      ctx: Context, buf: seq<byte>, chunks: seq<seq<byte>>, times: seq<int>, time: int)
    requires Ready(ctx) && |chunks| == |times|
    requires Parse(ctx, buf, time) == Stop(ctx, buf, true)
    ensures Timeless(ParseChunks(ctx, buf, chunks, times)) == Timeless(Parse(ctx, buf + Flatten(chunks), time))
    decreases |chunks|
  {
    hide Parse, Timeless, SameButTime;
    if chunks == [] {
      assert buf + Flatten(chunks) == buf;
    } else {
      var now, later := buf + chunks[0], Flatten(chunks[1..]);
      assert buf + Flatten(chunks) == now + later;
      var o := Parse(ctx, now, times[0]);
      ChunkIndependence(ctx, now, later, times[0], times[0]);
      SameIsSame(ctx);
      TimeIrrelevant(ctx, ctx, now + later, times[0], time);
      if Waiting(o) {
        ParseIdempotent(ctx, now, times[0], times[0]);
        ParseAnyChunking(o.ctx, o.rest, chunks[1..], times[1..], times[0]);
      }
    }
  }

  lemma SameIsSame(ctx: Context)
    ensures SameButTime(ctx, ctx)
  {
  }

  /** Parsing again without new bytes changes nothing. */
  lemma {:induction false} ParseIdempotent(ctx: Context, buf: seq<byte>, s: int, t: int)
    requires Ready(ctx) && Waiting(Parse(ctx, buf, s))
    ensures var o := Parse(ctx, buf, s); Parse(o.ctx, o.rest, t) == o
    decreases |buf|
  {
    StepProgress(ctx, buf, s);
    StepExtend(ctx, buf, [], s);
    match ParseStep(ctx, buf, s)
    case Continue(c, rest) => ParseIdempotent(c, rest, s, t);
    case Stop(c, rest, _) =>
      assert c == ctx && rest == buf;
      assert ParseStep(ctx, buf, t) == Stop(ctx, buf, true);
  }

  /** Only GET and POST requests are ever completed; other methods stay in the header state for good. */
  lemma {:induction false} OnlyGetAndPostComplete(ctx: Context, buf: seq<byte>, time: int)
    requires Ready(ctx) && (ctx.state == ExpectBody ==> ctx.request.httpMethod == POST)
    ensures var o := Parse(ctx, buf, time);
            o.ctx.state == GotAll ==> o.ctx.request.httpMethod == GET || o.ctx.request.httpMethod == POST
    decreases |buf|
  {
    hide ProcessRequestLine, StoI;
    StepProgress(ctx, buf, time);
    match ParseStep(ctx, buf, time)
    case Continue(c, rest) => OnlyGetAndPostComplete(c, rest, time);
    case _ =>
  }
}
