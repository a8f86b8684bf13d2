/** Printing a request in the syntax of RFC 9112 and parsing it back. */
module HttpRoundTrip {
  import opened Bytes
  import opened Http

  /** A header line: name, colon, optional white space, value, optional white space. */
  datatype Header = Header(name: seq<byte>, pre: seq<byte>, value: seq<byte>, post: seq<byte>)

  datatype Message = Message(httpMethod: Method, path: seq<byte>, query: seq<byte>, version: Version,
                             headers: seq<Header>, body: seq<byte>)

  // ----- Printing -----

  /** The name of a method as it stands on the wire. */
  function NameOf(m: Method): seq<byte> {
    match m
    case GET => [71, 69, 84]
    case POST => [80, 79, 83, 84]
    case HEAD => [72, 69, 65, 68]
    case PUT => [80, 85, 84]
    case DELETE => [68, 69, 76, 69, 84, 69]
    case INVALID => []
  }

  function VersionBytes(v: Version): seq<byte> {
    HTTP1_DOT + [if v == HTTP11 then 49 else 48]
  }

  function RequestLine(m: Message): seq<byte> {
    NameOf(m.httpMethod) + [SP] + (m.path + m.query + [SP] + VersionBytes(m.version))
  }

  function HeaderLine(h: Header): seq<byte> {
    h.name + [COLON] + (h.pre + h.value + h.post)
  }

  function HeaderBlock(hs: seq<Header>): seq<byte> {
    if hs == [] then CRLF else HeaderLine(hs[0]) + CRLF + HeaderBlock(hs[1..])
  }

  function Print(m: Message): seq<byte> {
    RequestLine(m) + CRLF + (HeaderBlock(m.headers) + m.body)
  }

  function Decimal(n: nat): (d: seq<byte>)
    ensures d != [] && forall b :: b in d ==> IsDigit(b)
  {
    if n < 10 then [48 + n] else Decimal(n / 10) + [48 + n % 10]
  }

  /** The header map the lines denote: a repeated name keeps its last value. */
  function HeaderMap(m: map<seq<byte>, seq<byte>>, hs: seq<Header>): map<seq<byte>, seq<byte>>
    decreases |hs|
  {
    if hs == [] then m else HeaderMap(m[hs[0].name := hs[0].value], hs[1..])
  }

  // ----- The same in the text of the protocol -----

  function NameText(m: Method): (s: string)
    ensures IsAscii(s)
  {
    match m
    case GET => "GET"
    case POST => "POST"
    case HEAD => "HEAD"
    case PUT => "PUT"
    case DELETE => "DELETE"
    case INVALID => ""
  }

  function VersionText(v: Version): seq<byte> {
    if v == HTTP11 then Ascii("HTTP/1.1") else Ascii("HTTP/1.0")
  }

  const SPACE: seq<byte> := Ascii(" ")
  const COLON_SIGN: seq<byte> := Ascii(":")
  const END_OF_LINE: seq<byte> := Ascii("\r\n")

  function HeaderText(hs: seq<Header>): seq<byte> {
    if hs == [] then [] else
      hs[0].name + COLON_SIGN + hs[0].pre + hs[0].value + hs[0].post + END_OF_LINE + HeaderText(hs[1..])
  }

  lemma MethodText(m: Method)
    ensures NameOf(m) == Ascii(NameText(m)) && MethodOf(Ascii(NameText(m))) == m
  {
  }

  lemma VersionIsText(v: Version)
    requires v == HTTP10 || v == HTTP11
    ensures VersionBytes(v) == VersionText(v)
  {
  }

  lemma ProtocolBytes()
    ensures [SP] == SPACE && [COLON] == COLON_SIGN && CRLF == END_OF_LINE
    ensures [QUESTION] == Ascii("?") && [CR] == Ascii("\r") && CONTENT_LENGTH == Ascii("Content-Length")
  {
  }

  lemma {:induction false} HeaderBlockText(hs: seq<Header>)
    ensures HeaderBlock(hs) == HeaderText(hs) + END_OF_LINE
  {
    ProtocolBytes();
    hide SP, COLON, CRLF, SPACE, COLON_SIGN, END_OF_LINE;
    if hs == [] {
      assert [] + END_OF_LINE == END_OF_LINE;
    } else {
      HeaderBlockText(hs[1..]);
      HeaderLineText(hs[0], HeaderText(hs[1..]), COLON_SIGN, END_OF_LINE);
    }
  }

  /** Concatenation in two orders. */
  lemma HeaderLineText(h: Header, rest: seq<byte>, colon: seq<byte>, end: seq<byte>)
    ensures h.name + colon + (h.pre + h.value + h.post) + end + (rest + end) ==
            h.name + colon + h.pre + h.value + h.post + end + rest + end
  {
  }

  /** A printed message is the text that RFC 9112 prescribes. */
  lemma PrintIsText(m: Message)
    requires m.version == HTTP10 || m.version == HTTP11
    ensures Print(m) ==
            Ascii(NameText(m.httpMethod)) + SPACE + m.path + m.query + SPACE + VersionText(m.version) + END_OF_LINE +
            HeaderText(m.headers) + END_OF_LINE + m.body
  {
    ProtocolBytes();
    MethodText(m.httpMethod);
    VersionIsText(m.version);
    HeaderBlockText(m.headers);
    hide NameOf, NameText, VersionBytes, VersionText, HeaderBlock, HeaderText, Ascii, SP, CRLF, SPACE, END_OF_LINE;
    PartsInOrder(Ascii(NameText(m.httpMethod)), SPACE, m.path, m.query, VersionText(m.version), END_OF_LINE,
                 HeaderText(m.headers), m.body);
  }

  lemma PartsInOrder(name: seq<byte>, space: seq<byte>, path: seq<byte>, query: seq<byte>, version: seq<byte>,
                     end: seq<byte>, headers: seq<byte>, body: seq<byte>)
    ensures name + space + (path + query + space + version) + end + (headers + end + body) ==
            name + space + path + query + space + version + end + headers + end + body
  {
  }

  // ----- Well-formed messages -----

  /** Tab, line feed, vertical tab, form feed, carriage return, space. */
  predicate Blank(b: byte) {
    b in {9, 10, 11, 12, 13, 32}
  }

  /** Optional white space inside a line. */
  predicate WhiteSpace(s: seq<byte>) {
    forall b :: b in s ==> Blank(b) && b != 13
  }

  predicate WellFormedHeader(h: Header) {
    COLON !in h.name && CR !in h.name && CR !in h.value && WhiteSpace(h.pre) && WhiteSpace(h.post) &&
    (h.value != [] ==> !Blank(h.value[0]) && !Blank(h.value[|h.value| - 1]))
  }

  /** A method, a path, a query and a version that a request line can carry. */
  predicate LineForm(m: Message) {
    m.httpMethod != INVALID && (m.version == HTTP10 || m.version == HTTP11) &&
    SP !in m.path && QUESTION !in m.path && SP !in m.query && (m.query != [] ==> m.query[0] == QUESTION)
  }

  predicate WellFormed(m: Message) {
    (m.httpMethod == GET || m.httpMethod == POST) && LineForm(m) && CR !in m.path && CR !in m.query &&
    (forall h :: h in m.headers ==> WellFormedHeader(h)) &&
    (m.httpMethod == GET ==> m.body == []) &&
    (m.httpMethod == POST ==>
      |m.body| < 0x8000_0000 && CONTENT_LENGTH in HeaderMap(map[], m.headers) &&
      HeaderMap(map[], m.headers)[CONTENT_LENGTH] == Decimal(|m.body|))
  }

  /** The request a message denotes; a body takes the place of the query. */
  function Denotes(m: Message, time: int): Request {
    Request(m.httpMethod, m.version, m.path, if m.httpMethod == POST then m.body else m.query, time,
            HeaderMap(map[], m.headers))
  }

  // ----- Lines -----

  lemma FirstCrlf(line: seq<byte>, tail: seq<byte>)
    requires CR !in line
    ensures IndexOf(line + CRLF + tail, CRLF, 0) == Some(|line|)
    ensures (line + CRLF + tail)[..|line|] == line && (line + CRLF + tail)[|line| + 2..] == tail
  {
    var s := line + CRLF + tail;
    assert s[|line|..|line| + 2] == CRLF;
    assert MatchAt(s, CRLF, |line|);
    var r := IndexOf(s, CRLF, 0);
    assert forall k :: 0 <= k < |line| ==> s[k] == line[k] && line[k] != CR;
    assert r.Some? && s[r.value..r.value + 2][0] == s[r.value];
  }

  lemma FindByteAt(before: seq<byte>, b: byte, after: seq<byte>)
    requires b !in before
    ensures FindByte(before + [b] + after, b) == |before|
    ensures (before + [b] + after)[..|before|] == before && (before + [b] + after)[|before| + 1..] == after
  {
    var s := before + [b] + after;
    assert s[|before|] == b;
    assert forall k :: 0 <= k < |before| ==> s[k] == before[k] && before[k] != b;
  }

  lemma RequestLineParses(m: Message, req: Request)
    requires LineForm(m)
    ensures CR !in m.path && CR !in m.query ==> CR !in RequestLine(m)
    ensures ProcessRequestLine(req, RequestLine(m)) ==
            (true, req.(httpMethod := m.httpMethod, version := m.version, path := m.path,
                        query := if m.query == [] then req.query else m.query))
  {
    hide ProcessTarget, VersionBytes, NameOf, MethodOf, FindByte;
    var tail := m.path + m.query + [SP] + VersionBytes(m.version);
    VersionHasNoCr(m.version);
    NameHasNoCr(m.httpMethod);
    FindByteAt(NameOf(m.httpMethod), SP, tail);
    TargetParses(m, req.(httpMethod := m.httpMethod));
  }

  /** Exactly the lines of this form are accepted. */
  lemma RequestLineExact(req: Request, line: seq<byte>)
    ensures ProcessRequestLine(req, line).0 <==> exists m :: LineForm(m) && line == RequestLine(m)
  {
    if ProcessRequestLine(req, line).0 {
      RequestLineSound(req, line);
      var r := ProcessRequestLine(req, line).1;
      var query :| HasForm(line, r, query);
      var m := Message(r.httpMethod, r.path, query, r.version, [], []);
      assert LineForm(m) && line == RequestLine(m);
    } else if exists m :: LineForm(m) && line == RequestLine(m) {
      var m :| LineForm(m) && line == RequestLine(m);
      RequestLineParses(m, req);
    }
  }

  /** The form of a request line that sets the fields of a request. */
  predicate HasForm(line: seq<byte>, r: Request, query: seq<byte>) {
    r.httpMethod != INVALID && (r.version == HTTP10 || r.version == HTTP11) &&
    SP !in r.path + query && QUESTION !in r.path && (query != [] ==> query[0] == QUESTION && r.query == query) &&
    line == NameOf(r.httpMethod) + [SP] + (r.path + query + [SP] + VersionBytes(r.version))
  }

  /** A request line is accepted only if it has the form of the fields it sets; nothing is dropped or added. */
  lemma RequestLineSound(req: Request, line: seq<byte>)
    ensures var (ok, r) := ProcessRequestLine(req, line);
            ok ==> exists query :: HasForm(line, r, query)
  {
    var (ok, r) := ProcessRequestLine(req, line);
    if ok {
      hide ProcessTarget, MethodOf, NameOf, VersionBytes, FindByte;
      var space := FindByte(line, SP);
      SplitAtByte(line, SP);
      MethodNamed(line[..space]);
      var query := TargetSound(req.(httpMethod := MethodOf(line[..space])), line[space + 1..]);
      assert HasForm(line, r, query);
    }
  }

  lemma SplitAtByte(s: seq<byte>, b: byte)
    requires FindByte(s, b) < |s|
    ensures var i := FindByte(s, b);
            s == s[..i] + [b] + s[i + 1..] && b !in s[..i]
  {
  }

  lemma MethodNamed(name: seq<byte>)
    ensures MethodOf(name) != INVALID ==> NameOf(MethodOf(name)) == name
  {
  }

  lemma VersionNamed(v: seq<byte>)
    requires |v| == 8 && v[..7] == HTTP1_DOT && (v[7] == 49 || v[7] == 48)
    ensures v == VersionBytes(if v[7] == 49 then HTTP11 else HTTP10)
  {
    assert v == v[..7] + [v[7]];
  }

  lemma TargetSound(req: Request, line: seq<byte>) returns (query: seq<byte>)
    requires ProcessTarget(req, line).0
    ensures var r := ProcessTarget(req, line).1;
            r.httpMethod == req.httpMethod && (r.version == HTTP10 || r.version == HTTP11) &&
            SP !in r.path + query && QUESTION !in r.path && (query != [] ==> query[0] == QUESTION && r.query == query) &&
            line == r.path + query + [SP] + VersionBytes(r.version)
  {
    var space := FindByte(line, SP);
    var target, v := line[..space], line[space + 1..];
    var question := FindByte(target, QUESTION);
    query := target[question..];
    SplitAtByte(line, SP);
    VersionNamed(v);
    assert target == target[..question] + query;
    assert question == |target| ==> target[..question] == target;
    hide FindByte, VersionBytes;
  }

  lemma NameHasNoCr(m: Method)
    ensures CR !in NameOf(m) && SP !in NameOf(m) && MethodOf(NameOf(m)) == m
  {
  }

  lemma VersionHasNoCr(v: Version)
    ensures CR !in VersionBytes(v)
  {
  }

  lemma TargetParses(m: Message, req: Request)
    requires LineForm(m)
    ensures ProcessTarget(req, m.path + m.query + [SP] + VersionBytes(m.version)) ==
            (true, req.(version := m.version, path := m.path,
                        query := if m.query == [] then req.query else m.query))
  {
    var target := m.path + m.query;
    assert SP !in target;
    FindByteAt(target, SP, VersionBytes(m.version));
    assert VersionBytes(m.version)[..7] == HTTP1_DOT;
    if m.query == [] {
      assert target == m.path;
      assert FindByte(target, QUESTION) == |target|;
    } else {
      assert m.query == [QUESTION] + m.query[1..];
      assert target == m.path + [QUESTION] + m.query[1..];
      FindByteAt(m.path, QUESTION, m.query[1..]);
      assert target[|m.path|..] == m.query;
    }
  }

  // ----- Header values -----

  lemma {:induction false} TrimLeftPrefix(pre: seq<byte>, s: seq<byte>)
    requires WhiteSpace(pre) && (s != [] ==> !Blank(s[0]))
    ensures TrimLeft(pre + s) == s
  {
    if pre == [] {
      assert pre + s == s;
    } else {
      assert pre[0] in pre && (pre + s)[0] == pre[0];
      assert (pre + s)[1..] == pre[1..] + s && forall b :: b in pre[1..] ==> b in pre;
      TrimLeftPrefix(pre[1..], s);
    }
  }

  lemma {:induction false} TrimRightSuffix(s: seq<byte>, post: seq<byte>)
    requires WhiteSpace(post) && (s != [] ==> !Blank(s[|s| - 1]))
    ensures TrimRight(s + post) == s
  {
    if post == [] {
      assert s + post == s;
    } else {
      var n := |post| - 1;
      assert post[n] in post && (s + post)[|s| + n] == post[n];
      assert (s + post)[..|s| + n] == s + post[..n] && forall b :: b in post[..n] ==> b in post;
      TrimRightSuffix(s, post[..n]);
    }
  }

  lemma TrimHeader(h: Header)
    requires WellFormedHeader(h)
    ensures Trim(h.pre + h.value + h.post) == h.value
  {
    if h.value == [] {
      assert h.pre + h.value + h.post == (h.pre + h.post) + [];
      TrimLeftPrefix(h.pre + h.post, []);
    } else {
      assert h.pre + h.value + h.post == h.pre + (h.value + h.post);
      TrimLeftPrefix(h.pre, h.value + h.post);
      TrimRightSuffix(h.value, h.post);
    }
  }

  lemma HeaderLineParses(h: Header, req: Request)
    requires WellFormedHeader(h)
    ensures CR !in HeaderLine(h)
    ensures FindByte(HeaderLine(h), COLON) == |h.name| < |HeaderLine(h)|
    ensures WithHeader(req, HeaderLine(h), |h.name|) == req.(headers := req.headers[h.name := h.value])
  {
    FindByteAt(h.name, COLON, h.pre + h.value + h.post);
    TrimHeader(h);
  }

  /** The header block leads from the header state to its end, with the map the lines denote. */
  lemma {:induction false} HeadersParse(req: Request, hs: seq<Header>, tail: seq<byte>, time: int)
    requires forall h :: h in hs ==> WellFormedHeader(h)
    ensures var ctx := Context(ExpectHeaders, req);
            var end := Context(ExpectHeaders, req.(headers := HeaderMap(req.headers, hs)));
            Parse(ctx, HeaderBlock(hs) + tail, time) == Parse(end, CRLF + tail, time)
    decreases |hs|
  {
    var ctx := Context(ExpectHeaders, req);
    if hs == [] {
      assert HeaderBlock(hs) + tail == CRLF + tail;
    } else {
      hide WithHeader, HeaderLine;
      var line, rest := HeaderLine(hs[0]), HeaderBlock(hs[1..]) + tail;
      var buf := HeaderBlock(hs) + tail;
      assert buf == line + CRLF + rest;
      HeaderLineParses(hs[0], req);
      FirstCrlf(line, rest);
      var req' := req.(headers := req.headers[hs[0].name := hs[0].value]);
      assert ParseStep(ctx, buf, time) == Continue(Context(ExpectHeaders, req'), rest);
      HeadersParse(req', hs[1..], tail, time);
    }
  }

  /** For a GET or POST, a header line ends the headers iff it has no colon; it need not be empty. */
  lemma HeadersEndExactly(req: Request, line: seq<byte>, tail: seq<byte>, time: int)
    requires CR !in line && (req.httpMethod == GET || req.httpMethod == POST)
    ensures var o := ParseStep(Context(ExpectHeaders, req), line + CRLF + tail, time);
            (o.ctx.state != ExpectHeaders <==> COLON !in line) && o.rest == tail
  {
    hide WithHeader, IndexOf;
    FirstCrlf(line, tail);
    var colon := FindByte(line, COLON);
    assert colon < |line| ==> line[colon] in line;
  }

  /** A non-empty line without a colon completes a GET; no empty line is needed. */
  lemma ColonFreeLineEndsHeaders(req: Request, tail: seq<byte>, time: int)
    requires req.httpMethod == GET
    ensures var line: seq<byte> := [120, 121, 122];
            ParseStep(Context(ExpectHeaders, req), line + CRLF + tail, time) == Stop(Context(GotAll, req), tail, true)
  {
    hide IndexOf;
    var line: seq<byte> := [120, 121, 122];
    FirstCrlf(line, tail);
    assert FindByte(line, COLON) == |line|;
  }

  // ----- Content-Length -----

  lemma {:induction false} DecimalValueOf(n: nat)
    ensures DecimalValue(Decimal(n)) == n
  {
    if n < 10 {
      assert DecimalValue([48 + n]) == DecimalValue([]) * 10 + n;
    } else {
      DecimalValueOf(n / 10);
      assert Decimal(n)[..|Decimal(n)| - 1] == Decimal(n / 10);
    }
  }

  lemma {:induction false} DigitsOf(d: seq<byte>)
    requires forall b :: b in d ==> IsDigit(b)
    ensures Digits(d) == d
  {
    if d != [] {
      DigitsOf(d[1..]);
    }
  }

  /** The library's integer parser reads back every decimal that fits in an int. */
  lemma StoIDecimal(n: nat)
    requires n < 0x8000_0000
    ensures StoI(Decimal(n)) == Some(n)
  {
    var d := Decimal(n);
    assert IsDigit(d[0]);
    assert TrimLeft(d) == d;
    DigitsOf(d);
    DecimalValueOf(n);
  }

  /** White space, an optional sign, at least one digit, then anything but a digit. */
  predicate NumberForm(blank: seq<byte>, sign: seq<byte>, digits: seq<byte>, rest: seq<byte>) {
    (forall b :: b in blank ==> Blank(b)) && (sign == [] || sign == Ascii("+") || sign == Ascii("-")) &&
    digits != [] && (forall b :: b in digits ==> 48 <= b <= 57) && (rest != [] ==> !(48 <= rest[0] <= 57))
  }

  lemma {:induction false} TrimBlank(blank: seq<byte>, s: seq<byte>)
    requires (forall b :: b in blank ==> Blank(b)) && (s != [] ==> !Blank(s[0]))
    ensures TrimLeft(blank + s) == s
  {
    if blank == [] {
      assert blank + s == s;
    } else {
      assert blank[0] in blank && (blank + s)[0] == blank[0];
      assert (blank + s)[1..] == blank[1..] + s && forall b :: b in blank[1..] ==> b in blank;
      TrimBlank(blank[1..], s);
    }
  }

  lemma {:induction false} DigitsPrefix(digits: seq<byte>, rest: seq<byte>)
    requires (forall b :: b in digits ==> 48 <= b <= 57) && (rest != [] ==> !(48 <= rest[0] <= 57))
    ensures Digits(digits + rest) == digits
  {
    if digits == [] {
      assert digits + rest == rest;
    } else {
      assert digits[0] in digits && (digits + rest)[0] == digits[0];
      assert (digits + rest)[1..] == digits[1..] + rest && forall b :: b in digits[1..] ==> b in digits;
      DigitsPrefix(digits[1..], rest);
    }
  }

  /** The integer parser reads every number of this form, whatever follows, and throws when it does not fit an int. */
  lemma StoIReads(blank: seq<byte>, sign: seq<byte>, digits: seq<byte>, rest: seq<byte>)
    requires NumberForm(blank, sign, digits, rest)
    ensures var v := if sign == Ascii("-") then -DecimalValue(digits) else DecimalValue(digits);
            StoI(blank + (sign + (digits + rest))) == if -0x8000_0000 <= v < 0x8000_0000 then Some(v) else None
  {
    var t := sign + (digits + rest);
    assert digits[0] in digits;
    assert t[0] == (if sign == [] then digits[0] else sign[0]) && !Blank(t[0]);
    TrimBlank(blank, t);
    assert t[|sign|..] == digits + rest;
    DigitsPrefix(digits, rest);
  }

  /** It throws on everything else: what it reads has the form of a number. */
  lemma StoIThrows(s: seq<byte>) returns (blank: seq<byte>, sign: seq<byte>, digits: seq<byte>, rest: seq<byte>)
    requires StoI(s).Some?
    ensures NumberForm(blank, sign, digits, rest) && s == blank + (sign + (digits + rest))
  {
    hide StoI, Digits, TrimLeft, Ascii;
    var n := TrimLeftSplit(s);
    var t := s[n..];
    StoIHasDigits(s);
    SignIsText(t);
    var k := SignLength(t);
    DigitsSplit(t[k..]);
    SplitInFour(s, n, k, |Digits(t[k..])|);
    blank, sign, digits := s[..n], t[..k], Digits(t[k..]);
    rest := t[k..][|digits|..];
    hide SignLength;
  }

  lemma StoIHasDigits(s: seq<byte>)
    requires StoI(s).Some?
    ensures var t := TrimLeft(s); Digits(t[SignLength(t)..]) != []
  {
    hide Digits, TrimLeft, DecimalValue;
    var t := TrimLeft(s);
    assert t[0..] == t;
  }

  function SignLength(t: seq<byte>): (k: nat)
    ensures k <= |t|
  {
    if t != [] && (t[0] == 45 || t[0] == 43) then 1 else 0
  }

  lemma SignIsText(t: seq<byte>)
    ensures var sign := t[..SignLength(t)];
            (sign == [] || sign == Ascii("+") || sign == Ascii("-")) && t[0..] == t
  {
  }

  lemma SplitInFour(s: seq<byte>, n: nat, k: nat, d: nat)
    requires n + k + d <= |s|
    ensures var t := s[n..];
            s == s[..n] + (t[..k] + (t[k..][..d] + t[k..][d..]))
  {
  }

  lemma {:induction false} TrimLeftSplit(s: seq<byte>) returns (n: nat)
    ensures n <= |s| && TrimLeft(s) == s[n..] && forall b :: b in s[..n] ==> Blank(b)
  {
    if s != [] && IsSpace(s[0]) {
      var k := TrimLeftSplit(s[1..]);
      n := k + 1;
      assert s[..n] == [s[0]] + s[1..][..k];
    } else {
      n := 0;
    }
  }

  lemma {:induction false} DigitsSplit(s: seq<byte>)
    ensures var d := Digits(s);
            |d| <= |s| && s == d + s[|d|..] && (forall b :: b in d ==> 48 <= b <= 57) &&
            (|d| < |s| ==> !(48 <= s[|d|] <= 57))
  {
    if s != [] && IsDigit(s[0]) {
      DigitsSplit(s[1..]);
      var d := Digits(s[1..]);
      assert s == [s[0]] + s[1..];
    }
  }

  // ----- The round trip -----

  lemma EndOfHeaders(req: Request, m: Message, rest: seq<byte>, time: int)
    requires WellFormed(m) && req.httpMethod == m.httpMethod
    requires req.headers == HeaderMap(map[], m.headers)
    ensures Parse(Context(ExpectHeaders, req), CRLF + (m.body + rest), time) ==
            Stop(Context(GotAll, if m.httpMethod == POST then req.(query := m.body) else req), rest, true)
  {
    hide StoI, Decimal, IndexOf, HeaderMap, ProcessRequestLine, WithHeader;
    var ctx := Context(ExpectHeaders, req);
    var tail := m.body + rest;
    assert [] + CRLF + tail == CRLF + tail;
    FirstCrlf([], tail);
    assert FindByte([], COLON) == 0;
    if m.httpMethod == GET {
      assert tail == rest;
    } else {
      StoIDecimal(|m.body|);
      var body := ctx.(state := ExpectBody);
      assert ParseStep(ctx, CRLF + tail, time) == Continue(body, tail);
      assert tail[..|m.body|] == m.body && tail[|m.body|..] == rest;
      assert HeaderOr(req, CONTENT_LENGTH) == Decimal(|m.body|);
      assert ParseStep(body, tail, time) ==
             Stop(Context(GotAll, req.(query := m.body)), rest, true);
    }
  }

  /** Every well-formed GET or POST is parsed back to what it denotes, and what follows it stays unread. */
  lemma PrintParse(m: Message, rest: seq<byte>, time: int)
    requires WellFormed(m)
    ensures Parse(NEW_CONTEXT, Print(m) + rest, time) == Stop(Context(GotAll, Denotes(m, time)), rest, true)
  {
    hide WellFormed, ProcessRequestLine, RequestLine, Parse;
    var buf := Print(m) + rest;
    var tail := HeaderBlock(m.headers) + (m.body + rest);
    assert buf == RequestLine(m) + CRLF + tail;
    PartsWellFormed(m);
    RequestLineParses(m, EMPTY_REQUEST);
    FirstCrlf(RequestLine(m), tail);
    var req := EMPTY_REQUEST.(httpMethod := m.httpMethod, version := m.version, path := m.path,
                              query := m.query, receiveTime := time);
    assert ParseStep(NEW_CONTEXT, buf, time) == Continue(Context(ExpectHeaders, req), tail);
    ParseUnfold(NEW_CONTEXT, buf, time);
    HeadersParse(req, m.headers, m.body + rest, time);
    EndOfHeaders(req.(headers := HeaderMap(map[], m.headers)), m, rest, time);
    MethodOfWellFormed(m);
  }

  lemma ParseUnfold(ctx: Context, buf: seq<byte>, time: int)
    requires Ready(ctx) && ParseStep(ctx, buf, time).Continue?
    ensures var o := ParseStep(ctx, buf, time);
            Ready(o.ctx) && Parse(ctx, buf, time) == Parse(o.ctx, o.rest, time)
  {
    StepProgress(ctx, buf, time);
  }

  lemma PartsWellFormed(m: Message)
    requires WellFormed(m)
    ensures LineForm(m) && CR !in m.path && CR !in m.query && forall h :: h in m.headers ==> WellFormedHeader(h)
  {
  }

  lemma MethodOfWellFormed(m: Message)
    requires WellFormed(m)
    ensures m.httpMethod == GET || m.httpMethod == POST
  {
  }

  /** Until its last byte has arrived, a well-formed message is neither complete nor refused. */
  lemma PrefixWaits(m: Message, n: nat, time: int)
    requires WellFormed(m) && n < |Print(m)|
    ensures Waiting(Parse(NEW_CONTEXT, Print(m)[..n], time))
  {
    hide Parse, Print, WellFormed;
    var all := Print(m);
    PrintParse(m, [], time);
    assert all + [] == all && all == all[..n] + all[n..];
    ParseSplit(NEW_CONTEXT, all[..n], all[n..], time);
    assert forall o: Outcome :: |Extend(o, all[n..]).rest| > 0;
  }

  /** With these bytes behind its headers, a POST is complete. */
  predicate BodyCompletes(req: Request, buf: seq<byte>, time: int) {
    Completes(Parse(Context(ExpectBody, req), buf, time))
  }

  /** A POST whose headers are read can complete at all iff its length denotes a number from 0 on. */
  lemma BodyCanComplete(req: Request, time: int)
    ensures (exists buf :: BodyCompletes(req, buf, time)) <==>
            StoI(HeaderOr(req, CONTENT_LENGTH)).Some? && StoI(HeaderOr(req, CONTENT_LENGTH)).value >= 0
  {
    var ctx, length := Context(ExpectBody, req), StoI(HeaderOr(req, CONTENT_LENGTH));
    NoNumber();
    hide StoI;
    if length.Some? && length.value >= 0 {
      var buf: seq<byte> := seq(length.value, i => 0);
      assert Parse(ctx, buf, time) == BodyStep(ctx, buf);
      assert BodyCompletes(req, buf, time);
    } else {
      forall buf: seq<byte>
        ensures !BodyCompletes(req, buf, time)
      {
        assert Parse(ctx, buf, time) == BodyStep(ctx, buf);
      }
    }
  }

  /** It throws iff its length is neither empty nor a number that fits an int. */
  lemma BodyThrowsExactly(req: Request, buf: seq<byte>, time: int)
    ensures Parse(Context(ExpectBody, req), buf, time).Throw? <==>
            HeaderOr(req, CONTENT_LENGTH) != [] && StoI(HeaderOr(req, CONTENT_LENGTH)).None?
  {
    hide StoI;
    assert Parse(Context(ExpectBody, req), buf, time) == BodyStep(Context(ExpectBody, req), buf);
  }

  /** A first line is refused iff it is no request line; then nothing is consumed and only the method is set. */
  lemma RefusedExactly(line: seq<byte>, tail: seq<byte>, time: int)
    requires CR !in line
    ensures var o := ParseStep(NEW_CONTEXT, line + CRLF + tail, time);
            (o.Stop? && !o.ok <==> !exists m :: LineForm(m) && line == RequestLine(m)) &&
            (o.Stop? ==> o.rest == line + CRLF + tail && o.ctx.state == ExpectRequestLine &&
                         o.ctx.request.version == UNKNOWN && o.ctx.request.headers == map[] &&
                         o.ctx.request.httpMethod ==
                         if SP in line then MethodOf(line[..FindByte(line, SP)]) else INVALID)
  {
    FirstCrlf(line, tail);
    RequestLineExact(EMPTY_REQUEST, line);
    RefusedSets(EMPTY_REQUEST, line);
    hide ProcessRequestLine, IndexOf, LineForm, RequestLine, MethodOf;
  }

  lemma RefusedSets(req: Request, line: seq<byte>)
    ensures var (ok, r) := ProcessRequestLine(req, line);
            !ok ==> r.version == req.version && r.headers == req.headers &&
                    r.httpMethod == if SP in line then MethodOf(line[..FindByte(line, SP)]) else req.httpMethod
  {
    hide MethodOf, ProcessTarget;
    var space := FindByte(line, SP);
    assert SP in line <==> space < |line|;
    if space < |line| {
      TargetRefused(req.(httpMethod := MethodOf(line[..space])), line[space + 1..]);
    }
    hide FindByte;
  }

  lemma TargetRefused(req: Request, line: seq<byte>)
    ensures var (ok, r) := ProcessTarget(req, line);
            !ok ==> r.version == req.version && r.headers == req.headers && r.httpMethod == req.httpMethod
  {
    hide FindByte, HTTP1_DOT;
  }

  lemma NoNumber()
    ensures StoI([]) == None
  {
  }
}
