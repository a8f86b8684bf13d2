# A verified model of pallette

`pallette` is a Reactor-style network library: an epoll loop with timers and a cross-thread functor queue,
TCP connections with growing buffers, an incremental HTTP parser, Base64, dates and time zones, and
asynchronous logging. This project models its hard parts in Dafny and proves what they promise, for all
inputs and all interleavings.

Run `dafny verify dfyconfig.toml` to check everything.

## How the model is built

- Where the source computes with expressions (dates), the model is functions and lemmas. Where it updates
  objects or runs loops, the model is a class or a method with the same branches, and every method is tied to a
  function of the old state; the theorems over whole runs are lemmas about those functions.
- Concurrency is modelled as atomic steps (one critical section, one system call, one callback) in arbitrary
  order. The environment - what `read`, `write`, `epoll_wait`, the clock and other threads do - is a parameter
  of the step.
- A `vector<char>` or `std::list` is a field of type `seq`, a `std::set` of timer entries a sorted `seq`, a
  fixed buffer an `array`. `std::copy` inside the buffer is modelled element by element, because source and
  target overlap.
- C++ integer division truncates; `CInt.TruncDiv` and `CInt.TruncMod` say so. Widths are written out where
  they matter (`int` in the date formulas, the 32-bit counter of the Base64 encoder, the cast of a message length).
- `gmtime_r` and `timegm`, which the zone code calls, are modelled by the library's own UTC conversions.

| file | models |
|---|---|
| `CInt.dfy`, `Bytes.dfy` | C++ integer operators; byte strings, searching, network byte order |
| `Date.dfy`, `TimeZone.dfy` | Julian days, UTC and local time |
| `Buffer.dfy`, `ChatCodec.dfy`, `TcpConnection.dfy`, `Pipeline.dfy` | the byte-stream pipeline |
| `Http.dfy`, `HttpRoundTrip.dfy`, `HttpServing.dfy` | the HTTP request parser, printing as its inverse, and several requests on one connection |
| `Base64.dfy` | both alphabets, PEM and MIME line breaks |
| `EventLoop.dfy`, `EpollPoller.dfy` | functor queue; channels, poller and kernel |
| `Registration.dfy` | the connections of a loop together with its poller |
| `TcpServer.dfy` | the life of connections across the loops of a server |
| `TimerQueue.dfy` | the timer queue |
| `AsyncLogging.dfy` | the log buffers and the producer/consumer protocol |

## What the code does differently from what one would expect

Each of these is proved together with the exact condition under which the expected property holds.

- The date formulas are inverse to each other exactly from 1 March -4800 on (`Date.DateRoundTripExact`). From that
  date on, the formula from day number to date overflows an `int` exactly beyond day 536838867
  (`Date.FromJulianDayOverflow`), and the one from date to day number exactly after 15 December 5874689
  (`Date.JulianDayNumberFitsExact`).
- `tm_yday` is right exactly from 1 January -4799 on (`TimeZone.YdayExact`); `tm_wday` is in 0..6 from day -1 on,
  and before that on Sundays only (`TimeZone.UtcFieldRanges`).
- A zone's local times all read back exactly when every drop of its offset is one hour from a daylight-saving
  to a standard type (`TimeZone.LocalRoundTripExact`).
- A local time that the clock skips is read with the offset before the jump
  (`TimeZone.SkippedTimeReadsForward`, `TimeZone.SkippedDstTimeReadsForward`).
- The timer descriptor is armed no later than the earliest expiration exactly when that was at least 100
  microseconds ahead of the arming (`TimerQueueModule.DescriptorExact`); a nearer timer is a reachable state in
  which it is armed later (`TimerQueueModule.LateDeadlineIsReached`).
- A functor is left unrun by a blocked loop in some schedule exactly when functors were queued before `loop()`
  and no wakeup for them was there or on its way, as when the loop thread itself queued them
  (`EventLoopModule.NoFunctorStranded`).
- Over every run each `shutdownWrite` comes after the output has drained exactly when no queued `shutdown` runs
  after a close that left output behind (`TcpConnectionModule.ShutdownAfterDrain`); such a run exists
  (`TcpConnectionModule.ShutdownAfterCloseLosesOutput`).
- A cancelled timer runs once more exactly when it is in the batch being run with its callback still to come
  (`TimerQueueModule.CancelledExact`), as when an earlier callback of the batch cancels it
  (`TimerQueueModule.CancelInBatchIsTooLate`).
- With callers that restart reading only while open and destroy no half-closed connection, the assertions of a
  connection hold over a run exactly when every hang-up without input finds it open and does not also read the
  end of the stream (`TcpConnectionModule.AssertsOverRun`, `Registration.KernelFollowsConnections`,
  `Registration.DispatchAssertsExact`).
- `startRead` is safe in this sense exactly when the connection is open (`TcpConnectionModule.RestartExact`).
- `stopRead` after a close puts the channel back into the kernel exactly when `reading_` is still set, and then
  every hang-up fails (`Registration.LateStopExposesHangUp`); after `connectDestroyed` it registers the channel
  again on the same condition (`Registration.StopAfterDestroyExact`).
- A close takes the channel out of the kernel exactly when it was there: after reading was stopped with nothing to
  write it puts the channel back without events (`Registration.CloseTogglesKernel`), and then every hang-up fails
  (`Registration.StoppedCloseIsHeld`).
- `connectDestroyed` keeps its assertions exactly when the connection is connected, or its channel is registered
  and asks for no events (`TcpConnectionModule.DestroyExact`, `Registration.DestroyCallsExact`).
- Bytes are lost exactly when a direct write fails with EPIPE or ECONNRESET (`TcpConnectionModule.SendConserves`).
- No message over 65535 bytes is ever delivered (`ChatCodec.DeliveredAreShort`), but one of 2^32 bytes or more can
  have a truncated length that passes, and then bytes are delivered that were never a message; only messages sent
  are delivered exactly when the first one that is too long has a truncated length that closes the connection
  (`ChatCodec.FramingExact`, with such a message in `ChatCodec.OversizeDeliversPart`).
- A log line is kept whole exactly up to the size of a large buffer (`AsyncLoggingModule.LoggingConserves`).
- The Base64 encoder's counter never passes the end of an input of 4 GiB or more
  (`Base64.CounterPassesEnd`).
- Only GET and POST requests are ever completed (`Http.OnlyGetAndPostComplete`); for them a line ends the headers
  exactly when it has no colon (`HttpRoundTrip.HeadersEndExactly`), so a line that is not empty can do it
  (`HttpRoundTrip.ColonFreeLineEndsHeaders`).
- A POST can complete exactly when its length denotes a number from 0 on (`HttpRoundTrip.BodyCanComplete`), and makes
  the parser throw exactly when it is neither empty nor a number that fits an `int`
  (`HttpRoundTrip.BodyThrowsExactly`).
- Each chunk hands over at most one request, so pipelined requests wait (`HttpServing.PipelinedRequestsWait`); all
  complete requests have been handed over exactly when no number of last chunks completed more requests than
  there are chunks (`HttpServing.ServedExactly`).
- `pallette/tests/BufferTest.cpp` lines 59 and 63 expect the buffer to grow without compacting; the code compacts
  first, and the model follows the code.

## Model

| member | source | states |
|---|---|---|
| Date.DateRoundTrip | pallette/Date.cpp:11-33 | day number then date gives back every valid Gregorian date from 1 March -4800 on |
| Date.DayRoundTrip | pallette/Date.cpp:11-33 | date then day number gives back every day number from -32044 on, and the date is a valid one |
| Date.FromJulianDayExact | pallette/Date.cpp:20-33 | a day number yields a valid date if and only if it is at least -32044 |
| Date.DateRoundTripExact | pallette/Date.cpp:11-33 | a valid date survives the round trip if and only if it is not before 1 March -4800 |
| Date.NextDateNumber | pallette/Date.cpp:11-18 | the calendar's next date (month lengths, leap-year rule) has the next day number |
| Date.FromJulianDayCounts | pallette/Date.cpp:20-33 | the inverse formula equals counting calendar pages one by one from 1 March -4800 |
| Date.FromJulianDayOverflow | pallette/Date.cpp:20-33 | no intermediate value overflows an int if and only if the day number is at most 536838867 |
| Date.JulianDayNumberOverflow | pallette/Date.cpp:11-18 | no partial sum overflows an int for any date up to that day |
| Date.JulianDayNumberFitsExact | pallette/Date.cpp:11-18 | for every valid date from 1 March -4800 on, no partial sum overflows an int if and only if it is not after 15 December 5874689 |
| Date.WeekDayAdvances | pallette/Date.h:62-66 | the weekday advances by one modulo 7 from day -1 on, and exactly when it is in 0..6 |
| Date.YearLength | pallette/Date.cpp:11-18 | the March year in the closed form has 366 days exactly when it contains a leap day |
| TimeZone.FillHMS | pallette/TimeZone.cpp:78-84 | hour, minute and second are in range and add up to the seconds of the day |
| TimeZone.ToUtcTime | pallette/TimeZone.cpp:330-356 | truncating division with the correction for negative times is floor division; every field is that of the calendar |
| TimeZone.FromUtcCounts | pallette/TimeZone.cpp:358-371 | composing a time counts seconds from the epoch: 0 there, 86400 more on the calendar's next date, and each field its seconds, in range or not |
| TimeZone.UtcRoundTrip | pallette/TimeZone.cpp:330-371 | breaking a time down and composing it again gives the same time, also before 1970 |
| TimeZone.UtcFieldRanges | pallette/TimeZone.cpp:330-356 | all fields, the day of the year included, are in the ranges of struct tm; for the weekday, exactly when |
| TimeZone.UtcNextDay | pallette/TimeZone.cpp:330-356 | one day later: the next calendar date, the next weekday, the same time of day |
| TimeZone.WeekDayFromEpoch | pallette/TimeZone.cpp:330-356 | the weekday is the number of days since the epoch, a Thursday, modulo 7, for every time from day -1 on |
| TimeZone.YdayExact | pallette/TimeZone.cpp:350-354 | tm_yday is the number of days since 1 January, counted month by month, if and only if the time's day number is that of 1 January -4799 or later |
| TimeZone.LowerBound | pallette/TimeZone.cpp:243-246 | the binary search finds the first key not below the given one |
| TimeZone.FindLocaltime | pallette/TimeZone.cpp:232-264 | the type found is that of the last transition at or before the key, or the first type when there is none |
| TimeZone.LastAtOrBefore | pallette/TimeZone.cpp:232-264 | the position the search must find: its key is not above, every later key is above |
| TimeZone.ToLocalTime | pallette/TimeZone.cpp:285-305 | the local time is the UTC breakdown of the shifted time with the type's flag and offset |
| TimeZone.FromLocalTime | pallette/TimeZone.cpp:307-328 | the method computes the specification function of the round-trip theorems, with the one-hour correction |
| TimeZone.LocalOffsetLeadsBack | pallette/TimeZone.cpp:295-302 | the offset a local time carries leads back to the time it was made from |
| TimeZone.LocalTimeIsShifted | pallette/TimeZone.cpp:232-305 | a local time is the time shifted by the offset of the last transition up to it, or of the first type before all transitions, and carries that offset and flag |
| TimeZone.SkippedTimeReadsForward | pallette/TimeZone.cpp:307-328 | a local time that a jump skips is read with the offset before it, so it is a time after the jump |
| TimeZone.SkippedDstTimeReadsForward | pallette/TimeZone.cpp:307-328 | so it is with the daylight-saving flag set, because the time tried shows another hour or minute |
| TimeZone.LocalRoundTrip | pallette/TimeZone.cpp:285-328 | every time reads back from its local time, the repeated hour included, when drops end daylight saving and the hour after a drop has no transition |
| TimeZone.UtcPosition | pallette/TimeZone.cpp:307-328 | an hour after a time in the repeated hour, the end of daylight saving is the last transition |
| TimeZone.LocalPosition | pallette/TimeZone.cpp:307-328 | the local clock finds the same transition, or the next one when that ends daylight saving |
| TimeZone.BadDropBreaksRoundTrip | pallette/TimeZone.cpp:307-328 | any other drop of the offset has a time that is misread |
| TimeZone.LocalRoundTripExact | pallette/TimeZone.cpp:285-328 | all times of a zone read back if and only if every drop is one hour from a DST to a non-DST type |
| Bytes.IntRoundTrip | pallette/Buffer.cpp:120-169 | an integer survives network byte order if and only if it fits the width |
| Bytes.EncodeIntAt | pallette/Buffer.cpp:120-141 | network byte order: byte i of n counts 256 to the power of n - 1 - i |
| BufferModule.CopyDown | pallette/Buffer.cpp:309-310 | copying element by element to an overlapping lower position moves the bytes and changes nothing else |
| BufferModule.Buffer.constructor | pallette/Buffer.cpp:22-30 | an empty buffer with the reserved prefix and the requested writable size |
| BufferModule.Buffer.Retrieve | pallette/Buffer.cpp:59-70 | drops exactly a prefix of the readable bytes |
| BufferModule.Buffer.RetrieveUntil | pallette/Buffer.cpp:72-77 | drops the bytes before a position |
| BufferModule.Buffer.RetrieveAll | pallette/Buffer.cpp:79-83 | empties the buffer and resets its indices |
| BufferModule.Buffer.RetrieveAsString | pallette/Buffer.cpp:85-91 | returns the prefix it drops |
| BufferModule.Buffer.RetrieveAllAsString | pallette/Buffer.cpp:93-96 | returns everything and empties the buffer |
| BufferModule.Buffer.MakeSpace | pallette/Buffer.cpp:302-326 | keeps the content, leaves room for len bytes, grows exactly when compaction is not enough and then strictly |
| BufferModule.Buffer.EnsureWritableBytes | pallette/Buffer.cpp:199-205 | leaves room for len bytes and keeps the content |
| BufferModule.Buffer.Append | pallette/Buffer.cpp:103-118 | the content becomes the old content followed by the data, whether or not the buffer moves or grows |
| BufferModule.Buffer.Prepend | pallette/Buffer.cpp:222-227 | the content becomes the data followed by the old content |
| BufferModule.Buffer.AppendInt | pallette/Buffer.cpp:120-141 | appends the big-endian bytes of an integer of any of the four widths |
| BufferModule.Buffer.PrependInt | pallette/Buffer.cpp:229-250 | prepends them |
| BufferModule.Buffer.PeekInt | pallette/Buffer.cpp:143-169 | reads back any integer of the width that was encoded at the front |
| BufferModule.Buffer.ReadInt | pallette/Buffer.cpp:171-197 | reads the integer at the front and drops its bytes |
| BufferModule.Buffer.ReadFd | pallette/Buffer.cpp:260-290 | appends exactly the bytes the read delivered, also when they spill into the stack buffer; an error changes nothing |
| BufferModule.Buffer.FindSubString | pallette/Buffer.cpp:328-338 | finds the first occurrence at or after the start |
| ChatCodec.OnMessage | examples/chat/ChatCodec.h:30-54 | the loop delivers exactly the messages of the decoding function and leaves exactly its rest |
| ChatCodec.Send | examples/chat/ChatCodec.h:57-64 | appending the message and prepending its length yields the frame |
| ChatCodec.FrameIsText | examples/chat/ChatCodec.h:57-64 | on the wire a message up to 65535 bytes is 0, 0, the two bytes of its length, and the message |
| ChatCodec.DecodeSplit | examples/chat/ChatCodec.h:30-54 | decoding a, then b behind the rest, is decoding a ++ b, for every split |
| ChatCodec.ReceiveIsDecode | examples/chat/ChatCodec.h:30-54 | delivery depends on the bytes received, not on how they were cut into chunks |
| ChatCodec.StreamRoundTrip | examples/chat/ChatCodec.h:30-64 | all messages of a stream are delivered, in order, with nothing left, if and only if none exceeds 65535 bytes |
| ChatCodec.FramingEndToEnd | examples/chat/ChatCodec.h:30-64 | for any chunking of any prefix of the stream the messages delivered are a prefix of those sent, and all of them once every byte has arrived |
| ChatCodec.DeliveredAreShort | examples/chat/ChatCodec.h:34-41 | no stream delivers a message over 65535 bytes |
| ChatCodec.FramingExact | examples/chat/ChatCodec.h:30-64 | for all chunkings of all prefixes of the stream only messages sent are delivered, in order, if and only if the first message over 65535 bytes, if any, has a truncated length outside 0..65535 |
| ChatCodec.OversizeDeliversPart | examples/chat/ChatCodec.h:57-64 | a message of 2^32 + n bytes delivers its first n bytes as a message, for every n up to 65535 |
| ChatCodec.ClosedIsFinal | examples/chat/ChatCodec.h:36-41 | after a bad length nothing more is delivered, whatever arrives |
| TcpConnectionModule.StepKeepsInv | pallette/TcpConnection.cpp:129-382 | every handler keeps conservation of bytes and "writing iff output is queued" |
| TcpConnectionModule.RunKeepsInv | pallette/TcpConnection.cpp:129-382 | so does every run of handlers |
| TcpConnectionModule.SendConserves | pallette/TcpConnection.cpp:129-182 | over every run, wire ++ output buffer equals all bytes accepted, for any partial writes, if and only if no write fault dropped bytes |
| TcpConnectionModule.WireIsTaken | pallette/TcpConnection.cpp:141-365 | over every run the wire has grown by exactly the bytes the write calls took |
| TcpConnectionModule.ShutdownStepExact | pallette/TcpConnection.cpp:194-201 | a step that shuts down leaves no output if and only if the connection is not yet closed or has none, and then everything accepted is on the wire |
| TcpConnectionModule.ShutdownAfterDrain | pallette/TcpConnection.cpp:184-201 | over every run from a new connection each shutdownWrite comes after the output drained, if and only if no queued shutdown runs after a close that left output behind |
| TcpConnectionModule.DrainShutsDown | pallette/TcpConnection.cpp:341-357 | the write that drains the output shuts down exactly once, if and only if the connection is disconnecting |
| TcpConnectionModule.ShutdownHappens | pallette/TcpConnection.cpp:184-201 | over every run after the queued part of shutdown ran, a drained connection that is not closed has been shut down since |
| TcpConnectionModule.CallsTakeEffect | pallette/TcpConnection.cpp:184-232 | over every later run no connection is connected again after shutdown or forceClose, or open again after a close |
| TcpConnectionModule.OpenConnectionReads | pallette/TcpConnection.cpp:286-295 | over every run in which nobody stops reading, an open connection reads |
| TcpConnectionModule.ReadCallsTakeEffect | pallette/TcpConnection.cpp:255-284 | startRead and stopRead hold for the rest of the run, until the other is called or the connection closes |
| TcpConnectionModule.ShutdownAfterCloseLosesOutput | pallette/TcpConnection.cpp:184-201 | a run in which a queued shutdown runs after a close, with any data undelivered |
| TcpConnectionModule.DisconnectedIsFinal | pallette/TcpConnection.cpp:129-182 | no run leaves the disconnected state or changes wire, output or accepted bytes after it |
| TcpConnectionModule.AssertsOverRun | pallette/TcpConnection.cpp:297-382 | over every run whose callers restart reading only while open and destroy no half-closed connection, the assertions of closing and destroying hold if and only if every hang-up without input finds the connection open and does not also read the end of the stream |
| TcpConnectionModule.DestroyExact | pallette/TcpConnection.cpp:297-308 | connectDestroyed keeps its assertion if and only if connected, disconnected, or neither reading nor with output queued |
| TcpConnectionModule.RestartExact | pallette/TcpConnection.cpp:261-269 | after a restart of reading every next event but an unsafe hang-up or a half-closed destruction keeps its assertion, if and only if the connection is open |
| TcpConnectionModule.TcpConnection.constructor | pallette/TcpConnection.cpp:34-61 | a new connection is connecting, with empty buffers |
| TcpConnectionModule.TcpConnection.SendInLoop | pallette/TcpConnection.cpp:129-182 | writes directly only when nothing is queued, queues what was not taken, reports the high-water mark exactly when it is crossed |
| TcpConnectionModule.TcpConnection.QueueOutput | pallette/TcpConnection.cpp:168-181 | queues the rest behind the output and waits for writability |
| TcpConnectionModule.TcpConnection.SendBuffer | pallette/TcpConnection.cpp:106-122 | sends and empties the buffer when connected, else leaves both untouched |
| TcpConnectionModule.TcpConnection.HandleWrite | pallette/TcpConnection.cpp:334-369 | moves a prefix of the output to the wire; when drained stops writing, reports it and completes a pending shutdown |
| TcpConnectionModule.TcpConnection.ShutdownWrite | pallette/TcpConnection.cpp:194-201 | shuts the socket down unless output is queued |
| TcpConnectionModule.TcpConnection.Shutdown | pallette/TcpConnection.cpp:184-192 | only a connected connection starts disconnecting |
| TcpConnectionModule.TcpConnection.ForceClose | pallette/TcpConnection.cpp:203-211 | queues a forced close exactly when connected or disconnecting |
| TcpConnectionModule.TcpConnection.ForceCloseInLoop | pallette/TcpConnection.cpp:225-232 | closes unless already closed |
| TcpConnectionModule.TcpConnection.HandleClose | pallette/TcpConnection.cpp:371-382 | disconnected, channel disabled |
| TcpConnectionModule.TcpConnection.HandleRead | pallette/TcpConnection.cpp:310-332 | appends the bytes read; end of stream closes, which the assertion of handleClose allows only while open; an error changes nothing |
| TcpConnectionModule.TcpConnection.StartReadInLoop | pallette/TcpConnection.cpp:261-269 | channel and flag read again, in any state |
| TcpConnectionModule.TcpConnection.StopReadInLoop | pallette/TcpConnection.cpp:276-284 | channel and flag stop reading, in any state |
| TcpConnectionModule.TcpConnection.ConnectEstablished | pallette/TcpConnection.cpp:286-295 | connecting becomes connected and reading |
| TcpConnectionModule.TcpConnection.ConnectDestroyed | pallette/TcpConnection.cpp:297-308 | the channel wants no events when it is removed |
| Pipeline.AcceptedIsPayloads | pallette/TcpConnection.cpp:106-182 | the accepted bytes are the concatenation of the accepted payloads |
| Pipeline.EndToEnd | examples/chat/ChatCodec.h:30-64 | from codec to codec: for any sender run without write faults and any chunking of what is on the wire, the receiver has delivered a prefix of the messages, and all of them once everything has drained and arrived |
| Http.AddHeader | pallette/http/HttpRequest.h:119-133 | the two trimming loops store the value without surrounding white space under the name before the first colon |
| Http.HttpContext.Turn | pallette/http/HttpContext.cpp:66-140 | one turn of the loop consumes a line or the body, waits, rejects or throws as the parsing function says |
| Http.HttpContext.ParseRequest | pallette/http/HttpContext.cpp:59-144 | the loop terminates from every state but GotAll and computes the parsing function on context and buffer |
| Http.HttpContext.OnMessage | pallette/http/HttpServer.cpp:58-75 | a complete request is handed over once and the context starts afresh, so parsing is never entered in GotAll |
| Http.HttpContext.Reset | pallette/http/HttpContext.h:40-45 | a fresh context |
| Http.StepProgress | pallette/http/HttpContext.cpp:64-141 | a turn that goes on has consumed bytes |
| Http.ParseSplit | pallette/http/HttpContext.cpp:59-144 | parsing a, then b behind the unread bytes, is parsing a ++ b; once complete, rejected or thrown, b stays unread |
| Http.ChunkIndependence | pallette/http/HttpContext.cpp:59-144 | the same with the parts received at different times, up to the receive time |
| Http.ParseAnyChunking | pallette/http/HttpContext.cpp:59-144 | any cutting of a stream into chunks ends in the same state, request and unread bytes |
| Http.TimeIrrelevant | pallette/http/HttpContext.cpp:74-74 | the receive time influences nothing else |
| Http.ParseIdempotent | pallette/http/HttpContext.cpp:59-144 | parsing again without new bytes changes nothing |
| Http.OnlyGetAndPostComplete | pallette/http/HttpContext.cpp:98-109 | only GET and POST requests are ever completed |
| HttpRoundTrip.RequestLineParses | pallette/http/HttpContext.cpp:16-57 | a printed request line gives back method, path, query and version |
| HttpRoundTrip.RequestLineSound | pallette/http/HttpContext.cpp:16-57 | a line is accepted only if it is exactly the method, target and version it was split into |
| HttpRoundTrip.RequestLineExact | pallette/http/HttpContext.cpp:16-57 | a line is accepted if and only if it is a printed request line, for all five methods |
| HttpRoundTrip.RefusedExactly | pallette/http/HttpContext.cpp:66-86 | a first line is refused if and only if it is no request line; then nothing is consumed and of the request only the method, path and query may be set |
| HttpRoundTrip.PrintIsText | pallette/http/HttpContext.cpp:16-144 | a printed message is, in the characters of the protocol, the text of RFC 9112 |
| HttpRoundTrip.HeaderLineParses | pallette/http/HttpRequest.h:119-133 | a printed header line with any optional white space gives back name and value |
| HttpRoundTrip.HeadersParse | pallette/http/HttpContext.cpp:88-116 | a header block gives the map its lines denote, the last value of a repeated name winning |
| HttpRoundTrip.HeadersEndExactly | pallette/http/HttpContext.cpp:88-116 | in a GET or POST a header line ends the headers if and only if it has no colon, and exactly the line is consumed |
| HttpRoundTrip.ColonFreeLineEndsHeaders | pallette/http/HttpContext.cpp:98-109 | a line that is not empty and has no colon completes a GET |
| HttpServing.ServeConserves | pallette/http/HttpServer.cpp:58-75 | over any chunks, each received at its own time, the requests handed over and those still in the unread bytes are the complete requests of the stream, whatever follows |
| HttpServing.ServedExactly | pallette/http/HttpServer.cpp:58-75 | the requests handed over are the first of those that arrived complete, and all of them if and only if no number of last chunks completed more requests than there are chunks |
| HttpServing.PrintedRequests | pallette/http/HttpContext.cpp:16-144 | the complete requests of printed messages are the messages, in order |
| HttpServing.PipelinedRequestsWait | pallette/http/HttpServer.cpp:58-75 | of well-formed messages in one chunk exactly the first is handed over, and the others stay unread |
| HttpRoundTrip.StoIDecimal | pallette/http/HttpContext.cpp:126-126 | every decimal that fits an int is read back |
| HttpRoundTrip.StoIReads | pallette/http/HttpContext.cpp:126-126 | white space, sign and digits, whatever follows, are read as the number they denote if it fits an int, and throw otherwise |
| HttpRoundTrip.StoIThrows | pallette/http/HttpContext.cpp:126-126 | nothing of another form is read |
| HttpRoundTrip.BodyCanComplete | pallette/http/HttpContext.cpp:117-138 | some bytes complete a POST if and only if its length denotes a number from 0 on |
| HttpRoundTrip.BodyThrowsExactly | pallette/http/HttpContext.cpp:117-138 | the body step throws if and only if the length is neither empty nor a number that fits an int |
| HttpRoundTrip.PrintParse | pallette/http/HttpContext.cpp:16-144 | every well-formed GET or POST, printed and followed by any bytes, parses to what it denotes and leaves exactly those bytes unread |
| HttpRoundTrip.PrefixWaits | pallette/http/HttpContext.cpp:59-144 | every proper prefix of a printed message leaves the parser waiting |
| Base64.PosOfCharInverse | pallette/Base64.cpp:9-32 | each table inverts to its positions, and a position comes from exactly the two alphabets' characters |
| Base64.CharAtTable | pallette/Base64.cpp:9-18 | the characters are, position by position, those of the two alphabets of RFC 4648, with their padding |
| Base64.GroupValue | pallette/Base64.cpp:92-117 | the four pieces of six bits are the number of the three bytes, most significant first |
| Base64.Encode | pallette/Base64.cpp:72-121 | the encoded length is (n + 2) / 3 * 4 and there is no line break |
| Base64.Base64Encode | pallette/Base64.cpp:72-121 | the loop with its 32-bit counter computes the encoding of every input below 4 GiB |
| Base64.CounterPassesEnd | pallette/Base64.cpp:92-117 | the counter passes the end of the input if and only if that is below 4 GiB |
| Base64.Base64Decode | pallette/Base64.cpp:147-183 | the loop computes the decoding function on every input, never reading past the terminator |
| Base64.RoundTrip | pallette/Base64.cpp:72-183 | decoding undoes encoding for every byte string and both alphabets |
| Base64.DecodeExact | pallette/Base64.cpp:147-183 | decoding succeeds if and only if every group of four has its characters in the alphabets and its padding at the end |
| Base64.InsertLinebreaks | pallette/Base64.cpp:34-50 | the insertion loop breaks the text after every `distance` characters |
| Base64.EraseLinebreaks | pallette/Base64.cpp:136-141 | the search-and-erase loop removes exactly the line breaks |
| Base64.Base64DecodeText | pallette/Base64.cpp:124-145 | decoding with or without line-break removal |
| Base64.BrokenLinesRoundTrip | pallette/Base64.cpp:52-65 | text broken into lines of any length decodes back to the bytes |
| Base64.LineLengths | pallette/Base64.cpp:34-50 | every line but the last has exactly the line length, the last is not longer and not empty |
| Base64.EncodePem | pallette/Base64.cpp:57-60 | the encoding with lines of the PEM length |
| Base64.EncodeMime | pallette/Base64.cpp:62-65 | the encoding with lines of the MIME length |
| Base64.PemAndMime | pallette/Base64.cpp:52-65 | their lines have 64 and 76 characters, the last one excepted, and both decode back |
| EventLoopModule.StepKeepsInv | pallette/EventLoop.cpp:90-261 | every atomic step of any thread keeps "executed ++ batch ++ pending = history" and "what is queued is announced" |
| EventLoopModule.RunInOrder | pallette/EventLoop.cpp:145-156 | under all interleavings functors run at most once and in queue order |
| EventLoopModule.OnlyEarlyFunctorsStrand | pallette/EventLoop.cpp:90-123 | a loop blocked without an unread wakeup or a writer on its way has run every functor queued since it began |
| EventLoopModule.NoFunctorStranded | pallette/EventLoop.cpp:145-156 | for any queue, wakeup value and writers found at the start, no schedule strands a functor if and only if the queue is empty or a wakeup is there or on its way |
| EventLoopModule.StateFollowsEvents | pallette/EventLoop.cpp:125-261 | over every run the history is exactly the functors queued, the descriptor holds exactly the wakeups written since it was last read, and quit is set if and only if asked for |
| EventLoopModule.QuitExactly | pallette/EventLoop.cpp:90-135 | the loop stops only when asked, the first batch that ends after the request is the last, and a blocked loop that was asked has a wakeup there or on its way |
| EventLoopModule.ReportedWakeupIsRead | pallette/EventLoop.cpp:101-115 | a wakeup that poll reported is read before the functors are run |
| EventLoopModule.EventLoop.QueueFromOther | pallette/EventLoop.cpp:147-150 | the push of another thread |
| EventLoopModule.EventLoop.WakeupFromOther | pallette/EventLoop.cpp:180-188 | the write that follows it |
| EventLoopModule.EventLoop.QueueFromLoop | pallette/EventLoop.cpp:145-156 | the loop thread writes a wakeup exactly while it runs a batch |
| EventLoopModule.EventLoop.HandleRead | pallette/EventLoop.cpp:236-244 | the read takes the whole value of the descriptor |
| EventLoopModule.EventLoop.TakeBatch | pallette/EventLoop.cpp:248-254 | the swap takes the whole queue |
| EventLoopModule.EventLoop.RunFunctor | pallette/EventLoop.cpp:256-259 | one functor runs; what it queues goes to the next batch, with a wakeup each |
| EventLoopModule.EventLoop.DoPendingFunctors | pallette/EventLoop.cpp:246-261 | exactly the functors pending at the swap run, in order, and those they queue stay pending with a wakeup written |
| EpollPollerModule.AssertsExact | pallette/EpollPoller.cpp:76-137 | the poller's assertions hold and the kernel accepts the call if and only if the caller keeps one channel per descriptor and removes only registered channels without events |
| EpollPollerModule.StepKeepsInv | pallette/EpollPoller.cpp:76-137 | kNew: in neither; kAdded: in map and kernel with the channel's mask; kDeleted: in the map only |
| EpollPollerModule.RunKeepsInv | pallette/EpollPoller.cpp:76-137 | over every such sequence of calls the three agree and no assertion fails |
| EpollPollerModule.UpdateExact | pallette/EpollPoller.cpp:76-116 | after an update the kernel holds the channel with its mask, unless the mask is empty and the kernel held it before, and then it does not; no other descriptor is touched |
| EpollPollerModule.RemoveExact | pallette/EpollPoller.cpp:118-137 | after a removal neither map nor kernel has the descriptor; no other is touched |
| EpollPollerModule.EpollPoller.SetEvents | pallette/EpollPoller.cpp:76-116 | add, modify or delete as index and mask demand, with every assertion proved |
| EpollPollerModule.EpollPoller.EnableReading | pallette/Channel.h:48-48 | sets the read events and updates |
| EpollPollerModule.EpollPoller.DisableReading | pallette/Channel.h:49-49 | clears the read events and updates |
| EpollPollerModule.EpollPoller.EnableWriting | pallette/Channel.h:50-50 | sets the write event and updates |
| EpollPollerModule.EpollPoller.DisableWriting | pallette/Channel.h:51-51 | clears the write event and updates |
| EpollPollerModule.EpollPoller.DisableAll | pallette/Channel.h:52-52 | clears all events and updates |
| EpollPollerModule.EpollPoller.RemoveChannel | pallette/EpollPoller.cpp:118-137 | out of the map and, if added, out of the kernel |
| EpollPollerModule.EpollPoller.HasChannel | pallette/EpollPoller.cpp:139-143 | true exactly for a channel whose index is not kNew |
| Registration.CallsFollowMask | pallette/TcpConnection.cpp:129-382 | each handler makes no channel call and leaves the mask alone, or makes one update, to the mask the connection then asks for |
| Registration.StepKeepsInv | pallette/TcpConnection.cpp:261-382 | with any number of connections on reused descriptors, in every orderly event the assertions of connection, channel and poller hold and the kernel accepts the calls if and only if it is no unsafe hang-up, and the three stay in agreement |
| Registration.KernelFollowsConnections | pallette/EpollPoller.cpp:76-137 | over every run with orderly callers no assertion of connection, channel or poller fails if and only if every hang-up without input is safe; the kernel watches each connection for exactly the events it asks for, for writability whenever output is queued on it, and nothing of a destroyed connection stays registered |
| Registration.DestroyCallsExact | pallette/TcpConnection.cpp:297-308 | the channel calls of connectDestroyed are accepted if and only if connected, or registered and asking for no events |
| Registration.EmptyMaskLeavesKernel | pallette/TcpConnection.cpp:276-382 | every step after which a connection asks for nothing, when it asked for something, leaves the kernel without its channel |
| Registration.CloseTogglesKernel | pallette/TcpConnection.cpp:371-382 | a close takes the channel out of the kernel if and only if it was there, and leaves it in the map |
| Registration.DeletedIsReached | pallette/TcpConnection.cpp:371-382 | a run in which the peer closes and the channel is kDeleted, out of the kernel |
| Registration.StoppedCloseIsHeld | pallette/TcpConnection.cpp:225-284 | a run in which reading is stopped, the connection is closed by force, and the kernel holds its channel again, so that every hang-up fails |
| Registration.LateStopExposesHangUp | pallette/TcpConnection.cpp:276-284 | from every closed state whose channel has left the kernel, stopRead puts the channel back into the kernel if and only if reading_ is still set, and every hang-up then fails the assertion of handleClose |
| Registration.StopAfterDestroyExact | pallette/TcpConnection.cpp:276-284 | stopping a destroyed connection registers its channel again if and only if reading_ is still set |
| Registration.DispatchAssertsExact | pallette/Channel.cpp:115-153 | for every event on every connection, the callbacks keep the assertion of handleClose if and only if a closing event finds the connection open and is not both a hang-up without input and an end of stream |
| Registration.DispatchIsSchedule | pallette/Channel.cpp:115-153 | whatever the kernel reports for a watched connection is a schedule of the model; its callbacks keep their assertions if and only if that schedule does, and then leave the same connection |
| TcpServerModule.AssertsAlwaysHold | pallette/TcpServer.cpp:93-103 | the assertions of establish, close, erase and destroy hold in every state that keeps the invariant |
| TcpServerModule.StepKeepsInv | pallette/TcpServer.cpp:63-103 | every step across base loop and I/O loops keeps it: each cross-loop task is queued exactly as often as the connection's stage demands |
| TcpServerModule.LifeCycle | pallette/TcpServer.cpp:63-103 | over every run on any number of loops no assertion fails, each connection is established, removed and destroyed at most once, in that order, and its bytes are conserved |
| TcpServerModule.QuiescentServer | pallette/TcpServer.cpp:87-103 | with all queues empty every connection is open and in the map, or closed, removed and destroyed |
| TcpServerModule.LifeOnlyAdvances | pallette/TcpConnection.cpp:286-308 | over every run no connection leaves the disconnected state or returns to connecting |
| TcpServerModule.ConnectionIsRun | pallette/TcpServer.cpp:63-103 | over every run, what happens to a connection is a run of TcpConnection: the handlers the server's events called |
| TcpServerModule.NewConnectionEffect | pallette/TcpServer.cpp:63-85 | a new connection has the next number and its loop, is in the map, and is established at once on the base loop |
| TcpServerModule.ConnectionsAreNumbered | pallette/TcpServer.cpp:67-71 | over every run of a new server the connections have the numbers from 1 on, one for each one made |
| TcpServerModule.FirstComeFirstServed | pallette/EventLoop.cpp:145-156 | over every run each loop runs its tasks in the order they were queued |
| TcpServerModule.ForceCloseHappens | pallette/TcpConnection.cpp:203-232 | over every run after forceClose the connection is closed or the closing task is queued on its loop; with no task left it has been closed, removed and destroyed |
| TcpServerModule.TcpServer.OnNewConnection | pallette/TcpServer.cpp:63-85 | the connection enters the map and is established at once or by its loop |
| TcpServerModule.TcpServer.RemoveConnectionInLoop | pallette/TcpServer.cpp:93-103 | out of the map, then its loop gets connectDestroyed |
| TcpServerModule.TcpServer.HandleClose | pallette/TcpConnection.cpp:371-382 | closed, then removed at once or by the base loop |
| TimerQueueModule.HowMuchTimeFromNow | pallette/TimerQueue.cpp:34-48 | the delay programmed is the time to the expiration or 100 microseconds, in normal form and never zero |
| TimerQueueModule.StepKeepsInv | pallette/TimerQueue.cpp:129-255 | with any adds and cancels between the steps of a batch, the set is exactly the waiting timers with their expirations, every timer is in exactly one place, and all assertions of the source hold |
| TimerQueueModule.StepKeepsFd | pallette/TimerQueue.cpp:129-138 | outside a batch, if a timer waits the descriptor is readable or armed no later than the earliest expiration or 100 microseconds after it was set |
| TimerQueueModule.OnlyEarliestArms | pallette/TimerQueue.cpp:129-138 | adding a timer arms the descriptor if and only if it is earlier than every waiting timer |
| TimerQueueModule.StepKeepsLog | pallette/TimerQueue.cpp:177-181 | the callbacks of a batch run in its order |
| TimerQueueModule.QueueStaysHealthy | pallette/TimerQueue.cpp:129-255 | all of this over every run, and no assertion fails |
| TimerQueueModule.NewQueueStaysHealthy | pallette/TimerQueue.cpp:80-91 | in particular over every run of a new queue |
| TimerQueueModule.DescriptorExact | pallette/TimerQueue.cpp:34-48 | over every run of a new queue, outside a batch with a timer waiting, the descriptor is readable or armed, and armed no later than the earliest expiration if and only if that is at least 100 microseconds after the arming |
| TimerQueueModule.LateDeadlineIsReached | pallette/TimerQueue.cpp:34-48 | every timer added less than that ahead of a new queue's clock is a state in which the descriptor is armed later |
| TimerQueueModule.BatchIsExpired | pallette/TimerQueue.cpp:206-226 | a batch is exactly the waiting timers with expiration up to now, in expiration order, and the expired descriptor has been read |
| TimerQueueModule.BatchRunsAll | pallette/TimerQueue.cpp:177-181 | over every run of a new queue, the log of a batch is at every moment exactly the timers done so far, and when it ends exactly its timers, each once, in order |
| TimerQueueModule.CancelledNeverRuns | pallette/TimerQueue.cpp:140-165 | over every later run a cancelled timer runs only if it was in the batch being run with its callback still to come, and only in that batch |
| TimerQueueModule.CancelledExact | pallette/TimerQueue.cpp:140-185 | over every later run that ends that batch, the cancelled timer runs again, and then exactly once, if and only if its callback in the batch was still to come |
| TimerQueueModule.CancelInBatchIsTooLate | pallette/TimerQueue.cpp:140-185 | for any two timers that expire together, the second runs although the callback of the first cancels it |
| TimerQueueModule.OneShotRunsOnce | pallette/TimerQueue.cpp:228-245 | over every run a one-shot timer runs at most once |
| TimerQueueModule.AskedIsKept | pallette/Timer.h:23-30 | over every run after a timer is added it keeps the interval and repetition asked for, and one added as one-shot runs at most once |
| TimerQueueModule.RepeatingTimerStays | pallette/TimerQueue.cpp:228-245 | over every run after a repeating timer is added that does not cancel it, it is never freed, and outside a batch it waits |
| TimerQueueModule.NoTimerRunsEarly | pallette/TimerQueue.cpp:206-226 | over every run after a timer is added, it has not run before its time |
| TimerQueueModule.RestartsOneIntervalLater | pallette/Timer.cpp:14-24 | whatever happens while a batch runs, a repeating timer of it that was not cancelled then waits for one interval after the clock at the beginning of the batch |
| TimerQueueModule.ResetExact | pallette/Timer.cpp:14-24 | after a batch a repeating timer waits one interval after the batch's time unless cancelled, any other timer of the batch is freed, and the rest is untouched |
| TimerQueueModule.ResetFrees | pallette/TimerQueue.cpp:228-245 | the reset loop frees every one-shot and every cancelled timer of the batch |
| TimerQueueModule.TimerQueue.InsertTimer | pallette/TimerQueue.cpp:187-204 | into the set and the waiting list; reports a new earliest timer |
| TimerQueueModule.TimerQueue.AddTimerInLoop | pallette/TimerQueue.cpp:129-138 | inserts, and arms for a new earliest timer |
| TimerQueueModule.TimerQueue.CancelInLoop | pallette/TimerQueue.cpp:140-165 | a waiting timer is freed; an active one is remembered |
| TimerQueueModule.TimerQueue.GetExpired | pallette/TimerQueue.cpp:206-226 | the loop moves exactly the expired prefix of the set off the waiting list |
| TimerQueueModule.TimerQueue.BeginBatchOfTimers | pallette/TimerQueue.cpp:167-176 | reads the descriptor, takes the batch, raises the flag |
| TimerQueueModule.TimerQueue.RunNextTimer | pallette/TimerQueue.cpp:177-181 | the next timer of the batch runs |
| TimerQueueModule.TimerQueue.ResetTimers | pallette/TimerQueue.cpp:228-245 | the reset loop, each insertion of an entry the set does not hold |
| TimerQueueModule.TimerQueue.EndBatchOfTimers | pallette/TimerQueue.cpp:182-185 | lowers the flag, resets, and arms for the earliest timer |
| AsyncLoggingModule.LogBuffer.Append | pallette/LogStream.h:34-46 | appends what fits and cuts off the rest |
| AsyncLoggingModule.LogBuffer.Reset | pallette/LogStream.h:55-55 | empties the buffer |
| AsyncLoggingModule.AssertsAlwaysHold | pallette/AsyncLogging.cpp:95-137 | the writer's assertions hold: there is a buffer for each spare given away |
| AsyncLoggingModule.StepKeepsInv | pallette/AsyncLogging.cpp:43-140 | every critical section and every write keeps order, empty spares, and "no next buffer implies a full one" |
| AsyncLoggingModule.LoggingConserves | pallette/AsyncLogging.cpp:43-140 | at every interleaving written ++ to write ++ full ++ current are the lines appended, exactly iff none exceeds a buffer, and the file ends at a line boundary |
| AsyncLoggingModule.FileFollowsEvents | pallette/AsyncLogging.cpp:43-140 | over every interleaving the file is, line by line and in order, what the threads appended, each line cut only after its first 4000000 bytes |
| AsyncLoggingModule.BuffersAreReused | pallette/AsyncLogging.cpp:43-140 | a new buffer is made only when the current one is full and no next one is there |
| AsyncLoggingModule.CaughtUp | pallette/AsyncLogging.cpp:93-140 | when the writer has caught up the file is the concatenation of all lines |
| AsyncLoggingModule.AsyncLogging.AppendLine | pallette/AsyncLogging.cpp:43-65 | the front end's critical section is the protocol's append step; it notifies exactly when it changes buffers |
| AsyncLoggingModule.AsyncLogging.CollectBuffers | pallette/AsyncLogging.cpp:97-112 | the writer takes all buffers and leaves its spares |
| AsyncLoggingModule.AsyncLogging.WriteBuffers | pallette/AsyncLogging.cpp:113-117 | the file grows by the contents of the buffers taken, in order |
| AsyncLoggingModule.AsyncLogging.RecycleBuffers | pallette/AsyncLogging.cpp:119-138 | both spares are refilled, never from an empty list |

## Left out

- Sockets, addresses, the acceptor, daemon, process information, files and inspectors: system-call plumbing; reads, writes, polling and the timer descriptor are steps with arbitrary results.
- Reading zone files (pallette/TimeZone.cpp:162-230): the parsed transitions are the input of the model, with the ranges that 32-bit fields give them.
- TimeZone.LocalRoundTrip: times are restricted to those whose shifted day stays inside the calendar's range, and zones to those in which the hour after a drop of the offset has no other transition.
- Abbreviations of zones (`tm_zone`): they only copy a pointer.
- TimerQueue's destructor (pallette/TimerQueue.cpp:93-113): a timer cancelled in the last batch is in two of the lists it deletes, so single deletion is not claimed.
- TimerQueueModule.StepKeepsInv: expirations and the clock are assumed positive, as an earliest expiration of zero would not be armed for; timer addresses are not reused, because no timer is freed before the destructor.
- TimerQueueModule.TimerQueue.BeginBatchOfTimers: handleRead is split at the points where callbacks run, so that callbacks can add and cancel there; the wall clock and the monotonic clock are one clock.
- TcpServerModule.LifeCycle: assumes calls in the connection's own loop, restarts of reading only while open (`TcpConnectionModule.RestartExact` shows why), and no hang-up that is unsafe (`Registration.DispatchAssertsExact`); the server's destructor, races on the state from other threads and the wrap-around of the connection counter are not modelled.
- Registration.KernelFollowsConnections: orderly callers restart reading only while open, destroy no half-closed connection, and neither stop nor destroy a connection after its destruction (the lemmas on restart, late stop and destruction say what happens otherwise); the loop's other channels are assumed to keep the poller's discipline, and events already polled for a channel that another callback changes are not modelled.
- `bytesSent_` and `bytesReceived_`: the first counts only the last write of a completed send, so it is not a total.
- Callbacks of users other than the queueing they do: the write-complete and high-water callbacks are out-parameters.
- HttpServing.ServedExactly: after a refused request the model reads nothing more on that connection.
- HTTP responses, and continuing after a rejected request line, where the assertion of setMethod no longer holds.
- Http.HttpContext.ParseRequest: requires that no complete request is parsed again (the loop would not end) and that no method was set before a request line.
- EventLoopModule.EventLoop.DoPendingFunctors: states the batch without interference; interference by other threads is covered by the step lemmas.
- AsyncLoggingModule.AsyncLogging.AppendLine: buffers are values (their bytes), as each is owned by one unique_ptr at a time; their identity and the array behind them are not modelled there. Flushing, rolling and lines still buffered when logging stops are not modelled.
- Base64.Base64Encode: masks and shifts are written as division and remainder; requires an input below 4 GiB, as the loop does not end otherwise.
- 64-bit overflow of timestamps and sizes.
- The timing wheel, blocking queues, thread pools, signals, object pools and integer formatting: container, lifetime or formatting code.
