/** Length-prefixed framing of messages over a byte stream. */
module ChatCodec {
  import opened CInt
  import opened Bytes
  import opened BufferModule

  const HEADER_LEN := 4
  const MAX_LEN := 65535

  /** What decoding a stream gave: messages, undecoded bytes, and whether a bad length closed the connection. */
  datatype Decoded = Decoded(messages: seq<seq<byte>>, rest: seq<byte>, closed: bool)

  function Decode(s: seq<byte>): Decoded
    decreases |s|
  {
    if |s| < HEADER_LEN then Decoded([], s, false) else
      var len := DecodeInt(s[..HEADER_LEN]);
      if len > MAX_LEN || len < 0 then Decoded([], s, true)
      else if |s| >= len + HEADER_LEN then
        var d := Decode(s[HEADER_LEN + len..]);
        d.(messages := [s[HEADER_LEN..HEADER_LEN + len]] + d.messages)
      else Decoded([], s, false)
  }

  /** The bytes of one message: a 32-bit length, truncated as the cast does, then the message. */
  function Frame(message: seq<byte>): seq<byte> {
    EncodeInt(HEADER_LEN, WrapInt32(|message|)) + message
  }

  function Stream(messages: seq<seq<byte>>): seq<byte> {
    if messages == [] then [] else Frame(messages[0]) + Stream(messages[1..])
  }

  predicate Deliverable(messages: seq<seq<byte>>) {
    forall m :: m in messages ==> |m| <= 65535
  }

  /** Decodes as many messages as the buffer holds; they are handed over in order. */
  method OnMessage(buf: Buffer) returns (messages: seq<seq<byte>>, forceClose: bool)
    requires buf.Valid()
    modifies buf
    ensures buf.Valid() && Decode(old(buf.Contents())) == Decoded(messages, buf.Contents(), forceClose)
    ensures PREPEND <= old(buf.readIndex) ==> PREPEND <= buf.readIndex
  {
    hide DecodeInt, EncodeInt, FitsSigned, Decode;
    messages := [];
    forceClose := false;
    while buf.ReadableBytes() >= HEADER_LEN
      invariant buf.Valid() && !forceClose
      invariant Decode(old(buf.Contents())) == Behind(messages, Decode(buf.Contents()))
      invariant PREPEND <= old(buf.readIndex) ==> PREPEND <= buf.readIndex
      decreases buf.ReadableBytes()
    {
      var len := buf.PeekInt(HEADER_LEN);
      if len > MAX_LEN || len < 0 {
        DecodeIncomplete(buf.Contents());
        forceClose := true;
        break;
      } else if buf.ReadableBytes() >= len + HEADER_LEN {
        ghost var s, before := buf.Contents(), messages;
        DecodeComplete(s);
        buf.Retrieve(HEADER_LEN);
        var message := buf.Contents()[..len];
        messages := messages + [message];
        buf.Retrieve(len);
        assert s[HEADER_LEN..][..len] == s[HEADER_LEN..HEADER_LEN + len];
        assert s[HEADER_LEN..][len..] == s[HEADER_LEN + len..];
        ghost var d := Decode(buf.Contents());
        assert before + ([message] + d.messages) == messages + d.messages;
      } else {
        break;
      }
    }
    if !forceClose {
      DecodeIncomplete(buf.Contents());
    }
  }

  /** A result behind messages already decoded. */
  function Behind(messages: seq<seq<byte>>, d: Decoded): Decoded {
    d.(messages := messages + d.messages)
  }

  /** Builds the frame in a fresh buffer: append the message, then prepend its length. */
  method Send(message: seq<byte>) returns (wire: seq<byte>)
    ensures wire == Frame(message)
  {
    var buf := new Buffer(INITIAL_SIZE);
    buf.Append(message);
    var len := WrapInt32(|message|);
    buf.PrependInt(HEADER_LEN, len);
    wire := buf.RetrieveAllAsString();
  }

  /** The length at the front is not acceptable. */
  predicate BadLength(s: seq<byte>) {
    |s| >= HEADER_LEN && !(0 <= DecodeInt(s[..HEADER_LEN]) <= MAX_LEN)
  }

  /** A whole frame with an acceptable length is at the front. */
  predicate Complete(s: seq<byte>) {
    |s| >= HEADER_LEN &&
    0 <= DecodeInt(s[..HEADER_LEN]) <= MAX_LEN && HEADER_LEN + DecodeInt(s[..HEADER_LEN]) <= |s|
  }

  lemma DecodeComplete(s: seq<byte>)
    requires Complete(s)
    ensures var n := HEADER_LEN + DecodeInt(s[..HEADER_LEN]);
            var d := Decode(s[n..]);
            Decode(s) == d.(messages := [s[HEADER_LEN..n]] + d.messages)
  {
    hide DecodeInt;
  }

  lemma DecodeIncomplete(s: seq<byte>)
    requires !Complete(s)
    ensures Decode(s) == Decoded([], s, BadLength(s))
  {
    hide DecodeInt;
  }

  /** Decoding is chunk independent, also after a bad length. */
  lemma {:induction false} DecodeSplit(a: seq<byte>, b: seq<byte>)
    ensures var d, e := Decode(a), Decode(Decode(a).rest + b);
            Decode(a + b) == e.(messages := d.messages + e.messages)
    decreases |a|
  {
    hide Decode;
    var d := Decode(a);
    if Complete(a) {
      var n := HEADER_LEN + DecodeInt(a[..HEADER_LEN]);
      assert (a + b)[..HEADER_LEN] == a[..HEADER_LEN];
      assert (a + b)[n..] == a[n..] + b && (a + b)[HEADER_LEN..n] == a[HEADER_LEN..n];
      DecodeComplete(a);
      DecodeComplete(a + b);
      DecodeSplit(a[n..], b);
      var e := Decode(d.rest + b);
      assert [a[HEADER_LEN..n]] + (Decode(a[n..]).messages + e.messages) == d.messages + e.messages;
    } else {
      DecodeIncomplete(a);
      var e := Decode(a + b);
      assert [] + e.messages == e.messages;
    }
  }

  /** The receiver: each chunk is appended to the undecoded bytes and the whole is decoded. */
  function Receive(chunks: seq<seq<byte>>): Decoded {
    if chunks == [] then Decoded([], [], false) else
      var d := Receive(chunks[..|chunks| - 1]);
      var e := Decode(d.rest + chunks[|chunks| - 1]);
      e.(messages := d.messages + e.messages)
  }

  /** Delivery depends on the bytes received, not on how they were cut into chunks. */
  lemma {:induction false} ReceiveIsDecode(chunks: seq<seq<byte>>)
    ensures var d := Receive(chunks); Decode(Flatten(chunks)) == d
  {
    if chunks == [] {
    } else {
      hide Decode;
      var n := |chunks| - 1;
      ReceiveIsDecode(chunks[..n]);
      DecodeSplit(Flatten(chunks[..n]), chunks[n]);
      FlattenSnoc(chunks[..n], chunks[n]);
      assert chunks == chunks[..n] + [chunks[n]];
    }
  }

  lemma DecodeFrame(m: seq<byte>, rest: seq<byte>)
    ensures |m| <= MAX_LEN ==>
      var d := Decode(rest); Decode(Frame(m) + rest) == d.(messages := [m] + d.messages)
    ensures |m| > MAX_LEN ==>
      var d := Decode(Frame(m) + rest);
      var len := WrapInt32(|m|);
      if 0 <= len <= MAX_LEN then d.messages != [] && d.messages[0] == m[..len] else d.messages == []
  {
    var s := Frame(m) + rest;
    var len := WrapInt32(|m|);
    assert s[..HEADER_LEN] == EncodeInt(HEADER_LEN, len);
    assert DecodeInt(s[..HEADER_LEN]) == len by {
      assert Pow256(4) == 0x1_0000_0000;
      IntRoundTrip(HEADER_LEN, len);
    }
    if |m| <= MAX_LEN {
      assert s[HEADER_LEN + len..] == rest;
      assert s[HEADER_LEN..HEADER_LEN + len] == m;
    } else if 0 <= len <= MAX_LEN {
      assert s[HEADER_LEN..HEADER_LEN + len] == m[..len];
    }
  }

  /** Everything sent is delivered, in order and with nothing left over, iff no message exceeds 65535 bytes. */
  lemma {:induction false} StreamRoundTrip(messages: seq<seq<byte>>)
    ensures Deliverable(messages) ==> Decode(Stream(messages)) == Decoded(messages, [], false)
    ensures Decode(Stream(messages)).messages == messages <==> Deliverable(messages)
  {
    if messages == [] {
    } else {
      var m, ms := messages[0], messages[1..];
      assert messages == [m] + ms;
      DecodeFrame(m, Stream(ms));
      StreamRoundTrip(ms);
      if |m| <= MAX_LEN {
        assert Deliverable(messages) <==> Deliverable(ms);
        assert ([m] + Decode(Stream(ms)).messages)[1..] == Decode(Stream(ms)).messages;
      } else {
        assert m in messages;
      }
    }
  }

  /** On the wire a deliverable message is four bytes of length, most significant first, and the message. */
  lemma FrameIsText(m: seq<byte>)
    requires |m| <= 65535
    ensures Frame(m) == [0, 0, |m| / 256, |m| % 256] + m
  {
    LengthBytes(|m|);
    hide EncodeInt;
    assert WrapInt32(|m|) == |m|;
  }

  lemma LengthBytes(n: nat)
    requires n <= 65535
    ensures EncodeInt(HEADER_LEN, n) == [0, 0, n / 256, n % 256]
  {
    var q := n / 256;
    assert q / 256 == 0 && q % 256 == q;
    assert EncodeInt(1, 0) == [] + [0] && EncodeInt(2, 0) == EncodeInt(1, 0) + [0];
    assert EncodeInt(3, q) == EncodeInt(2, 0) + [q];
    assert EncodeInt(4, n) == EncodeInt(3, q) + [n % 256];
  }

  /** No message over 65535 bytes is ever delivered, whatever the stream. */
  lemma {:induction false} DeliveredAreShort(s: seq<byte>)
    ensures forall m :: m in Decode(s).messages ==> |m| <= 65535
    decreases |s|
  {
    hide Decode;
    if Complete(s) {
      DecodeComplete(s);
      DeliveredAreShort(s[HEADER_LEN + DecodeInt(s[..HEADER_LEN])..]);
    } else {
      DecodeIncomplete(s);
    }
  }

  /** The first message over 65535 bytes, if there is one, has a truncated length that closes the connection. */
  predicate Safe(messages: seq<seq<byte>>) {
    messages == [] ||
    if |messages[0]| <= 65535 then Safe(messages[1..]) else !(0 <= WrapInt32(|messages[0]|) <= 65535)
  }

  lemma {:induction false} DecodePrefixExact(messages: seq<seq<byte>>)
    ensures Decode(Stream(messages)).messages <= messages <==> Safe(messages)
  {
    hide Decode, Frame;
    if messages == [] {
      DecodeIncomplete([]);
    } else {
      var m, ms := messages[0], messages[1..];
      assert messages == [m] + ms;
      DecodeFrame(m, Stream(ms));
      DecodePrefixExact(ms);
      if |m| <= MAX_LEN {
        var d := Decode(Stream(ms)).messages;
        assert ([m] + d)[1..] == d;
        assert [m] + d <= [m] + ms <==> d <= ms;
      }
    }
  }

  /** A message of 2^32 + n bytes, n up to 65535, delivers its first n bytes, which were never a message. */
  lemma OversizeDeliversPart(m: seq<byte>, n: nat)
    requires |m| == 0x1_0000_0000 + n && n <= 65535
    ensures var d := Decode(Stream([m]));
            !Safe([m]) && d.messages != [] && d.messages[0] == m[..n] && d.messages[0] != m
  {
    hide Decode, Frame;
    DecodeFrame(m, Stream([]));
    assert [m][1..] == [];
  }

  /** Whatever part of the stream arrives in whatever chunks, only messages sent are delivered, in order, iff safe. */
  lemma FramingExact(messages: seq<seq<byte>>)
    ensures (forall chunks :: Flatten(chunks) <= Stream(messages) ==> Receive(chunks).messages <= messages) <==>
            Safe(messages)
  {
    var all := Stream(messages);
    DecodePrefixExact(messages);
    hide Decode, Stream, Safe;
    if Safe(messages) {
      forall chunks | Flatten(chunks) <= all
        ensures Receive(chunks).messages <= messages
      {
        var got := Flatten(chunks);
        assert all == got + all[|got|..];
        ReceiveIsDecode(chunks);
        DecodeSplit(got, all[|got|..]);
      }
    } else {
      FlattenOne(all);
      ReceiveIsDecode([all]);
    }
  }

  lemma {:induction false} StreamIsFlattened(messages: seq<seq<byte>>, frames: seq<seq<byte>>)
    requires |frames| == |messages| && forall i :: 0 <= i < |messages| ==> frames[i] == Frame(messages[i])
    ensures Flatten(frames) == Stream(messages)
  {
    if messages != [] {
      StreamIsFlattened(messages[1..], frames[1..]);
    }
  }

  /** Whatever part of the stream has arrived, the messages delivered are a prefix of those sent. */
  lemma FramingEndToEnd(messages: seq<seq<byte>>, chunks: seq<seq<byte>>)
    requires Deliverable(messages) && Flatten(chunks) <= Stream(messages)
    ensures Receive(chunks).messages <= messages && !Receive(chunks).closed
    ensures Flatten(chunks) == Stream(messages) ==> Receive(chunks) == Decoded(messages, [], false)
  {
    var got := Flatten(chunks);
    var all := Stream(messages);
    var late := all[|got|..];
    assert all == got + late;
    ReceiveIsDecode(chunks);
    DecodeSplit(got, late);
    StreamRoundTrip(messages);
    ClosedIsFinal(Receive(chunks).rest, late, got);
  }

  /** A connection closed for a bad length stays closed whatever arrives later. */
  lemma {:induction false} ClosedIsFinal(rest: seq<byte>, late: seq<byte>, got: seq<byte>)
    requires rest == Decode(got).rest
    ensures Decode(got).closed ==> Decode(rest + late) == Decoded([], rest + late, true)
    decreases |got|
  {
    if Decode(got).closed {
      var len := DecodeInt(got[..HEADER_LEN]);
      if 0 <= len <= MAX_LEN {
        ClosedIsFinal(rest, late, got[HEADER_LEN + len..]);
      } else {
        assert (rest + late)[..HEADER_LEN] == got[..HEADER_LEN];
      }
    }
  }
}
