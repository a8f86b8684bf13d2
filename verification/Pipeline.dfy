/** The byte-stream pipeline from one codec to the other, across partial writes and arbitrary chunks. */
module Pipeline {
  import opened Bytes
  import opened ChatCodec
  import opened TcpConnectionModule

  /** The payloads a run accepted for sending, in order. */
  function AcceptedPayloads(c: Conn, es: seq<Event>): seq<seq<byte>>
    requires PossibleRun(c, es)
    decreases es
  {
    if es == [] then [] else
      (if es[0].Send? && c.state != Disconnected then [es[0].data] else []) +
      AcceptedPayloads(Step(c, es[0]), es[1..])
  }

  lemma {:induction false} AcceptedIsPayloads(c: Conn, es: seq<Event>)
    requires PossibleRun(c, es)
    ensures Run(c, es).accepted == c.accepted + Flatten(AcceptedPayloads(c, es))
    decreases es
  {
    if es == [] {
      assert Flatten<byte>([]) == [];
    } else {
      hide Step, Possible, Flatten;
      var rest := AcceptedPayloads(Step(c, es[0]), es[1..]);
      AcceptedIsPayloads(Step(c, es[0]), es[1..]);
      AcceptedStep(c, es[0]);
      if es[0].Send? && c.state != Disconnected {
        FlattenPrepend(c.accepted, es[0].data, rest);
      } else {
        assert [] + rest == rest;
      }
    }
  }

  lemma FlattenPrepend(accepted: seq<byte>, data: seq<byte>, rest: seq<seq<byte>>)
    ensures accepted + data + Flatten(rest) == accepted + Flatten([data] + rest)
  {
    assert ([data] + rest)[1..] == rest;
  }

  lemma AcceptedStep(c: Conn, e: Event)
    requires Possible(c, e)
    ensures Step(c, e).accepted == if e.Send? && c.state != Disconnected then c.accepted + e.data else c.accepted
  {
  }

  predicate FramesOf(payloads: seq<seq<byte>>, messages: seq<seq<byte>>) {
    |payloads| == |messages| && forall i :: 0 <= i < |messages| ==> payloads[i] == Frame(messages[i])
  }

  /**
    * The sender runs any sequence of events without write faults, its accepted payloads being the frames of
    * `messages`; the network delivers some prefix of the wire in arbitrary chunks. Then the receiver has
    * delivered a prefix of the messages, and all of them once the sender has drained and every byte arrived.
    */
  lemma EndToEnd(es: seq<Event>, messages: seq<seq<byte>>, chunks: seq<seq<byte>>)
    requires PossibleRun(NEW_CONN, es) && Faultless(NEW_CONN, es)
    requires FramesOf(AcceptedPayloads(NEW_CONN, es), messages) && Deliverable(messages)
    requires Flatten(chunks) <= Run(NEW_CONN, es).wire
    ensures Receive(chunks).messages <= messages && !Receive(chunks).closed
    ensures Run(NEW_CONN, es).output == [] && Flatten(chunks) == Run(NEW_CONN, es).wire ==>
      Receive(chunks) == Decoded(messages, [], false)
  {
    var c := Run(NEW_CONN, es);
    SendConserves(es);
    AcceptedIsPayloads(NEW_CONN, es);
    StreamIsFlattened(messages, AcceptedPayloads(NEW_CONN, es));
    assert c.wire + c.output == Stream(messages);
    assert Flatten(chunks) <= Stream(messages);
    FramingEndToEnd(messages, chunks);
  }
}
