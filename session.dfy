/**
 * A TCPClient talking to a TCPServer handler: what the server makes of the
 * frames the client writes, and what the client's reader makes of the
 * lines the server sends.
 */
module Session {
  import opened Wrappers
  import opened Text
  import opened HistoryLog
  import opened ServerSpec
  import opened TCPClient

  /**
   * The client writes the recipient first and the server reads the first
   * line as the sender: a client `me` sending `message` to `peer` is
   * handled as a relay from `peer` to `me`. The server registers `peer`
   * (first-writer-wins) for the client's connection and logs `peer -> me`.
   */
  lemma ClientFrameIsRelayFromRecipient(st: ServerState, c: Conn, me: string, peer: string, message: string,
                                        last: Option<string>, stamp: nat -> string)
    requires IsLine(peer) && IsLine(me) && IsLine(message)
    requires !EndsWith(peer, REQUEST_MARKER)
    ensures var input := ReadLines(Frame(peer, me, message));
            var o := Step(st, c, input, 0, last, stamp);
            && input == [peer, me, message]
            && o == Continue(Relay(Register(st, peer, c), stamp(0), peer, me, message), 3, Some(peer))
            && o.st.log == st.log + [LogLine(stamp(0), peer, me, message)]
            && peer in o.st.registry
            && o.st.registry[peer] == (if peer in st.registry then st.registry[peer] else c)
  {
    FrameLines(peer, me, message);
    var input := [peer, me, message];
    StepRelayFrame(st, c, input, 0, last, stamp);
    RegisterEffect(st, peer, c);
  }

  /**
   * A client sending to a recipient whose name ends in the request marker
   * and holds no space: the server skips that first line as a malformed
   * request and takes the client's own id as the sender of a frame the
   * stream then cuts short. Nothing is logged, registered or sent, and on
   * exit the client's own id is removed from the registry.
   */
  lemma ClientFrameToMarkedRecipient(st: ServerState, c: Conn, me: string, peer: string, message: string,
                                     stamp: nat -> string)
    requires IsLine(peer) && IsLine(me) && IsLine(message)
    requires EndsWith(peer, REQUEST_MARKER) && ' ' !in peer
    requires !EndsWith(me, REQUEST_MARKER)
    ensures ReadLines(Frame(peer, me, message)) == [peer, me, message]
    ensures Handle(st, c, ReadLines(Frame(peer, me, message)), None, stamp) == st.(registry := st.registry - {me})
  {
    FrameLines(peer, me, message);
    var input := [peer, me, message];
    StepMalformedRequest(st, c, input, 0, None, stamp);
    StepTruncatedFrame(st, c, input, 1, None, stamp);
    assert Drive(st, c, input, 1, None, stamp) == Ended(st, Some(me));
    assert Drive(st, c, input, 0, None, stamp) == Drive(st, c, input, 1, None, stamp);
  }

  /**
   * A connection on which a client sends one message and then closes:
   * one line is logged, `peer -> me`, and the registry ends without
   * `peer`, whichever connection `peer` was bound to.
   */
  lemma OneMessageSession(st: ServerState, c: Conn, me: string, peer: string, message: string, stamp: nat -> string)
    requires IsLine(peer) && IsLine(me) && IsLine(message)
    requires !EndsWith(peer, REQUEST_MARKER)
    ensures var after := Handle(st, c, ReadLines(Frame(peer, me, message)), None, stamp);
            && after.log == st.log + [LogLine(stamp(0), peer, me, message)]
            && after.registry == st.registry - {peer}
  {
    var input := ReadLines(Frame(peer, me, message));
    ClientFrameIsRelayFromRecipient(st, c, me, peer, message, None, stamp);
    var o := Step(st, c, input, 0, None, stamp);
    assert Step(o.st, c, input, 3, Some(peer), stamp) == Stop(o.st, Some(peer));
    assert Drive(st, c, input, 0, None, stamp) == Ended(o.st, Some(peer));
    RelayEffect(Register(st, peer, c), stamp(0), peer, me, message);
  }

  /**
   * A frame whose sender another connection registered earlier: the
   * registration is not taken over, yet when this connection's stream ends
   * its handler removes that sender's entry, the other connection's.
   */
  lemma HandlerEvictsAnotherConnection(st: ServerState, c: Conn, sender: string, recipient: string, message: string,
                                       stamp: nat -> string)
    requires sender in st.registry && st.registry[sender] != c
    requires !EndsWith(sender, REQUEST_MARKER)
    ensures Drive(st, c, [sender, recipient, message], 0, None, stamp).st.registry == st.registry
    ensures Handle(st, c, [sender, recipient, message], None, stamp).registry == st.registry - {sender}
  {
    var input := [sender, recipient, message];
    StepRelayFrame(st, c, input, 0, None, stamp);
    var o := Step(st, c, input, 0, None, stamp);
    assert Step(o.st, c, input, 3, Some(sender), stamp) == Stop(o.st, Some(sender));
  }

  /**
   * Only the last identifier a handler parsed is released: after frames
   * from `first` and then `second`, the connection's end removes `second`
   * and leaves `first` bound to the closed connection.
   */
  lemma HandlerKeepsEarlierIdentifier(st: ServerState, c: Conn, first: string, second: string,
                                      recipient1: string, message1: string, recipient2: string, message2: string,
                                      stamp: nat -> string)
    requires first !in st.registry && second !in st.registry && first != second
    requires !EndsWith(first, REQUEST_MARKER) && !EndsWith(second, REQUEST_MARKER)
    ensures Handle(st, c, [first, recipient1, message1, second, recipient2, message2], None, stamp).registry ==
            st.registry[first := c]
  {
    var input := [first, recipient1, message1, second, recipient2, message2];
    StepRelayFrame(st, c, input, 0, None, stamp);
    var o1 := Step(st, c, input, 0, None, stamp);
    StepRelayFrame(o1.st, c, input, 3, Some(first), stamp);
    var o2 := Step(o1.st, c, input, 3, Some(first), stamp);
    assert Step(o2.st, c, input, 6, Some(second), stamp) == Stop(o2.st, Some(second));
    assert Drive(o2.st, c, input, 6, Some(second), stamp) == Ended(o2.st, Some(second));
    assert Drive(o1.st, c, input, 3, Some(first), stamp) == Drive(o2.st, c, input, 6, Some(second), stamp);
    assert Drive(st, c, input, 0, None, stamp) == Drive(o1.st, c, input, 3, Some(first), stamp);
    assert o2.st.registry == st.registry[first := c][second := c];
  }

  /**
   * A client reading what the server wrote to its connection `d`, after
   * one more relay: its reader sees the earlier lines followed by exactly
   * what the relay sent to `d`, and enqueues every third of them, so a
   * lone delivery, even with its confirmation, never reaches the inbox.
   */
  lemma ReaderAfterRelay(st: ServerState, timestamp: string, sender: string, recipient: string, message: string, d: Conn)
    requires forall k :: 0 <= k < |Sent(st.outbox, d)| ==> IsLine(Sent(st.outbox, d)[k])
    requires IsLine(sender) && IsLine(recipient) && IsLine(message)
    ensures var sent := Sent(Relay(st, timestamp, sender, recipient, message).outbox, d);
            Thirds(ReadLines(Serialize(sent))) == Thirds(Sent(st.outbox, d) + Delivered(st.registry, d, sender, recipient, message))
    ensures Sent(st.outbox, d) == [] ==>
            Thirds(ReadLines(Serialize(Sent(Relay(st, timestamp, sender, recipient, message).outbox, d)))) == []
  {
    RelayEffect(st, timestamp, sender, recipient, message);
    LineConcat("From " + sender, ": ");
    LineConcat("From " + sender + ": ", message);
    LineConcat("To " + recipient, ": ");
    LineConcat("To " + recipient + ": ", message);
    var added := Delivered(st.registry, d, sender, recipient, message);
    var sent := Sent(st.outbox, d) + added;
    assert forall k :: 0 <= k < |added| ==> IsLine(added[k]);
    assert forall k :: 0 <= k < |sent| ==> IsLine(sent[k]);
    ReadSerialized(sent);
    ThirdsAt(sent);
  }

}
