/**
 * The relay server of TCPServer.java as a state machine on values: the
 * history log, the registry of connected identifiers and what each
 * connection has been sent; one relay, one registration, one frame of a
 * connection handler and a handler's whole run as functions of that state.
 */
module ServerSpec {
  import opened Wrappers
  import opened Text
  import opened HistoryLog

  /** A client connection (a `Socket` of the server), by number. */
  type Conn = nat

  /**
   * `log`: the lines of the history file, oldest first;
   * `registry`: `clientMap`, identifier to connection;
   * `outbox`: the lines written to each connection's output stream so far.
   */
  datatype ServerState = ServerState(log: seq<string>, registry: map<string, Conn>, outbox: map<Conn, seq<string>>)

  /** The marker a history request line ends with. */
  const REQUEST_MARKER := "REQ"

  /** Everything connection `c` has been sent. */
  function Sent(outbox: map<Conn, seq<string>>, c: Conn): seq<string>
  {
    if c in outbox then outbox[c] else []
  }

  /** Writes `lines` to connection `c`; writing nothing leaves every output as it was. */
  function Post(outbox: map<Conn, seq<string>>, c: Conn, lines: seq<string>): (r: map<Conn, seq<string>>)
    ensures Sent(r, c) == Sent(outbox, c) + lines
    ensures forall d :: d != c ==> Sent(r, d) == Sent(outbox, d)
  {
    if lines == [] then outbox else outbox[c := Sent(outbox, c) + lines]
  }

  /** Two writes to one connection are one write of both batches. */
  lemma PostTwice(outbox: map<Conn, seq<string>>, c: Conn, a: seq<string>, b: seq<string>)
    ensures Post(Post(outbox, c, a), c, b) == Post(outbox, c, a + b)
  {
    if a == [] {
      assert a + b == b;
    } else if b == [] {
      assert a + b == a;
    } else {
      assert Sent(outbox, c) + a + b == Sent(outbox, c) + (a + b);
    }
  }

  /** `clientMap.putIfAbsent(id, c)`. */
  function Register(st: ServerState, id: string, c: Conn): ServerState
  {
    if id in st.registry then st else st.(registry := st.registry[id := c])
  }

  /** `sendMessage(sender, recipient, message)` at time `timestamp`. */
  function Relay(st: ServerState, timestamp: string, sender: string, recipient: string, message: string): ServerState
  {
    var logged := st.(log := st.log + [LogLine(timestamp, sender, recipient, message)]);
    if recipient in st.registry then
      var delivered := Post(st.outbox, st.registry[recipient], [RecipientLine(sender, message)]);
      if sender in st.registry then
        logged.(outbox := Post(delivered, st.registry[sender], [SenderLine(recipient, message)]))
      else
        logged.(outbox := delivered)
    else
      logged
  }

  /** The handler writing `lines` to its own connection `c`. */
  function Reply(st: ServerState, c: Conn, lines: seq<string>): ServerState
  {
    st.(outbox := Post(st.outbox, c, lines))
  }

  /** The handler's `finally` block: `clientMap.remove(clientID)` when an identifier was parsed. */
  function Finish(st: ServerState, last: Option<string>): ServerState
  {
    if last.Some? then st.(registry := st.registry - {last.value}) else st
  }

  /** What connection `c` receives from a relay, given the registry at the time. */
  function Delivered(registry: map<string, Conn>, c: Conn, sender: string, recipient: string, message: string): seq<string>
  {
    if recipient in registry then
      (if registry[recipient] == c then [RecipientLine(sender, message)] else []) +
      (if sender in registry && registry[sender] == c then [SenderLine(recipient, message)] else [])
    else []
  }

  /**
   * A relay appends exactly its log line and keeps every earlier one, never
   * changes the registry, and sends each connection exactly `Delivered`:
   * the delivery to the recipient and then the confirmation to the sender,
   * both only when the recipient is registered.
   */
  lemma RelayEffect(st: ServerState, timestamp: string, sender: string, recipient: string, message: string)
    ensures Relay(st, timestamp, sender, recipient, message).log == st.log + [LogLine(timestamp, sender, recipient, message)]
    ensures Relay(st, timestamp, sender, recipient, message).registry == st.registry
    ensures forall c :: Sent(Relay(st, timestamp, sender, recipient, message).outbox, c) ==
                        Sent(st.outbox, c) + Delivered(st.registry, c, sender, recipient, message)
  {
  }

  /** With the recipient offline, no connection is sent anything, not even a confirmation. */
  lemma RelayToOfflineRecipient(st: ServerState, timestamp: string, sender: string, recipient: string, message: string)
    requires recipient !in st.registry
    ensures Relay(st, timestamp, sender, recipient, message).outbox == st.outbox
  {
  }

  /** Right after a relay, the history of the two parties, asked either way round, ends with its log line. */
  lemma RelayThenHistory(st: ServerState, timestamp: string, sender: string, recipient: string, message: string)
    ensures var log := Relay(st, timestamp, sender, recipient, message).log;
            var line := LogLine(timestamp, sender, recipient, message);
            History(log, sender, recipient) == History(st.log, sender, recipient) + [line] &&
            History(log, recipient, sender) == History(st.log, recipient, sender) + [line]
  {
    var line := LogLine(timestamp, sender, recipient, message);
    LogLineBetween(timestamp, sender, recipient, message);
    HistoryAppend(st.log, [line], sender, recipient);
    HistoryAppend(st.log, [line], recipient, sender);
  }

  /** `putIfAbsent` is first-writer-wins and touches no other entry, the log or any output. */
  lemma RegisterEffect(st: ServerState, id: string, c: Conn)
    ensures var r := Register(st, id, c).registry;
            id in r && r[id] == (if id in st.registry then st.registry[id] else c) &&
            forall x :: x != id ==> (x in r <==> x in st.registry) && (x in r ==> r[x] == st.registry[x])
    ensures Register(st, id, c).log == st.log && Register(st, id, c).outbox == st.outbox
  {
  }

  /** Where one dispatch step leaves the handler. */
  datatype Outcome =
    | Continue(st: ServerState, next: nat, last: Option<string>)  // frame handled; read on from `next`
    | Stop(st: ServerState, last: Option<string>)                 // `readLine` returned null

  /**
   * One iteration of the `while (true)` loop of `ClientHandler.run` on
   * connection `c`, reading `input` from index `i`; `last` is the
   * `clientID` field and `stamp(i)` the time at which a frame starting at
   * line `i` is relayed.
   */
  function Step(st: ServerState, c: Conn, input: seq<string>, i: nat, last: Option<string>, stamp: nat -> string): (o: Outcome)
    requires i <= |input|
    ensures o.Continue? ==> i < o.next <= |input|
    ensures o.Stop? ==> o.st == st
  {
    if i == |input| then Stop(st, last)
    else
      var line := input[i];
      if EndsWith(line, REQUEST_MARKER) then
        var space := IndexOf(line, ' ');
        if space == -1 then Continue(st, i + 1, last)
        else
          var requester := line[..space];
          if i + 1 == |input| then Stop(st, Some(requester))
          else
            var registered := Register(st, requester, c);
            Continue(Reply(registered, c, History(registered.log, requester, input[i + 1])), i + 2, Some(requester))
      else if i + 2 >= |input| then Stop(st, Some(line))
      else
        Continue(Relay(Register(st, line, c), stamp(i), line, input[i + 1], input[i + 2]), i + 3, Some(line))
  }

  /** Where the handler's loop ends: the state and the last identifier it parsed. */
  datatype Ended = Ended(st: ServerState, last: Option<string>)

  /** The handler's loop from input line `i` to the end of the stream. */
  function Drive(st: ServerState, c: Conn, input: seq<string>, i: nat, last: Option<string>, stamp: nat -> string): Ended
    requires i <= |input|
    decreases |input| - i
  {
    match Step(st, c, input, i, last, stamp)
    case Stop(st', last') => Ended(st', last')
    case Continue(st', next, last') => Drive(st', c, input, next, last', stamp)
  }

  /** A whole `ClientHandler.run` on connection `c`: the loop, then the `finally` block. */
  function Handle(st: ServerState, c: Conn, input: seq<string>, last: Option<string>, stamp: nat -> string): ServerState
  {
    var e := Drive(st, c, input, 0, last, stamp);
    Finish(e.st, e.last)
  }

  /**
   * A line ending in the marker and holding a space is a history request:
   * the requester is the text before the first space, the counterpart the
   * next line. The requester is registered first-writer-wins and the
   * handler's connection is sent exactly the matching log lines, with no
   * header and no end marker; the log and every other connection are left alone.
   */
  lemma StepHistoryRequest(st: ServerState, c: Conn, input: seq<string>, i: nat, last: Option<string>, stamp: nat -> string)
    requires i + 1 < |input|
    requires EndsWith(input[i], REQUEST_MARKER) && ' ' in input[i]
    ensures var o := Step(st, c, input, i, last, stamp);
            && o.Continue? && o.next == i + 2 && o.last.Some?
            && var requester := o.last.value;
            && |requester| < |input[i]| && input[i][..|requester|] == requester
            && input[i][|requester|] == ' ' && ' ' !in requester
            && o.st.log == st.log
            && o.st.registry == Register(st, requester, c).registry
            && Sent(o.st.outbox, c) == Sent(st.outbox, c) + History(st.log, requester, input[i + 1])
            && forall d :: d != c ==> Sent(o.st.outbox, d) == Sent(st.outbox, d)
  {
  }

  /** A line ending in the marker with no space is skipped and changes nothing. */
  lemma StepMalformedRequest(st: ServerState, c: Conn, input: seq<string>, i: nat, last: Option<string>, stamp: nat -> string)
    requires i < |input|
    requires EndsWith(input[i], REQUEST_MARKER) && ' ' !in input[i]
    ensures Step(st, c, input, i, last, stamp) == Continue(st, i + 1, last)
  {
  }

  /**
   * Any other line is the sender of a relay frame whose next two lines are
   * the recipient and the message: the sender is registered
   * first-writer-wins, and then the message is relayed.
   */
  lemma StepRelayFrame(st: ServerState, c: Conn, input: seq<string>, i: nat, last: Option<string>, stamp: nat -> string)
    requires i + 2 < |input|
    requires !EndsWith(input[i], REQUEST_MARKER)
    ensures var o := Step(st, c, input, i, last, stamp);
            var sender := input[i];
            && o.Continue? && o.next == i + 3 && o.last == Some(sender)
            && o.st.log == st.log + [LogLine(stamp(i), sender, input[i + 1], input[i + 2])]
            && o.st.registry == Register(st, sender, c).registry
            && o.st == Relay(Register(st, sender, c), stamp(i), sender, input[i + 1], input[i + 2])
  {
  }

  /**
   * A stream that ends inside a frame stops the loop, changing nothing,
   * with the frame's identifier parsed: the text before the first space of
   * a request line, or the whole line of a relay frame.
   */
  lemma StepTruncatedFrame(st: ServerState, c: Conn, input: seq<string>, i: nat, last: Option<string>, stamp: nat -> string)
    requires i < |input|
    requires if EndsWith(input[i], REQUEST_MARKER) then ' ' in input[i] && i + 1 == |input| else i + 2 >= |input|
    ensures var o := Step(st, c, input, i, last, stamp);
            && o.Stop? && o.st == st
            && o.last == Some(if EndsWith(input[i], REQUEST_MARKER) then input[i][..IndexOf(input[i], ' ')] else input[i])
  {
  }

  /** The handler's loop only appends to the log. */
  lemma {:induction false} DriveLogAppendOnly(st: ServerState, c: Conn, input: seq<string>, i: nat, last: Option<string>, stamp: nat -> string)
    requires i <= |input|
    ensures st.log <= Drive(st, c, input, i, last, stamp).st.log
    decreases |input| - i
  {
    match Step(st, c, input, i, last, stamp)
    case Stop(_, _) =>
    case Continue(st', next, last') =>
      DriveLogAppendOnly(st', c, input, next, last', stamp);
  }

  /** A relay only appends to a connection's output. */
  lemma RelayOutputsAppendOnly(st: ServerState, timestamp: string, sender: string, recipient: string, message: string, d: Conn)
    ensures Sent(st.outbox, d) <= Sent(Relay(st, timestamp, sender, recipient, message).outbox, d)
  {
    RelayEffect(st, timestamp, sender, recipient, message);
  }

  /** One dispatch step only appends to a connection's output. */
  lemma StepOutputsAppendOnly(st: ServerState, c: Conn, input: seq<string>, i: nat, last: Option<string>, stamp: nat -> string, d: Conn)
    requires i <= |input|
    ensures Sent(st.outbox, d) <= Sent(Step(st, c, input, i, last, stamp).st.outbox, d)
  {
    if i < |input| && !EndsWith(input[i], REQUEST_MARKER) && i + 2 < |input| {
      var registered := Register(st, input[i], c);
      RelayOutputsAppendOnly(registered, stamp(i), input[i], input[i + 1], input[i + 2], d);
    }
  }

  /** The handler's loop only appends to every connection's output. */
  lemma {:induction false} DriveOutputsAppendOnly(st: ServerState, c: Conn, input: seq<string>, i: nat, last: Option<string>, stamp: nat -> string, d: Conn)
    requires i <= |input|
    ensures Sent(st.outbox, d) <= Sent(Drive(st, c, input, i, last, stamp).st.outbox, d)
    decreases |input| - i
  {
    match Step(st, c, input, i, last, stamp)
    case Stop(_, _) =>
    case Continue(st', next, last') =>
      StepOutputsAppendOnly(st, c, input, i, last, stamp, d);
      DriveOutputsAppendOnly(st', c, input, next, last', stamp, d);
  }

  /**
   * The handler's loop removes no registry entry and changes no existing
   * one; every entry it adds maps to its own connection.
   */
  lemma {:induction false} DriveRegistry(st: ServerState, c: Conn, input: seq<string>, i: nat, last: Option<string>, stamp: nat -> string)
    requires i <= |input|
    ensures var r := Drive(st, c, input, i, last, stamp).st.registry;
            && (forall x :: x in st.registry ==> x in r && r[x] == st.registry[x])
            && (forall x :: x in r && x !in st.registry ==> r[x] == c)
    decreases |input| - i
  {
    match Step(st, c, input, i, last, stamp)
    case Stop(_, _) =>
    case Continue(st', next, last') =>
      DriveRegistry(st', c, input, next, last', stamp);
  }

  /**
   * When the handler terminates, the entry of the last identifier it parsed
   * is gone, whichever connection it mapped to; every other entry is one
   * that was there before, unchanged, or one the handler bound to its own
   * connection.
   */
  lemma HandleRegistry(st: ServerState, c: Conn, input: seq<string>, last: Option<string>, stamp: nat -> string)
    ensures var e := Drive(st, c, input, 0, last, stamp);
            var r := Handle(st, c, input, last, stamp).registry;
            && (e.last.Some? ==> e.last.value !in r)
            && (forall x :: x in st.registry && e.last != Some(x) ==> x in r && r[x] == st.registry[x])
            && (forall x :: x in r ==> (x in st.registry && r[x] == st.registry[x]) || r[x] == c)
  {
    DriveRegistry(st, c, input, 0, last, stamp);
  }

}
