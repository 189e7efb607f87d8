/**
 * TCPServer.java as objects: the server's shared state, whose two
 * `synchronized` operations are each one atomic method, and the
 * per-connection handler that reads frames and drives them.
 */
module TCPServer {
  import opened Wrappers
  import opened Text
  import opened HistoryLog
  import opened ServerSpec

  class Server {
    /** The lines of the history file. */
    var log: seq<string>
    /** `clientMap`. */
    var registry: map<string, Conn>
    /** The lines written to each connection's output stream. */
    var outbox: map<Conn, seq<string>>

    function State(): ServerState
      reads this
    {
      ServerState(log, registry, outbox)
    }

    /** The history file is opened for appending, so it may already hold lines. */
    constructor (history: seq<string>)
      ensures State() == ServerState(history, map[], map[])
    {
      log := history;
      registry := map[];
      outbox := map[];
    }

    /** `sendMessage`: log the message, then deliver and confirm if the recipient is connected. */
    method SendMessage(timestamp: string, senderID: string, recipientID: string, message: string)
      modifies this`log, this`outbox
      ensures State() == Relay(old(State()), timestamp, senderID, recipientID, message)
    {
      var serverFormat := LogLine(timestamp, senderID, recipientID, message);
      var senderFormat := SenderLine(recipientID, message);
      var recipientFormat := RecipientLine(senderID, message);
      log := log + [serverFormat];
      if recipientID in registry {
        var recipientSocket := registry[recipientID];
        outbox := Post(outbox, recipientSocket, [recipientFormat]);
        if senderID in registry {
          var senderSocket := registry[senderID];
          outbox := Post(outbox, senderSocket, [senderFormat]);
        }
      }
    }

    /** `getMessageHistoryBetween`: one pass over the log, keeping the lines that match either way round. */
    method GetMessageHistoryBetween(user1: string, user2: string) returns (history: seq<string>)
      ensures history == History(log, user1, user2)
    {
      history := [];
      var i := 0;
      while i < |log|
        invariant i <= |log|
        invariant history == History(log[..i], user1, user2)
      {
        var line := log[i];
        if Contains(line, user1 + " -> " + user2) || Contains(line, user2 + " -> " + user1) {
          history := history + [line];
        }
        assert log[..i + 1] == log[..i] + [line];
        HistoryAppend(log[..i], [line], user1, user2);
        i := i + 1;
      }
      assert log[..i] == log;
    }

    /** `clientMap.putIfAbsent`. */
    method PutIfAbsent(id: string, c: Conn)
      modifies this`registry
      ensures State() == Register(old(State()), id, c)
    {
      if id !in registry {
        registry := registry[id := c];
      }
    }

    /** `clientMap.remove`: by key only. */
    method Remove(id: string)
      modifies this`registry
      ensures registry == old(registry) - {id}
    {
      registry := registry - {id};
    }

    /** A handler writing one line to its own connection. */
    method WriteLine(c: Conn, line: string)
      modifies this`outbox
      ensures outbox == Post(old(outbox), c, [line])
    {
      outbox := Post(outbox, c, [line]);
    }
  }

  /** `ClientHandler`: one per accepted connection. */
  class ClientHandler {
    const server: Server
    const socket: Conn
    /** The identifier parsed from the most recent frame. */
    var clientID: Option<string>

    constructor (server: Server, socket: Conn)
      ensures this.server == server && this.socket == socket && clientID == None
    {
      this.server := server;
      this.socket := socket;
      clientID := None;
    }

    /** The `for` loop writing each line of a history reply to this handler's own connection. */
    method WriteAll(lines: seq<string>)
      modifies server`outbox
      ensures server.State() == Reply(old(server.State()), socket, lines)
    {
      for k := 0 to |lines|
        invariant server.State() == Reply(old(server.State()), socket, lines[..k])
      {
        server.WriteLine(socket, lines[k]);
        assert lines[..k + 1] == lines[..k] + [lines[k]];
        PostTwice(old(server.outbox), socket, lines[..k], [lines[k]]);
      }
      assert lines[..|lines|] == lines;
    }

    /**
     * `run`: reads the lines of `input` in turn (reading past its end is
     * `readLine` returning null), dispatches each frame, and on end of
     * stream removes the last parsed identifier from the registry. A relay
     * of the frame starting at line `i` happens at time `stamp(i)`.
     */
    method Run(input: seq<string>, stamp: nat -> string)
      modifies this, server
      ensures var e := Drive(old(server.State()), socket, input, 0, old(clientID), stamp);
              clientID == e.last && server.State() == Finish(e.st, e.last)
    {
      ghost var target := Drive(server.State(), socket, input, 0, clientID, stamp);
      var i := 0;
      while i < |input|
        invariant i <= |input|
        invariant Drive(server.State(), socket, input, i, clientID, stamp) == target
        decreases |input| - i
      {
        ghost var before := server.State();
        ghost var lastBefore := clientID;
        var line := input[i];
        if EndsWith(line, REQUEST_MARKER) {
          var spaceIndex := IndexOf(line, ' ');
          if spaceIndex == -1 {
            assert Step(before, socket, input, i, lastBefore, stamp) == Continue(before, i + 1, clientID);
            i := i + 1;
            continue;
          }
          clientID := Some(line[..spaceIndex]);
          if i + 1 == |input| {
            assert Step(before, socket, input, i, lastBefore, stamp) == Stop(before, clientID);
            break;
          }
          var recipientID := input[i + 1];
          server.PutIfAbsent(clientID.value, socket);
          var history := server.GetMessageHistoryBetween(clientID.value, recipientID);
          WriteAll(history);
          assert Step(before, socket, input, i, lastBefore, stamp) == Continue(server.State(), i + 2, clientID);
          i := i + 2;
        } else {
          clientID := Some(line);
          if i + 2 >= |input| {
            assert Step(before, socket, input, i, lastBefore, stamp) == Stop(before, clientID);
            break;
          }
          var recipientID := input[i + 1];
          var message := input[i + 2];
          server.PutIfAbsent(line, socket);
          server.SendMessage(stamp(i), line, recipientID, message);
          assert Step(before, socket, input, i, lastBefore, stamp) == Continue(server.State(), i + 3, clientID);
          i := i + 3;
        }
      }
      if clientID.Some? {
        server.Remove(clientID.value);
      }
    }
  }

}
