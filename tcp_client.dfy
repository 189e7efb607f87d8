/**
 * TCPClient.java: the frame a client writes for each message, the reader
 * loop that fills the inbox from the lines the server sends, and FIFO
 * access to that inbox.
 */
module TCPClient {
  import opened Wrappers
  import opened Text

  /** The characters `sendMessage` writes: the recipient, the client's own id and the message, one per line. */
  function Frame(recipientID: string, clientID: string, message: string): string
  {
    recipientID + "\n" + clientID + "\n" + message + "\n"
  }

  /**
   * A frame is exactly three newline-terminated lines, in the order
   * recipient, own id, message; the server reads them back as such when
   * none of the three holds a line break.
   */
  lemma FrameLines(recipientID: string, clientID: string, message: string)
    ensures Frame(recipientID, clientID, message) == Serialize([recipientID, clientID, message])
    ensures IsLine(recipientID) && IsLine(clientID) && IsLine(message) ==>
            ReadLines(Frame(recipientID, clientID, message)) == [recipientID, clientID, message]
  {
    var lines := [recipientID, clientID, message];
    assert lines[1..] == [clientID, message] && lines[1..][1..] == [message] && lines[1..][1..][1..] == [];
    assert Serialize([message]) == message + "\n";
    assert Serialize([clientID, message]) == clientID + "\n" + (message + "\n");
    assert Serialize(lines) == recipientID + "\n" + (clientID + "\n" + (message + "\n"));
    if IsLine(recipientID) && IsLine(clientID) && IsLine(message) {
      ReadSerialized(lines);
    }
  }

  /** What the reader loop enqueues from `lines`: the third line of each complete group of three. */
  function Thirds(lines: seq<string>): seq<string>
    decreases |lines|
  {
    if |lines| < 3 then [] else [lines[2]] + Thirds(lines[3..])
  }

  /** One message per complete group of three lines, and the k-th message is line 3k+2. */
  lemma {:induction false} ThirdsAt(lines: seq<string>)
    ensures |Thirds(lines)| == |lines| / 3
    ensures forall k :: 0 <= k < |lines| / 3 ==> Thirds(lines)[k] == lines[3 * k + 2]
    decreases |lines|
  {
    if |lines| >= 3 {
      ThirdsAt(lines[3..]);
      forall k | 0 <= k < |lines| / 3
        ensures Thirds(lines)[k] == lines[3 * k + 2]
      {
        if k > 0 {
          assert Thirds(lines)[k] == Thirds(lines[3..])[k - 1];
          assert lines[3..][3 * (k - 1) + 2] == lines[3 * k + 2];
        }
      }
    }
  }

  /** Reading complete groups of three and then more lines is reading both in order. */
  lemma {:induction false} ThirdsAppend(a: seq<string>, b: seq<string>)
    requires |a| % 3 == 0
    ensures Thirds(a + b) == Thirds(a) + Thirds(b)
    decreases |a|
  {
    if a == [] {
      assert a + b == b;
    } else {
      assert (a + b)[2] == a[2];
      assert (a + b)[3..] == a[3..] + b;
      ThirdsAppend(a[3..], b);
    }
  }

  class Client {
    const clientID: string
    /** Checked by the reader loop before each group of three lines. */
    var running: bool
    /** `messageQueue`, oldest first. */
    var messageQueue: seq<string>
    /** The characters written to the connection. */
    var out: string

    /** A new client, before it has read or written anything. */
    constructor (id: string)
      ensures clientID == id && running && messageQueue == [] && out == []
    {
      clientID := id;
      running := true;
      messageQueue := [];
      out := [];
    }

    /**
     * `run`: while `running`, reads three lines, discards the first two and
     * enqueues the third. At the end of `input` `readLine` returns null and
     * enqueueing null throws, which ends the reader with an incomplete
     * group left unqueued.
     */
    method Run(input: seq<string>)
      modifies this`messageQueue
      ensures messageQueue == if running then old(messageQueue) + Thirds(input) else old(messageQueue)
    {
      var i := 0;
      while running
        invariant i <= |input| && i % 3 == 0
        invariant messageQueue == if running then old(messageQueue) + Thirds(input[..i]) else old(messageQueue)
        decreases |input| - i
      {
        if i + 3 > |input| {
          assert input == input[..i] + input[i..];
          ThirdsAppend(input[..i], input[i..]);
          break;
        }
        var message := input[i + 2];
        messageQueue := messageQueue + [message];
        assert input[..i + 3] == input[..i] + input[i..i + 3];
        ThirdsAppend(input[..i], input[i..i + 3]);
        i := i + 3;
      }
    }

    /** `sendMessage`: writes the frame for `message` to `recipientID`. */
    method SendMessage(recipientID: string, message: string)
      modifies this`out
      ensures out == old(out) + Frame(recipientID, clientID, message)
    {
      out := out + (recipientID + "\n");
      out := out + (clientID + "\n");
      out := out + (message + "\n");
    }

    /** `poll`: removes and returns the oldest message, or null when there is none. */
    method Poll() returns (message: Option<string>)
      modifies this`messageQueue
      ensures old(messageQueue) == [] ==> message == None && messageQueue == []
      ensures old(messageQueue) != [] ==> message == Some(old(messageQueue)[0]) &&
                                           messageQueue == old(messageQueue)[1..]
    {
      if messageQueue == [] {
        message := None;
      } else {
        message := Some(messageQueue[0]);
        messageQueue := messageQueue[1..];
      }
    }

    /** `peek`: the oldest message without removing it, or null when there is none. */
    method Peek() returns (message: Option<string>)
      ensures message.None? <==> messageQueue == []
      ensures message.Some? ==> message.value == messageQueue[0]
    {
      message := if messageQueue == [] then None else Some(messageQueue[0]);
    }

    /** `stop`: clears the flag the reader loop tests. */
    method Stop()
      modifies this`running
      ensures !running
    {
      running := false;
    }
  }

  /** `peek` then `poll` yield the same message, and the queue shrinks by that one message. */
  method PeekThenPoll(client: Client) returns (peeked: Option<string>, polled: Option<string>)
    modifies client`messageQueue
    ensures peeked == polled
    ensures old(client.messageQueue) != [] ==> client.messageQueue == old(client.messageQueue)[1..]
  {
    peeked := client.Peek();
    polled := client.Poll();
  }

  /** After `stop`, the reader loop enqueues nothing. */
  method StopThenRun(client: Client, input: seq<string>)
    modifies client`running, client`messageQueue
    ensures !client.running && client.messageQueue == old(client.messageQueue)
  {
    client.Stop();
    client.Run(input);
  }

}
