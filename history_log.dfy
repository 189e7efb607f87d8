/**
 * The line formats of TCPServer.sendMessage and the history query of
 * TCPServer.getMessageHistoryBetween, a filter of the log by substring.
 */
module HistoryLog {
  import opened Text

  /** The text that marks a message from `from` to `to` in a log line. */
  function Arrow(from: string, to: string): string
  {
    from + " -> " + to
  }

  /** The line appended to the history log for one relayed message. */
  function LogLine(timestamp: string, sender: string, recipient: string, message: string): string
  {
    "[" + timestamp + "] " + sender + " -> " + recipient + ": " + message
  }

  /** The confirmation written back to the sender. */
  function SenderLine(recipient: string, message: string): string
  {
    "To " + recipient + ": " + message
  }

  /** The delivery written to the recipient. */
  function RecipientLine(sender: string, message: string): string
  {
    "From " + sender + ": " + message
  }

  /** The test a log line must pass to be part of the history of `user1` and `user2`. */
  predicate Between(line: string, user1: string, user2: string)
  {
    Contains(line, Arrow(user1, user2)) || Contains(line, Arrow(user2, user1))
  }

  /** The lines of `log` that pass `Between`, in log order. */
  function History(log: seq<string>, user1: string, user2: string): seq<string>
  {
    if log == [] then []
    else (if Between(log[0], user1, user2) then [log[0]] else []) + History(log[1..], user1, user2)
  }

  /** The history of a log made of two parts is the history of each part, in order. */
  lemma {:induction false} HistoryAppend(a: seq<string>, b: seq<string>, user1: string, user2: string)
    ensures History(a + b, user1, user2) == History(a, user1, user2) + History(b, user1, user2)
    decreases |a|
  {
    if a == [] {
      assert a + b == b;
    } else {
      assert (a + b)[0] == a[0];
      assert (a + b)[1..] == a[1..] + b;
      HistoryAppend(a[1..], b, user1, user2);
    }
  }

  /**
   * Every occurrence of a matching line in the log appears once in the
   * history, and no other line appears at all.
   */
  lemma {:induction false} HistoryCount(log: seq<string>, user1: string, user2: string, line: string)
    ensures multiset(History(log, user1, user2))[line] ==
            if Between(line, user1, user2) then multiset(log)[line] else 0
    decreases |log|
  {
    if log != [] {
      HistoryCount(log[1..], user1, user2, line);
      assert log == [log[0]] + log[1..];
    }
  }

  /** The history does not depend on the order in which the two users are named. */
  lemma {:induction false} HistorySymmetric(log: seq<string>, user1: string, user2: string)
    ensures History(log, user1, user2) == History(log, user2, user1)
    decreases |log|
  {
    if log != [] {
      HistorySymmetric(log[1..], user1, user2);
    }
  }

  /** The log line of a message from `sender` to `recipient` is in the history of the two. */
  lemma LogLineBetween(timestamp: string, sender: string, recipient: string, message: string)
    ensures Between(LogLine(timestamp, sender, recipient, message), sender, recipient)
    ensures Between(LogLine(timestamp, sender, recipient, message), recipient, sender)
  {
    LogLineBetweenSuffix(timestamp, [], sender, recipient, message);
    assert [] + sender == sender;
  }

  /**
   * The match is a substring test: a message from any identifier that ends
   * with `sender` is also in the history of `sender` and `recipient`.
   */
  lemma LogLineBetweenSuffix(timestamp: string, prefix: string, sender: string, recipient: string, message: string)
    ensures Between(LogLine(timestamp, prefix + sender, recipient, message), sender, recipient)
  {
    var line := LogLine(timestamp, prefix + sender, recipient, message);
    var head := "[" + timestamp + "] " + prefix;
    assert line == head + Arrow(sender, recipient) + (": " + message);
    assert OccursAt(line, Arrow(sender, recipient), |head|);
    ContainsAt(line, Arrow(sender, recipient), |head|);
  }

}
