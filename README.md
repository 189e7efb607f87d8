# Chat relay: server relay logic and client framing

This project models the core of a small line-oriented TCP chat relay. It
covers the relay logic of `TCPServer` and the framing and inbox of `TCPClient`.

The server's state is three parts:

- the history log, which only grows and may already hold lines when the server starts;
- the registry `clientMap`, which maps an identifier to a connection;
- the lines written to each connection's output stream.

The two `synchronized` server operations each run as one atomic step:

- `sendMessage` (module `ServerSpec`, function `Relay`) formats a log line and appends it. Only when the recipient is registered does it deliver `From <sender>: <message>` to the recipient's connection. Then, if the sender's identifier is registered, it writes `To <recipient>: <message>` to whatever connection that entry holds. Because registration is first-writer-wins, that can be another connection than the one the frame came from.
- `getMessageHistoryBetween` (function `History`) keeps the log lines that contain `u1 -> u2` or `u2 -> u1`.

A connection handler (`ClientHandler.run`) reads a finite sequence of input lines. Its dispatch is function `Step`:

- A line ending in `REQ` that holds a space is a history request. The requester is the text before the first space and the counterpart is the next line.
- A line ending in `REQ` with no space is skipped.
- Any other line starts a three-line relay frame: sender, recipient, message.

Registration is `putIfAbsent`, so the first writer wins. It happens only after the whole frame has been read. When the stream ends, the handler removes the last identifier it parsed from the registry, by key.

`Drive` and `Handle` give the handler's whole run. The classes `TCPServer.Server` and `TCPServer.ClientHandler` are the imperative code, and each method is proved against these functions.

On the client side, `sendMessage` writes three newline-terminated lines: the recipient, the client's own id, then the message. The reader loop reads lines in groups of three and enqueues only the third. `poll` and `peek` give FIFO access to that queue, and `stop` clears the `running` flag.

Lines are read as `BufferedReader.readLine` reads them (`Text.ReadLines`). A line ends at `\n`, `\r` or `\r\n`.

Composing client and server exposes what the code actually does:

- The client writes the recipient first, but the server reads the first line as the sender. So a client `C` that sends `m` to `R` is handled as a relay from `R` to `C` (`Session.ClientFrameIsRelayFromRecipient`). This holds when `R` does not end in `REQ` and none of `R`, `C` and `m` holds a line break.
- When `R` ends in `REQ` and holds no space, the server skips `R` as a malformed request. It takes `C` as the sender of a frame that the stream then cuts short. Nothing is logged or sent, and `C` is removed from the registry on exit (`Session.ClientFrameToMarkedRecipient`). When `R` ends in `REQ` and holds a space, the frame becomes a history request.
- The client's reader takes the server's single-line deliveries three at a time, so a lone delivery never reaches its inbox (`Session.ReaderAfterRelay`).

Several behaviours one might expect of such a relay are not what the code does, and the model follows the code:

- There is no confirmation echo to the sender of a message whose recipient is offline. Nothing is sent at all.
- A history reply is not framed. It is just the matching lines, with no echoed header and no terminator line.
- Removal on disconnect is by key, not an exact match of key and connection. It can evict another connection's entry (`Session.HandlerEvictsAnotherConnection`).
- Only the last identifier a handler parsed is removed. Identifiers it registered from earlier frames stay bound to the closed connection (`Session.HandlerKeepsEarlierIdentifier`).
- History matching is a substring test. A message from `xA` to `B` is part of the history of `A` and `B` (`HistoryLog.LogLineBetweenSuffix`).
- The client has no pending-confirmation set and no history buffer. `messageConfirmation` is never used.

The timestamp is an input. A handler relays the frame that starts at input line `i` at time `stamp(i)`.

## Model

| member | source | states |
|---|---|---|
| Text.ContainsIff | src/application/TCPServer.java:172-173 | `String.contains` holds exactly when the pattern occurs at some position of the line |
| Text.Contains | src/application/TCPServer.java:172-173 | `String.contains`, by trying each start position (characterised by `ContainsIff`) |
| Text.EndsWith | src/application/TCPServer.java:239 | `String.endsWith`: the last characters of the line are the suffix |
| Text.IndexOf | src/application/TCPServer.java:241 | `indexOf(' ')` is -1 exactly when there is no space; otherwise it is the index of the first space |
| Text.ReadLines | src/application/TCPServer.java:229 | every line `readLine` returns is free of line breaks |
| Text.ReadLinesCRLF | src/application/TCPServer.java:229 | a line ended by `\r\n` is read back as that line, the pair counting as one terminator |
| Text.ReadLinesCR | src/application/TCPServer.java:229 | a line ended by a lone `\r` (no `\n` after it) is read back as that line |
| Text.ReadSerialized | src/application/TCPServer.java:270-273 | lines written each followed by `'\n'` are read back by `readLine` as the same lines |
| HistoryLog.LogLine | src/application/TCPServer.java:86-87 | the history-log line `[ts] s -> r: m` |
| HistoryLog.SenderLine | src/application/TCPServer.java:88 | the confirmation `To r: m` |
| HistoryLog.RecipientLine | src/application/TCPServer.java:89 | the delivery `From s: m` |
| HistoryLog.Between | src/application/TCPServer.java:172-173 | a line matches when it contains `u1 -> u2` or `u2 -> u1` |
| HistoryLog.History | src/application/TCPServer.java:155-192 | the matching log lines in log order (properties in `HistoryAppend`, `HistoryCount`, `HistorySymmetric`) |
| HistoryLog.HistoryAppend | src/application/TCPServer.java:169-176 | the history scan keeps log order: the history of a concatenated log is the concatenation of the histories |
| HistoryLog.HistoryCount | src/application/TCPServer.java:169-176 | each occurrence of a matching log line is returned exactly once, and no non-matching line is returned |
| HistoryLog.HistorySymmetric | src/application/TCPServer.java:172-173 | the history for (u1, u2) equals the history for (u2, u1) |
| HistoryLog.LogLineBetween | src/application/TCPServer.java:86-87 | the log line of a message from s to r matches the history query of s and r, in either order |
| HistoryLog.LogLineBetweenSuffix | src/application/TCPServer.java:172-173 | a message from any identifier ending in s also matches the history of s and r |
| ServerSpec.Post | src/application/TCPServer.java:112-114 | writing to a connection appends exactly those lines to it and leaves every other connection unchanged |
| ServerSpec.Relay | src/application/TCPServer.java:78-152 | one `sendMessage`: log append, then delivery and confirmation gated on registration (properties in `RelayEffect`, `RelayThenHistory`) |
| ServerSpec.RelayEffect | src/application/TCPServer.java:86-150 | a relay appends exactly its log line and keeps all earlier lines; it leaves the registry unchanged; each connection receives exactly the delivery (if it is the recipient's) then the confirmation (if it is the sender's), and only when the recipient is registered |
| ServerSpec.RelayToOfflineRecipient | src/application/TCPServer.java:105-150 | with the recipient unregistered, no connection receives anything, including the sender |
| ServerSpec.RelayThenHistory | src/application/TCPServer.java:86-94 | right after a relay, history(s, r) and history(r, s) are the earlier history plus the line just appended |
| ServerSpec.RelayOutputsAppendOnly | src/application/TCPServer.java:105-145 | a relay only appends to a connection's output |
| ServerSpec.RegisterEffect | src/application/TCPServer.java:260-261 | `putIfAbsent` is first-writer-wins, changes no other registry entry, and leaves the log and all outputs unchanged |
| ServerSpec.Register | src/application/TCPServer.java:260-261 | `putIfAbsent`: an identifier already present keeps its connection, otherwise it is bound to this one (properties in `RegisterEffect`) |
| ServerSpec.Reply | src/application/TCPServer.java:270-275 | the history reply: the lines are appended to the handler's own connection |
| ServerSpec.Finish | src/application/TCPServer.java:359-364 | the `finally` removal: the last parsed identifier's key is removed, if any was parsed |
| ServerSpec.Step | src/application/TCPServer.java:227-306 | one dispatch step advances the cursor within the input; a step that meets the end of the stream changes nothing |
| ServerSpec.StepHistoryRequest | src/application/TCPServer.java:239-275 | a REQ line with a space: the requester is the text before the first space and the counterpart is the next line; the requester is registered first-writer-wins; the handler's own connection receives exactly the matching lines with no header or end marker; the log and the other connections are unchanged |
| ServerSpec.StepMalformedRequest | src/application/TCPServer.java:239-248 | a REQ line without a space is consumed with no state change |
| ServerSpec.StepRelayFrame | src/application/TCPServer.java:279-303 | any other line is the sender of a frame whose next two lines are recipient and message; the sender is registered first-writer-wins and exactly that message's log line is appended |
| ServerSpec.StepTruncatedFrame | src/application/TCPServer.java:250-291 | when the stream ends mid-frame, the loop stops after parsing the identifier, without registering, relaying or logging |
| ServerSpec.StepOutputsAppendOnly | src/application/TCPServer.java:239-304 | one dispatch step only appends to connection outputs |
| ServerSpec.Drive | src/application/TCPServer.java:227-306 | the handler's `while (true)` loop: dispatch steps until `readLine` returns null, yielding the state and the last parsed identifier (properties in `Drive*`) |
| ServerSpec.Handle | src/application/TCPServer.java:214-372 | a whole handler run: the loop, then the `finally` removal (properties in `HandleRegistry`) |
| ServerSpec.DriveLogAppendOnly | src/application/TCPServer.java:227-306 | the handler loop only appends to the history log |
| ServerSpec.DriveOutputsAppendOnly | src/application/TCPServer.java:227-306 | the handler loop only appends to each connection's output |
| ServerSpec.DriveRegistry | src/application/TCPServer.java:227-306 | the handler loop removes and overwrites no registry entry; every entry it adds maps to its own connection |
| ServerSpec.HandleRegistry | src/application/TCPServer.java:359-364 | after the handler terminates, the last parsed identifier is absent whatever it mapped to; every other earlier entry is unchanged; every remaining entry is an earlier one or bound to this connection |
| TCPServer.Server.constructor | src/application/TCPServer.java:51-54 | the server starts with the existing history lines, an empty registry and no output |
| TCPServer.Server.SendMessage | src/application/TCPServer.java:78-152 | the new state is `Relay` of the old one |
| TCPServer.Server.GetMessageHistoryBetween | src/application/TCPServer.java:155-192 | the read loop returns exactly `History(log, user1, user2)` |
| TCPServer.Server.PutIfAbsent | src/application/TCPServer.java:260-261 | the new state is `Register` of the old one |
| TCPServer.Server.Remove | src/application/TCPServer.java:361 | the registry loses the key and nothing else |
| TCPServer.Server.WriteLine | src/application/TCPServer.java:272 | one line is appended to one connection's output |
| TCPServer.ClientHandler.constructor | src/application/TCPServer.java:205-210 | a handler starts on its socket with no identifier |
| TCPServer.ClientHandler.WriteAll | src/application/TCPServer.java:270-275 | the loop writes the history lines to the handler's own connection, in order |
| TCPServer.ClientHandler.Run | src/application/TCPServer.java:214-372 | the loop plus the `finally` removal leave the server in state `Handle` of the old state and input, and `clientID` is the last identifier parsed |
| TCPClient.FrameLines | src/application/TCPClient.java:90-93 | a frame is exactly three newline-terminated lines (recipient, own id, message), and the server reads back those three lines |
| TCPClient.Frame | src/application/TCPClient.java:90-93 | the characters `sendMessage` writes (properties in `FrameLines`) |
| TCPClient.Thirds | src/application/TCPClient.java:60-66 | the messages the reader loop enqueues from a line sequence (properties in `ThirdsAt`, `ThirdsAppend`) |
| TCPClient.ThirdsAt | src/application/TCPClient.java:60-66 | the reader enqueues one message per complete group of three lines, and the k-th is line 3k+2 |
| TCPClient.ThirdsAppend | src/application/TCPClient.java:60-66 | reading is compositional over groups of three lines |
| TCPClient.Client.constructor | src/application/TCPClient.java:36-50 | a new client is running, with an empty queue and nothing written |
| TCPClient.Client.Run | src/application/TCPClient.java:54-75 | while running, the queue gains the third line of each complete group, in arrival order; when not running, nothing changes |
| TCPClient.Client.SendMessage | src/application/TCPClient.java:85-101 | the output grows by exactly one frame |
| TCPClient.Client.Poll | src/application/TCPClient.java:109-114 | returns and removes the oldest message, or returns null on an empty queue |
| TCPClient.Client.Peek | src/application/TCPClient.java:122-127 | returns the oldest message without removing it, or null exactly when the queue is empty |
| TCPClient.Client.Stop | src/application/TCPClient.java:130-133 | `running` becomes false |
| TCPClient.PeekThenPoll | src/application/TCPClient.java:109-127 | peek then poll yield the same value, and a non-empty queue loses its head |
| TCPClient.StopThenRun | src/application/TCPClient.java:130-133 | after stop, the reader loop enqueues nothing |
| Session.ClientFrameIsRelayFromRecipient | src/application/TCPClient.java:90-92 | when R does not end in `REQ` and R, C and m hold no line break, a client C sending m to R is handled as a relay from R to C: R is registered for C's connection and `R -> C: m` is logged |
| Session.ClientFrameToMarkedRecipient | src/application/TCPServer.java:239-291 | when R ends in `REQ` without a space (and C does not end in `REQ`), the client's frame is a skipped request line followed by a truncated frame from C: nothing is logged, registered or sent, and C is removed on exit |
| Session.OneMessageSession | src/application/TCPServer.java:279-364 | a connection that sends one frame and closes logs one `R -> C` line and leaves the registry without R |
| Session.HandlerEvictsAnotherConnection | src/application/TCPServer.java:359-364 | a handler whose sender was registered by another connection does not take over the entry, yet removes it on exit |
| Session.HandlerKeepsEarlierIdentifier | src/application/TCPServer.java:359-364 | after frames from two new identifiers, the handler's end removes only the second; the first stays bound to the closed connection |
| Session.ReaderAfterRelay | src/application/TCPClient.java:60-66 | a client reading its connection's output after a relay sees exactly the earlier lines plus what the relay sent it, and enqueues every third; a lone delivery (with or without confirmation) is never enqueued |

## Left out

- The `ServerSocket` bind and accept loop, thread creation, and the client's socket and thread setup. These are network I/O and concurrency. Each handler is modelled alone, and each `synchronized` method is one atomic step.
- `ConcurrentHashMap` and `ConcurrentLinkedQueue` under concurrent access. They are a plain `map` and a `seq`.
- Timestamp generation with `DateFormat` and the clock. The timestamp is an input string.
- Console logging, and every `IOException` path: a failed history write, a failed delivery, a failed history read, a socket error ending the handler, and a reader error calling `stop`. A failed log write does not stop delivery in the source; the model has only the success path.
- Closing the handler's streams and socket. Only the registry removal of the `finally` block is modelled.
- The history file as bytes. The log is a sequence of lines. A pre-existing file whose last line has no trailing newline would merge with the first appended line; this is not modelled.
- The handler's `recipientID` field. It is a local variable, because no code reads it after the frame that set it.
- TCPServer.ClientHandler.Run: the `Exception` handler for unexpected runtime errors is not modelled.
- TCPClient.Client.Run: the `running` flag is read before each group, but another thread calling `stop` mid-run is not modelled. The model has `stop` before or after a whole run, in `StopThenRun`.
- The client's `messageConfirmation` queue. No code uses it.
- Character encodings. The handler's own reader and writer use UTF-8 (TCPServer.java:219-222). The delivery and confirmation writers, the history file, and both client streams use the platform default charset. The model treats every stream as the same sequence of characters. So `Session.ClientFrameIsRelayFromRecipient`, `Session.ClientFrameToMarkedRecipient`, `Session.OneMessageSession` and `Session.ReaderAfterRelay` assume both ends read the same characters. That holds on JDK 18 and later, where UTF-8 is the default charset. On an older JVM with another default, a non-ASCII identifier the client writes can be registered by the server as different text.
- TCPClient.Client.Stop: `stop()` also closes the client socket, and the model sets only the flag. The close and its effects are not modelled: the server handler then sees end of stream, and a blocked reader gets an `IOException`.
- The JavaFX `Main` and `SampleController`. They hold no protocol logic.
