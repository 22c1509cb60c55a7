# A verified model of learn_asio

The repository is a set of network programs written with Asio. Their handlers run one at a time on
an event loop, but which operation completes next, and with what outcome, is up to the network. This
project models the programs whose handlers form a protocol or a state machine and proves what holds
in every run.

* **Chat server** (`Outbox.dfy`, `LineReader.dfy`, `Chat.dfy`, `ChatServer.dfy`). Sessions with an
  outgoing queue and one write in flight, and a server that fans every message out. The state
  machine steps on: an accept, a read, some bytes of a write, the end of a write, each with or
  without an error. The classes hold the fields of the program; each of their handlers takes exactly
  one step of the machine.
* **Printer** (`Printer.dfy`). Two self-re-arming handlers on one counter, once with every access to
  the counter a separate step, once with whole handlers serialised by a strand. The serialised
  object carries a proof that its run is one of the interleavings of the first.
* **Message, response, client** (`Message.dfy`, `Decimal.dfy`, `Client.dfy`, `Response.dfy`). Header
  assembly from parser callbacks cut into arbitrary fragments; serialisation of a response, read back
  by the repository's own client and by a reader that frames the content.
* **HTTP server** (`Sums.dfy`, `HttpLifecycle.dfy`, `HttpServer.dfy`). Accept loop, connection manager
  and connections up to and after a stop.
* **Line echo server** (`Echo.dfy`) and **round-robin context group** (`RoundRobin.dfy`).

A run is a list of events, each enabled in the state the events before it lead to; a theorem about
runs quantifies over all such lists. History fields (`log`, `items`, `posted`, `wire`, `trace`,
`saved`, `taken`, `received`, `picks`) record what happened and influence nothing.

## Findings

Where the code does not do what one would expect, the model follows the code, and the theorem named
says exactly when the expectation holds.

* A chat session reads one line only: `on_read` does not re-arm the read
  (`tutorial/301.chat_server.cpp:66-82`). No run whatever lets a session speak twice
  (`Chat.SpeaksAtMostOnce`).
* A failed accept makes the chat server announce " has left the chat" to everybody: the rejected
  session is destroyed with an empty name, and its destructor broadcasts. No other event announces a
  departure (`Chat.DepartureIffAcceptFailed`).
* `getline` already removes the line that `consume(bytes_transferred)` then removes again, so the next
  line may be lost (`tutorial/202.async_tcp_server_streambuf.cpp:47-51`). The lines come out as they
  were sent if and only if every read receives one line and not a byte more
  (`Echo.LinesAreTheSplitIffOneLineEach`).
* A header with an empty value corrupts the name of the next one (`src/common/message.cpp:197-203`),
  although section 5.5 of RFC 9110 allows empty values. All headers arrive if and only if none has an
  empty value (`Message.HeadersArriveIffNoEmptyValue`).
* Stock replies with 204 and 304 are sent with a page, which a reader that follows section 6.3 of
  RFC 9112 takes for the beginning of the next message (`src/http_server/response.cpp:118-142`). All
  other stock replies are recovered (`ResponseRoundTrip.StockReplyIsRecoveredIff`).
* A served HTTP connection is never erased from the manager (`src/http_server/connection.cpp:77-88`).
  Only a stop or an error of its own erases a connection (`HttpLifecycle.ErasedIffFailedOrStopped`).
* An unsynchronised printer may lose updates, so that it counts back and prints a value twice
  (`src/basics/timer5.cpp:33-56`). It prints each value once and in order if and only if no chain stores
  between the load and the store of the other (`RacingPrinter.PrintsInOrderIffNothingLost`).
* An unsynchronised printer may end with 101 (`src/basics/timer5.cpp:33-56`). It does if and only if
  some increment loads the counter when it already is 100 (`RacingPrinter.FinalCountExactly`).

The comment at `src/http_server/server.cpp:48-49` says that the stop handler is not called; the
constructor registers it at lines 15-16, and the model lets it run.

## Assumptions

* Handlers never run inside the call that starts an operation, and an object is alive while its
  handlers run.
* The chat server, the echo server and the HTTP server run their event loop on one thread.
* The accesses of the two printer chains to the counter are sequentially consistent. In C++ they are a
  data race, for which the language promises nothing.
* An operation started on a closed socket fails with an error other than `operation_aborted`; one that
  was outstanding when the socket was closed may be aborted, fail, or succeed if its completion was
  already queued. Writing an empty message succeeds even on a closed socket.
* The HTTP parser reports, for each header, at least one name fragment and then any number of value
  fragments, and no header name is empty as a whole.
* Formatted input uses the classic locale; `int` has 32 bits and `size_t` 64.

## Model

| member | source | states |
|---|---|---|
| Chat.TotalOrder | tutorial/301.chat_server.cpp:131-152 | in every reachable state the texts posted to a session are the greeting and then exactly the broadcasts made since it joined, its own bare line directly behind a broadcast it caused; what a later joiner hears is a suffix of what an earlier one hears: no gap, duplicate or reordering |
| Chat.SpeaksAtMostOnce | tutorial/301.chat_server.cpp:66-82 | since a line does not re-arm the read, no session is ever the speaker of two broadcasts, and one whose read is outstanding has not spoken |
| Chat.WireRefinesPosted | tutorial/301.chat_server.cpp:41-64 | for every fragmentation of writes, every interleaving and with errors: wire plus unsent bytes is exactly the concatenation of what was posted, so the wire is a prefix of it; at most one write is in flight; the queue is the last part of what was posted |
| Chat.FrontStaysInFlight | tutorial/301.chat_server.cpp:58-64 | the buffer of the write in flight stays the front of the queue under every step but its own successful completion |
| Chat.Quiescence | tutorial/301.chat_server.cpp:41-47 | while no write of a session failed, its queue is non-empty exactly when a write is in flight, and with none in flight the peer has every posted byte |
| Chat.WritesDrain | tutorial/301.chat_server.cpp:84-94 | with no further accepts or reads every run of write steps is at most as long as the bytes and messages waiting, and changes nobody's posted history |
| Chat.DrainedRunDeliversAll | tutorial/301.chat_server.cpp:84-94 | when no write step is possible any more, every session that was not stuck and had no failed write has received everything posted to it, and no write is left in flight |
| Chat.FailureStalls | tutorial/301.chat_server.cpp:84-88 | a failed write leaves the queue non-empty with no write in flight |
| Chat.FailedSessionIsFrozen | tutorial/301.chat_server.cpp:41-47 | after a failed write, whatever happens later, the session starts no write, its wire does not change, and its queue grows by exactly what is posted to it |
| Chat.NothingSentAfterError | tutorial/301.chat_server.cpp:96-99 | any error of a session, of its read as well as of a write, is the end of its wire: no byte is sent in any continuation |
| Chat.FailureIsolation | tutorial/301.chat_server.cpp:84-99 | erasing all write steps of one session from any run, failed ones included, gives a valid run with the same log and the same final state of every other session |
| Chat.MessagesSpelledOut | tutorial/301.chat_server.cpp:27-152 | in every run each session is posted exactly the texts that the events call for, given letter by letter as a function of the events alone: the welcome, endpoint + " joined", "[" + endpoint + "]: " + line with the endpoint the speaker was accepted from, the bare line for the speaker; its wire is a prefix of their concatenation |
| Chat.OutstandingExactly | tutorial/301.chat_server.cpp:50-99 | in every run a session's socket is open exactly until an operation of its own fails, its read is outstanding exactly until it completes, and an accept is outstanding exactly until one fails |
| Chat.EveryByteCanArrive | tutorial/301.chat_server.cpp:58-94 | from every reachable state, a session without an error has a run of its own write steps, none failing, after which its peer has any given number of the posted bytes, all of them included |
| Chat.EveryLineIsHeard | tutorial/301.chat_server.cpp:66-82 | in every reachable state a session that has neither spoken nor failed can say any line; everybody is posted it behind the speaker's endpoint, and the speaker also the bare line |
| Chat.NoJoinAfterFailedAccept | tutorial/301.chat_server.cpp:131-135 | a failed accept, at whatever point of a run, is not re-armed: afterwards no accept completes and nobody joins |
| Chat.DepartureIffAcceptFailed | tutorial/301.chat_server.cpp:27-31 | in every run a departure is announced if and only if an accept failed; it is announced once and under an empty name |
| Chat.HearsTheLog | tutorial/301.chat_server.cpp:148-152 | a history of the specified form contains each broadcast since joining once and in log order |
| Chat.StepKeepsInv | tutorial/301.chat_server.cpp:66-152 | every handler keeps the invariant from which the run theorems follow |
| Chat.LineReadIs | tutorial/301.chat_server.cpp:66-82 | the pointwise rule for a received line is the handler's order: broadcast to all, the speaker included, and only then the speaker's own line |
| Chat.AcceptedIs | tutorial/301.chat_server.cpp:131-146 | the rule for an accept is the handler's order: the others hear of it, the new session is greeted and only then listed |
| Chat.AcceptFailedIs | tutorial/301.chat_server.cpp:27-31 | a rejected session is destroyed at once and its destructor broadcasts a departure under an empty name |
| Chat.ReadFailedIs | tutorial/301.chat_server.cpp:96-99 | a failed read closes that session's socket and touches no other session |
| Chat.WroteIs | tutorial/301.chat_server.cpp:84-94 | a write step changes the queue of its own session and nothing else |
| Outboxes.PostValid | tutorial/301.chat_server.cpp:41-47 | posting keeps: wire plus unsent bytes is what was posted, and at most one write is in flight |
| Outboxes.WriteValid | tutorial/301.chat_server.cpp:84-94 | partial progress, completion and failure of the write in flight keep the same |
| Outboxes.WriteShrinksBacklog | tutorial/301.chat_server.cpp:84-94 | each write step uses up a byte or a message of the backlog |
| Outboxes.WireIsPrefix | tutorial/301.chat_server.cpp:58-64 | the wire is a prefix of what was posted, and all of it exactly when no byte is unsent |
| Outboxes.CanReach | tutorial/301.chat_server.cpp:58-94 | an open outbox that is not stalled has write steps to any number of bytes between those sent and those posted |
| ChatServer.ChatSession.AsyncWrite | tutorial/301.chat_server.cpp:58-64 | is only called with a message to write and no write in flight |
| ChatServer.ChatSession.Post | tutorial/301.chat_server.cpp:41-47 | appends the message and starts a write exactly when the queue was empty |
| ChatServer.ChatSession.Start | tutorial/301.chat_server.cpp:33-38 | names the session after its endpoint and starts its first read |
| ChatServer.ChatSession.OnWrite | tutorial/301.chat_server.cpp:84-94 | takes the completion step of the state machine: pop and continue, or close and stay stuck |
| ChatServer.ChatSession.OnRead | tutorial/301.chat_server.cpp:66-82 | takes the state machine's step for a received line or a failed read, on all sessions at once |
| ChatServer.ChatSession.TakeLine | tutorial/301.chat_server.cpp:71-74 | getline takes the first line and its newline out of the stream buffer, consume(bytes_transferred) then discards as many bytes again or all that are left; together they leave what the state machine says |
| ChatServer.ChatSession.OnError | tutorial/301.chat_server.cpp:96-99 | closes the socket and changes nothing else |
| ChatServer.ChatSession.Destroy | tutorial/301.chat_server.cpp:27-31 | announces the departure to every listed session |
| ChatServer.ChatServer.Broadcast | tutorial/301.chat_server.cpp:148-152 | the loop posts the message once to every listed session and to nobody else |
| ChatServer.ChatServer.Accept | tutorial/301.chat_server.cpp:124-129 | creates a blank session and one more outstanding accept |
| ChatServer.ChatServer.OnAccept | tutorial/301.chat_server.cpp:131-146 | takes the state machine's step for an accept, successful or not, and re-arms only after a success |
| ChatServer.ChatServer.CompleteWrite | tutorial/301.chat_server.cpp:84-94 | running a write handler is the state machine's write step of the whole server |
| ChatServer.ChatServer.MoveBytes | tutorial/301.chat_server.cpp:58-64 | bytes of the message in flight that reach the socket are the state machine's write progress of the whole server |
| ChatServer.ChatServer.ReachableIsReady | tutorial/301.chat_server.cpp:41-47 | the condition that the handlers need of their sessions holds in every reachable state |
| RacingPrinter.CounterBound | src/basics/timer5.cpp:33-56 | in every interleaving of the two chains' loads and stores the counter never exceeds kCount + 1, at most one chain is past its comparison once the counter has reached kCount, and the final count is kCount or kCount + 1 |
| RacingPrinter.FinalCountExactly | src/basics/timer5.cpp:33-56 | a complete run ends with kCount + 1 if and only if some increment loads the counter when it already is kCount, after its own comparison had seen less; otherwise it ends with kCount |
| RacingPrinter.PrintsEveryValue | src/basics/timer5.cpp:33-56 | a complete run prints every value below kCount at least once, in spite of lost updates, and nothing above kCount; it prints kCount if and only if the final count is kCount + 1 |
| RacingPrinter.PrintsInOrderIffNothingLost | src/basics/timer5.cpp:33-56 | a complete run prints 0, 1, 2, ... up to its final count, each value once and in order, if and only if no chain stores the successor of a value that the counter no longer has |
| RacingPrinter.StaleStoreSetsBack | src/basics/timer5.cpp:33-56 | for every n up to kCount there is a run in which one chain counts to n and the other then stores 1, the successor of the 0 it had loaded at the start |
| RacingPrinter.PrintsAValueTwice | src/basics/timer5.cpp:33-56 | some complete run prints the value 0 twice |
| RacingPrinter.EveryRunTerminates | src/basics/timer5.cpp:33-56 | every run is finite, with one bound for all of them, although a stale store sets the counter back |
| RacingPrinter.StepLowersRank | src/basics/timer5.cpp:33-56 | each access lowers the lexicographic measure on counter, held loads and program points |
| RacingPrinter.FloorNeverFalls | src/basics/timer5.cpp:33-56 | the least of the counter and the held loads never decreases, and while it stays the counter can only leave it |
| RacingPrinter.BothOutcomesOccur | src/basics/timer5.cpp:33-56 | there are runs that end with kCount and runs that end with kCount + 1 |
| RacingPrinter.UndisturbedHandler | src/basics/timer5.cpp:33-43 | a handler that nothing interferes with counts up by one |
| StrandPrinter.Printer.constructor | src/basics/timer5.cpp:20-29 | starts with a zero counter and both timers armed |
| StrandPrinter.Printer.Print1 | src/basics/timer5.cpp:33-43 | one invocation prints the next value and re-arms, or disarms for good; the printed values stay 0, 1, 2, ..., and the accesses made so far stay a run of the unsynchronised printer |
| StrandPrinter.Printer.Print2 | src/basics/timer5.cpp:45-56 | the same for the second timer |
| StrandPrinter.Printer.Run | src/basics/timer5.cpp:88-100 | under every alternation of the timers the run ends with the counter at kCount, every value below it printed once and in order, and exactly kCount + 2 invocations |
| Message.ExactResult | src/common/message.cpp:79-117 | for every header list and every split of url, names, values and body into fragments: the map is the fold over the list in which an empty-valued header's name is glued onto the next one's, a trailing one stays in the accumulator, and url and body are the concatenations |
| Message.HeadersArriveIffNoEmptyValue | src/common/message.cpp:197-203 | the pairs stored are exactly the headers sent and nothing is left over if and only if no header has an empty value; the map then is the fold of map update |
| Message.FragmentationIsInvisible | src/common/message.cpp:79-117 | two fragmentations of the same message give the same result, empty values or not |
| Message.NothingIsLost | src/common/message.cpp:79-125 | for any callbacks in any order: url, body, all header names together and all header values together are held byte by byte in the order in which they came; the map is the fold over the pairs stored, none with an empty name or value; the status is complete exactly after the completion callback |
| Message.LastDuplicateWins | src/common/message.cpp:197-203 | in the map each name has the value of its last occurrence in the list |
| Message.GlueIsIdentity | src/common/message.cpp:197-203 | gluing changes a list exactly when it has an empty value |
| Message.EmptyValueCorruptsNextHeader | src/common/message.cpp:92-103 | a header with an empty value is lost and the following header is stored under the two names run together |
| Message.FeedHeaders | src/common/message.cpp:92-111 | from any settled accumulator, not only a new message, headers in any fragmentation arrive as specified |
| Message.FeedAppend | src/common/message.cpp:65-72 | callbacks may be spread over several parser calls without changing the result |
| Message.HttpMessage.constructor | src/common/message.cpp:140-142 | a new message is empty and wants more |
| Message.HttpMessage.SaveHeaders | src/common/message.cpp:197-203 | stores and clears the accumulators exactly when both are non-empty |
| Message.HttpMessage.Call | src/common/message.cpp:79-125 | each callback has the specified effect on the fields |
| Message.HttpMessage.Parse | src/common/message.cpp:65-72 | feeds all callbacks of one buffer in order; a parser error makes the status failed even after a complete message |
| Response.Response.ToBuffers | src/http_server/response.cpp:77-103 | for every iteration order of the header map the buffers, written one after the other, are status line, one line for each header of the stamped map, an empty line and the content |
| Response.Response.PushFields | src/http_server/response.cpp:94-99 | the loop appends exactly the header lines, in iteration order |
| Response.Response.constructor | src/http_server/response.cpp:231-236 | an empty ok response with the three default headers |
| Response.Response.Stock | src/http_server/response.cpp:225-229 | a stock reply carries the page of its status, the page's length and no other header |
| Response.StockPage | src/http_server/response.cpp:107-221 | every status but 200 has a non-empty page, one outside the table that of 500 |
| Response.Reason | src/http_server/response.cpp:11-66 | no reason phrase breaks the status line |
| Response.StatusLineText | src/http_server/response.cpp:11-66 | the status line of every code, spelled out |
| Response.StockPageRepeatsStatus | src/http_server/response.cpp:107-221 | title and heading of a stock page are the code and the phrase of the status line sent with it, but for a word missing for 204 |
| ResponseRoundTrip.CodeIsRead | src/http_server/response.cpp:29-66 | for each of the sixteen codes the client reads back that very code, and 500 for every other |
| ResponseRoundTrip.BareResponse | src/http_server/response.cpp:77-103 | a whole response without headers of its own, spelled out |
| ResponseRoundTrip.StatusIsRead | src/http_server/response.cpp:29-66 | for every status code the client reads back the code, or 500 for one outside the table, and stops at the first header line |
| ResponseRoundTrip.ClientReadsResponse | src/http_server/response.cpp:77-103 | the client recovers the code and exactly the header lines and stops where the content begins, whatever bytes the content has |
| ResponseRoundTrip.ClientReadsIffNewlineFree | src/http_client/main.cpp:72-76 | for an ok response the client recovers exactly the header lines and the content if and only if no name or value contains a newline |
| ResponseRoundTrip.RoundTripWithFraming | src/http_server/response.cpp:77-103 | for every status, content, header map that can be sent and iteration order, and whatever bytes follow: a reader that splits header lines and honours Content-Length recovers code, map and content and leaves exactly what follows, even when the content contains an empty line; after 204 and 304 it leaves the content as well (section 6.3 of RFC 9112) |
| ResponseRoundTrip.ContentIsRecoveredIff | src/http_server/response.cpp:118-142 | the content is recovered if and only if the code is neither 204 nor 304 or there is no content |
| ResponseRoundTrip.StockReplyIsRecoveredIff | src/http_server/response.cpp:225-229 | a stock reply, for every code, is recovered if and only if the code is neither 204 nor 304; the pages of those two are taken for the beginning of the next message |
| ResponseRoundTrip.FieldsGiveBackMap | src/http_server/response.cpp:94-99 | whatever the iteration order, the written fields determine the header map |
| Decimal.RoundTrip | src/http_server/response.cpp:92-92 | the decimal text of the content length reads back as the content length |
| Decimal.Canonical | src/http_server/response.cpp:92-92 | text without a superfluous leading zero is the decimal text of its value |
| Decimal.NoLeadingZero | src/http_server/response.cpp:92-92 | decimal text has no superfluous leading zero |
| Client.ValidIffStatusLine | src/http_client/main.cpp:55-65 | a stream is a response if and only if it begins, after white space, with a word that starts with HTTP/, white space and a number in the range of an int, behind which the stream goes on |
| Client.PiecesAreRead | src/http_client/main.cpp:55-70 | of such a stream the client reports the number, sign included, unless it is 200 |
| Client.HeaderLinesSplit | src/http_client/main.cpp:74-76 | for every stream, the lines are those up to the first that is only a carriage return and the rest is what follows it; a stream without one is lines to its end |
| Client.ReadResponse | src/http_client/main.cpp:55-76 | the client's statements compute the reading for every input, malformed ones included |
| Client.ReadHeaders | src/http_client/main.cpp:72-76 | the header loop computes the lines up to the empty one and where the stream then stands |
| Client.LinesHaveNoNewline | src/http_client/main.cpp:74-76 | no line that the client logs contains a newline |
| HttpLifecycle.ConnectionLifecycle | src/http_server/connection.cpp:24-88 | in every run each connection has at most one operation outstanding, and its history is: reads that leave the request incomplete, at most one parse that ends it, a dispatch exactly when the request is complete, one response write, a shutdown |
| HttpLifecycle.NothingAfterWrite | src/http_server/connection.cpp:55-75 | once a write is started only the shutdown follows: no read, parse, dispatch or second write |
| HttpLifecycle.WritesAreCaused | src/http_server/connection.cpp:66-75 | an answer is written directly after a dispatch, a bad request directly after a failed parse |
| HttpLifecycle.DispatchIsCaused | src/http_server/connection.cpp:72-72 | a dispatch comes directly after a complete parse and never after a failed one |
| HttpLifecycle.HistoryIsOwnEvents | src/http_server/connection.cpp:24-88 | in every run the history of a connection is the first read, if its own accept succeeded before the stop, and then the reactions to its own events, whatever the others do: a read again, a bad request, or a dispatch and an answer, and at last the shutdown |
| HttpLifecycle.EveryScriptOccurs | src/http_server/connection.cpp:24-88 | conversely each history that the script allows is that of a connection in some run |
| HttpLifecycle.OutstandingExactly | src/http_server/connection.cpp:55-88 | in every run a connection has its last read or write outstanding exactly when nothing followed it and none of its handlers ended in an error other than an abort |
| HttpLifecycle.ManagerHoldsTheLive | src/http_server/connection_manager.cpp:5-20 | in every reachable state the manager holds exactly the connections started and not stopped, and exactly one accept is outstanding while the acceptor is open |
| HttpLifecycle.ShutdownTerminates | src/http_server/server.cpp:50-66 | after the stop handler, from any reachable state and whatever completes: at most two handlers for each connection and one for the accept, so at most twice the connections plus one in all; no accept re-armed, no connection created, the manager empty for good |
| HttpLifecycle.StoppedReadGoesOn | src/http_server/connection.cpp:55-75 | a read that completes after the stop without an error, aborted or not, starts exactly one more operation, a read if the request is incomplete and a write otherwise, which can only fail |
| HttpLifecycle.TwoHandlersAreMet | src/http_server/connection.cpp:55-88 | every connection that is reading when the server is stopped can take both handlers, whatever the parser returns, so the bound is exact |
| HttpLifecycle.ShutdownProgress | src/http_server/server.cpp:50-66 | until nothing is outstanding some handler can run, so the shutdown does not end early |
| HttpLifecycle.StoppedStep | src/http_server/connection.cpp:55-88 | after a stop each handler uses up work, an aborted read that is parsed once more included |
| HttpLifecycle.ServedConnectionIsKept | src/http_server/connection.cpp:77-88 | from any reachable state, a write that completes without an error leaves the connection shut down, idle and managed, and it stays so in every continuation without a stop |
| HttpLifecycle.ErasedIffFailedOrStopped | src/http_server/connection_manager.cpp:10-20 | in every run a connection that was started is in the manager if and only if there was no stop and none of its own handlers ended in an error other than an abort |
| HttpLifecycle.StepKeepsInv | src/http_server/server.cpp:24-66 | every handler keeps the invariant of the accept loop, the manager and all connections |
| HttpServer.Connection.Start | src/http_server/connection.cpp:24-28 | starts one read |
| HttpServer.Connection.Stop | src/http_server/connection.cpp:30-32 | closes the socket and changes nothing else |
| HttpServer.Connection.HandleRead | src/http_server/connection.cpp:55-75 | takes the state machine's step for the status its request returns, and leaves the manager only after an error that is not an abort |
| HttpServer.Connection.HandleWrite | src/http_server/connection.cpp:77-88 | shuts down, after an abort as well, or leaves the manager on any other error |
| HttpServer.ConnectionManager.Start | src/http_server/connection_manager.cpp:5-8 | adds the connection and starts its read |
| HttpServer.ConnectionManager.Stop | src/http_server/connection_manager.cpp:10-13 | closes the connection and removes it and no other |
| HttpServer.ConnectionManager.StopAll | src/http_server/connection_manager.cpp:15-20 | closes every managed connection, no other, and empties the set |
| HttpServer.HttpServer.constructor | src/http_server/server.cpp:11-18 | one connection waiting for one accept, nothing managed |
| HttpServer.HttpServer.StartAccept | src/http_server/server.cpp:24-29 | replaces the new connection by a fresh one and adds one outstanding accept |
| HttpServer.HttpServer.HandleAccept | src/http_server/server.cpp:31-46 | takes the state machine's step: nothing on a closed acceptor, re-arm after an error, hand over and re-arm after a success |
| HttpServer.HttpServer.HandleStop | src/http_server/server.cpp:50-66 | closes the acceptor and all managed connections and empties the manager |
| HttpServer.HttpServer.CompleteRead | src/http_server/connection.cpp:55-75 | running a read handler is the state machine's read step of the whole server |
| HttpServer.HttpServer.CompleteWrite | src/http_server/connection.cpp:77-88 | running a write handler is the state machine's write step of the whole server |
| LineReader.GetLine | tutorial/202.async_tcp_server_streambuf.cpp:49-49 | splits the buffer at its first newline |
| LineReader.Consume | tutorial/202.async_tcp_server_streambuf.cpp:51-51 | discards the given number of bytes, or all there are |
| LineReader.Split | tutorial/202.async_tcp_server_streambuf.cpp:47-51 | every byte of the buffer is in the line, its newline, the bytes discarded behind it or the rest, in this order; as many are discarded as the line had with its newline, or all that were left |
| Echo.ByteAccounting | tutorial/202.async_tcp_server_streambuf.cpp:42-60 | in every run the bytes received are the posted lines with their newlines and what was discarded behind each, in order, followed by the buffer; each read discarded as many bytes as its line and newline had, or all that had arrived behind them |
| Echo.LinesAreTheSplitIffOneLineEach | tutorial/202.async_tcp_server_streambuf.cpp:42-60 | the posted lines are the newline split of the bytes received, with the unfinished rest in the buffer, if and only if every completed read is brought about by the bytes of one line and not a byte more |
| Echo.LinesAreTheSplitIffNothingDropped | tutorial/202.async_tcp_server_streambuf.cpp:42-60 | the posted lines are the newline split of the bytes received if and only if no read discarded anything |
| Echo.NothingDroppedMeansOneLine | tutorial/202.async_tcp_server_streambuf.cpp:47-51 | a read discards nothing if and only if the buffer held one line and not a byte more |
| Echo.SecondLineIsLost | tutorial/202.async_tcp_server_streambuf.cpp:47-51 | of two lines that arrive together a second one no longer than the first is never posted |
| Echo.EchoIsPrefixOfLines | tutorial/202.async_tcp_server_streambuf.cpp:27-72 | in every run at most one read and one write are outstanding, and the wire is a prefix of the extracted lines, all of them when no write is in flight and none failed |
| Echo.OutstandingExactly | tutorial/202.async_tcp_server_streambuf.cpp:42-77 | in every run the socket is open exactly until an operation fails, and a read is outstanding exactly until one fails |
| Echo.NothingSentAfterError | tutorial/202.async_tcp_server_streambuf.cpp:74-77 | any error, of a read as well as of a write, is the end of the wire in every continuation |
| Echo.EveryByteCanArrive | tutorial/202.async_tcp_server_streambuf.cpp:34-72 | from every reachable state without an error there are write steps, none failing, after which the peer has any given number of bytes of the lines posted, all of them included |
| Echo.EveryLineIsEchoed | tutorial/202.async_tcp_server_streambuf.cpp:42-72 | in every such state with an empty buffer any line that arrives alone can be read and written back behind all those before it |
| Echo.AllArrivalsCount | tutorial/202.async_tcp_server_streambuf.cpp:42-60 | the bytes accounted for are those the events brought, and there is one posted line for each completed read |
| Echo.EchoSession.OnRead | tutorial/202.async_tcp_server_streambuf.cpp:42-60 | takes the state machine's step and re-arms the read unless it failed |
| Echo.EchoSession.OnWrite | tutorial/202.async_tcp_server_streambuf.cpp:62-72 | takes the completion step of the write queue |
| Echo.EchoSession.TakeLine | tutorial/202.async_tcp_server_streambuf.cpp:47-51 | getline takes the first line and its newline, consume(bytes_transferred) discards as many bytes again or all that are left, and together they leave what the state machine says |
| Echo.EchoSession.Enqueue | tutorial/202.async_tcp_server_streambuf.cpp:53-57 | appends the line and starts a write exactly when the queue was empty |
| Echo.EchoSession.ReachableIsReady | tutorial/202.async_tcp_server_streambuf.cpp:34-40 | the condition that the handlers need holds in every reachable state |
| RoundRobin.FairWithoutWrap | tutorial/207.multithread_with_multiple_io_context.cpp:33-33 | in any window of k queries without a wrap each context is selected k / n times rounded down or up |
| RoundRobin.ExactFromStart | tutorial/207.multithread_with_multiple_io_context.cpp:33-33 | in the first k queries context i is selected exactly (k - i) / n times rounded up |
| RoundRobin.FairAcrossWrap | tutorial/207.multithread_with_multiple_io_context.cpp:33-33 | in any window of at most one word of queries two contexts differ by two selections at most, by one at most without a wrap, even when n does not divide the word |
| RoundRobin.WrapCostsOneMore | tutorial/207.multithread_with_multiple_io_context.cpp:33-33 | the word has 64 bits, and with three contexts a window across the wrap does differ by two |
| RoundRobin.IoContextGroup.constructor | tutorial/207.multithread_with_multiple_io_context.cpp:15-21 | the loop creates the given number of distinct contexts |
| RoundRobin.IoContextGroup.Query | tutorial/207.multithread_with_multiple_io_context.cpp:33-33 | hands out the context of its ticket and takes the next ticket, wrapping at the word; the numbers handed out stay those of the tally |
| RoundRobin.IoContextGroup.Fair | tutorial/207.multithread_with_multiple_io_context.cpp:33-43 | within a word of queries two contexts of a group have been handed out equally often but for one |

## Left out

- Asio itself, sockets, endpoints, resolvers and time: completions are nondeterministic events instead.
- The HTTP parser library: its callbacks are the input; a second message pipelined on one connection and trailer fields are not modelled.
- Exceptions from `remote_endpoint` and `shutdown`, logging, command-line options, signal numbers.
- Object lifetime, except the destructor of a session whose accept failed; the announcements of sessions destroyed when the chat server itself is torn down are not modelled.
- Partial delivery by `async_write_some` in the HTTP server: the round trip is about the whole buffer sequence.
- The `http_message` fields copied from the parser (version, method, status, keep-alive, upgrade) and the choice and the bodies of the request handlers: a dispatch is one recorded action.
- Date formatting: the date is an arbitrary newline-free string.
- ResponseRoundTrip.RoundTripWithFraming: its reader demands exactly one space behind the colon of a header line and does not trim further white space from the value, as a general recipient would.
- RoundRobin.IoContextGroup.Query: an empty group is excluded, because the program then computes a remainder by zero, which is undefined.
- Storage of the buffers handed to a write: that they stay valid in memory is not modelled, only that their content stays the front of the queue.
- The other tutorials and basics (daytime, timers 1 to 4, resolvers, serial port, strand demonstration): straight-line library calls.
