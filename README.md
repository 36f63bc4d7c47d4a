# simple_server — a verified model of the chat and file server

The system is a TCP chat and file server with a console client. Every message on a
connection is an envelope `TAG[:payload]`, split at its first `:`. A user's command is an
envelope too: `/downl:name`, `/delf:name`, `/upl:name`, `/msg:T:text`. A space does not separate
the argument, so `/downl name` is an unknown key.

The server keeps a registry of connected clients. It maps each (host, port) address to a
socket, and the port serves as the client's ID. For each request the server works in three
steps:
- it looks the command key up in a strategy table;
- the strategy returns a forwarding flag and its data;
- a forwarding table turns the flag into an action.

The actions are:
- reply to the sender;
- route a private message;
- broadcast;
- send a file in 1024-byte chunks;
- receive a file in 1024-byte chunks.

The client sends the user's requests and runs a receive loop that dispatches each incoming
envelope on its tag. The tags are `<close>`, `<mult>`, `<single>`, `<confirm>` and
`<send_file>`.

The model follows the source's own form:
- The registry, the server's per-socket output and the client's state are classes.
  Their fields are updated by methods with `modifies` clauses.
- The byte-count transfer loops, the file-list block loop and the broadcast loop are
  `while` or `for` loops with invariants. They are proved against specification
  functions: `ChunksFrom` for what a send loop writes, `Collect` for what a receive loop
  reads, `FileLines` for the file list.
- The envelope codec, the strategy and forwarding tables, message formatting and routing
  decisions are functions with lemmas.

Modules:
- `Text`: Python's `find`, `split`, `join`, `str(int)` and `int(str)`.
- `Envelope`: the `TAG[:payload]` and `name||size` formats.
- `Transfer`: chunked sending and byte-count receiving.
- `Storage`: `code/storage.py`.
- `Routing`: the registry lookup by port, and private and broadcast formatting and routing.
- `Strategies`: `code/strategy.py` and the two tables of `code/server.py`.
- `ServerSteps`: what one pass of the server's receive loop does to the server state, as functions of the state before.
- `ServerModel`: the `Server` class, whose loop-step methods are proved to have exactly those effects.
- `ClientModel`: the `Client` class.
- `Protocol`: properties that connect what one side writes to what the other side reads.

Modelling conventions:
- A socket is an identity (`SockId`). Sending appends a string to that socket's trace in
  `sent: map<SockId, seq<string>>`. The properties therefore say which trace grows, by
  what, and that no other trace changes.
- What a connection delivers to `recv` is a sequence of strings, the `inbox`. Running out
  of it stands for `recv` raising ConnectionResetError.
- The server's folder and the client's folder are maps from file names to contents.
  `os.listdir` is a function of the folder, fixed when the server is built.
- Python exceptions are reduced to two outcomes, the two that `handle_client` tells apart:
  - an `OSError` (a reset connection, a missing file) ends the connection silently;
  - any other exception ends it after "There is something wrong in your request".

## Model

| member | source | states |
|---|---|---|
| Text.SplitFirst | code/server.py:105 | `split(':', 1)`: None exactly when the separator is absent; otherwise the input is head + separator + tail, and the head holds no separator |
| Text.SplitJoin | code/storage.py:29-30 | splitting a join on a separator that cannot overlap itself gives back the parts, when no part contains the separator |
| Text.ParseInt | code/server.py:188 | `int()` on an optional sign and decimal digits, None for anything else; `Text.ParseIntToString` proves that it reads back every rendered integer |
| Text.IntToString | code/server.py:205 | `str(n)`: never empty, only `-` and decimal digits |
| Text.ParseIntToString | code/server.py:188 | `int(str(n)) == n` for every integer |
| Envelope.Separate | code/server.py:103-106 | the key holds no `:`; with a `:`, key + `:` + args is the input; without one, the key is the whole input and args is None |
| Envelope.SeparateEncode | client.py:71-74 | an envelope written as tag (and `:` payload) is split back into the same tag and payload, for every tag without `:` |
| Envelope.SeparateHead | code/server.py:104-106 | the key of an envelope not opening with `:` is non-empty and opens with the envelope's first character |
| Envelope.SeparateServerReply | code/server.py:113 | a `<single>:SERVER: ` reply splits into the tag `<single>` and the text after it |
| Envelope.SeparateFileInformation | code/server.py:185-189 | success means: a payload; a name without `\|\|`; exactly one `\|\|` after it; an integer after that with no further `\|\|` |
| Envelope.SeparateFileInformationOfPieces | code/server.py:185-189 | conversely, `name\|\|t` with a plain name (no `\|\|` in it and no bar at its end) and no other `\|\|` parses exactly when `t` is an integer, to that name and integer |
| Envelope.SeparateFileInformationWithoutBars | code/server.py:187 | a payload without `\|\|` never parses |
| Envelope.SplitFileInfo | client.py:95-97 | the client's `split('\|\|', 1)`: None exactly when there is no `\|\|` or the rest after the first one is not an integer; otherwise the name is the part before the first `\|\|`, and the size is `int` of the rest |
| Envelope.FindAfterPlainName | code/server.py:187 | in `name\|\|rest` the first `\|\|` is the one right after the name, for every name with no `\|\|` in it and no bar at its end; a name such as `a\|b.txt` qualifies |
| Envelope.SeparateFileInformationOfFileInfo | code/server.py:185-189 | the server reads back `name\|\|size` as (name, size) for every plain name: one with no `\|\|` in it and no bar at its end |
| Envelope.SplitFileInfoOfFileInfo | client.py:139-141 | the client reads back `name\|\|size` as (name, size) for every plain name: one with no `\|\|` in it and no bar at its end |
| Transfer.ChunksFrom | code/server.py:195-199 | what the send loop writes from an offset; its meaning is stated by `Transfer.ChunksFromMeaning` and `Transfer.NothingToSend` |
| Transfer.NothingToSend | code/server.py:195-196 | the send loop writes nothing exactly when the size is zero or negative |
| Transfer.ChunkSizes | code/server.py:195-199 | every piece the send loop writes is non-empty and at most 1024 bytes long |
| Transfer.ChunksCover | code/server.py:195-199 | the pieces are, in order, the file's bytes from the offset on; they reach the size and stop short of size + 1024 |
| Transfer.ChunksFromMeaning | code/server.py:195-199 | the send loop writes non-empty pieces of at most 1024 bytes. Together they are the file's bytes from the offset on, and they reach the size but stop short of size + 1024 |
| Transfer.Collect | code/server.py:214-218 | the receive loop never consumes more than the input it was given |
| Transfer.CollectMeaning | code/server.py:214-218 | what the receive loop collects is the concatenation of the pieces it consumed. When complete, it has at least the size and stops at the first piece that reaches it. It is incomplete only when the input ran out short |
| Transfer.FileArrivesExactly | code/server.py:192-218 | a file sent with its own length as size is collected whole: the receiver consumes exactly the sender's pieces and leaves what follows |
| Storage.ConvertToString | code/storage.py:28-30 | items joined with `<<SEP>>`; `Storage.ConvertToStringRoundTrip` proves they split back |
| Storage.ConvertToStringRoundTrip | code/storage.py:28-30 | splitting `convert_to_string`'s result on `<<SEP>>` gives back the items, when none contains `<<SEP>>` |
| Storage.CommandsLackLineSep | code/storage.py:35-43 | no help line contains `<<SEP>>` |
| Storage.MultiLine | code/storage.py:44 | a `<mult>` envelope splits into the tag `<mult>` and a payload that splits back into the items |
| Storage.GetCommandList | code/storage.py:33-44 | the help reply is tagged `<mult>`, and its payload splits into exactly the seven help lines, in order |
| Storage.FileLinesAppend | code/storage.py:91-96 | listing two runs of names one after the other lists each run in turn, so block boundaries do not matter |
| Storage.FileLinesLength | code/storage.py:99-105 | never more entries than names, and exactly as many when every size can be read |
| Storage.ProcessFileBlock | code/storage.py:99-105 | one `size - name` entry per readable name, in order; unreadable names are skipped |
| Storage.ProcessLargeFileList | code/storage.py:90-96 | processing in blocks gives the same entries as one pass over all the names, for any positive block size |
| Storage.GetFileListOnTheServer | code/storage.py:82-87 | the `/files` reply separates into the tag `<mult>` and the listing's entries joined by `<<SEP>>`; `Protocol.FileListIsDisplayed` states what the client shows for it |
| Storage.GetFileInformationAsWritten | code/storage.py:72-79 | the code as written, with the existence test that is always truthy; `Storage.MissingFileAsWrittenRaises` and `Storage.ExistingFileAsWrittenAgrees` compare it with the intended version |
| Storage.GetFileInformation | code/storage.py:72-79 | intended behaviour: `<confirm>:name\|\|size` for an existing file; `<single>:SERVER: file not found` otherwise, also when no name is given |
| Storage.CheckIfTheFileExistsAsWritten | code/storage.py:61-69 | with no name, or when the recursion has no frame left, the result is `(False, None)` |
| Storage.ExistenceAsWrittenAlwaysTruthy | code/storage.py:61-69 | given a name and a frame to run in, the existence test as written is truthy whether or not the file exists, with path `dir + name` |
| Storage.MissingFileAsWrittenRaises | code/storage.py:72-79 | as written, a request for a missing file raises an OSError; the intended version answers `file not found` |
| Storage.ExistingFileAsWrittenAgrees | code/storage.py:72-79 | for an existing file, the code as written and the intended version give the same reply |
| Storage.DeleteReplyAsWritten | code/storage.py:108-114 | as written, the reply to a removal or a missing file separates into a key starting with `F`, not an envelope tag; `ClientModel.DeleteReplyAsWrittenStopsClient` shows the client cannot handle them |
| Storage.DeleteReply | code/storage.py:108-114 | every delete reply, tagged, separates into the tag `<single>` and a payload; `ClientModel.DeleteReplyIsDisplayed` shows each as one line |
| Storage.DeleteFile | code/storage.py:108-114 | only a removal changes the folder, and it removes exactly the named file; the reply is the tagged reply for the outcome |
| Routing.FirstWithPort | code/server.py:72-76 | the index of the first registered address with the port; None when no address has it |
| Routing.Without | code/server.py:57-60 | removal keeps every other address and takes out this one; it keeps the registry free of duplicates |
| Routing.WithoutAbsent | code/server.py:57-60 | removing an address that is not registered leaves the order unchanged |
| Routing.WithoutSplit | code/server.py:57-60 | removing a registered address keeps the addresses before and after it, in their order |
| Routing.PreparePrivateMessage | code/server.py:143-148 | `target:text` for the private route; `Routing.PreparedPrivateSplits` and `Routing.PrivateMessageSplits` state its form |
| Routing.PrepareBroadcastMessage | code/server.py:169-171 | `<single>:(P)BROAD> text`; `Protocol.BroadcastIsDisplayed` states what every screen shows for it |
| Routing.PrivateDelivery | code/server.py:151-166 | the outcomes of routing a private message (see "Private-message routing" below) |
| Routing.PrivateText | code/server.py:146 | a private message's text starts with `<single>:(` |
| Routing.PreparedPrivateSplits | code/server.py:143-148 | every prepared private message has a `:`; its text is the "Client ID or message is empty" reply or starts with `<single>:(` |
| Routing.PreparedPrivateNeverEmpty | code/server.py:143-153 | a prepared private message never raises in routing and never produces "Empty messages can not be sent" |
| Routing.PrivateMessageSplits | code/server.py:143-148 | `/msg:T:text` is prepared as `T:<single>:(P)> text` and routed to T with that text, when T has no `:` |
| Routing.PrivateMessageReachesTarget | code/server.py:151-166 | `/msg:T:text` reaches the first client whose port is `int(T)`, as `<single>:(P)> text` |
| Routing.PrivateMessageToAbsentTarget | code/server.py:163-166 | `/msg:T:text` to a port nobody holds sends "The client is not logged now" back to the sender |
| Routing.PrivateMessageToInvalidId | code/server.py:157-160 | `/msg:T:text` with a non-integer T sends "User ID invalid" back to the sender |
| Routing.PrivateMessageWithoutTarget | code/server.py:143-147 | an argument without `:`, or none, is addressed to the sender's own port with "Client ID or message is empty" |
| Strategies.StrategyFor | code/server.py:13-23 | a strategy exactly for the nine keys; `/exit` has none; `/upl` and `<file_inf>` and no other key select the receive-file strategy |
| Strategies.EveryStrategyHasAKey | code/server.py:13-23 | every strategy class is reachable from a key of the table |
| Strategies.Forwarding | code/server.py:25-31 | an action exactly for the five flags; the two file actions exactly for `sfl` and `recv_file` |
| Strategies.FileInstruction | code/strategy.py:51-60 | a file strategy returns its flag with the parsed (name, size) exactly when the descriptor parses; otherwise it raises an exception that is not an OSError |
| Strategies.Execute | code/strategy.py:15-60 | each strategy's `execute`, with the corrected storage helpers; its properties are `Strategies.ExecuteFits`, `Strategies.ExecuteRaises`, `Strategies.ExecuteFolder` and `Protocol.ExecuteRepliesAreHandled` |
| Strategies.ExecuteFits | code/strategy.py:15-60 | every flag a strategy returns is in the forwarding table, with data of the kind its action consumes |
| Strategies.ExecuteRaises | code/strategy.py:51-60 | with the corrected storage helpers, only the two file strategies raise, exactly when the descriptor does not parse, and never with an OSError |
| Strategies.ExecuteFolder | code/strategy.py:39-42 | only the delete strategy changes the folder, and every file other than the named one is kept unchanged |
| Strategies.Dispatch | code/server.py:109-125 | an unknown key gives `svc` with "Command not found" and leaves the folder; a known key runs its strategy |
| Strategies.DispatchFits | code/server.py:97-100 | whatever the key, the instruction's flag is in the forwarding table and fits its action |
| Strategies.UploadAnnouncementDispatches | code/strategy.py:57-60 | `<file_inf>:name\|\|size` becomes the receive-file instruction for (name, size), for every plain name |
| Strategies.DownloadConfirmationDispatches | code/strategy.py:51-54 | `<conf>:name\|\|size` becomes the send-file instruction for (name, size), for every plain name |
| Strategies.FileStrategyOfFileInfo | code/strategy.py:51-60 | both file strategies turn a descriptor `name\|\|size` with a plain name into their instruction for (name, size), leaving the folder |
| ServerModel.Server.constructor | code/server.py:34-41 | an empty registry and no traces |
| ServerModel.Server.Accept | code/server.py:44-47 | the accepted socket gets an empty trace and is registered under its address |
| ServerModel.Server.AddClientToTheList | code/server.py:52-54 | the address maps to the socket, overwriting its old entry; a new address goes last in the order |
| ServerModel.Server.RemoveClientFromTheList | code/server.py:57-60 | the address is removed if present (a no-op otherwise); the others keep their order; the registry stays valid |
| ServerModel.Server.GetClientAddressAndSocket | code/server.py:72-76 | the first registered address with the port and its socket, or None exactly when no address has the port |
| ServerModel.Server.SendMessage | code/server.py:138-140 | only this socket's trace grows, by exactly the data |
| ServerModel.Server.CloseConnection | code/server.py:63-69 | the first client with the port is sent `<close>`, closed and removed; with no such client nothing changes and the call fails |
| ServerModel.Server.CheckIfTheClientIsLoggedNow | code/server.py:163-166 | only the target's trace grows, by the message; with no target, only the sender's grows, by "The client is not logged now" |
| ServerModel.Server.CheckIfTheClientIdIsValid | code/server.py:157-160 | a non-integer ID sends "User ID invalid" to the sender alone; otherwise the delivery above |
| ServerModel.Server.CheckIfThereIsMessage | code/server.py:151-154 | exactly one trace grows, as `PrivateDelivery` says; the call fails, changing nothing, when the payload has no `:` |
| ServerModel.Server.SendBroadcastMessage | code/server.py:179-182 | every registered socket, the sender's included, receives the message exactly once; every other trace is unchanged |
| ServerModel.Server.CheckIfThereAreMoreThanOneClient | code/server.py:174-176 | with more than one client, the traces become `Broadcast` of the message to every registered socket; otherwise only the sender receives "You are the only one logged now" |
| ServerModel.Server.SendChunks | code/server.py:195-199 | the socket receives exactly the chunks `ChunksFrom` specifies; no other trace changes |
| ServerModel.Server.SendFileToClient | code/server.py:192-199 | a missing file raises an OSError and sends nothing; a long-enough file is sent in chunks up to the size; a shorter one is sent whole and the loop never ends |
| ServerModel.Server.WriteFile | code/server.py:212-218 | the file holds what `Collect` collects; the loop stops where `Collect` stops |
| ServerModel.Server.ReceiveFileFromClient | code/server.py:202-209 | `<send_file>:name\|\|size` first, then the file is written as `Collect` says; a complete read is followed by "file received" and the loop goes on; a read cut short by a reset sends no status and ends the loop with an OSError, because the status `sendall` on the reset socket raises |
| ServerModel.Server.ForwardText | code/server.py:25-28 | the traces and step are exactly `AfterText`'s for `svc`, `pvt`, `bdc` or a flag outside the table; the folder and the registry are unchanged |
| ServerModel.Server.Forward | code/server.py:25-31 | the traces, folder, input position and step are exactly `AfterForward`'s (see "Forwarding" below); the registry is unchanged |
| ServerModel.Server.Exit | code/server.py:117-121 | the registry, its order, the traces, the closed sockets and the step are exactly `AfterExit`'s (see "Exit" below); when the sender's port is unique, its own connection is the one closed |
| ServerModel.Server.Command | code/server.py:109-125 | the traces, folder, input position and step are exactly `AfterCommand`'s over the folder's listing (see "Commands" below); the registry is unchanged |
| ServerModel.Server.Deliver | code/server.py:96-100 | the strategy's exception stops the loop with that exception, nothing sent and the folder the strategy left; otherwise the effect is `AfterForward`'s from that folder |
| ServerModel.Server.Serve | code/server.py:93-100 | once `recv` has returned an envelope, the whole server state and the step after that loop pass are exactly `AfterRequest`'s (see "Loop pass" below) |
| ServerSteps.Broadcast | code/server.py:179-182 | the trace of every socket in the set grows by the message once; every other trace is unchanged; no trace appears or disappears |
| ServerSteps.AfterText | code/server.py:25-28 | the text actions keep every trace's socket and either continue or raise an exception other than an OSError |
| ServerSteps.AfterSendFile | code/server.py:192-199 | sending a file adds or removes no trace |
| ServerSteps.AfterReceiveFile | code/server.py:202-209 | receiving a file writes only the sender's trace: `<send_file>:name\|\|size`, then "file received" exactly when the read completes; it continues exactly when the read completes, and otherwise it has consumed the whole input and raises an OSError; the file is stored under its name and every other file is kept |
| ServerSteps.AfterForward | code/server.py:25-31 | every action keeps the set of traces; only `recv_file` changes the folder or consumes input; an OSError leaves the traces unchanged, except for the `<send_file>` request of a `recv_file` cut short |
| ServerSteps.AfterExit | code/server.py:63-69 | `/exit` stops the loop cleanly exactly when some client holds the sender's port, always so for a registered sender; otherwise it raises and changes nothing; entries are only removed |
| ServerSteps.AfterCommand | code/server.py:109-125 | a command keeps the set of traces and reads only forward; what an OSError leaves sent is stated by `ServerSteps.CommandOsErrorSendsAtMostRequest` |
| ServerSteps.CommandOsErrorSendsAtMostRequest | code/server.py:109-125 | a command that ends in an OSError sent nothing to any other socket and at most one line to the sender, a `<send_file>` request (an upload cut short by a reset) |
| ServerSteps.AfterRequest | code/server.py:93-100 | a loop pass keeps the set of traces, consumes at least one envelope unless the input is exhausted, raises an OSError changing nothing on exhausted input, and only ever removes registry entries |
| ServerSteps.Run | code/server.py:93-100 | the receive loop runs passes as `AfterRequest` describes them until the first that stops it; no trace appears or disappears, the registry only loses entries, and exhausted input raises an OSError with nothing changed |
| ServerSteps.Teardown | code/server.py:82-90 | what `handle_client` does once its loop has ended (see "Connection" below) |
| ServerSteps.AfterConnection | code/server.py:79-90 | after a connection ends (unless it hangs), its address is gone from the registry and its order and its socket is closed; an exception other than an OSError leaves "There is something wrong in your request" as the last thing sent; no trace appears or disappears |
| ServerSteps.FileKeyStrategies | code/server.py:21-22 | the two file keys hold no `:`, are not `/exit`, and select the two file strategies |
| ServerSteps.BadDescriptorRaises | code/strategy.py:51-60 | a file strategy given a descriptor that does not parse raises an exception other than an OSError, with the folder unchanged |
| ServerSteps.BadDescriptorStops | code/server.py:93-100 | a request with such a descriptor stops the loop with that exception, after consuming just that envelope and changing nothing |
| ServerSteps.BadDescriptorIsAnswered | code/server.py:79-90 | a connection whose first request is `<conf>:` or `<file_inf>:` with a descriptor that does not parse gets "There is something wrong in your request" back, then is removed and closed, with nothing else sent |
| ServerModel.Server.LoopToReceiveDataFromClients | code/server.py:93-100 | the final registry, order, traces, closed sockets, folder and end are exactly `Run`'s from the first envelope; the registry stays valid and the socket keeps serving only its own address |
| ServerModel.Server.FinishConnection | code/server.py:82-90 | the new state is exactly `Teardown`'s for the loop's end, and the registry stays valid |
| ServerModel.Server.HandleClient | code/server.py:79-90 | the whole new state and the end are exactly `AfterConnection`'s over the connection's input: once the loop ends, the address is removed and the socket closed, and after a non-OSError exception the last thing sent is "There is something wrong in your request" |
| ClientModel.HandlerFor | client.py:8-14 | a handler exactly for the five tags; any other tag is a KeyError |
| ClientModel.Client.constructor | client.py:17-22 | stop flag clear, nothing sent, nothing printed |
| ClientModel.Client.StopThread | client.py:53-54 | the stop flag is set, nothing else changes |
| ClientModel.Client.Logout | client.py:57-59 | the stop flag is set, nothing else changes |
| ClientModel.Client.SendFileNameAndSize | client.py:134-136 | exactly `<file_inf>:name\|\|size` is sent, with the file's size |
| ClientModel.Client.GetFileInformation | client.py:118-123 | an existing file is announced; a missing one only prints "File not found" |
| ClientModel.Client.SendRequest | client.py:46-50 | `/upl:name` is never sent verbatim: the announcement is sent only for an existing file, with nothing printed, and a missing file only prints "File not found"; `/upl` without a name raises. Every other request is sent unchanged |
| ClientModel.Client.DisplayMultipleLines | client.py:77-81 | one printed line per `<<SEP>>`-separated piece |
| ClientModel.Client.DisplaySingleLine | client.py:84-86 | exactly the message is printed |
| ClientModel.Client.SendChunks | client.py:147-152 | the connection receives exactly the chunks `ChunksFrom` specifies |
| ClientModel.Client.SendFile | client.py:145-152 | a missing file ends the receive loop with nothing sent; a long-enough file is sent in chunks up to the size; a shorter one is sent whole and the loop never ends |
| ClientModel.Client.PrepareInformationToSendFile | client.py:139-142 | a descriptor that does not parse ends the loop with nothing sent; otherwise the named file is sent as above, including what is sent before a short file hangs the loop |
| ClientModel.Client.WriteFile | client.py:108-115 | the file holds what `Collect` collects; the loop stops where `Collect` stops |
| ClientModel.Client.ReceiveFile | client.py:102-105 | the file is written, then "File received" or an error line is printed, by whether it was complete |
| ClientModel.Client.ConfirmReceivingFile | client.py:95-105 | a descriptor that does not parse raises with nothing sent or printed. Otherwise `<conf>:` + the unchanged payload is sent before reading, the file is written as `Collect` says, and "File received (name)" or the error line is printed |
| ClientModel.AfterConfirm | client.py:95-105 | the file is asked for exactly when the descriptor parses; otherwise nothing changes and no input is read; only adds to what is sent and printed |
| ClientModel.AfterSendRequest | client.py:139-152 | only what is sent changes, and only by additions; a failure sends nothing |
| ClientModel.AfterEnvelope | client.py:62-68 | one loop iteration (see "Client receive loop" below): exhausted input or an unknown tag ends the loop with nothing changed; `<close>` alone stops it and sets only the flag; only the two file tags send or store anything; output only grows; a step that goes on consumed input |
| ClientModel.RunClient | client.py:62-68 | the loop runs iterations as `AfterEnvelope` describes until the first that ends it; it ends stopped exactly when the flag is set, an exception prints the error line last, an already-set flag does nothing, and output only grows |
| ClientModel.Client.Receive | client.py:62-68 | the new state, the next position and the end are exactly `AfterEnvelope`'s |
| ClientModel.Client.ReceiveFromServer | client.py:62-68 | the final state and the end are exactly `RunClient`'s from the first envelope; the loop ends stopped exactly when the stop flag is set; an exception ends it with the error line printed last; an already-set flag does nothing |
| ClientModel.DeleteReplyAsWrittenStopsClient | code/storage.py:108-114 | as written, "File X deleted" and "File not found" carry no tag of the client's table |
| ClientModel.DeleteReplyIsDisplayed | code/storage.py:108-114 | every tagged delete reply is shown by the client as one line |
| ClientModel.DeleteReplyAsWrittenEndsClient | code/storage.py:108-114 | as written, a delete reply ends the client's receive loop with the error line and changes nothing else |
| ClientModel.DeleteReplyIsShown | code/storage.py:108-114 | a tagged delete reply adds one screen line and the loop goes on with the next envelope |
| Protocol.CommandListIsDisplayed | code/storage.py:33-44 | the client shows `/?`'s reply as exactly the seven help lines |
| Protocol.PrivateMessageIsDisplayed | code/server.py:146 | a private message is shown on the target's screen as `(P)> text` |
| Protocol.BroadcastIsDisplayed | code/server.py:169-171 | a broadcast is shown on every screen as `(P)BROAD> text`, or `(P)BROAD> None` with no text |
| Protocol.FileLinesLackAngle | code/storage.py:103 | a file-list line is never empty and holds no `<<SEP>>` when its name holds no `<` |
| Protocol.FileListIsDisplayed | code/storage.py:82-87 | `/files` is shown as one line per readable file, in listing order; with no readable file, nothing is shown |
| Protocol.DownloadRoundTrip | client.py:95-99 | download: the client reads back the confirmed descriptor, its `<conf>` reply selects sending the same file, and it collects exactly the file's bytes, for every plain name |
| Protocol.UploadRoundTrip | client.py:134-152 | upload: the announcement selects receiving the same file, the client reads back `<send_file>`'s descriptor, and the server collects exactly the file's bytes, for every plain name |
| Protocol.CommandNotFoundIsDisplayed | code/server.py:113 | the "Command not found" reply is shown by the client as one line |
| Protocol.ServiceRepliesAreHandled | code/server.py:109-125 | every `svc` reply the server sends for a command other than `/exit` carries a tag the client has a handler for |
| Protocol.CommandListIsHandled | code/storage.py:33-44 | the help list the server sends is a `<mult>` envelope, which the client handles |
| Protocol.FileInformationIsHandled | code/storage.py:72-79 | the download reply is `<confirm>` for an existing file and `<single>` for a missing one; both are handled by the client |
| Protocol.ExecuteRepliesAreHandled | code/strategy.py:33-48 | the same for each strategy: the help list and file list are `<mult>`, the delete reply `<single>`, the download reply `<confirm>` or `<single>` |
| Protocol.RequestReadAsTyped | code/server.py:103-106 | a request other than `/upl` goes out verbatim, and the server splits it into the key and argument the user typed |

### Details of the longer contracts

These notes expand the rows above that point here.

Private-message routing (`Routing.PrivateDelivery`):
- The payload raises exactly when it has no `:`.
- An empty text sends "Empty messages can not be sent" back to the sender.
- Otherwise exactly one of these happens:
  - the text goes to a registered socket;
  - "User ID invalid" goes back to the sender;
  - "The client is not logged now" goes back to the sender.

Forwarding (`ServerSteps.AfterForward` with `AfterText`, `AfterSendFile` and `AfterReceiveFile`, the contract of `ServerModel.Server.Forward`):
- A flag outside the forwarding table changes nothing.
- `svc` appends the text to the sender's trace alone.
- `pvt` delivers the message as `PrivateDelivery` says, or raises with nothing sent.
- `bdc` with more than one client appends the message once to every registered socket's trace
  and to no other; with one client, only the sender gets "You are the only one logged now".
- `sfl` raises an OSError with nothing sent when the file is missing. Otherwise the sender's trace
  gets the chunks up to the size, and a file shorter than the size hangs the loop.
- `recv_file` sends `<send_file>:name||size`, reads the file as `Collect` says and stores it under
  its name. A complete read is answered with "file received" and the loop goes on. A read cut
  short means `recv` raised on a reset connection: the bare `except` catches it, but the status
  `sendall` on that socket raises an OSError, so no status is sent and the connection ends silently.
  Writes do not fail in this model (see "## Left out"), so the "error while receiving the file"
  status, which the source sends only after a write failure on a healthy connection, never appears.
- Only `recv_file` changes the folder or consumes input. The registry is never changed.

Commands (`ServerSteps.AfterCommand`, the contract of `ServerModel.Server.Command`):
- The key and argument go through `Strategies.Dispatch` with the folder's listing.
- An exception stops the loop with it; nothing is sent, and the folder is the one the strategy left.
- Otherwise the instruction is forwarded from that folder, as above.

Exit (`ServerSteps.AfterExit`, the contract of `ServerModel.Server.Exit`):
- `/exit` closes the first connection with the sender's port: that socket is sent `<close>`, closed
  and removed from the registry and its order, and no other trace or entry changes.
- When the sender is registered, this always happens. When the sender's port is unique, that
  connection is the sender's own.
- If no client holds the port, the unpacking raises and nothing changes.

Loop pass (`ServerSteps.AfterRequest`, the contract of `ServerModel.Server.Serve`):
- Exhausted input is a `recv` that raises an OSError; nothing changes. The loop itself takes
  this case, so `Serve` is called only when an envelope is there.
- Otherwise one envelope is consumed and split at its first `:`.
- `/exit` has the effect of `AfterExit`, with the folder unchanged.
- Any other key has the effect of `AfterCommand`, with the registry unchanged.

Connection (`ServerSteps.Run` and `ServerSteps.AfterConnection`, the contracts of
`ServerModel.Server.LoopToReceiveDataFromClients` and `ServerModel.Server.HandleClient`):
- The loop takes passes as `AfterRequest` describes them, each over the folder as `os.listdir`
  lists it then, until the first pass that stops it. Its end is that pass's.
- `Teardown`: a loop that hangs never reaches the teardown, so nothing more happens.
- Otherwise an exception other than an OSError is answered with "There is something wrong in your
  request". Then the address is removed from the registry and its order, and the socket is closed.

Client receive loop (`ClientModel.AfterEnvelope`, the contract of `ClientModel.Client.Receive`;
`ClientModel.RunClient`, the contract of `ClientModel.Client.ReceiveFromServer`):
- Exhausted input, or an unknown tag, ends the loop.
- `<close>` sets the stop flag.
- `<mult>` and `<single>` print their payload.
- `<confirm>` with a descriptor that does not parse ends the loop. Otherwise it sends `<conf>:` and
  the descriptor, reads the file as `Collect` says, stores it, and prints "File received (name)"
  or the error line.
- `<send_file>` with a descriptor that does not parse, or a missing file, ends the loop with
  nothing sent. Otherwise the file is sent in chunks up to the size, and a short file hangs the loop.
- A handler with a None or empty payload does nothing.
- Only the two file tags send anything or change the folder. A loop that continues consumed input.
- The loop runs while the stop flag is clear. An iteration that ends it with an exception adds the
  error line.

## Left out

- Threads and the lock. Each connection is modelled sequentially, one request at a time, and the
  registry is one object. Interleavings of several connection handlers are not modelled. Neither
  are the unlocked read of the registry in `check_if_the_client_is_logged_now` or the lock held
  during a broadcast.
- The accept loop is reduced to one `Accept` step. The caller supplies a fresh socket identity;
  the thread it starts is `HandleClient`.
- Sockets and their I/O. `send`/`sendall` append one whole string to a trace; partial sends are not
  modelled. A `recv` returns the next string of the inbox; how TCP splits or merges data into
  `recv` results is not modelled. An orderly close (an empty `recv`) is not modelled. In the source, the
  client's loop then looks up the empty tag, the lookup raises KeyError (client.py:66), the error is
  printed (client.py:67-68) and the loop ends. The server's loop answers the empty key with "Command
  not found", and that send to the closed peer soon raises an OSError, which ends the connection.
- Sending on a socket that another connection's thread has already closed is not modelled. In the
  source that raises an OSError in the sender's thread.
- Encoding. A character stands for a byte; UTF-8 `encode`/`decode` is not modelled.
- The file system. Each folder is a map from names to contents. `os.listdir` is a function of the
  server's folder. `os.path.isfile`, `getsize`, `open`, `read`, `write` and `os.remove` are answered
  from the map. Directory paths and their platform-dependent form are not modelled, nor names that
  reach outside the folder. Neither is a `remove` that fails for a reason other than absence (that
  outcome exists only for a missing name). Neither is a write that fails: in the source, an `open` or
  `write` error in `write_file` is caught and "error while receiving the file" is sent on the still
  open connection, and the unread file bytes then reach the loop as requests.
- `create_directory`, `get_directory`, `get_request`'s interactive loop, `time.sleep` and
  `display_progress`: console and set-up code with no state the protocol depends on.
- Console text. The client's screen records the lines it prints. The exact text of the error lines
  (`ERROR: ...`) and the leading newline of `display_single_line` are not modelled. The server's own
  log lines are not modelled.
- `sys.exit` in `logout` is modelled as the end of the receive loop (`Stopped`).
- Text.ParseInt: models `int()` on an optional sign and ASCII decimal digits. Surrounding whitespace,
  `_` separators and non-ASCII Unicode decimal digits, which Python also accepts, are not modelled.
- Storage.CheckIfTheFileExistsAsWritten: Python's call stack is a `depth` parameter, the number of
  frames left before RecursionError. Only its being at least one matters to the properties.
- Strategies.Execute: the server state a strategy consults is passed in: the port, the argument, the
  folder and the listing. Strategies hold no fields, so the result depends on nothing else. The
  strategies call the corrected helpers `Storage.GetFileInformation` and `Storage.DeleteReply` (see
  "## Findings"). So `Strategies.ExecuteRaises`, `Strategies.Dispatch`, `ServerSteps.Run`,
  `ServerSteps.AfterConnection`, `ServerModel.Server.Command`, `ServerModel.Server.Serve`,
  `ServerModel.Server.LoopToReceiveDataFromClients` and `ServerModel.Server.HandleClient`
  describe the program with those two fixes. As written, a `/downl` of a missing file raises an
  OSError, and a delete reply ends the client's receive loop.
- ServerModel.Server.Forward: requires that the data is of the kind its flag's action consumes
  (`Strategies.Fits`); Python would pass any tuple on. `Strategies.DispatchFits` proves that every
  instruction a strategy returns meets this.
- ServerModel.Server.LoopToReceiveDataFromClients and ClientModel.Client.ReceiveFromServer: a loop
  that never ends (a short file sent forever) ends the model's loop as `Hung`. Termination is measured
  on the finite inbox.

## Findings

| source | as written | input that shows it | evidently intended | confidence | as-written member | corrected member |
|---|---|---|---|---|---|---|
| code/storage.py:61-69 | The second `check_if_the_file_exists` replaces the first, so its call at line 65 calls itself. It returns a non-empty tuple, which is truthy, for every name. `get_file_information` then calls `getsize` on a missing file and raises FileNotFoundError, an OSError. The connection is torn down without a reply. | `/downl:nosuch.txt` when the server's folder has no `nosuch.txt` | the reply `<single>:SERVER: file not found` | not executed | Storage.MissingFileAsWrittenRaises | Storage.GetFileInformation |
| code/storage.py:108-114 | `delete_file` answers a removal with `File X deleted` and a missing file with `File not found`. Neither reply has an envelope tag, so the client's table lookup raises KeyError and its receive loop ends. | `/delf:notes.txt`, whether or not `notes.txt` exists | the same replies under the `<single>:SERVER: ` tag, shown as one line | not executed | ClientModel.DeleteReplyAsWrittenEndsClient | ClientModel.DeleteReplyIsShown |

The rest of the model uses the corrected behaviour: the strategies call `Storage.GetFileInformation`
and `Storage.DeleteReply`. The as-written versions are `Storage.GetFileInformationAsWritten`,
`Storage.CheckIfTheFileExistsAsWritten` and `Storage.DeleteReplyAsWritten`.
