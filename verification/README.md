# Store-and-forward log transport

A log message travels from a client library through a daemon to a central server. This project models the part of
that path where messages are stored, sent, acknowledged, encoded and limited, and proves that it keeps its promises:

- **Permanent FIFO** (`RingTable`, `FifoFile`, `FifoSpec`, `PermFifos`). Two bounded rings in memory and a file
  together behave as one queue with a read cursor and an acknowledgement cursor, through writes, reads,
  acknowledgements, flushes, clean stops, crashes between operations, and any number of crashes at any system calls of
  start-up cleaning.
- **Framing** (`Text`, `Framing`, `ServerConnection`, `FrameSenders`, `LineBuffers`, `TextLines`, `AckLines`). What a
  client sends piece by piece is what the server's incremental parser queues, whatever the pieces. The parser is
  specified one byte at a time and the class with its 5000-byte buffer refines that specification.
- **Transport** (`FileIds`, `FileQueues`, `ClientSteps`, `TransportClient`, `Protocol`, `ProtocolProgress`,
  `ServerTables`). The client's window over its permanent FIFO; and, for any number of clients and one server, what
  holds over every run with lost connections, retransmissions, interleaved old connections and reused connection slots,
  and what can always be reached. The client class and the server's table are proved to make the steps of that
  protocol.
- **Codec** (`Codec`, `Printers`, `Encoders`, `RecordTexts`, `ProtocolTables`, `Decoders`, `RoundTrips`,
  `DecodedRecords`). The bounded-buffer
  encoder with line splitting and truncation, the decoder that works in place, the conversion between protocol
  versions, and the round trip.
- **Transport cache** (`CacheNames`, `CacheRings`, `Spools`, `SpoolSpecs`, `TransportCaches`). The older queue of files,
  which spills to a directory and loads back in the order of the file names. The build of this version does not link it.
- **Rate limiters** (`FloodGuards`, `FloodSpecs`, `FloodCounts`, `AutoMutes`, `AutoMuteReports`).

Code that changes things step by step is a class or a method with loops; a datatype or a function gives its meaning,
methods are proved against it, and lemmas about whole runs are proved of it. Bytes are `char`s, of which only the
equality matters. Integers are unbounded.

Where the code and its documentation differ, the code is followed:

- The header of `permFIFO_file_clean` says that ids are given again from zero
  (`src/permanentFIFO.c:414-419`); they start at 1, and a file without acknowledged data keeps its ids.
- The flood guard announces that further messages are stored or dropped (`src/InfoLogger.cxx:731-739`). After a minute
  with fewer than 10 messages it resumes at once instead; `FloodSpecs.WithheldIff` states exactly when, and
  `FloodSpecs.FalseAnnouncement` gives runs where it does.
- The report of auto-mute prints a total (`src/InfoLogger.cxx:1300`) that the token's constructor does not initialise
  (`include/InfoLogger/InfoLogger.hxx:270-275`). `AutoMuteReports.TotalExactIff` states exactly when it is right and
  `AutoMuteReports.FirstReportIsUninitialised` gives a run where it is not.
- A file that can be sent is not always received: `Framing.ReceivedIffReceivable` states the exact condition (the
  source name is one word, the header line fits the client's buffer, and there is some data).

## Model

| member | source | states |
|---|---|---|
| `RingTable.CircularTable.constructor` | src/permanentFIFO.c:200-218 | a new table is empty |
| `RingTable.CircularTable.Write` | src/permanentFIFO.c:240-261 | the item joins the end of the contents, unless the table is full |
| `RingTable.CircularTable.Read` | src/permanentFIFO.c:265-289 | the oldest item leaves the table, unless it is empty |
| `RingTable.CircularTable.Release` | src/permanentFIFO.c:998-1020 | exactly the longest front part with ids up to the acknowledged one leaves the table |
| `FifoFile.UnackedIsSuffix` | src/permanentFIFO.c:516-538 | the search for the first record to keep finds exactly the unacknowledged payloads |
| `FifoFile.CleanedKeepsUnacked` | src/permanentFIFO.c:448-602 | a cleaned file promises exactly the unacknowledged payloads, in order, under ids above an acknowledgement of 0 |
| `FifoFile.CleanedIsIdempotent` | src/permanentFIFO.c:448-602 | cleaning a clean file changes nothing |
| `FifoFile.Disk.Clean` | src/permanentFIFO.c:420-609 | from any well-formed files cleaning ends within its three retries with the cleaned file and no old file (a new file is left only if it was alone at the start). The state is the list of system calls made, and wherever that list is cut the three files stand for the same payloads |
| `FifoFile.Disk.RecordLastId` | src/permanentFIFO.c:488-514 | without acknowledged data the records stay and the header gets the last id |
| `FifoFile.Disk.CopyUnacked` | src/permanentFIFO.c:516-600 | the unacknowledged records, renumbered, replace the file by way of the three names; no cut of the calls loses a payload |
| `FifoFile.Disk.CopyRecords` | src/permanentFIFO.c:541-576 | the new file holds the given payloads numbered from 1; a death inside loses none of them |
| `FifoFile.Disk.AppendRecord` | src/permanentFIFO.c:550-575 | the record joins the new file by two writes, and a death between them, which leaves a torn record, loses no payload |
| `FifoFile.CrashInsideCleaning` | src/permanentFIFO.c:448-602 | a process that dies after any of the system calls of cleaning leaves files whose cleaning makes a file with the payloads promised at the start |
| `FifoFile.CleanThroughDeaths` | src/permanentFIFO.c:420-609 | after any number of start-ups that each die at any system call of cleaning, the next complete one opens a file with exactly the payloads promised before the first |
| `FifoSpec.ReadsFollowWrites` | src/permanentFIFO.c:750-1085 | under every interleaving the payloads read are the written ones in order, none skipped or repeated |
| `FifoSpec.NothingLostWithoutCrash` | src/permanentFIFO.c:641-1085 | over any number of stops and restarts, acknowledged then pending payloads are exactly the pending and written ones, in order |
| `FifoSpec.CrashesOnlyDrop` | src/permanentFIFO.c:641-1085 | with crashes nothing acknowledged returns and no order changes: payloads can only be dropped |
| `PermFifos.ScanShortcut` | src/permanentFIFO.c:329-408 | records below the wanted id do not change what a scan loads |
| `PermFifos.RememberedOffset` | src/permanentFIFO.c:862-886 | in every reachable state, loading from the remembered position gives what a scan of the whole file gives |
| `PermFifos.PermFifo.constructor` | src/permanentFIFO.c:641-711 | after start-up the queue is a fresh one with exactly the payloads the files promised, with tables of the given size |
| `PermFifos.OpenedIsFresh` | src/permanentFIFO.c:696-708 | the fields read from a cleaned file are a valid state with nothing read or acknowledged |
| `PermFifos.PermFifo.CtSave` | src/permanentFIFO.c:293-324 | the disk table is appended to the file and emptied |
| `PermFifos.PermFifo.SaveTableDisk` | src/permanentFIFO.c:612-634 | saving, with the last id on disk, the acknowledgement flag and the time of the flush |
| `PermFifos.PermFifo.Flush` | src/permanentFIFO.c:1069-1085 | everything written becomes durable if the last flush is old enough, nothing else changes; an early flush changes nothing |
| `PermFifos.PermFifo.CtLoad` | src/permanentFIFO.c:329-408 | the table receives the records from the wanted id on that fit, with -3 exactly when it ends up full |
| `PermFifos.PermFifo.LoadFromTable` | src/permanentFIFO.c:815-860 | the items that follow the last one read are copied from the disk table, the first for the reader |
| `PermFifos.PermFifo.LoadFromFile` | src/permanentFIFO.c:862-883 | the client table receives what a scan from the remembered position gives; the position moves only at the end of the file |
| `PermFifos.PermFifo.Read` | src/permanentFIFO.c:750-902 | a read delivers the next payload of the queue, wherever it is, or nothing when all is read |
| `PermFifos.PermFifo.OfferToClient` | src/permanentFIFO.c:941-956 | the item joins the client table exactly when it is the expected one and there is room; an expected item that finds no room has the disk table saved |
| `PermFifos.PermFifo.PutInDiskTable` | src/permanentFIFO.c:957-968 | the item joins the disk table, which is saved first exactly when it is full |
| `PermFifos.PermFifo.Write` | src/permanentFIFO.c:909-985 | a write appends to the queue exactly the first `size` bytes, or for size 0 the string up to and with its NUL, and saves the disk table only to make room; it returns -1 for a negative size |
| `PermFifos.PayloadIs` | src/permanentFIFO.c:925-935 | the payload of a write in terms of the data alone: the first `size` bytes, or the string with its NUL |
| `PermFifos.WriteThenRead` | src/permanentFIFO.c:750-985 | a string written to an empty queue is what the next read delivers, with its NUL and without what follows it |
| `PermFifos.PermFifo.Ack` | src/permanentFIFO.c:987-1066 | an acknowledgement moves the acknowledgement cursor and nothing else, whether it truncates the file or not |
| `PermFifos.PermFifo.Destroy` | src/permanentFIFO.c:714-740 | after a clean stop the file promises all that is pending |
| `PermFifos.StopAndRestart` | src/permanentFIFO.c:641-740 | stopping and starting again is the abstract restart: exactly the unacknowledged payloads, in order |
| `PermFifos.CrashAndRestart` | src/permanentFIFO.c:420-711 | dying between operations and starting again is the abstract crash: exactly the payloads unacknowledged and on disk; lost are only payloads written last, no more than the disk table has places |
| `PermFifos.ImageHasSurvivors` | src/permanentFIFO.c:420-1085 | after a crash between operations the file promises exactly the payloads not acknowledged and on disk |
| `PermFifos.WriteSteps` | src/permanentFIFO.c:936-968 | the steps of a write, with up to two savings, amount to one write of the abstract queue |
| `PermFifos.AcknowledgedKeeps` | src/permanentFIFO.c:998-1056 | every state invariant survives an acknowledgement |
| `FileQueues.FileQueue.Read` | src/utility.c:420-441 | first in, first out |
| `FileQueues.FileQueue.Write` | src/utility.c:443-471 | the item joins the end unless the queue is full |
| `FileQueues.FileQueue.IsFull` | src/utility.c:473-493 | full means `size` items |
| `FileQueues.FileQueue.SpaceLeft` | src/utility.c:508-522 | the free places |
| `FileQueues.FileQueue.ReadIndex` | src/utility.c:524-553 | the item at a position, or nothing outside the queue |
| `Text.ScanPrintedInt` | src/transport_server.c:277 | "%d" of scanf reads back "%d" of printf, whatever non-digit follows |
| `Text.ScanPrintedDouble` | src/infoLoggerMessageDecode.c:166 | "%lf" of scanf reads back "%lf" of printf, in millionths |
| `Text.ScanDecimal` | src/infoLoggerMessageDecode.c:166 | "%lf" of scanf reads any decimal number with at most six decimals exactly, with or without sign and point, whatever follows it |
| `Framing.FeedInPieces` | src/transport_server.c:166-412 | parsing does not depend on how the stream is cut |
| `Framing.HeaderReadBack` | src/transport_client.c:794 | the header line is understood exactly for source names that are one word |
| `Framing.FrameReceived` | src/transport_server.c:272-381 | the bytes of one file, of any value, make the server queue that file, or close when its queue is full |
| `Framing.StreamReceived` | src/transport_server.c:166-412 | the stream of a list of files makes the server queue exactly these files, as many as the queue takes |
| `Framing.CutStreamReceived` | src/transport_server.c:166-412 | a stream cut anywhere makes it queue the first files of the list |
| `Framing.HandshakeThenStream` | src/transport_server.c:166-412 | from a new connection: after any first line the files of the stream are queued up to the room when READY can be sent; otherwise the connection closes with nothing queued |
| `Framing.BadLineCloses` | src/transport_server.c:276-335 | a line that is no header, a header without data, or a line other than the end line closes the connection, and neither that file nor anything after it is queued |
| `Framing.ReceivedIffReceivable` | src/transport_server.c:277-324 | a file is received unchanged if and only if its source is one word, its header line fits the client's buffer of 2500 bytes, and it has data |
| `Framing.CutHeaderFails` | src/transport_client.c:794-797 | a file whose header line is cut by the buffer is never received, whatever its data |
| `ServerConnection.Connection.constructor` | src/transport_server.c:583-594 | a new connection is an initial parser |
| `ServerConnection.Connection.FindNewline` | src/transport_server.c:235 | the first newline before any NUL |
| `ServerConnection.Connection.HandleLine` | src/transport_server.c:270-407 | a line, and the file data behind a header line, do what the byte-wise parser does with them |
| `ServerConnection.Connection.StartFile` | src/transport_server.c:286-323 | the data behind a header goes to the file, up to its size |
| `ServerConnection.Connection.ParseBuffer` | src/transport_server.c:230-409 | the parsing loop equals the byte-wise parse of the whole buffer; the unfinished line ends up at its start |
| `ServerConnection.Connection.KeepRest` | src/transport_server.c:236-262 | the unfinished line is kept, or the connection closed when it fills the buffer |
| `ServerConnection.Connection.ReceiveData` | src/transport_server.c:183-196 | data read directly to the file equals the byte-wise parse |
| `ServerConnection.Connection.ConnectionRead` | src/transport_server.c:166-412 | each read, of any size, does what parsing its bytes one by one does, and returns -1 exactly when the output queue timed out; indices stay in bounds and the line buffer is empty while data is received |
| `FrameSenders.FrameSender.Begin` | src/transport_client.c:728-731 | the next file becomes current and the frames to send grow by it |
| `FrameSenders.FrameSender.Finish` | src/transport_client.c:738-745 | the end line follows the data of the file |
| `FrameSenders.FrameSender.Refill` | src/transport_client.c:784-851 | the empty buffer is filled with the header, then the data, then the file is left, and sent, buffered and remaining bytes stay the frames of the started files |
| `FrameSenders.FrameSender.Send` | src/transport_client.c:179-216 | any number of bytes the socket takes leaves the front of the buffer |
| `FrameSenders.FrameSender.SendSome` | src/transport_client.c:179-216 | as many bytes are sent as the socket takes, from the front of what is owed |
| `FrameSenders.FrameSender.WireIsPrefix` | src/transport_client.c:738-866 | the bytes sent are at any time a prefix of the frames of the started files |
| `FrameSenders.ServerQueuesStarted` | src/transport_client.c:738-866 | end to end over a connection: partial sends and arbitrary reads make the server queue the first started files, and all of them when all was sent and received |
| `TextLines.LinesOfSum` | src/utility.c:282-337 | adding a chunk keeps the complete lines and continues the tail |
| `LineBuffers.LineBuffer.Allocate` | src/utility.c:195-223 | the buffer grows, keeping its text, unless it would exceed the limit |
| `LineBuffers.LineBuffer.Add` | src/utility.c:226-279 | all that the socket has is appended unless the buffer is full; -1 exactly at end of file |
| `LineBuffers.LineBuffer.GetLine` | src/utility.c:282-337 | if a newline comes before any NUL, the text before it leaves the buffer as a line and the text behind it stays; otherwise nothing happens |
| `LineBuffers.LinesInOrder` | src/utility.c:195-337 | under any interleaving of additions and extractions, of any bytes, the lines taken and those left are the lines of the whole stream in order, and the tail is kept |
| `LineBuffers.AllLinesTaken` | src/utility.c:282-337 | without a NUL in the stream, extracting until there is nothing more takes every complete line and leaves the tail |
| `LineBuffers.Drive` | src/utility.c:226-337 | a buffer driven through any operations gives the lines and keeps the text of that run; only a buffer near its size limit takes less than it is given |
| `AckLines.AckReadBack` | src/transport_server.c:434-436 | the client reads back the ids of the acknowledgement line |
| `TransportClient.Client.constructor` | src/transport_client.c:904-954 | a new client has an empty window over its permanent FIFO and is a new client of the protocol |
| `TransportClient.Client.Connect` | src/transport_client.c:574-583 | a new connection starts again from the oldest file of the window: the protocol's disconnection and connection |
| `TransportClient.Client.SendMsg` | src/transport_client.c:1132-1140 | the message up to its NUL, which is kept, joins the permanent FIFO, nothing else changes: the protocol's write |
| `TransportClient.Client.RemoveAcknowledged` | src/transport_client.c:630-672 | files leave the window and are acknowledged in order, never the current one, whatever the server claims; these are exactly the removals the protocol allows, and no further one is possible |
| `TransportClient.Client.FindFile` | src/transport_client.c:680-726 | a file is found exactly when one lies at the index, or the window has room and the permanent FIFO an item not read; it comes from the window first |
| `TransportClient.Client.NextFile` | src/transport_client.c:674-746 | an idle sender starts the file at the window index exactly when there is one, a sender that only owes the end line gets it ready, and any other one goes on; it is at most one start of the protocol |
| `TransportClient.Client.ReadCommands` | src/transport_client.c:587-628 | the last well-formed acknowledgement line counts, the lines are the protocol's acknowledgements, and a shutdown is noted exactly when a line asks for it |
| `TransportClient.Client.Iterate` | src/transport_client.c:585-866 | one turn of the loop keeps the window invariant, releases only files not above the acknowledgement, and is a sequence of steps the protocol allows its client; it makes progress unless the socket does not or there is nothing to send |
| `TransportClient.SendPending` | src/transport_client.c:585-866 | enough turns put all files there are on the wire, complete: all that is written and not acknowledged, or a full window of it |
| `TransportClient.MessageArrives` | src/transport_client.c:574-1140 | a message given to the client and sent in pieces of any size is queued by a server with room, with exactly its text |
| `TransportClient.GuardIsCan` | src/transport_client.c:633-642 | the conditions of the removal loop hold exactly when the protocol allows a removal |
| `TransportClient.Client.Transmit` | src/transport_client.c:784-860 | unless the socket fails, the first bytes of the refilled buffer are sent, as many as it takes; the current file is dropped or its end line completed exactly as the protocol's client does |
| `ClientSteps.AcksRead` | src/transport_client.c:599-613 | reading acknowledgement lines one by one leaves the client with the last one |
| `TransportClient.ConnectionDelivers` | src/transport_client.c:574-866 | on a connection of a client whose name is one word and fits the header buffer, the server queues a prefix of the started files, with increasing ids |
| `Protocol.StepKeeps` | src/transport_client.c:574-873 | every step of clients, network and server keeps the invariant on windows, frames, queue, slots and acknowledgements |
| `Protocol.Reached` | src/transport_server.c:490-639 | the invariant holds after every run |
| `Protocol.AcknowledgedOnlyIfProcessed` | src/transport_client.c:599-672 | over every run an item is acknowledged to the permanent FIFO only when it and all items before it were processed |
| `Protocol.ReceivedInOrderAlways` | src/transport_server.c:328-379 | over every run each received id was preceded by all smaller ones: delivery is at least once, first receptions in order |
| `Protocol.ReceivedIsRange` | src/transport_server.c:328-379 | after every run the ids received from a client are its first ones up to some id that it has written, without a gap |
| `Protocol.AcksAreOwnAndIncrease` | src/transport_server.c:995-1027 | acknowledgements on a connection strictly increase and name files processed from that very connection |
| `Protocol.AckNamesLastProcessed` | src/transport_server.c:417-445 | an acknowledgement names the largest id processed from its connection |
| `Protocol.ResendsFromOldest` | src/transport_client.c:574-581 | after a reconnection the first file sent is the oldest one not acknowledged |
| `ProtocolProgress.AckIsDue` | src/transport_server.c:995-1027 | after every run a slot counts exactly the files of its connection processed since the last acknowledgement, and one can be sent exactly when the last file processed is not acknowledged |
| `ProtocolProgress.EverythingCanBeAcknowledged` | src/transport_client.c:574-873 | from every state a run can reach, the run can go on so that everything a client has written is processed and acknowledged |
| `Protocol.ConnectKeeps` | src/transport_client.c:574-583 | a reconnection keeps the invariant while the old connection's files may still arrive |
| `Protocol.RemoveKeeps` | src/transport_client.c:630-672 | releasing an acknowledged file keeps the invariant |
| `Protocol.AcceptKeeps` | src/transport_server.c:578-600 | giving a free slot to a new client keeps the invariant |
| `Protocol.ReceiveKeeps` | src/transport_server.c:328-379 | queueing a received file keeps the invariant |
| `Protocol.ProcessKeeps` | src/infoLoggerServer.cxx:184-269 | processing the head of the queue and noting its acknowledgement keeps the invariant |
| `Protocol.SendAckKeeps` | src/transport_server.c:417-445 | sending an acknowledgement keeps the invariant |
| `ServerTables.ServerTable.ConnectionClose` | src/transport_server.c:137-161 | closing frees the slot and no other, as the protocol step does |
| `ServerTables.ServerTable.AcceptConnection` | src/transport_server.c:578-606 | the first free slot is taken, under an identifier never used before, as the protocol step does; without one nothing changes |
| `ServerTables.ServerTable.AcknowledgeFiles` | src/transport_server.c:417-445 | above the minimum, and if the socket takes it, the protocol's acknowledgement is sent as a line; otherwise nothing changes |
| `ServerTables.ServerTable.AckFile` | src/transport_server.c:995-1027 | the slot is updated only for the connection that sent the file, as the protocol step does, then acknowledged when many are due |
| `ServerTables.AckedAtOnce` | src/transport_server.c:995-1027 | after every run a slot is due to be acknowledged at once exactly when 21 files of its connection were processed since the last acknowledgement |
| `ServerTables.SentLineIsRead` | src/transport_server.c:434-436 | the line sent for an acknowledgement is that acknowledgement to the client |
| `Printers.Printer.constructor` | src/infoLoggerMessage.c:126-150 | an empty NUL-terminated text |
| `Printers.Printer.Print` | src/infoLoggerMessage.c:165-193 | the buffer holds, NUL-terminated, what fits of all the text given, and the error flag says whether it all fits |
| `Printers.Printer.CutAfter` | src/infoLoggerMessage.c:261-270 | the text just printed is cut at the end of its line, also when it had overflowed the buffer |
| `Printers.Printer.SanitizeFrom` | src/infoLoggerMessage.c:272-278 | the special characters of the text just printed become '?', nothing before it changes |
| `Printers.Printer.EndWith` | src/infoLoggerMessage.c:322-325 | the text is cut at a position and ended with the mark |
| `Encoders.PrintRecord` | src/infoLoggerMessage.c:241-295 | the record is printed up to the first field that does not fit, with the start of its last string |
| `Encoders.CutText` | src/infoLoggerMessage.c:302-320 | the truncation arithmetic puts the mark where the specification of cut texts wants it |
| `Encoders.EndRecord` | src/infoLoggerMessage.c:296-327 | the record is completed exactly when it fits and leaves room for a later mark, else the text is truncated or given up |
| `Encoders.Encode` | src/infoLoggerMessage.c:195-351 | for every message, size and split field: 0, -1 or an error code with exactly the specified text, always NUL-terminated in the buffer; bad arguments leave the buffer alone |
| `RecordTexts.DoneIff` | src/infoLoggerMessage.c:228-350 | encoding succeeds exactly when all records fit and those before the last leave room for a mark; the text is then all the records |
| `RecordTexts.FailedIff` | src/infoLoggerMessage.c:308-321 | it fails exactly when the first record is too long and cannot be cut in its last field |
| `RecordTexts.CutShape` | src/infoLoggerMessage.c:302-327 | a truncated text is complete records, then one cut inside its last field, just before the mark that ends the buffer, whenever that field is a string that begins early enough, else the mark in place of the last newline |
| `RecordTexts.OneRecordPerLine` | src/infoLoggerMessage.c:236-343 | the lines of encoded records are exactly the records |
| `ProtocolTables.FindMatch` | src/infoLoggerMessage.c:395-404 | the first field of the same type and name, or -1 |
| `ProtocolTables.Check` | src/infoLoggerMessage.c:366-390 | a protocol is accepted exactly when it is well defined |
| `ProtocolTables.ProtocolTable.Init` | src/infoLoggerMessage.c:359-418 | the table is ready exactly when all protocols are well defined, and then converts by type and name |
| `ProtocolTables.ProtocolTable.Convert` | src/infoLoggerMessage.c:420-449 | each value moves to its matching field, the other fields become undefined; fails only before initialisation |
| `ProtocolTables.ConvertedByName` | src/infoLoggerMessage.c:392-412 | with distinct names a field receives the value of the field of its name and type, or nothing |
| `Decoders.ReadField` | src/infoLoggerMessageDecode.c:140-180 | the slot read in place stands for the value of the token; empty strings and non-positive numbers are undefined |
| `Decoders.SkipToHash` | src/infoLoggerMessageDecode.c:129-131 | stops at the next separator or the end |
| `Decoders.EndField` | src/infoLoggerMessageDecode.c:115-138 | the field is terminated in place; only the last one extends to the end of the text |
| `Decoders.ReadStays` | src/infoLoggerMessageDecode.c:115-184 | later separators overwritten do not change strings already found |
| `Decoders.DecodeFields` | src/infoLoggerMessageDecode.c:114-184 | succeeds exactly when all separators are there, and the values in the final buffer are those of the original text |
| `Decoders.FindVersion` | src/infoLoggerMessageDecode.c:96-108 | the first protocol of that version |
| `Decoders.Decode` | src/infoLoggerMessageDecode.c:43-193 | succeeds exactly on a record of a known protocol that can be converted; the values in the overwritten buffer are those of the original record, moved to the first protocol |
| `Decoders.ConvertedValues` | src/infoLoggerMessage.c:420-449 | after conversion each field holds the value of the field of the same name and type, or is undefined |
| `RoundTrips.DecodeRecord` | src/infoLoggerMessageDecode.c:43-184 | decoding an encoded record gives its protocol and its values normalised, also with a NUL behind it |
| `RoundTrips.DecodeEncoded` | src/infoLoggerMessage.c:195-351 | a successful encoding has one line per record, and each line decodes to the normalised values of its record |
| `RoundTrips.DecodeConverted` | src/infoLoggerMessageDecode.c:43-193 | the whole way: each line of a successful encoding in any protocol decodes to a record of the first protocol, each field of which holds the normalised value of the field of its name and type, or nothing |
| `DecodedRecords.DecodedMessage` | src/infoLoggerMessage.c:195-351 | decoding the lines of a successful encoding gives back the message: a line of the split field each; strings with '?' for exactly the characters '*', '#' and newline; positive numbers; empty strings and other numbers become undefined |
| `DecodedRecords.DecodedTokens` | src/infoLoggerMessageDecode.c:79-184 | a record of any writer is understood exactly when its version is that of a protocol and it has as many tokens as fields; each field is then the value of its token, the last one everything from its token on |
| `DecodedRecords.NoRecordIn` | src/infoLoggerMessageDecode.c:75-92 | a text without the leading '*' or without separator is no record |
| `DecodedRecords.TokenValues` | src/infoLoggerMessageDecode.c:140-180 | a string token is itself unless it is empty, a number token the number at its start unless that is not positive |
| `CacheNames.NamesSortLikeIds` | src/transport_cache.c:619-628 | zero-padded names sort exactly like ids, for major ids below 10^8 and minor ids below 10^10 |
| `CacheNames.NameReadBack` | src/transport_cache.c:286-319 | the id is read back from the name of a spool file |
| `CacheRings.CacheRing.SpaceLeft` | src/transport_cache.c:149-169 | the free places, one of which is never used |
| `CacheRings.CacheRing.Add` | src/transport_cache.c:214-223 | a file joins the end; it is the first new one if all were read |
| `CacheRings.CacheRing.Next` | src/transport_cache.c:246-274 | the first file not read yet, if there is one |
| `CacheRings.CacheRing.DropFirst` | src/transport_cache.c:365-378 | the oldest file leaves, read or not, and the read mark follows |
| `Spools.AboveIsRest` | src/transport_cache.c:459-473 | the files on disk above the table's largest id are exactly the live files missing from the table |
| `TransportCaches.WriteHolds` | src/transport_cache.c:565-616 | writing a file keeps the directory sorted by name with exactly one file per id |
| `TransportCaches.ScanHolds` | src/transport_cache.c:286-319 | the directory scan selects exactly the files above the bound, in the order of their ids |
| `TransportCaches.UnlinkHolds` | src/transport_cache.c:381-400 | deletion unlinks exactly the files up to the given id |
| `TransportCaches.TransportCache.UnlinkSpool` | src/transport_cache.c:386-400 | unlinking the scanned names one by one leaves exactly the other files |
| `TransportCaches.TransportCache.constructor` | src/transport_cache.c:79-115 | the files found on disk are live again, in order, none read |
| `TransportCaches.TransportCache.FileWrite` | src/transport_cache.c:565-616 | a file of the table is on disk afterwards, and nothing else changes |
| `TransportCaches.TransportCache.Save` | src/transport_cache.c:525-561 | every file of the table is on disk; the queue is unchanged |
| `TransportCaches.TransportCache.Insert` | src/transport_cache.c:173-242 | a file is accepted exactly when it is newer than everything so far, and joins the queue; it is in memory at once when there is room and no older file is on disk only, and a full table is saved |
| `TransportCaches.TransportCache.GetNext` | src/transport_cache.c:246-274 | delivers the next file of the queue whenever it is in memory |
| `TransportCaches.TransportCache.Delete` | src/transport_cache.c:331-406 | exactly the files up to the id leave the queue, in memory and on disk |
| `TransportCaches.TransportCache.Update` | src/transport_cache.c:409-521 | the queue is unchanged, and the table holds all of it or is full; files in the table are one update nearer to be saved, or all saved when a clock runs out |
| `TransportCaches.TransportCache.Tick` | src/transport_cache.c:427-443 | all clocks of the table go down by one, or the whole table is saved when one of them runs out, and nothing else changes |
| `TransportCaches.UpdateOften` | src/transport_cache.c:409-521 | after ten updates every file of the table is on disk |
| `TransportCaches.TransportCache.Fill` | src/transport_cache.c:445-518 | files from disk continue the table without gap or repetition |
| `TransportCaches.TransportCache.Close` | src/transport_cache.c:118-146 | the directory holds exactly the live files, so that opening it again gives the same queue |
| `TransportCaches.Reopen` | src/transport_cache.c:79-146 | closing and opening again keeps every live file in order, as a queue that survives a shutdown should |
| `SpoolSpecs.NoFileSkipped` | src/transport_cache.c:173-521 | over any run, files unread or accepted are, once each, delivered, deleted unread, or still unread |
| `SpoolSpecs.DeliveredInOrder` | src/transport_cache.c:246-274 | over any run the delivered ids strictly increase |
| `FloodGuards.FloodGuard.Count` | src/InfoLogger.cxx:707-720 | the statistics of the second and minute intervals |
| `FloodGuards.FloodGuard.FloodReset` | src/InfoLogger.cxx:476-489 | the state after a reset |
| `FloodGuards.FloodGuard.Push` | src/InfoLogger.cxx:705-779 | the switch with its fall-through does one step of the specified machine |
| `FloodSpecs.StepKeeps` | src/InfoLogger.cxx:705-779 | each step adds its message once and keeps counts, limits and the open file right |
| `FloodSpecs.RunKeeps` | src/InfoLogger.cxx:476-489 | over any run: each message is one of emitted, stored or dropped, in order; at most 1000 are stored per episode; resumptions report exact counts; at most 501 and 1001 are emitted per counting interval; the file is open exactly in mode 1 |
| `FloodSpecs.WithheldIff` | src/InfoLogger.cxx:725-772 | at the end of every run without a flood going on, a message in excess is announced as stored or dropped; it is withheld exactly when the last full minute was not quiet, and otherwise emitted after the announcement |
| `FloodSpecs.FalseAnnouncement` | src/InfoLogger.cxx:705-779 | a run for any number of messages below 10 in the first minute and a burst after it, in which the announcement is false |
| `FloodCounts.RunCounts` | src/InfoLogger.cxx:705-720 | after every run the counters and interval starts of the guard are what the arrivals and their times say |
| `FloodCounts.EmittedAtOnceIff` | src/InfoLogger.cxx:722-745 | after every run without a flood going on, a message is emitted at once exactly when at most 500 messages and warnings arrived in its second and at most 1000 in its minute; otherwise a flood is announced |
| `FloodCounts.ResumedIff` | src/InfoLogger.cxx:746-779 | after every run with a flood going on, a message is withheld exactly when the last full minute was not quiet; after a quiet one the guard reports what it withheld and emits it |
| `FloodCounts.FullFileIff` | src/InfoLogger.cxx:746-779 | when the file is full the guard says so and drops the message, unless the minute has turned quiet by then |
| `AutoMutes.AutoMuteToken.Log` | src/InfoLogger.cxx:1272-1334 | a call does one step of the specified token and tells whether its message was discarded |
| `AutoMutes.StepCounts` | src/InfoLogger.cxx:1288-1331 | a call logs its message once or counts it once as discarded |
| `AutoMutes.EveryCallCounted` | src/InfoLogger.cxx:1277-1319 | over any run, logged and discarded messages add up to the calls |
| `AutoMutes.SpanBound` | src/InfoLogger.cxx:1286-1295 | any span shorter than the interval, anywhere in a run, lets through at most 2*maxMsg-2 messages, or one for a limit of one |
| `AutoMutes.BoundReached` | src/InfoLogger.cxx:1286-1331 | for every limit and every interval of at least 1, a run that reaches the bound |
| `AutoMuteReports.ReportsAreExact` | src/InfoLogger.cxx:1298-1312 | over any run of a new token, reports give the exact number discarded since the previous one, at least one interval ago |
| `AutoMuteReports.TotalExactIff` | src/InfoLogger.cxx:1300-1328 | over any run of a new token, the total in a report is exact if and only if it is not the first report, or it comes after at least as many calls as the limit, or the uninitialised value is 0 |
| `AutoMuteReports.FirstReportIsUninitialised` | src/InfoLogger.cxx:1277-1308 | two calls after which the report prints the uninitialised total |
| `AutoMuteReports.RestoredIff` | src/InfoLogger.cxx:1286-1313 | after every run: a call reports exactly at the end of an interval; full logging is back, for as many messages as the limit, exactly when none was discarded since the last report or none came for an interval; otherwise only that message is logged |

## Left out

- `PermFifos.PermFifo.Write`: does not model failing writes and allocations, nor the rollback of the client table (`src/permanentFIFO.c:969-973`): ids advance even then, and the queue is no longer one history.
- `PermFifos.PermFifo.Read`: does not model waiting and timeouts; it is the call with timeout 0, or the end of a wait.
- `PermFifos.PermFifo.Ack`: takes the truncation and the header write as one step; the recovery claim is not true between these two system calls. It asks for ids in order, up to the last one read, as the transport client calls it.
- `PermFifos.ImageHasSurvivors`: crash points are between operations; records torn while a table is saved are not modelled, only those torn by cleaning (`FifoFile`).
- `FifoFile.Disk.Clean`: models the call without backup, on files without corruption; the error codes for corrupt files and the second attempt with a backup are not modelled.
- Byte offsets in the FIFO file: the position of a record is its index.
- The memory-only permanent FIFO (no path).
- Machine width: ids, sizes and counters are unbounded integers; `%d` does not overflow.
- `TransportClient.Client.FindFile`: models the message mode, with one blob per file in memory; files on disk, lists of blobs and the output queue of the other mode are not modelled.
- `TransportClient.Client.ReadCommands`: does not model the handshake before the connected state.
- `ServerConnection.Connection.ConnectionRead`: the output queue that stays full for ten attempts is a number of free places that runs out; statistics and logging are not modelled.
- `Protocol.StepKeeps`: works on whole files. A file counts as sent with its last byte; the classes for framing and parsing show that a cut stream carries a prefix of the files. The parser class is not tied to the protocol's `Receive` step other than by this.
- `Protocol.Reached`: starts from clients that have just opened their permanent FIFO and a new server; a client that restarts is a new client, a server restart is not modelled.
- Threads and locks: each section under a lock is one step. Watchdog, connection timers, select and poll are choices of which step comes next and of how many bytes a socket takes.
- `LineBuffers.Drive`: does not drive the end of file; that is in the contract of `LineBuffers.LineBuffer.Add`.
- The proxy commands and `src/transport_proxy.c`, and the UDP server.
- `TransportCaches.TransportCache.Insert`: is about files that are not on disk yet, with ids whose names have their usual length; write errors, the sharing of file structures and the lost source name are not modelled.
- `TransportCaches.TransportCache.Delete`: is about ids with a major id of at least 0; -1 switches the filter of the scan off. The directory holds only spool files.
- The line splitting of `src/infoLoggerD.cxx`: the model starts at complete lines.
- `Encoders.Encode`: null pointers and strings that are null although defined are not modelled; `%lf` prints exact millionths, without rounding, infinities or NaN.
- `Text.ScanPrintedDouble`: the scanner modelled reads decimal numbers without exponent and drops decimals after the sixth; hexadecimal, `inf` and `nan` are not read.
- `Decoders.Decode`: one blob; a chain of blobs, the copy of the message for the error log and the recorded string lengths are not modelled.
- `FloodGuards.FloodGuard.Push`: models the code from the statistics on, with flood protection enabled; the warnings of the guard are not filtered, and warnings and reset of one call share one time.
- `AutoMuteReports.TotalExactIff`: is about limits of at least 1; with a limit of 0 only a quiet period starts the total over.
- `AutoMutes.AutoMuteToken.Log`: the token is used by one thread; the count does not wrap around.
- Text of log messages, database and browser back-ends, configuration, and the script interfaces.
