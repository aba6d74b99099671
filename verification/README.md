# DroidMole: a verified model

DroidMole runs an Android emulator behind an agent: clients start and stop it over remote calls, watch its
screen as a video stream, open shells, move files, and read logs. This project models the parts of it whose
correctness is not visible from one function, and proves what they promise over every input, every schedule
and every failure of the transport.

How it is built:

* `Broadcaster.dfy`: the "latest value" channel, as a machine of critical sections over any number of
  goroutines and listeners, and as the objects whose methods are those sections.
* `Lifecycle.dfy`: the server's handlers, the emulator's callbacks and the heartbeat under one mutex, with the
  channel above for publication; then the server object.
* `Wire.dfy`, `RawConnection.dfy`, `Rpc.dfy`: the byte formats of an ADB connection as pure writers and readers,
  the connection object over a transport that may split, cut off or fail any transfer, and remote streams.
* `SyncFormat.dfy`, `AdbSync.dfy`, `SyncRelay.dfy`: listings, pulls and pushes: the device's formats with an
  independent decoder, the ADB side, the agent's relay, the client library, and all of them end to end.
* `Shell.dfy`: the shell multiplexer, with both receivers, the select loop, shutdown and panic recovery as a
  machine, the same goroutines over the real connection and streams, and the client's session.
* `Vpx.dfy`, `Display.dfy`, `Viewer.dfy`: colour conversion into the encoder's strided image, the keyframe
  machine of a display stream, and the viewers of the demo server.
* `EmulatorLogs.dfy`, `Tracer.dfy`, `Syslog.dfy`, `Ramdisk.dfy`: the error report of an emulator's output, the
  ptrace loop of the init injector, the fan-out of system log lines, and the ramdisk rewriter.

Machines and formats are functions; code that changes things in place is a class or a method with loops, and
is proved against those functions. Failures of the world are choices nobody controls: a transport read returns
any positive number of bytes, a write takes any part, a remote send may fail at any point, ptrace calls give
any answer, an encoder makes any packets, a select takes either channel, a map comes up in any order.

Sample ranges are those of section 2.5.3 of ITU-R BT.601-7, and floats round as section 4.3.1 of IEEE 754 says, to
the nearest and ties to even. The connection's framing is that of the Android
Open Source Project's ADB protocol overview.

## What was found

Some things one would expect of this code hold only under a condition. Each has its exact condition or a
concrete run in the table:

* A listener of the channel must not be shared, and unshared ones can panic exactly from 2^64 publications on.
* A stop that fails, or a started callback later than the exit, separates the server's state from the emulators.
* Messages above 65535 bytes do not survive hex framing, and a length field of a minus sign and three hex digits
  that are not all zero crashes the reader.
* An empty DATA frame in the middle of a pull looks like the end to the client.
* A terminal's name with a comma or a colon in it is not what the device reads out of the shell's command.
* An exit blob without a byte can kill the agent exactly when nothing but output stands in front of it.
* Odd frames do not fit the conversion buffer, but for sizes where the float rounds up far enough, and
  frames of more than a third of 2^32 pixels are read from wrong bytes in part.
* Keyframe timing is kept in 32 bits. It follows the history exactly as long as no interval that has passed falls
  below itself when its milliseconds are cut to 32 bits, and no other picture comes at a multiple of 2^32 pictures
  of one size in a row.
* A ramdisk whose init was already replaced gets two records of the same name when it is patched again.

## Model

| member | source | states |
|---|---|---|
| `BroadcastProtocol.EveryRunIsSafe` | agent/util/broadcaster/broadcast.go:32-79 | In every interleaving of Broadcast, Close, Listener and Wait over any number of listeners, each used by one goroutine at a time and with fewer than 2^64 publications, the panic is not reached; each listener's deliveries rise strictly in generation, carry the value published at that generation, and only Closed follows Closed. |
| `BroadcastProtocol.NoUpdateIsLost` | agent/util/broadcaster/broadcast.go:40-79 | In every reachable state a sleeper holds the newest generation and the channel is open; a listener that is behind returns the newest value on its very next step, even on a closed channel if its call was woken; on a closed channel every new Wait returns Closed. |
| `BroadcastProtocol.EveryListenerSeesASubsequence` | agent/util/broadcaster/broadcast.go:32-79 | What a listener is given is a subsequence of what was published, in publication order. |
| `BroadcastProtocol.NextKeepsInv` | agent/util/broadcaster/broadcast.go:32-79 | Every critical section of every method keeps the invariant that ties listeners, sleepers and woken callers to the published history. |
| `BroadcastProtocol.RunKeepsInv` | agent/util/broadcaster/broadcast.go:32-79 | So does every run, and it counts the publications. |
| `BroadcastProtocol.LogPicksInOrder` | agent/util/broadcaster/broadcast.go:53-79 | The generations of a listener's log are rising positions in the published sequence. |
| `BroadcastProtocol.PanicsIffWrapped` | agent/util/broadcaster/broadcast.go:32-79 | A run of unshared listeners with exactly n publications can reach the panic if and only if n is at least 2^64, which wraps the generation counter. |
| `BroadcastProtocol.SharedListenerPanics` | agent/util/broadcaster/broadcast.go:53-79 | Two goroutines that share a listener reach the panic after one publication. |
| `Broadcaster.Broadcaster.Broadcast` | agent/util/broadcaster/broadcast.go:32-38 | The object's fields become those of a publication, and every sleeper is woken. |
| `Broadcaster.Broadcaster.Close` | agent/util/broadcaster/broadcast.go:40-45 | The channel is closed, nothing else changes, and every sleeper is woken. |
| `Broadcaster.Broadcaster.NewListener` | agent/util/broadcaster/broadcast.go:47-51 | A new listener has seen nothing. |
| `Broadcaster.Listener.WaitEnter` | agent/util/broadcaster/broadcast.go:53-64 | Wait up to its return or its sleep does what the protocol's critical section says, and lastGeneration moves only with a delivery. |
| `Broadcaster.Listener.WaitResume` | agent/util/broadcaster/broadcast.go:63-79 | Wait from the wake-up on: one test, not repeated, with a delivery, Closed or the panic. |
| `Lifecycle.StepKeepsConsistent` | agent/server/server.go:97-149 | Every start, stop, connected, started, exit, heartbeat and watcher step keeps: state Error has an error, every publication is the image of the state at its time, and the published value is current unless a failed start or stop is unpublished. The only step that crashes is a stop request while Running without an emulator; a heartbeat always publishes. |
| `Lifecycle.PublishedStateIsCurrent` | agent/server/server.go:97-123 | On every history: no nil error is dereferenced, the published value is starting, running, off or error exactly as the state is and carries exactly its error's text, unless a failed start or stop came since, and the next heartbeat makes them agree. |
| `Lifecycle.PublishedFollowsTheEmulator` | agent/server/server.go:106-149 | On every disciplined history with nothing unpublished: running is published if and only if there is a live emulator whose started callback came, starting if and only if there is a live one whose callback did not come, and off or an error if and only if none lives. |
| `Lifecycle.ExitIsReported` | agent/server/emulator/emulator.go:230-249 | An exit is published as off if it was clean, or a kill that was requested; every other one as an error with the wait's text and the last error of the output. |
| `Lifecycle.StartIsServed` | agent/server/controller.go:38-65 | From an agreeing state a launch is tried exactly when no emulator lives and is published as starting; a failed one is not published, and the next heartbeat publishes its error; otherwise nothing changes. |
| `Lifecycle.FailedStopIsReported` | agent/server/controller.go:67-88 | A stop that fails, for the system's reason or because a graceful one comes before the connection, forgets the emulator, and the next heartbeat publishes that error. |
| `Lifecycle.AgreementIsLostExactlyBy` | agent/server/controller.go:38-88 | From a state where at most one emulator lives and state and emu say which one, a step leaves such a state exactly when it is not a failing stop nor a started callback of an exited emulator that turns the state to Running. |
| `Lifecycle.DisciplinedHistoriesAgree` | agent/server/controller.go:38-88 | On every history where started callbacks precede exit callbacks and no stop fails, at most one emulator lives, the state is Starting or Running exactly for that one, and nothing crashes. |
| `Lifecycle.WatchersSeePublishedStatesInOrder` | agent/server/controller.go:21-36 | Every StreamState watcher is given a subsequence of the published values, in order, and each of these says what the server's state was when it was published. |
| `Lifecycle.FailedStopAllowsTwoEmulators` | agent/server/controller.go:67-88 | A stop that fails forgets a live emulator, and the next start makes a second one. |
| `Lifecycle.StaleStartedCrashesStop` | agent/server/server.go:142-149 | A started callback after its emulator's exit can leave Running without any emulator, and a stop request then dereferences nil. |
| `Lifecycle.CallbackKeepsConsistent` | agent/server/emulator/emulator.go:230-249 | The callbacks of the emulator's goroutines keep consistency and cannot crash. |
| `Server.EmulatorHandle.Stop` | agent/server/emulator/emulator.go:351-366 | A forced stop records the request and kills; a graceful one is refused until the emulator is connected. |
| `Server.EmulatorHandle.FinalError` | agent/server/emulator/emulator.go:241-248 | A kill that was requested is no error; any other failed wait is one, with the last error of the output. |
| `Lifecycle.KilledOnRequestIsOff` | agent/server/emulator/emulator.go:241-248 | An emulator that was asked to die dies without an error: whatever the forced stop returned and whatever came in between, its exit by SIGKILL leaves the server stopped, with no error, and published as off. |
| `Server.Server.BroadcastState` | agent/server/server.go:106-123 | The value published says what the server's state is: starting, running, off, or error with the stored text. |
| `Server.Server.OnEmulatorExit` | agent/server/server.go:125-140 | The exit's state and error are stored, and published as off, or as an error with its text. |
| `Server.Server.OnEmulatorStarted` | agent/server/server.go:142-149 | The state becomes Running whatever it was, and running is published. |
| `Server.Server.StartEmulator` | agent/server/controller.go:38-65 | Refused unless stopped or in error; a launch is published as starting, a failed launch is stored but not published. |
| `Server.Server.StopEmulator` | agent/server/controller.go:67-88 | Refused unless running; a failed stop is stored with the emulator forgotten, and nothing is published. |
| `Wire.WordBytes` | agent/server/adb/sync.go:74-75 | A 32-bit word is written with its lowest byte first. |
| `Wire.WordValue` | agent/server/adb/raw.go:138-142 | And read so. |
| `Wire.HexMessageRoundTripIff` | agent/server/adb/raw.go:75-84 | A hex-prefixed message in front of any bytes is read back, with exactly those bytes left, if and only if it is at most 65535 bytes long. |
| `Wire.HexMessageLayout` | agent/server/adb/raw.go:75-84 | A message of 4096a + 256b + 16c + d bytes starts with the four lower-case hex digits of a, b, c and d. |
| `Wire.FieldReads` | agent/server/adb/raw.go:115-121 | A length field of four hex digits of either case is that number, and of a sign and three digits that number with its sign. |
| `Wire.OtherFieldsDoNotRead` | agent/server/adb/raw.go:115-121 | A field with any other byte in it is no length. |
| `Wire.ShellFrameRoundTripIff` | agent/server/adb/raw.go:131-181 | A shell blob in front of any bytes is read back exactly if and only if its data is shorter than 2^32 bytes. |
| `Wire.ShellFrameLayout` | agent/server/adb/raw.go:163-181 | The id comes first, then the length's bytes from the lowest to the highest, then the data. |
| `Wire.HexMessagesReadBack` | agent/server/adb/raw.go:75-129 | Any sequence of such messages written back to back is read back as that sequence. |
| `Wire.ShellFramesReadBack` | agent/server/adb/raw.go:131-181 | Any sequence of shell blobs written back to back is read back in front of whatever follows. |
| `Wire.RepliesReadBack` | agent/server/adb/raw.go:183-208 | Any list of command replies, OKAY or FAIL with a message, is read back and leaves the stream at the next reply. |
| `Wire.StatusWords` | agent/server/adb/raw.go:96-105 | The status that accepts is the word OKAY; the one a device sends otherwise is FAIL. |
| `Wire.ReplyReadsIff` | agent/server/adb/raw.go:183-208 | A stream is read as an acceptance with a rest exactly when it is the letters OKAY and that rest, and as a refusal exactly when its first four bytes are others and a hex-framed message stands behind them. |
| `Wire.HexMessageCrashesIff` | agent/server/adb/raw.go:107-128 | A length field crashes the reader if and only if it is a minus sign and three hex digits that are not all zero. |
| `Wire.MinusOneCrashes` | agent/server/adb/raw.go:115-121 | The field -001 does, whatever follows. |
| `RawConnection.Conn.ReadFull` | agent/server/adb/raw.go:86-94 | However the transport splits the bytes, exactly the wanted number is returned and the rest is left. |
| `RawConnection.Conn.WriteRaw` | agent/server/adb/raw.go:59-73 | Success means the whole packet went out; anything less closes the connection with a prefix sent. |
| `RawConnection.Conn.WriteMessage` | agent/server/adb/raw.go:75-84 | The hex-framed message goes out whole, or a prefix of it and the connection is closed. |
| `RawConnection.Conn.ReadHexPrefixedBlob` | agent/server/adb/raw.go:107-129 | The reader is the pure reader of the format: same value, same rest; closed on every error; a negative length crashes. |
| `RawConnection.Conn.ReadShellBlob` | agent/server/adb/raw.go:131-150 | The reader is the pure reader of shell blobs, and closes on every error. |
| `RawConnection.Conn.WriteShellBlob` | agent/server/adb/raw.go:163-181 | The framed blob goes out whole, or a prefix of it and the connection is closed. |
| `RawConnection.Conn.SendCommand` | agent/server/adb/raw.go:183-208 | Exactly one message is written and, when writing succeeds, exactly one reply consumed; a refusal leaves the connection open and aligned, everything else that goes wrong closes it. |
| `RawConnection.Exchange` | agent/server/adb/raw.go:183-208 | Any commands sent one after the other over a connection whose stream answers them: the answers come in their order and both streams stand at the next command, or a write failed and the connection is closed with a prefix sent. |
| `SyncFormat.StatReadsBack` | agent/server/adb/sync.go:39-52 | Parsing a serialised stat gives back all ten fields, signed times included. |
| `SyncFormat.StatLayout` | agent/server/adb/sync.go:39-52 | The ten fields stand little-endian at the byte offsets 0, 8, 16, 20, 24, 28, 32, 40, 48 and 56. |
| `SyncFormat.StatWritesBack` | agent/server/adb/sync.go:39-52 | Every record of 64 bytes is the serialised form of what is parsed from it: parsing loses nothing. |
| `SyncFormat.Tags` | agent/server/adb/sync.go:10-22 | The ids, written as words, are the letters LIS2, DNT2, DONE, RCV2, FAIL, DATA, SND2 and OKAY in reading order. |
| `SyncFormat.ListRequestRoundTripIff` | agent/server/adb/sync.go:73-77 | A device that decodes a listing request by its letters finds the path, if and only if it is shorter than 2^32 bytes. |
| `SyncFormat.RecvRequestRoundTripIff` | agent/server/adb/sync.go:190-197 | A device that decodes a pull request, both of its packets, finds the path and flags 0, if and only if the path is shorter than 2^32 bytes. |
| `SyncFormat.ListingReadsIff` | agent/server/adb/sync.go:86-118 | The reader returns entries and a rest on exactly the streams that are the serialised entries, a DONE record with any filler, and that rest. |
| `SyncFormat.ListingReadsBack` | agent/server/adb/sync.go:86-118 | Reading a listing of any entries and a DONE record gives exactly those entries and consumes exactly those bytes. |
| `SyncFormat.PacketReadsBack` | agent/server/adb/sync.go:210-238 | A packet with a payload is read back by its id with the bytes behind it left. |
| `SyncFormat.SendRequestRoundTripIff` | agent/server/adb/sync.go:260-272 | A device that decodes a push request finds path, mode and flags 0, if and only if the path is shorter than 2^32 bytes. |
| `SyncFormat.FrameDecodes` | agent/server/adb/sync.go:280-302 | A DATA frame in front of anything decodes to its chunk and what the rest decodes to. |
| `SyncFormat.CutOffPushIsAPrefix` | agent/server/adb/sync.go:280-337 | Of frames and DONE cut off after any number of bytes the device has a prefix of the chunks, each whole; it sees DONE only when nothing is cut off, and then it has all chunks and the time. |
| `AdbSync.Greet` | agent/server/adb/client.go:8-21 | The two commands that lead to the sync service, each with its reply; on every failure a prefix was sent and the connection is closed. |
| `AdbSync.GreetingDecodes` | agent/server/adb/client.go:8-21 | The device reads the command for the transport first and the one for the service behind it. |
| `AdbSync.AcceptedTwiceIff` | agent/server/adb/client.go:8-21 | Both commands count as accepted exactly where the stream begins with the letters OKAY twice. |
| `AdbSync.RefusalIsReported` | agent/server/adb/raw.go:183-208 | A refusal of either command comes back as the device's own message. |
| `AdbSync.ReadEntries` | agent/server/adb/sync.go:86-118 | The read loop ends on every finite stream with the pure reader's result, and takes no byte beyond the DONE record. |
| `AdbSync.ListDirectory` | agent/server/adb/sync.go:60-119 | A listing is the device's whole answer as the pure readers see it; what is sent is a prefix of greeting and request; the connection is closed afterwards. |
| `AdbSync.ListingSucceedsIff` | agent/server/adb/sync.go:60-119 | A listing succeeds with given entries on exactly the streams that accept both commands and serialise these entries up to DONE. |
| `AdbSync.PullFileStream.Recv` | agent/server/adb/sync.go:210-238 | One packet: a fragment, the end, the remote error or an error; everything but a fragment closes the connection. |
| `AdbSync.PullFile` | agent/server/adb/sync.go:178-208 | Opening a pull sends greeting and request or a prefix of them, and leaves the stream at the first packet. |
| `AdbSync.PushFile` | agent/server/adb/sync.go:248-278 | Opening a push sends greeting and request or a prefix of them, and leaves the stream at the receipt. |
| `AdbSync.PushFileStream.Send` | agent/server/adb/sync.go:280-302 | A chunk goes out as one whole frame, or a prefix of it and the connection is closed; an oversize chunk contributes no byte. |
| `AdbSync.PushFileStream.Done` | agent/server/adb/sync.go:304-337 | Success means DONE went out whole, although the write error itself is dropped; where it did, the packet behind it decides: success if it is OKAY, the device's message if it is FAIL, and an error otherwise. |
| `AdbSync.ReceiptSays` | agent/server/adb/sync.go:304-337 | Of a receipt packet with any id and payload: OKAY is success, FAIL is its payload as the error, anything else is unexpected. |
| `ServerSync.ConvertListing` | agent/server/sync/sync.go:31-49 | Each entry keeps its name with either the nonzero error or its stat. |
| `ServerSync.RelayFragments` | agent/server/sync/sync.go:86-110 | The relay loop sends a prefix of the images of the packets the device sent, and all of them, with the right verdict, when no send fails. |
| `ServerSync.PullFile` | agent/server/sync/sync.go:78-110 | A whole pull, its opening and the error return of that included: a prefix of the messages on every run, all of them when it succeeds or nothing fails, none when the device refuses; nothing is sent to the client before the whole request is on the device's stream. |
| `ServerSync.SuccessMeansComplete` | agent/server/sync/sync.go:130-152 | A push whose writes succeed succeeds if and only if its requests are allowed chunks and then End, and the receipt is good. |
| `ServerSync.PushEndsAs` | agent/server/sync/sync.go:130-152 | What becomes of a push behind any allowed chunks: the receipt's verdict behind End, too large behind an oversize chunk, unexpected behind another request, a stream error when the requests just end. |
| `ServerSync.RelayChunks` | agent/server/sync/sync.go:130-152 | The bytes behind the request are a prefix of the frames for the requests, and all of them when no write fails; then the result is decided by the requests and the receipt. |
| `ServerSync.PushFile` | agent/server/sync/sync.go:112-153 | The whole push: a prefix of request and frames on every run, refused without Start, complete when it reports success; where no write fails, requests and receipt decide the result exactly. |
| `ClientSync.ConvertListing` | agent/client/sync/sync.go:58-78 | Each entry keeps its name with the error or the stat; an entry with neither fails the listing. |
| `ClientSync.PullStream.Recv` | agent/client/sync/sync.go:122-137 | One message per call; the last one makes the stream complete; after that nothing more is received. |
| `ClientSync.ReadAll` | agent/client/sync/sync.go:120-142 | The documented reading loop over the stream object ends with the function of the messages used below. |
| `ClientSync.OpenPush` | agent/client/sync/sync.go:144-160 | Opening a push asks for the caller's path and mode. |
| `SyncEndToEnd.ListDirectory` | agent/client/sync/sync.go:50-79 | From the device's bytes to the caller: a listing is returned exactly when the device accepts both commands and serialises entries up to DONE, then every entry is seen with its name and either the nonzero error or all ten stat fields, and the device decodes the caller's path from what it was sent; any failure on the way is an error. |
| `SyncEndToEnd.CleanListing` | agent/server/adb/sync.go:60-119 | A device that accepts both commands and lists any entries gives exactly those. |
| `SyncEndToEnd.OneLastMessage` | agent/server/sync/sync.go:86-109 | Exactly one message is marked last and it is the final one; without DONE none is. |
| `SyncEndToEnd.PullConserves` | agent/client/sync/sync.go:122-142 | For every sequence of DATA frames and every ending: the caller's download is complete if and only if the device got to DONE and no frame was empty, and then it is the frames' concatenation; without DONE an error surfaces at the agent and, no frame being empty, at the caller. |
| `SyncEndToEnd.CutOffPullIsAPrefix` | agent/client/sync/sync.go:122-142 | Whatever part of the messages arrives, the caller has a prefix of the file; it is marked complete only when everything arrived, and then it is the file. |
| `SyncEndToEnd.PullFile` | agent/server/sync/sync.go:78-110 | Device, agent and client together: whatever fails on the way, the download is a prefix of the device's file, and a complete one is the file; where it is complete, or no write fails, the device decodes from what it was sent a pull of the caller's path and nothing more. |
| `SyncEndToEnd.PushedBytesDecode` | agent/server/sync/sync.go:130-152 | Whatever becomes of a push, the device decodes a prefix of the client's chunks, each whole and at most 64 KiB, and is told of the end only when it has all of them and the requested time. |
| `SyncEndToEnd.ClientRequestsDecode` | agent/client/sync/sync.go:173-194 | The requests of the client library complete if and only if no chunk is oversize. |
| `SyncEndToEnd.WholePushDecodes` | agent/server/adb/sync.go:248-337 | The bytes of a complete push decode to the client's path, mode, flags 0, chunks and time. |
| `SyncEndToEnd.Upload` | agent/client/sync/sync.go:144-194 | The client library sends Start, the chunks in order and End, or a prefix of these when it reports a failure. |
| `SyncEndToEnd.AnsweredPush` | agent/server/sync/sync.go:130-152 | The same verdict on the device's bytes: both commands accepted, then a receipt packet of any id. |
| `SyncEndToEnd.PushFile` | agent/server/sync/sync.go:112-153 | A push that reports success has put the client's whole file on the device's stream, with path, mode and time, and has read an OKAY. Where every write succeeds and no chunk is oversize, the device's receipt alone decides: success if and only if its id is OKAY, its payload as the error if it is FAIL, unexpected otherwise. |
| `ShellMux.EveryInterleavingKeepsOrder` | agent/server/shell/shell.go:57-240 | In every interleaving of the two receivers, the select loop and the shutdown: the responses are the in-order images of a prefix of the device's blobs, Exit comes at most once and last, and the bytes to the device are the blobs of a prefix of the requests and at most a part of the next one's. Where the process dies, the next blob is an exit without a byte and no exit was sent. |
| `ShellMux.DiesIff` | agent/server/shell/shell.go:137-144 | Some interleaving kills the process if and only if an exit blob without a byte follows nothing but output. |
| `ShellMux.EveryScheduleEnds` | agent/server/shell/shell.go:63-240 | No schedule is longer than a bound on its input, and none gets stuck before the loop has closed everything and both receivers have returned, those included that panic on a closed channel, or the process has died. |
| `ShellMux.DeviceReadsAPrefix` | agent/server/shell/shell.go:63-111 | A device that reads blobs from those bytes by their ids hears, in order and whole, at least what the handled requests and at most what all requests ask for: the bytes typed, the end of input, and every new size with its own rows, columns, width and height. |
| `ShellMux.NothingStopsEarly` | agent/server/shell/shell.go:63-149 | The loop never gives up on its own: where all writes and sends succeed and the process lives, it has stopped only because all requests or all blobs were handled, the next one is unknown, or the shell exited. |
| `ShellMux.StepKeepsClientSide` | agent/server/shell/shell.go:112-240 | Every step keeps the invariant toward the client. |
| `ShellMux.StepKeepsDeviceSide` | agent/server/shell/shell.go:67-111 | Every step keeps the invariant toward the device. |
| `ShellMessages.ResizeReadsBack` | agent/server/shell/shell.go:96-103 | The resize text decodes to its four numbers. |
| `ShellMessages.ResizeText` | agent/server/shell/shell.go:96-103 | 24 rows and 80 columns without a size in pixels are written 24x80,0x0. |
| `ShellMessages.DeviceHears` | agent/server/shell/shell.go:73-111 | Reading the blobs of any requests back gives what the requests ask for, each thing in its place. |
| `ShellMessages.HeardInItsPlace` | agent/server/shell/shell.go:73-111 | One request among others adds exactly its own four numbers, or its bytes and the end of input, behind what the earlier ones tell and in front of what the later ones tell. |
| `ShellMessages.InputIsConserved` | agent/server/shell/shell.go:75-93 | What the device is typed is, byte for byte, what the client sent, empty requests and all. |
| `ShellMessages.CutOffFramesAreAPrefix` | agent/server/shell/shell.go:79-103 | Blobs cut off after any number of bytes are read as a prefix of them. |
| `ShellEnds.OnRequest` | agent/server/shell/shell.go:73-111 | Handling a request writes exactly its blobs, data before close; a failure leaves a prefix, a closed connection and no further request. |
| `ShellEnds.OnBlob` | agent/server/shell/shell.go:118-148 | Handling a blob sends exactly its one response, or fails to; exit, an unknown id or a failed send ends the loop, and only an exit without a byte kills the process. |
| `ShellProcess.Multiplexer.SelectRequest` | agent/server/shell/shell.go:67-111 | The select loop's handling of an offered request is the machine's step, over the real connection. |
| `ShellProcess.Multiplexer.SelectResponse` | agent/server/shell/shell.go:112-149 | The select loop's handling of an offered blob is the machine's step, over the real stream to the client. |
| `ShellProcess.Multiplexer.ReceiveRequest` | agent/server/shell/shell.go:188-201 | The request receiver's turn is the machine's step. |
| `ShellProcess.Multiplexer.ReceiveResponse` | agent/server/shell/shell.go:225-239 | The response receiver's turn, a read of the real connection, is the machine's step. |
| `ShellProcess.Multiplexer.Schedule` | agent/server/shell/shell.go:57-165 | Both receivers, the loop and the shutdown over the real objects under any schedule: it ends, and what it leaves on both streams is left by a run of the machine. |
| `ShellProcess.Process` | agent/server/shell/shell.go:15-166 | A session without a proper start sends nothing to anybody; otherwise the transport command and the shell's go first, the session starts if both are accepted and could be written, and it ends with both directions' promises kept. |
| `ShellEnds.ShellCommandRoundTripIff` | agent/server/shell/shell.go:26-45 | A device that takes the opening command apart finds the terminal, the kind and the command line the client named, if and only if the terminal's name has no comma and no colon. |
| `ShellEnds.Shell.Recv` | agent/client/shell/shell.go:117-142 | Output is handed on, Exit stores its code's low byte and ends the session, after which nothing is received. |
| `ShellEnds.ReceiveAll` | agent/client/shell/shell.go:115-147 | A caller that receives until the end has the session the responses describe. |
| `ShellEnds.WatchOfResponses` | agent/client/shell/shell.go:117-147 | The session of a list of responses is the device's own account of the blobs behind them: the bytes of those with id 1, of those with id 2, and the first byte of one with id 3 at the end. |
| `ShellEndToEnd.ClientSeesThePrefix` | agent/client/shell/shell.go:117-147 | Through any interleaving the caller has, per channel, exactly the bytes of the handled blobs, and the exit byte of the one that ended them. |
| `Vpx.NoSampleWraps` | agent/util/vpx/vpx.go:272-290 | No byte conversion wraps: luma lies in 16..235, chroma in 16..239, and grey has chroma 128. |
| `Vpx.SampleRangesAreTight` | agent/util/vpx/vpx.go:272-290 | The ends of these ranges are reached. |
| `Vpx.SamplesAddUpIff` | agent/util/vpx/vpx.go:264-293 | For positive dimensions the loops write one and a half samples a pixel if and only if both are even, and never fewer. |
| `Vpx.Float32IsNearest` | agent/util/vpx/vpx.go:264 | The conversion to a 32-bit float: no number of 24 bits times a power of two is nearer than its result. |
| `Vpx.Float32IsAFloat` | agent/util/vpx/vpx.go:264 | The result is such a number, at most half its power away, and halfway between two it is the one with the even factor. |
| `Vpx.EvenFramesFit` | agent/util/vpx/vpx.go:264-293 | For every even frame of up to 2^24 pixels the size computed in 32-bit floats is exactly what the loops write. |
| `Vpx.OddFramesDoNotFit` | agent/util/vpx/vpx.go:264-293 | For odd frames the buffer is too short as long as the size is computed exactly. |
| `Vpx.RoundingCanFitAnOddFrame` | agent/util/vpx/vpx.go:264 | A frame of 5592409 x 2 gets the right size by rounding alone. |
| `Vpx.TruePixelsIff` | agent/util/vpx/vpx.go:271-272 | With 32-bit index arithmetic every pixel is read from its own bytes if and only if three bytes a pixel fit 32 bits. |
| `Vpx.FillLuma` | agent/util/vpx/vpx.go:268-275 | The luma loops fill the front of the buffer with the sample of each pixel as it is indexed, and fail exactly when buffer or input is too short. |
| `Vpx.FillChroma` | agent/util/vpx/vpx.go:277-293 | A chroma plane is filled from the shared cursor on, each sample from the pixel at doubled coordinates, with nothing in front of it changed; where a counter wraps the loops end out of range. |
| `Vpx.RgbToYuv` | agent/util/vpx/vpx.go:263-296 | For every frame but one without columns and 2^32 - 1 rows: succeeds exactly when the samples fit the computed size and the input has the bytes the pixels are indexed in; then the three planes stand behind each other and every sample is the formula at its source pixel. |
| `Vpx.ConvertedLuma` | agent/util/vpx/vpx.go:268-275 | Sample y*w + x of the blob is the luma formula on input bytes 3(y*w + x) as red, the next as green and the one after as blue, for frames whose bytes have 32-bit places. |
| `Vpx.ConvertedChroma` | agent/util/vpx/vpx.go:277-293 | Sample y*ceil(w/2) + x of the second plane and of the third are the formulas for blue and red difference on the three input bytes of the pixel at row 2y, column 2x. |
| `Vpx.WrappingFramesDoNotFit` | agent/util/vpx/vpx.go:264-293 | Where a counter of the chroma loops would wrap, the computed size is too short for the samples. |
| `Vpx.CopyPlane` | agent/util/vpx/vpx.go:48-60 | Row by row with any stride covering the width: the plane holds the blob's bytes and the bytes between the rows stay. |
| `Vpx.Image.Read` | agent/util/vpx/vpx.go:45-61 | The three planes are read one behind the other, and the number of bytes used is said. |
| `Vpx.BlobIsUsedUp` | agent/util/vpx/vpx.go:45-61 | An image that fits the frame takes exactly the bytes the loops write; for every even frame of up to 2^24 pixels that is the whole blob. |
| `Vpx.LoadFrame` | agent/server/display.go:146-148 | Converting and reading a frame: succeeds exactly when it can, and every sample of the image shows its source pixel. |
| `Vpx.ShownLuma` | agent/server/display.go:146-148 | In an image that shows a frame, the sample at row y, column x of plane 0 is the luma formula on the input bytes of that pixel. |
| `Vpx.ShownChroma` | agent/server/display.go:146-148 | And those of planes 1 and 2 are the formulas for blue and red difference on the input bytes of the pixel at row 2y, column 2x. |
| `DisplayStream.StreamIsDecodable` | agent/server/display.go:70-191 | For every sequence of pictures of positive size and blanks, with at least one packet for every keyframe asked for, each delta on the stream follows a keyframe that is not a blank and has its size. |
| `DisplayStream.CutOffStreamIsDecodable` | agent/server/display.go:163-186 | So does every stream cut off by a failed send. |
| `DisplayStream.SilentKeyframeBreaksDecoding` | agent/server/display.go:169-186 | The packet is needed: an encoding without one can leave an undecodable delta. |
| `DisplayStream.KeyframesFollowTheHistoryIff` | agent/server/display.go:79-188 | With positive sizes and a clock that does not run backwards: every picture is a keyframe exactly when it is the first after a start, blank or size change or a nonzero interval has passed since the latest keyframe or blank, and lastKeyframe is the time of that, if and only if at every other picture a passed interval is still passed after the milliseconds are cut to 32 bits, and where none has passed the frame counter is not at a multiple of 2^32. |
| `DisplayStream.StreamFollowsTheHistory` | agent/server/display.go:70-191 | On the frames themselves: a blank adds one empty keyframe without a size; a picture adds its packets in order under its own size, all of one flag, which is what the history asks for wherever no 32-bit number misleads. |
| `DisplayStream.FramesAreCounted` | agent/server/display.go:103-107 | The frame counter is the number of pictures of one size in a row, cut to 32 bits. |
| `DisplayStream.ElapsedTimeWraps` | agent/server/display.go:153 | A run whose frame gaps are all below 2^32 ms and which misses a due keyframe. |
| `Display.DisplayProcessor.Encode` | agent/server/display.go:146-188 | The frame is in the image when it is encoded, its packets carry one flag and the present size, and the counters move only when all are sent. |
| `Display.DisplayProcessor.ProcessFrame` | agent/server/display.go:70-191 | One frame makes of the object and its stream what the machine says; it panics only on frames that cannot be loaded. |
| `Viewers.FeedReads` | demo/backend/client/client.go:148-179 | What a viewer is sent for any frames reads back as exactly the frames from the first keyframe on. |
| `Viewers.EveryViewerCanDecode` | demo/backend/client/client.go:148-179 | A viewer that joins a decodable stream anywhere is given exactly the suffix from the first keyframe at or after its join, and that is decodable on its own. |
| `Viewers.EveryViewerOfTheEmulatorCanDecode` | demo/backend/server/server.go:83-107 | The two together: every viewer of the emulator's display can decode what it is given. |
| `Viewers.Client.ProcessFrame` | demo/backend/client/client.go:148-179 | As long as its websocket works a client has been sent its whole feed. |
| `Viewers.Server.Join` | demo/backend/server/server.go:83-87 | A new viewer is shown every frame from its join on. |
| `Viewers.Server.ShowFrame` | demo/backend/server/server.go:97-106 | Every viewer is shown every frame once, whatever fails for the others. |
| `EmulatorLogs.ProcessLogs` | agent/server/emulator/emulator.go:145-209 | For every schedule of the two channels and either one ending first, the loops end and the result is the trimmed fold of stderr alone. |
| `EmulatorLogs.FoldIsReport` | agent/server/emulator/emulator.go:169-176 | The fold is the last ERROR line's message with the lines up to the next WARNING or INFO line. |
| `EmulatorLogs.ReportOfThreeLines` | agent/server/emulator/emulator.go:169-204 | Whatever came before: an error line by its tag, a line without a tag, and an information or warning line are reported as the message and the second line. |
| `EmulatorLogs.TrimmedIs` | agent/server/emulator/emulator.go:208 | Trimming takes away space at both ends and nothing else. |
| `EmulatorLogs.LastError` | agent/server/emulator/emulator.go:145-209 | So the reported error is that message, trimmed, on every schedule. |
| `Tracing.OneDisposition` | init-injector/src/tracer.rs:46-260 | Every survived stop resumes or detaches its process exactly once in the end; a resume that is waited for is not the end. |
| `Tracing.OthersAreLeftAlone` | init-injector/src/tracer.rs:46-260 | Only the event's process is acted on, and a fresh child of anyone but init, which is only detached. |
| `Tracing.InitIsNeverDetached` | init-injector/src/tracer.rs:46-260 | In any history in which a child is neither init nor its parent and is announced once, even behind its own first stops, init is never detached. |
| `Tracing.ProcStaysFound` | init-injector/src/tracer.rs:202-210 | /proc, once found, stays found. |
| `Tracing.LateDetach` | init-injector/src/tracer.rs:47-59 | A process marked for late detach is not touched by any event up to its own next stop, which detaches and unmarks it and does nothing else. |
| `Tracing.MarkedIsDetachedAtItsEvent` | init-injector/src/tracer.rs:47-59 | The first stop of a marked process, of whatever kind, detaches it with the stop's signal, once. |
| `Tracing.FoundIffSeen` | init-injector/src/tracer.rs:202-210 | In a surviving run /proc counts as found if and only if it could be read at some system-call stop. |
| `Tracing.MarkedIffOwed` | init-injector/src/tracer.rs:68-98 | A process is marked if and only if the detach at its announcement failed and it has not stopped since. |
| `Tracing.GrandchildrenAreLetGo` | init-injector/src/tracer.rs:67-98 | A child of anyone but init is detached at its announcement, or marked for it when that fails. |
| `Tracing.WhatIsDone` | init-injector/src/tracer.rs:46-260 | What every event of a surviving run does, from the history alone: who is detached, resumed or handed over, with which signal, and whether up to the next system call. |
| `Tracing.PanicsIff` | init-injector/src/tracer.rs:61-187 | The tracer panics at exactly these events of a process that is not marked: a kind nobody implemented, a child that cannot be asked for, a zygote that is not waited for, stopped or handed over, an exec whose detach fails; and where /proc appears but cannot be entered. |
| `Tracing.AgentsFollowTheirStop` | init-injector/src/tracer.rs:131-163 | In everything a run does, a device agent is spawned only directly behind the detach with SIGSTOP of its process, which is not init. |
| `TracerLoop.Loop.Handle` | init-injector/src/tracer.rs:43-260 | One turn of the loop over its own variables is the reaction the histories above are made of. |
| `TracerLoop.Loop.Trace` | init-injector/src/tracer.rs:43-261 | The loop over any events does exactly what the history's reactions do, in order, and panics exactly when one of them does. |
| `TracerLoop.Loop.Forget` | init-injector/src/tracer.rs:49 | retain takes every mark of the process away and keeps the others in order. |
| `SyslogFanOut.EveryListenerIsServed` | agent/server/syslog/syslog.go:45-108 | In every interleaving of the sending loop, joins, receives and closes: an open listener was offered each message said since it joined once and in order, but for one under way; what it heard is a subsequence of these, and with the lost ones makes up their number; it heard all if and only if none found it full. |
| `SyslogFanOut.KeepingUpLosesNothing` | agent/server/syslog/syslog.go:96-108 | A listener whose channel is never full loses nothing. |
| `SyslogFanOut.LostIffFull` | agent/server/syslog/syslog.go:96-108 | An open listener loses a message exactly when 100 are waiting for it already. |
| `SyslogFanOut.CutKeepsInv` | agent/server/syslog/syslog.go:61-67 | Cutting a closed client out of the list while the loop comes down it neither skips nor repeats another client. |
| `SyslogFanOut.StepKeepsInv` | agent/server/syslog/syslog.go:45-116 | Every step keeps the invariant. |
| `Syslog.SysLog.Deliver` | agent/server/syslog/syslog.go:61-67 | One message: the list becomes the clients that are open, in their order and distinct, and every client's channel gets the message once if it is open and has room. |
| `Syslog.SysLog.Listen` | agent/server/syslog/syslog.go:83-94 | A new listener has an empty channel and comes last. |
| `Syslog.Listener.Send` | agent/server/syslog/syslog.go:96-108 | False exactly for a closed listener; a full channel drops the message. |
| `Syslog.Listener.Recv` | agent/server/syslog/syslog.go:110-112 | The oldest message is taken. |
| `RamdiskArchive.NamesAreConserved` | builder/cmd/patchramdisk.go:126-252 | For every order of the module map the new names are, as a multiset, the old ones and original-init when init is replaced. |
| `RamdiskArchive.NewNamesDistinctIff` | builder/cmd/patchramdisk.go:136-140 | They are distinct if and only if there was no original-init while init is replaced. |
| `RamdiskArchive.PatchingTwiceCollides` | builder/cmd/patchramdisk.go:136-140 | So replacing init in an archive that was already patched gives two records named original-init. |
| `RamdiskArchive.KeptAreTheOthers` | builder/cmd/patchramdisk.go:126-151 | The kept records are exactly those that are not replaced modules, in order, with content, inode and mode unchanged, and with their names but for init's when init is replaced. |
| `RamdiskArchive.IsModuleIff` | builder/cmd/patchramdisk.go:130-134 | A module is a name of the form lib/modules/, anything, .ko. |
| `RamdiskArchive.NewFilesAre` | builder/cmd/patchramdisk.go:153-252 | Behind the kept records come the new modules with mode 0100644 and their files, then init with mode 0100750 and its file. |
| `RamdiskArchive.ModulesAreNew` | builder/cmd/patchramdisk.go:153-203 | Under the name of a replaced module there is the replacement. |
| `RamdiskArchive.InitIsNew` | builder/cmd/patchramdisk.go:205-252 | Under init there is the replacement. |
| `RamdiskArchive.NewInodesAreDistinct` | builder/cmd/patchramdisk.go:174-224 | New records, of which there are fewer than 2^64, never share an inode. |
| `RamdiskArchive.NewInodesAreAboveIff` | builder/cmd/patchramdisk.go:142-224 | New inodes are above every kept one if and only if counting on from the highest does not overflow 64 bits. |
| `RamdiskPatcher.GatherAll` | builder/cmd/patchramdisk.go:126-151 | One pass finds the kept records, the highest inode, the set of old modules and whether there is an init. |
| `RamdiskPatcher.ProcessSegment` | builder/cmd/patchramdisk.go:106-252 | Succeeds exactly when every replacement can be read, with an archive for some order of the module map. |
| `RamdiskImage.IsAllZero` | builder/cmd/patchramdisk.go:266-273 | True exactly for a segment of zeros. |
| `RamdiskImage.Index` | builder/cmd/patchramdisk.go:72-75 | The first place of the header's magic, or -1 exactly when there is none. |
| `RamdiskImage.EverySegmentIsPlaced` | builder/cmd/patchramdisk.go:84-93 | Every rewritten segment stands whole in the image at a multiple of 256, followed by 1 to 256 zeros; the image ends at a multiple of 256. |
| `RamdiskImage.PaddingIsSkipped` | builder/cmd/patchramdisk.go:66-79 | Zeros in front of an archive, as the padding leaves them, change nothing about what becomes of it. |
| `RamdiskImage.OneOutcome` | builder/cmd/patchramdisk.go:61-94 | Segments for which an image can be written never make the patcher give up, and every image of them has as many pieces. |
| `RamdiskImage.Rewrite` | builder/cmd/patchramdisk.go:79-82 | A segment body is parsed, processed and put together again, for some order of the module map, or it is no archive or a replacement cannot be read. |
| `RamdiskImage.Patch` | builder/cmd/patchramdisk.go:61-94 | The image is the layout of the rewritten segments up to the first of zeros; nothing is written only when a segment before it has no header, is no archive or lacks a replacement. |

## Left out

- Vpx.RgbToYuv: does not take a frame without columns and 2^32 - 1 rows, because the row counter of the chroma loops then wraps for ever and the code never returns; nor do Vpx.FillChroma and Vpx.LoadFrame.
- Vpx.LoadFrame: the C copy's reads behind a too short blob are excluded by the conversion's success.
- Display.DisplayProcessor.ProcessFrame: takes for granted that libvpx allocates no image with a side of 2^32 - 1; freed images and encoders, which a blank frame keeps, are not tracked, so nothing is claimed about their ownership.
- ShellMux.EveryScheduleEnds: takes a receiver's wait for the client as a step that can be taken; that the remote call ends when the handler returns is part of the remote call library.
- RamdiskArchive.NewInodesAreAboveIff: inodes are 64-bit numbers, as the code counts them; the archive library's 32-bit field is not part of this model.
- RamdiskImage.Patch: splitting the unpacked image at the trailers is not modelled, and the library's parsing and composing of one archive come in as functions.
- Syslog.SysLog.Deliver: runs as one step; closing and receiving in the middle of it is what the machine beside it covers.
- Sockets, remote call delivery, processes, ptrace itself, file writes and shared memory: choices nobody controls, or in-order streams.
- libvpx: encoding, allocation, freeing and encoder configuration; an encoding is the packets it makes, an allocation is an image that fits.
- The command strings of the sync service are a parameter of the ADB methods; their values stand in AdbCommands.
- StatFile of agent, client and ADB, whose failure branch reads a record of fixed size first: one call and a case split beside the streams modelled here.
- ReadLine, which reads ahead with a scanner of its own, and the device list that WaitForEmulator parses.
- StreamDisplay's pacing by a ticker, input events, and the emulator's own display and controller connections.
- The injector's set-up of the traced process and the unpacking of the device agent behind the spawn.
- The cpio and lz4 formats, bytes.Split, manifests and downloads, emulator configuration files, loggers, the web front end and the command line tools: plumbing, foreign code or single steps.
