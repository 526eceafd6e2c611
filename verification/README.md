# Verified model of the train dashboard

A host program and several ESP32 clients drive model trains: the host keeps the rail network and finds paths on it, the
clients drive a motor, read rail tags over NFC and talk to the host over TCP. This project models the parts of that system
whose correctness is not obvious from reading one function, and proves what they promise.

| file | part of the system |
|---|---|
| `RailStorage.dfy`, `RailPathing.dfy` | the host's rail storage and its breadth-first path search |
| `Bytes.dfy`, `Serialise.dfy`, `PacketRegistry.dfy`, `TcpClient.dfy` | message payloads, packets, and the TCP byte stream |
| `TcpTasks.dfy` | the client's three connection tasks, interleaved |
| `NdefParser.dfy`, `NfcReader.dfy` | from tag pages to a rail report |
| `Handshake.dfy` | the host's handshake manager and its timers |
| `Motor.dfy`, `TrainController.dfy` | the motor and its ramp, the mailboxes and the train controller |
| `Provisioning.dfy` | Wi-Fi provisioning, its HTTP handlers and the Wi-Fi events |
| `StreamBuf.dfy` | Asio's stream buffer as a bounded byte queue |
| `Runs.dfy`, `Wrappers.dfy` | runs of a state machine, optional values |

Code that updates an object or runs a loop is a class or a method here, proved against a function whose properties are
lemmas. Endless tasks that FreeRTOS or Asio interleave are state machines: a run is any sequence of atomic actions, and the
theorems are about every reachable state. The network, the clock, the tag and the scheduler are parameters.

`dafny verify dfyconfig.toml` checks everything.

## Where the code does less than one would expect

The model follows the code. Where a natural property fails, it is stated with the exact condition under which it holds,
and where the condition alone does not show a failure that can happen, a second lemma gives an input or a run from the
initial state.

- A new rail goes to the end of its predecessor's track, so it follows the predecessor only if that was the last rail
  (`AppendedFollowsIff`, `AppendedElsewhere`), and a rail that was the last one leads elsewhere from then on
  (`NextIsKeptIff`, `ConnectionIsLost`).
- An append that refuses its branch has already stored the rail (`FailureIsAtomicIff`, `RefusedYetStored`).
- Connecting two rails is accepted where it does not make one follow the other (`ConnectedFollowsIff`,
  `ConnectedElsewhere`), and any accepted pair on one track closes the whole track (`LoopIsRefusedIff`).
- A junction stored without a branch leads to the first rail of the first track (`JunctionOpensTwoWays`,
  `JunctionLeadsBack`).
- A multi-byte enumeration or struct is not byte-swapped on a big-endian machine (`WireFormIsOrderFreeIff`,
  `PayloadIsOrderFreeIff`), and the packet id never is (`IdSurvivesIff`, `IdIsMisread`).
- A receive timeout inside a frame, or an unregistered message with a payload, leaves the reader between frames
  (`StaysAlignedIff`): messages are lost (`TimeoutLosesAMessage`), and messages nobody sent are dispatched
  (`StrayMessageIsHeard`).
- The NDEF cursor is 8 bits wide, so the payload of a record whose type and id push it past 255 is looked for in the wrong
  place (`RecordIsFoundIff`), and a rail tag of that kind reports a rail made of its own header (`OwnRailIsReportedIff`,
  `WrongRailIsReported`).
- A rail tag with fewer than 9 payload bytes stops the device at a size assertion (`WholeBlockReports`,
  `ShortRailAborts`).
- A tag read whose first group fails is still parsed, and a whole read of an NTAG216, all 56 groups of it, writes 8 bytes
  behind its buffer (`ReadPage`, `ScanTag`).
- A client whose timeout was already queued is disconnected even though it answered (`AnsweredIsDisconnectedIff`,
  `AnsweredTooLate`), and loses the session of a new connection too (`HandledExpiryEndsSession`, `ReconnectedIsDropped`).
- A failure reported while the manager tears a connection down is counted against the next one, which is torn down at once
  (`NewConnectionFallsIff`, `NoticeIsLeftOver`).
- A command without a ramp time asks for a duty that is not a number as long as the tick has not moved (`Adjust`).
- Rails scanned between two looks of the train controller overwrite each other (`StopsAtLookIff`, `MissesItsStation`), and
  a rail scanned before a start can end it at once (`StopsUnscannedIff`, `StopsOnAStaleRail`).
- A status request reads the status twice, so it can acknowledge a connection it did not report
  (`RequestAcknowledgesIff`, `SuccessWithoutTheAnswer`), and an acknowledgement can be left over from an earlier connection
  (`SucceedsUnseenIff`, `StaleAcknowledgement`).
- A stream buffer moves its pointers by an `int`, so committing or consuming more than `INT_MAX` characters at once moves
  them elsewhere (`Commit`, `Consume`).

## Model

| member | source | states |
|---|---|---|
| `RailStorage.Network.Next` | host/src/host/rail_network/storage/rail_storage.hpp:118-160 | the rail after a stored rail, along the track or through the track's link, is itself always stored |
| `RailStorage.Connections` | host/src/host/rail_network/rail_pathing.hpp:54-73 | the ways out of a rail lead to stored rails, in every valid storage; which they are is `RailPathing.EdgeIff` |
| `RailStorage.Storage.constructor` | host/src/host/rail_network/storage/rail_storage.hpp:190-193 | a new storage is empty and valid |
| `RailStorage.Storage.CreateTrack` | host/src/host/rail_network/storage/rail_storage.hpp:43-58 | the whole new state and status, and the storage invariant kept |
| `RailStorage.Storage.AppendToTrack` | host/src/host/rail_network/storage/rail_storage.hpp:60-86 | the whole new state and status, and the storage invariant kept |
| `RailStorage.Storage.CreateBranch` | host/src/host/rail_network/storage/rail_storage.hpp:163-188 | refusals change nothing; otherwise a new track holds the branch rail and the junction points to it |
| `RailStorage.Storage.AddBranch` | host/src/host/rail_network/storage/track.hpp:32-40 | only the branch of one rail changes |
| `RailStorage.Storage.AddRail` | host/src/host/rail_network/storage/track.hpp:17-22 | the rail is last on its track and indexed there; the invariant is kept |
| `RailStorage.Storage.ConnectTracks` | host/src/host/rail_network/storage/rail_storage.hpp:88-116 | the whole new state and status, and the storage invariant kept |
| `RailStorage.Storage.AppendRail` | host/src/host/rail_network/rail_network.hpp:15-32 | for every connection, the whole new state and status, and the storage invariant kept |
| `RailStorage.AppendKeepsValid` | host/src/host/rail_network/rail_network.hpp:15-32 | one append, successful or not, keeps lookup and tracks in agreement and every branch and link pointing at something stored |
| `RailStorage.EveryRunIsValid` | host/src/host/rail_network/rail_network.hpp:15-32 | every run of appends keeps the storage valid and never forgets a rail |
| `RailStorage.StatusIff` | host/src/host/rail_network/rail_network.hpp:15-32 | for every status an append can report, exactly when it reports it, as a condition on its inputs |
| `RailStorage.RowIsLaid` | host/src/host/rail_network/rail_network.hpp:15-32 | any number of new rails appended one behind the other on any network lie on one new track, in order, and change nothing else |
| `RailStorage.RowLeadsOn` | host/src/host/rail_network/storage/rail_storage.hpp:118-160 | along such a row every rail leads to the one behind it, and the last one nowhere |
| `RailStorage.FailureIsAtomicIff` | host/src/host/rail_network/storage/rail_storage.hpp:60-86 | a failed append leaves the storage unchanged if and only if it did not refuse a branch |
| `RailStorage.RefusedYetStored` | host/src/host/rail_network/storage/rail_storage.hpp:60-86 | a run of appends whose last one is refused and stores its rail |
| `RailStorage.AppendedFollowsIff` | host/src/host/rail_network/storage/rail_storage.hpp:60-86 | a new rail follows its predecessor if and only if the predecessor was the last of its track |
| `RailStorage.AppendedElsewhere` | host/src/host/rail_network/storage/rail_storage.hpp:60-86 | a run of appends whose last one succeeds and does not put the rail behind its predecessor |
| `RailStorage.ConnectedFollowsIff` | host/src/host/rail_network/storage/rail_storage.hpp:88-116 | the layouts in which, after connecting two stored rails, one follows the other, whether the connection was accepted or refused; both directions |
| `RailStorage.ConnectedElsewhere` | host/src/host/rail_network/storage/rail_storage.hpp:88-116 | a run of appends whose last one connects two rails successfully without making one follow the other |
| `RailStorage.LoopIsRefusedIff` | host/src/host/rail_network/storage/rail_storage.hpp:88-105 | a loop is refused, and changes nothing, if and only if neither rail is at an end of the track; otherwise the last rail of the track leads to its first, whichever rails were named |
| `RailStorage.RailsAreKept` | host/src/host/rail_network/rail_network.hpp:15-32 | no append moves or changes a stored rail, but for the branch a connection between tracks sets |
| `RailStorage.NextIsKeptIff` | host/src/host/rail_network/storage/rail_storage.hpp:118-160 | an append leaves the rail that a stored rail leads to as it was if and only if it does not reroute it, a condition on the storage before |
| `RailStorage.ConnectionIsLost` | host/src/host/rail_network/storage/rail_storage.hpp:60-86 | a run of appends after which one more takes a connection away that held |
| `RailStorage.JunctionOpensTwoWays` | host/src/host/rail_network/rail_pathing.hpp:54-73 | a junction appended behind a last rail opens exactly two ways: itself and its branch rail, or the first stored rail if it has none |
| `RailStorage.JunctionLeadsBack` | host/src/host/rail_network/rail_pathing.hpp:54-73 | a run of appends after which a rail has a way to itself |
| `RailPathing.GraphOf` | host/src/host/rail_network/rail_pathing.hpp:54-73 | the graph the search walks has exactly the stored rails as nodes and never leaves them |
| `RailPathing.EdgeIff` | host/src/host/rail_network/rail_pathing.hpp:54-73 | an edge goes to the next rail, or to the rail stored at the branch of a next rail stored as a left or right junction, and nowhere else |
| `RailPathing.Reconstruct` | host/src/host/rail_network/rail_pathing.hpp:75-89 | terminates, and gives a backward walk with as many steps as the search counted |
| `RailPathing.Expand` | host/src/host/rail_network/rail_pathing.hpp:36-47 | the inner loop keeps the layered search invariant and explores the popped rail |
| `RailPathing.WalkWithinHorizon` | host/src/host/rail_network/rail_pathing.hpp:27-48 | when everything nearer than a horizon is explored, every walk that short ends at a seen rail, seen no later |
| `RailPathing.PoppedIsNearest` | host/src/host/rail_network/rail_pathing.hpp:28-34 | when the end is popped, no walk to it is shorter |
| `RailPathing.ExhaustedIsComplete` | host/src/host/rail_network/rail_pathing.hpp:27-50 | when the queue runs empty unseen ends are unreachable |
| `RailPathing.Search` | host/src/host/rail_network/rail_pathing.hpp:16-51 | terminates on every closed graph; empty if and only if an end is unknown or unreachable; otherwise a shortest path, end first |
| `RailPathing.GeneratePath` | host/src/host/rail_network/rail_pathing.hpp:16-51 | the same over the rails of any valid storage |
| `RailPathing.RowPaths` | host/src/host/rail_network/rail_pathing.hpp:16-51 | after any number of rails that are no junctions were appended in a row, the i-th reaches the j-th if and only if i <= j, and the only path is the j - i + 1 rails between |
| `Serialise.PortableIsLittleEndian` | common/src/common/core/serialise.hpp:94-122 | integers, floating-point numbers and single bytes are little-endian on the wire on either kind of machine |
| `Serialise.WireFormIsOrderFreeIff` | common/src/common/core/serialise.hpp:94-122 | a type has one wire form on all machines, for all values, if and only if it is a byte, an integer or a floating-point number |
| `Serialise.PrimRoundTrip` | common/src/common/core/serialise.hpp:27-67 | reading undoes writing, within one byte order or between any two for a portable type |
| `Serialise.MessageRoundTrip` | common/src/common/core/serialise.hpp:27-91 | for every schema, message and trailing bytes, reading a written message gives it back |
| `Serialise.PayloadIsOrderFreeIff` | common/src/common/core/serialise.hpp:94-122 | a message type has the same payload on all machines, for all messages, if and only if all its fields are portable |
| `Serialise.Write` | common/src/common/core/serialise.hpp:27-36 | exactly the encoded bytes are written and the cursor moves by the size; nothing else changes |
| `Serialise.WriteArray` | common/src/common/core/serialise.hpp:43-48 | the encoded elements in order, nothing else changes, no size assertion fails |
| `Serialise.WriteMessage` | common/src/common/messages/motor_control.hpp:12-17 | any message fits in `message_size` bytes, is encoded there field by field, and nothing else changes |
| `Serialise.Read` | common/src/common/core/serialise.hpp:54-67 | the value decoded from the front bytes, and the span moved by the size |
| `Serialise.ReadArray` | common/src/common/core/serialise.hpp:74-83 | the decoded elements, and the span moved by exactly the array's size |
| `Serialise.ReadMessage` | common/src/common/messages/motor_control.hpp:19-28 | the decoded message, and the span moved by exactly `message_size` |
| `PacketRegistry.TypeIndex` | common/src/common/core/packet_registry.hpp:36-49 | the first position of a type in the registry |
| `PacketRegistry.MaxPayload` | common/src/common/core/packet_registry.hpp:25-29 | no packet is larger than the packet buffer |
| `PacketRegistry.LargestPayload` | common/src/common/core/packet_registry.hpp:25-29 | an upper bound of all payload sizes that one of them attains |
| `PacketRegistry.IdSurvivesIff` | common/src/common/core/packet_registry.hpp:76-78 | the peer reads back the id that was sent if and only if both have one byte order or the id reads the same both ways |
| `PacketRegistry.IdIsMisread` | common/src/common/core/packet_registry.hpp:76-78 | the id 1 is read as 256 between machines of different byte order |
| `PacketRegistry.Dispatched` | common/src/common/core/packet_registry.hpp:92-107 | something is dispatched if and only if the id is known, has a handler and the size matches |
| `PacketRegistry.Registry.constructor` | common/src/common/core/packet_registry.hpp:51-54 | no type is registered at first |
| `PacketRegistry.Registry.RegisterCallback` | common/src/common/core/packet_registry.hpp:112-123 | the type becomes registered and no other type's registration changes |
| `PacketRegistry.Registry.Create` | common/src/common/core/packet_registry.hpp:68-85 | the buffer holds the frame and then zeroes; the payload always fits |
| `PacketRegistry.Registry.Dispatch` | common/src/common/core/packet_registry.hpp:92-107 | reports whether a handler was called and gives it exactly the decoded message |
| `TcpClient.Client.Recv` | client/main/tcp/tcp_client.cpp:105-110 | one receive takes at most what was asked from the front of the stream, stores it in place and touches nothing else |
| `TcpClient.Client.RecvExact` | client/main/tcp/tcp_client.cpp:101-125 | status, bytes stored, the whole buffer and the remaining stream for every chunking, timeout, error and close |
| `TcpClient.Client.RecvPayloadId` | client/main/tcp/tcp_client.cpp:127-140 | the id is the one in the next two bytes, if they come whole |
| `TcpClient.Client.RecvPayload` | client/main/tcp/tcp_client.cpp:142-152 | the payload goes behind the id, as much of it as comes |
| `TcpClient.Client.ListenToServer` | client/main/tcp/tcp_client.cpp:76-99 | one call of the listener: its status, what it dispatches and what it leaves in the stream |
| `TcpClient.Client.ListenUntilStopped` | client/main/tcp/tasks/tcp_listen_task.cpp:44-64 | the listen loop hands the callbacks what `Heard` says, and ends with the status and the unread rest that `Stopped` says |
| `TcpClient.Client.SendToServer` | client/main/tcp/tcp_client.hpp:35-56 | a prefix of the frame goes out, the whole of it if and only if some first answers of the socket are willing and add up to its size, of which exactly the shortest are used up; otherwise the first refusal, the first zero or running dry decides the status and what was sent |
| `TcpClient.SendAll` | client/main/tcp/tcp_client.hpp:35-56 | over any list of messages and any answers of `send`, the wire holds whole frames and the front of one more, and exactly the frames of the list if and only if the answers are enough for all messages in turn |
| `TcpClient.WillingSocketTakesAll` | client/main/tcp/tcp_client.hpp:35-56 | a socket that takes at least one byte at a time gets all messages |
| `TcpClient.ListensToFrame` | client/main/tcp/tcp_client.cpp:76-99 | a digestible frame at the front is read whole, dispatched unchanged if registered, and leaves the reader at the next frame |
| `TcpClient.StreamIsHeard` | client/main/tcp/tcp_client.cpp:76-152 | for every list of messages, every chunking and any timeouts between frames, exactly the registered messages are dispatched, in order and unchanged |
| `TcpClient.TakesOrDrops` | client/main/tcp/tcp_client.cpp:101-125 | a timeout drops exactly the bytes before it; without one exactly the requested bytes are taken |
| `TcpClient.TakesUpToEnd` | client/main/tcp/tcp_client.cpp:101-125 | on any live stream, a close or an error behind it changes nothing but a read that would have waited, which reports the close or the error |
| `TcpClient.EndsInside` | client/main/tcp/tcp_client.cpp:101-125 | a read of which the connection brings too little before it is closed or fails reports which |
| `TcpClient.EndIsNoticed` | client/main/tcp/tasks/tcp_listen_task.cpp:44-64 | after anything a live connection brought, a close or an error stops the listen task with its own status, nothing behind it is read, and what was heard before is what would have been heard without it |
| `TcpClient.StreamIsHeardToItsEnd` | client/main/tcp/tasks/tcp_listen_task.cpp:44-64 | the same after the frames of any messages: exactly the registered ones were dispatched |
| `TcpClient.StaysAlignedIff` | client/main/tcp/tcp_client.cpp:76-125 | one call leaves the reader at a frame boundary if and only if the message is digestible and no timeout falls inside its frame |
| `TcpClient.UnknownIdIsSkipped` | client/main/tcp/tcp_client.cpp:76-99 | an id outside the registry costs the reader its two bytes and nothing else |
| `TcpClient.TimeoutLosesAMessage` | client/main/tcp/tcp_client.cpp:101-125 | the frames of two registered messages, with a timeout in the first, of which one message is never dispatched |
| `TcpClient.StrayMessageIsHeard` | client/main/tcp/tcp_client.cpp:76-99 | the frame of one unregistered message, of which a message of another type is dispatched |
| `TcpTasks.TasksInvKept` | client/main/tcp/tasks/tcp_manager_task.cpp:49-85 | every step keeps each handle naming exactly the live task, and the socket open while one lives |
| `TcpTasks.FlowInvKept` | client/main/tcp/tasks/tcp_send_task.cpp:45-80 | every step keeps the order and the count of messages between queue, flight and fate |
| `TcpTasks.WireInvKept` | client/main/tcp/tasks/tcp_send_task.cpp:45-80 | every step keeps the bytes of every connection well framed |
| `TcpTasks.DeliveryInvKept` | client/main/tcp/tasks/tcp_send_task.cpp:60-65 | every step keeps the messages completed on the wire equal to the delivered ones |
| `TcpTasks.InvHolds` | client/main/tcp/tasks/tcp_manager_task.cpp:49-73 | all of that over every interleaving |
| `TcpTasks.TasksAreExclusive` | client/main/tcp/tasks/tcp_manager_task.cpp:49-85 | in every reachable state at most one send and one listen task live, a live one has a socket, and none lives when the manager disconnects or connects |
| `TcpTasks.MessagesAreConserved` | client/main/tcp/tasks/tcp_send_task.cpp:45-80 | what the queue accepted is, in order, the delivered and lost messages, the one in flight and the queued ones, and losses never exceed teardowns |
| `TcpTasks.WireIsWholeFrames` | client/main/tcp/tasks/tcp_send_task.cpp:53-75 | every connection carries whole frames and then at most a truncated one, and the whole ones are the delivered messages in order |
| `TcpTasks.FailuresAreNoticed` | client/main/tcp/tasks/tcp_send_task.cpp:53-75 | in every reachable state a suspended task has notified the manager, or the manager is tearing down |
| `TcpTasks.ManagerRecovers` | client/main/tcp/tasks/tcp_manager_task.cpp:49-73 | from every reachable state in which the waiting manager is notified, its next turns remove both tasks and the socket, open the next connection and start its tasks |
| `TcpTasks.RefusedSendIsNoticed` | client/main/tcp/tasks/tcp_send_task.cpp:53-75 | a refused send suspends the task and notifies the manager within two of the task's steps |
| `TcpTasks.FailedReceiveIsNoticed` | client/main/tcp/tasks/tcp_listen_task.cpp:44-64 | a failed receive does likewise, and any other changes nothing |
| `TcpTasks.IdleSenderDelivers` | client/main/tcp/tasks/tcp_send_task.cpp:45-80 | in every reachable state, an idle send task with a queued message and a socket that takes its bytes in any portions delivers it |
| `TcpTasks.EnqueueAcceptsIff` | client/main/rtos/event_queue.hpp:28-30 | the queue accepts a message if and only if it has room |
| `TcpTasks.HealthyConnectionStays` | client/main/tcp/tasks/tcp_manager_task.cpp:49-73 | over any run in which no send and no receive fails, a connection is never torn down and no message is lost |
| `TcpTasks.NewConnectionFallsIff` | client/main/tcp/tasks/tcp_manager_task.cpp:52-68 | a new connection is torn down at the manager's first look if and only if a notification is left over when it is made |
| `TcpTasks.NoticeIsLeftOver` | client/main/tcp/tasks/tcp_manager_task.cpp:60-68 | a run that leaves one over |
| `NdefParser.TryGetRecordView` | client/main/nfc/parser/ndef_parser.cpp:45-82 | the record's place in the captured data, in bounds whenever there is one |
| `NdefParser.GetPayloadLength` | client/main/nfc/parser/ndef_parser.cpp:92-114 | the short or big-endian long payload length, the cursor behind it, and when the bytes are missing |
| `NdefParser.GetIdLength` | client/main/nfc/parser/ndef_parser.cpp:116-126 | the id length if the header has one, and the cursor behind it |
| `NdefParser.ParseRecord` | client/main/nfc/parser/ndef_parser.cpp:10-42 | the type and payload views in closed form, with the cursor's wrap-around |
| `NdefParser.Parse` | client/main/nfc/parser/ndef_parser.cpp:6-43 | the closed form of the whole parse, for every input |
| `NdefParser.TagIsParsed` | client/main/nfc/parser/ndef_parser.cpp:6-43 | where the parser sees the type and the payload of every well-formed record, in either TLV form and with anything behind it |
| `NdefParser.RecordIsFoundIff` | client/main/nfc/parser/ndef_parser.cpp:6-126 | for every well-formed record in either TLV form and any trailing bytes the type is found, and the payload if and only if it starts at 255 or before |
| `NdefParser.RecordRoundTrip` | client/main/nfc/parser/ndef_parser.cpp:6-126 | within that bound the views show exactly the encoded type and payload |
| `NdefParser.OtherBlockIsNothing` | client/main/nfc/parser/ndef_parser.cpp:45-54 | data that does not start with an NDEF message block parses to nothing, whatever it holds |
| `NdefParser.PrefixParsesAlike` | client/main/nfc/parser/ndef_parser.cpp:45-82 | any captured prefix of two bytes or more parses to nothing or to what the whole data parses to |
| `NfcReader.ReadPage` | client/main/nfc/modules/nfc_reader.cpp:80-119 | for every model and every failing read, the captured bytes are the prefix of the tag's memory that the successful reads covered, with the state that says so; only a whole read of an NTAG216 writes behind the buffer, and 8 bytes of it |
| `NfcReader.WholeReadIsCaptured` | client/main/nfc/modules/nfc_reader.cpp:64-119 | a whole read gets 144 bytes of an NTAG213, 512 of an NTAG215 and 896 of an NTAG216 |
| `NfcReader.DeserialiseRail` | client/main/nfc/parser/rail_nfc.hpp:11-18 | the rail id and type, or which size check or access fails |
| `NfcReader.ProcessTag` | client/main/nfc/tasks/nfc_task.cpp:71-90 | the report for every captured buffer |
| `NfcReader.WholeBlockReports` | client/main/nfc/tasks/nfc_task.cpp:71-90 | for every well-formed tag, of any type and in either TLV form, what is reported once its block is captured: nothing for another type, an abort if the payload has fewer than 9 bytes, and otherwise the rail where the wrapped cursor points |
| `NfcReader.OwnRailIsReportedIff` | client/main/nfc/tasks/nfc_task.cpp:71-90 | a rail tag reports its own rail if and only if its payload starts at 255 or before, or the bytes read instead happen to be the same |
| `NfcReader.WrongRailIsReported` | client/main/nfc/tasks/nfc_task.cpp:71-90 | a family of tags for which a rail made of the record's header, type and id is reported |
| `NfcReader.ShortRailAborts` | client/main/nfc/parser/rail_nfc.hpp:11-18 | a rail tag without payload, which trips the size assertion |
| `NfcReader.PartialReadIsSafe` | client/main/nfc/tasks/nfc_task.cpp:71-90 | for every well-formed tag and any captured prefix, the report is that of a full read if the whole block was captured, and nothing otherwise; only less than two bytes make the parser leave its data |
| `NfcReader.ScanTag` | client/main/nfc/modules/nfc_reader.cpp:41-62 | reading and processing any well-formed tag end to end, for every model and every failing read, with the two reads that go out of bounds; a whole read of an NTAG213 or NTAG215 reports blocks of up to 144 or 512 bytes |
| `Handshake.StepIsLocal` | host/src/host/protocol/handshake_manager.cpp:11-49 | an action changes what its own id sees, in this way, and nothing that another id sees |
| `Handshake.StepKeepsInv` | host/src/host/protocol/handshake_manager.cpp:11-49 | every step keeps the handshake invariant of every id |
| `Handshake.SessionsAreAwaited` | host/src/host/protocol/handshake_manager.cpp:11-32 | in every reachable state a session has a pending wait or a queued expiry, and connects equal waits pending, queued and handled |
| `Handshake.HandledExpiryEndsSession` | host/src/host/protocol/handshake_manager.cpp:24-31 | right after a handled expiry the id is in no session, disconnected once more, and its pending waits are aborted; a handled abort leaves sessions and disconnects alone |
| `Handshake.ReconnectedIsDropped` | host/src/host/protocol/handshake_manager.cpp:11-32 | a run in which a client that connected again loses the new session to the old expiry |
| `Handshake.DrainingEmptiesSessions` | host/src/host/protocol/handshake_manager.cpp:23-31 | however timers expire, handlers run and clients answer from a reachable state without new connects, once nothing is pending no session is left, every waiting id that did not answer was disconnected, and every id was answered or disconnected since it connected |
| `Handshake.DrainExists` | host/src/host/protocol/handshake_manager.cpp:23-31 | every state can be drained by expiries and handlers alone |
| `Handshake.AnswerAbortsWaits` | host/src/host/protocol/handshake_manager.cpp:34-49 | an answer turns all pending waits of its id into aborted ones, so later disconnects are bounded by expiries already queued and later connects |
| `Handshake.AnsweredIsDisconnectedIff` | vendors/asio-1.36.0/include/asio/basic_waitable_timer.hpp:384-404 | an answered client that does not reconnect can still be disconnected if and only if its expiry was already queued |
| `Handshake.AnsweredTooLate` | host/src/host/protocol/handshake_manager.cpp:11-49 | a run in which a client that answered is disconnected |
| `Handshake.HandshakeManager.constructor` | host/src/host/protocol/handshake_manager.cpp:6-9 | no session at first |
| `Handshake.HandshakeManager.Connected` | host/src/host/protocol/handshake_manager.cpp:11-32 | a new session or one more wait on the old one; the invariant kept |
| `Handshake.HandshakeManager.ResponseReceived` | host/src/host/protocol/handshake_manager.cpp:34-49 | the session gone and its waits aborted, or nothing for an unknown id; the invariant kept |
| `Handshake.HandshakeManager.WaitCompleted` | host/src/host/protocol/handshake_manager.cpp:24-31 | an expiry disconnects and drops the session, an aborted wait does nothing; the invariant kept |
| `Motor.MotorDriver.constructor` | client/main/motor/modules/motor.cpp:14-42 | outputs and remembered state agree after initialisation |
| `Motor.MotorDriver.SetActiveState` | client/main/motor/modules/motor.cpp:44-57 | the standby pin follows the active flag; deactivating also releases the direction pins and refreshes the PWM output |
| `Motor.MotorDriver.SetDirection` | client/main/motor/modules/motor.cpp:71-87 | the direction pins follow the direction |
| `Motor.MotorDriver.SetDuty` | client/main/motor/modules/motor.cpp:89-104 | a duty is taken if and only if the motor is active and the duty is at most 1023; PWM and duty agree either way |
| `Motor.RampIsMonotone` | client/main/motor/tasks/motor_task.cpp:79-89 | later readings ask for duties no further from the target, all between start and target |
| `Motor.RampIsNearest` | client/main/motor/tasks/motor_task.cpp:79-89 | the duty asked for is the integer nearest to start + (target - start) * ms^3 / ramp^3, in integer arithmetic |
| `Motor.ElapsedAcrossWrap` | client/main/motor/tasks/motor_task.cpp:80-81 | the difference of two 32-bit tick readings is the time between them, also across the wrap |
| `Motor.ElapsedIsTrue` | client/main/motor/tasks/motor_task.cpp:80-81 | the milliseconds computed in 32-bit arithmetic are the true ones |
| `Motor.Adjust` | client/main/motor/tasks/motor_task.cpp:70-102 | for every such clock one duty is asked for at each reading behind the first until the ramp time has passed, the one nearest to the cubic curve at that time, monotone from start to target, and then the target; without a ramp time, what is asked for instead; the motor ends at the target if and only if it is at most 1023 |
| `Motor.Obey` | client/main/motor/tasks/motor_task.cpp:53-63 | one command leaves the motor as active as it asks, ramped on time and on the curve to its target if it takes it, with outputs in agreement |
| `Motor.ObeyAll` | client/main/motor/tasks/motor_task.cpp:49-64 | over any sequence of commands outputs agree with the stored state and the last command decides the active flag |
| `TrainController.StepKeepsInv` | client/main/train_controller/train_controller_task.cpp:43-66 | every step of either task or of a mailbox writer keeps the log alternating and the mailbox honest |
| `TrainController.StartsAndStopsAlternate` | client/main/train_controller/train_controller_task.cpp:43-66 | in every run start and stop commands alternate, and each stop follows reading its own start's target rail, which may have been scanned before the start |
| `TrainController.StartsUseUpTargets` | client/main/train_controller/train_controller_task.cpp:43-66 | over any run the targets of the starts, and the one still waiting, are written targets in the order of writing, each used at most once |
| `TrainController.LastCommandWins` | client/main/rtos/mailbox.hpp:28-34 | whenever the motor task is blocked on an empty mailbox, the motor is as active as the last command written asked |
| `TrainController.MotorCatchesUp` | client/main/motor/tasks/motor_task.cpp:49-64 | the motor task left to itself soon blocks on an empty mailbox, having obeyed the command that was in it |
| `TrainController.JourneyDrivesTheMotor` | client/main/train_controller/train_controller_task.cpp:43-66 | a target starts the motor of a waiting train, and scanning the target stops it |
| `TrainController.StopsAtLookIff` | client/main/train_controller/train_controller_task.cpp:58-65 | at its next look the controller stops if and only if the target is the last rail scanned |
| `TrainController.MissesItsStation` | client/main/train_controller/train_controller_task.cpp:58-65 | a run in which the target is scanned and the controller goes on waiting |
| `TrainController.StopsUnscannedIff` | client/main/train_controller/train_controller_task.cpp:43-66 | a train can stop without a scan of its target since its start if and only if the mailbox still held the target at the start |
| `TrainController.StopsOnAStaleRail` | client/main/train_controller/train_controller_task.cpp:43-66 | a run in which a rail scanned before the start stops the train |
| `Provisioning.StepKeepsInv` | client/main/wifi/provisioning/provisioning.hpp:19-60 | every step of loop, HTTP server and Wi-Fi events keeps the provisioning invariant |
| `Provisioning.SuccessIsEarned` | client/main/wifi/provisioning/provisioning.hpp:19-60 | from whatever a failed connection left behind, success only after an address since the attempt's retry reset and after some status request, of this or an earlier connection, found the status connected; the retry count is always within its limit |
| `Provisioning.DropsFailIff` | client/main/wifi/wifi.hpp:178-201 | disconnects in a row use up the retries one by one, and set the fail bit if and only if there are more of them than retries left |
| `Provisioning.WrongCredentialsAreReported` | client/main/wifi/provisioning/provisioning.hpp:33-43 | a loop waiting for a connection goes back to asking for credentials, with the status bad credentials, if and only if disconnects outnumber the retries left |
| `Provisioning.FailedStartIsReported` | client/main/wifi/wifi.hpp:178-189 | a station that does not start to connect is reported likewise |
| `Provisioning.BadRequestIsReported` | client/main/wifi/provisioning/provisioning.hpp:21-28 | a bad request is reported likewise |
| `Provisioning.UnacknowledgedAsksAgain` | client/main/wifi/provisioning/provisioning_http.cpp:93-113 | a connection nobody acknowledges in time takes the loop back to asking for credentials, with all bits cleared |
| `Provisioning.GoodCredentialsSucceed` | client/main/wifi/provisioning/provisioning.hpp:19-60 | from any state that asks for credentials, good ones, an address and a status request make provisioning succeed |
| `Provisioning.AtomicRequestsTellTheTruth` | client/main/wifi/provisioning/provisioning_http.cpp:177-200 | if status requests are atomic, only one that answered "connected" acknowledges |
| `Provisioning.RequestAcknowledgesIff` | client/main/wifi/provisioning/provisioning_http.cpp:177-200 | a request acknowledges if and only if the status is connected at its second read, and answers the status at its first |
| `Provisioning.SuccessWithoutTheAnswer` | client/main/wifi/provisioning/provisioning_http.cpp:184-197 | a run that succeeds although the only request was told "connecting" |
| `Provisioning.SucceedsUnseenIff` | client/main/wifi/provisioning/provisioning_http.cpp:93-109 | a new connection can succeed without a further status request if and only if the acknowledge bit is already set |
| `Provisioning.StaleAcknowledgement` | client/main/wifi/provisioning/provisioning.hpp:45-58 | a run in which that bit is left over from an earlier connection |
| `StreamBuf.StreamBuf.constructor` | vendors/asio-1.36.0/include/asio/basic_streambuf.hpp:131-141 | empty, with ordered pointers |
| `StreamBuf.StreamBuf.Size` | vendors/asio-1.36.0/include/asio/basic_streambuf.hpp:158-161 | the length of the queue, never above the cap |
| `StreamBuf.StreamBuf.Data` | vendors/asio-1.36.0/include/asio/basic_streambuf.hpp:192-196 | exactly the queue |
| `StreamBuf.StreamBuf.Reserve` | vendors/asio-1.36.0/include/asio/basic_streambuf.hpp:308-346 | throws if and only if the queue and the request exceed the cap; otherwise keeps the queue across move and resize and makes the room |
| `StreamBuf.StreamBuf.Prepare` | vendors/asio-1.36.0/include/asio/basic_streambuf.hpp:214-219 | throws if and only if the queue and the request exceed the cap; otherwise the queue is kept and the put area holds the requested bytes |
| `StreamBuf.StreamBuf.Commit` | vendors/asio-1.36.0/include/asio/basic_streambuf.hpp:233-238 | the put pointer moves by the count, cut to the put area, if and only if that fits an `int`, and then the front of the put area is appended to the queue |
| `StreamBuf.StreamBuf.Consume` | vendors/asio-1.36.0/include/asio/basic_streambuf.hpp:247-254 | the get pointer moves by the count, cut to the queue, if and only if that fits an `int`, and then a prefix of the queue is dropped |
| `StreamBuf.StreamBuf.Underflow` | vendors/asio-1.36.0/include/asio/basic_streambuf.hpp:263-274 | the first character or end of file, and the queue kept |
| `StreamBuf.StreamBuf.Overflow` | vendors/asio-1.36.0/include/asio/basic_streambuf.hpp:283-306 | throws if and only if a real character meets a full queue; otherwise appends it |
| `StreamBuf.Perform` | vendors/asio-1.36.0/include/asio/basic_streambuf.hpp:214-306 | one operation throws and shows exactly what the same operation does on a bounded byte queue, and leaves that queue |
| `StreamBuf.BehavesAsQueue` | vendors/asio-1.36.0/include/asio/basic_streambuf.hpp:131-346 | every run of separate prepares, writes, commits, puts of a character or end of file, peeks, looks and drops shows what the same run shows on a bounded byte queue and throws exactly with it |

## Left out

- `StreamIsHeard`: both peers have one byte order, because the packet id is copied in native order; `IdSurvivesIff` says what happens otherwise.
- `PayloadIsOrderFreeIff`: an array of length 0 is excluded, since C++ leaves its size open; nested arrays count as one array.
- `Adjust`: IEEE rounding is not modelled; the ramp is computed over real numbers, the duty that C++ makes of a not-a-number is a parameter, and the counter is read again before 2^32 ms pass.
- `BehavesAsQueue`: an operation that moves a pointer by more than `INT_MAX` is excluded, and so is a commit of prepared characters that were never written, whose values Asio leaves open; the state after a thrown `length_error` is not described.
- `TcpTasks.InvHolds`: messages are known by their frames only, the ways a connect can fail are one, and the retry branch for a send timeout is absent because a send never reports one.
- `Provisioning.SuccessIsEarned`: the contents of the credentials and the soft access point are not modelled.
- `ScanTag`: what happens after an access out of bounds is not described.
- Numbers of type `size_t` are unbounded; floating-point fields of messages are their bits, and a `long double` is not covered.
- The host's `tcp_server`, `tcp_connection` and `tcp_io_state`, its HTTP endpoints and `application.cpp`: plumbing around Asio and an HTTP library.
- `train_storage.hpp`, the battery level, the buzzer, the mDNS service and its script: only easy members.
- The suppression of repeated tags in `nfc_task.cpp` and the outgoing queue entry of a rail report: only easy members.
- The rest of the vendored Asio, and the FreeRTOS and ESP-IDF calls themselves.
- Logging, stack sizes, task priorities and configuration values, which are arbitrary constants here.
