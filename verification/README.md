# Verified models of a chat server, a WebSocket library and a video engine

This project models, in Dafny, the parts of three code bases whose correctness is hardest to see by reading, and proves
what they are for.

- **Leader election** (`Election`, `ElectionProgress`, `ClusterNode`): the failover protocol of the chat cluster as a step
  system over nodes and messages that may be lost, delayed, doubled and reordered: what is safe, when a node leads, and
  that a majority is enough; and one node's loop as a class proved against it.
- **WebSocket transport** (`WebSocketFrame`, `WebSocketReceive`, `WebSocketConnection`, `WebSocketClose`,
  `WebSocketRules`, `WebSocketTransport`): framing, fragmentation, masking, reassembly and closing (sections 5.2 to 5.5 of
  RFC 6455). Pure functions say what a byte stream means, lemmas over plain octets and codes say what these functions do,
  and the class with its buffers is proved to follow them for every behaviour of the socket.
- **Handshake key** (`Sha1`, `HandshakeKey`): the in-place SHA-1 against FIPS 180-4 and the accept key against RFC 6455.
- **UTF-8 validator** (`Utf8`): the table-driven automaton against the grammar of RFC 3629.
- **Address texts** (`InetText`, `InetV6`, `InetPrint`): parser and printer against the text forms of RFC 4291.
- **Video engine** (`UploadQueue`, `PlayerPool`, `ChatJson`, `ChatSignals`, `DiskCache`): an upload queue under all
  interleavings of control calls and worker, a pool of players addressed modulo five, hand-made JSON, and a
  least-recently-used cache.
- **Push routing** (`PushRouting`): the split of push recipients and user cache requests over the nodes of the cluster.

`Bytes`, `Numerals` and `Wrappers` hold what several of them share.

State that the programs update in place is a class, an array or a loop here too; each such method is specified by a
function or relation on values, and the lemmas are about those. The clock, random numbers, the socket, the database's
choice between equal rows, and the order in which a map is visited are parameters or arbitrary choices.

`dafny verify dfyconfig.toml` checks everything.

## What turned out not to hold

Each of these is kept as the code has it; the lemma named gives the exact condition.

- A cancelled upload can come back to life: `UploadQueue.CancelTooLate` and `UploadQueue.CancelThenThrow`, and
  `UploadQueue.CancelIsFinal` for when it cannot.
- Two upload jobs with the same random id would lose one of them: `UploadQueue.CollisionLosesJob`; `UploadQueue.EnqueueExact`
  for when a new job is safe.
- A player can be started whose video is no longer the current one: `PlayerPool.StartTooLate`, and `PlayerPool.StrayExactly`,
  `PlayerPool.LateExactly` and `PlayerPool.OrderlyRun` for when it cannot.
- A scroll does not always preload the next two videos: `PlayerPool.StaleAfterReturn`, and `PlayerPool.PreloadExact` for
  when it does.
- A chat message whose fields hold a double quote does not arrive whole, a system message arrives as text, and a recipient
  with quotes can replace the text: `ChatJson.MessageRoundTrip`, `ChatJson.PlainRecipient`, `ChatJson.TextReplaced`.
- Presence that one chat engine announces is reported by another for a user without a name, and acknowledgements and read
  notes are not understood by another engine: `ChatSignals.PresenceHeard`, `ChatSignals.NotesIgnored`.
- A cache limit in megabytes that is 2048 or more modulo 4096 wraps below zero, and eviction never ends:
  `DiskCache.EndsForMegabytes`.
- The initial list of active nodes is not the set of live nodes when the failure limit is below one:
  `ClusterNode.Cluster.constructor`.
- Closing with a code the receiver does not allow, with a reason that is not UTF-8, or with a reason too long for one frame
  is not confirmed by the answer; the closing side then waits for the closing delay of 300 ms and closes by itself:
  `WebSocketClose.ClosingHandshake`, `WebSocketClose.LongReasonFails`, `WebSocketClose.ClosesInTheEnd`.
- A key that is not 24 bytes long, or has a NUL before its end, is not hashed as it stands: `HandshakeKey.NormalizeFixes`.
- A push to a channel without remote recipients is still sent to one other node, the one the ring gives for user 0, beside
  being queued locally: `PushRouting.SendPush`.
- The announcement to the cluster that a user is deleted does not say which user: `PushRouting.DeletionForgetsUser`.

## Model

| member | source | states |
|---|---|---|
| Election.ElectionSafety | chat-master/server/cluster_leader.go:198-257 | In every run, at whatever two moments, two nodes that know a leader in the same term know the same leader; so at most one node ever leads in a term |
| Election.LeaderKnowledge | chat-master/server/cluster_leader.go:151-162 | In every reachable state a known leader has the votes of a majority of all nodes in that node's own term |
| Election.WrongLeaderUnreachable | chat-master/server/cluster_leader.go:285-307 | A health message in flight names the node a majority elected in its term, so the branch that reports a wrong leader is never taken |
| Election.OneVotePerTerm | chat-master/server/cluster_leader.go:328-342 | Over a whole run a node votes for one candidate per term, its own candidacy included |
| Election.NextKeepsInv | chat-master/server/cluster_leader.go:260-347 | Every step keeps the invariant on nodes, messages and votes, never lowers a term and never changes a vote |
| Election.RunInv | chat-master/server/cluster_leader.go:260-347 | The invariant holds in every state of every run without restarts, with messages lost, delayed, doubled and reordered |
| Election.RunGrows | chat-master/server/cluster_leader.go:198-257 | Between any two moments of a run terms only grow and no vote or message is unsaid |
| Election.ElectedUnique | chat-master/server/cluster_leader.go:208-210 | Two nodes elected in one term are the same node, because their majorities share a voter who voted once |
| Election.ConcludeKeepsNodeInv | chat-master/server/cluster_leader.go:251-256 | A node that takes the lead has counted distinct voters who are more than half of the cluster |
| Election.CompletionKeepsInv | chat-master/server/cluster_leader.go:230-249 | Every way a vote call can end keeps the invariant: each counted vote is a different supporter's |
| Election.VoteKeepsInv | chat-master/server/cluster_leader.go:328-342 | Answering a vote request keeps the invariant and adds a vote only in a term the voter had not voted in |
| Election.HealthKeepsInv | chat-master/server/cluster_leader.go:285-307 | Taking over term and leader of a health message keeps the invariant |
| ElectionProgress.MajorityIsEnough | chat-master/server/cluster_leader.go:198-257 | From any reachable state a follower that has missed its leader can come to lead in the next term, when it and free nodes whose terms are not ahead are more than half of the cluster, whatever the others do |
| ElectionProgress.LeadsExactly | chat-master/server/cluster_leader.go:230-256 | A candidate leads in exactly the step in which twice the votes it has counted exceed the size of the cluster, none counting once it has met a newer term |
| ElectionProgress.MajorityLeads | chat-master/server/cluster_leader.go:251-253 | One more yes that makes a majority makes a leader |
| ElectionProgress.StandsExactly | chat-master/server/cluster_leader.go:271-284 | A follower stands in exactly the tick in which it has missed the timeout, with its own vote, a new term and a request to every other node |
| ElectionProgress.LeaderChecks | chat-master/server/cluster_leader.go:271-276 | A leader's tick sends a health check to every other node and changes no node |
| ElectionProgress.VotesExactly | chat-master/server/cluster_leader.go:328-342 | A vote is a yes exactly when its term is newer than the voter's, and the answer says so |
| ElectionProgress.FollowsExactly | chat-master/server/cluster_leader.go:285-307 | A health check that is not stale makes the node follow its sender; a stale one changes nothing |
| ClusterNode.Cluster.CountVotes | chat-master/server/cluster_leader.go:208-249 | The counting loop ends with the outcome of handing the completions one by one to the step system, the timer firing when they run out |
| ClusterNode.Cluster.ElectLeader | chat-master/server/cluster_leader.go:198-257 | The whole election: new term, one request per peer, and the node leads exactly when its own vote and the yes answers that came before a timeout or a newer term are more than half of the cluster |
| ClusterNode.Cluster.HandleVote | chat-master/server/cluster_leader.go:328-342 | The node's fields and its answer are those of the step system |
| ClusterNode.Cluster.HandleHealth | chat-master/server/cluster_leader.go:285-326 | The node's fields are those of the step system; the ring changes only at every second signature mismatch, and not on a stale term |
| ClusterNode.Cluster.Tick | chat-master/server/cluster_leader.go:271-284 | The leader sends health checks; another node counts a miss, and an election starts exactly when the step system starts one |
| ClusterNode.Cluster.constructor | chat-master/server/cluster_leader.go:88-124 | The initial list of all nodes is the live set exactly when the failure limit is at least one |
| ClusterNode.Cluster.CallPeers | chat-master/server/cluster_leader.go:152-177 | Failure counts are reset or raised for every peer, and a crossing is noted exactly when some peer moves over the limit |
| ClusterNode.Cluster.BelowLimit | chat-master/server/cluster_leader.go:180-185 | The list is this node and the peers below the limit, each once |
| ClusterNode.Cluster.SendHealthChecks | chat-master/server/cluster_leader.go:151-196 | Rehashing happens exactly in the rounds where the live set changes, and keeps the active list equal to the live set |
| ClusterNode.RehashMeansChange | chat-master/server/cluster_leader.go:164-184 | Some peer crosses the limit exactly when the set of peers below the limit changes |
| ClusterNode.PartitionedExactly | chat-master/server/cluster.go:824-835 | A node reports that it is partitioned exactly when at most half of the cluster is active |
| ClusterNode.UnpartitionedMeet | chat-master/server/cluster.go:824-835 | Two nodes of a cluster that both report they are not partitioned have an active node in common |
| WebSocketFrame.HeaderRoundTrip | IXWebSocket-master/ixwebsocket/IXWebSocketTransport.cpp:964-1027 | Every header (any flag, opcode, 64-bit length and mask) is read back as written, whatever bytes follow |
| WebSocketFrame.LengthRoundTrip | IXWebSocket-master/ixwebsocket/IXWebSocketTransport.cpp:982-1018 | The 7-, 16- and 64-bit length fields are read back as written |
| WebSocketFrame.MaskTwice | IXWebSocket-master/ixwebsocket/IXWebSocketTransport.cpp:408-437 | Unmasking undoes masking, for every key and payload |
| WebSocketFrame.FragmentsTile | IXWebSocket-master/ixwebsocket/IXWebSocketTransport.cpp:875-930 | Fragments concatenate to the payload, only the first has the opcode, only the last has FIN, and each is under 65536 bytes, so the 64-bit length field is never used for them |
| WebSocketFrame.FragmentAt | IXWebSocket-master/ixwebsocket/IXWebSocketTransport.cpp:886-930 | Each fragment is the slice of the payload the sending loop computes |
| WebSocketReceive.MessageRoundTrip | IXWebSocket-master/ixwebsocket/IXWebSocketTransport.cpp:464-660 | For any sequence of messages and any masks, with control frames in between and the bytes cut anywhere, each message in turn gives its steps-1 fragment events and then one message of the same kind and bytes, the control frames are passed on in order, and nothing is left over |
| WebSocketReceive.CutInvariance | IXWebSocket-master/ixwebsocket/IXWebSocketTransport.cpp:464-568 | Every cutting of a stream into reads delivers the same events and leaves the same chunks, kind and fault as one read; without a fault also the same buffer and the same actions |
| WebSocketReceive.DrainAppend | IXWebSocket-master/ixwebsocket/IXWebSocketTransport.cpp:464-568 | Dispatching now and again after more bytes is dispatching once at the end |
| WebSocketReceive.TurnKept | IXWebSocket-master/ixwebsocket/IXWebSocketTransport.cpp:467-554 | Bytes that arrive later do not change what a loop turn does with a complete frame |
| WebSocketReceive.FrameTurn | IXWebSocket-master/ixwebsocket/IXWebSocketTransport.cpp:464-660 | An encoded frame is taken in one turn, as it was sent |
| WebSocketReceive.DrainFrames | IXWebSocket-master/ixwebsocket/IXWebSocketTransport.cpp:464-767 | A stream of frames is received frame by frame with nothing left over |
| WebSocketReceive.FaultStays | IXWebSocket-master/ixwebsocket/IXWebSocketTransport.cpp:480-563 | A faulty frame is met again by the next dispatch and delivers nothing |
| WebSocketReceive.MessagePieces | IXWebSocket-master/ixwebsocket/IXWebSocketTransport.cpp:570-660 | From any fragment on, with control frames in between, the rest of the fragments completes the message |
| WebSocketReceive.WholeMessages | IXWebSocket-master/ixwebsocket/IXWebSocketTransport.cpp:570-660 | The fragments of any messages, one message after the other, are received as exactly these messages |
| WebSocketReceive.AllAcceptable | IXWebSocket-master/ixwebsocket/IXWebSocketTransport.cpp:480-645 | All frames of a sent message, and control frames of at most 125 bytes, are ones the receiver accepts |
| WebSocketRules.OnlyUtf8 | IXWebSocket-master/ixwebsocket/IXWebSocketTransport.cpp:788-822 | Whatever bytes arrive, a text message that is delivered is UTF-8 |
| WebSocketRules.InvalidTextCloses | IXWebSocket-master/ixwebsocket/IXWebSocketTransport.cpp:811-817 | A completed text that is not UTF-8 is not delivered and not kept, and an open connection is then closing with code 1007, which its CLOSE frame carries as its first two octets |
| WebSocketRules.EmitsExactly | IXWebSocket-master/ixwebsocket/IXWebSocketTransport.cpp:788-822 | A complete message is delivered as it is, or, for a text that is not UTF-8, ends an open connection |
| WebSocketRules.HeaderLayout | IXWebSocket-master/ixwebsocket/IXWebSocketTransport.cpp:963-1027 | Every header octet by octet: flag and opcode, mask bit and length, the long length with its most significant octet first, the key |
| WebSocketRules.MaskedOctet | IXWebSocket-master/ixwebsocket/IXWebSocketTransport.cpp:408-437 | Each octet of a masked payload is, bit by bit, the exclusive or of the octet sent and the key octet of its place |
| WebSocketRules.StopsExactly | IXWebSocket-master/ixwebsocket/IXWebSocketTransport.cpp:480-563 | The receiver stops at a frame exactly when a reserved bit is set, its length is over 2 to the power of 63, or it has arrived whole and is a control frame in parts or a ping over 125 bytes |
| WebSocketRules.StopsComplaining | IXWebSocket-master/ixwebsocket/IXWebSocketTransport.cpp:480-563 | It complains each time, except when the length alone is at fault |
| WebSocketRules.ComplainsExactly | IXWebSocket-master/ixwebsocket/IXWebSocketTransport.cpp:570-735 | Of the frames it takes it complains exactly about unknown opcodes, data frames out of sequence and completed texts that are not UTF-8 |
| WebSocketRules.ComplaintCloses | IXWebSocket-master/ixwebsocket/IXWebSocketTransport.cpp:1140-1235 | A complaint sends one CLOSE frame with code 1007 for an invalid text and 1002 otherwise |
| WebSocketRules.PingAnswered | IXWebSocket-master/ixwebsocket/IXWebSocketTransport.cpp:636-655 | A ping is answered by one pong with the same payload if that is enabled, and nothing else changes |
| WebSocketRules.PongNoted | IXWebSocket-master/ixwebsocket/IXWebSocketTransport.cpp:656-660 | A pong is noted and answered by nothing |
| WebSocketRules.AllowedCodes | IXWebSocket-master/ixwebsocket/IXWebSocketTransport.cpp:691-691 | The close codes a receiver allows, as ranges of numbers |
| WebSocketRules.StatusExactly | IXWebSocket-master/ixwebsocket/IXWebSocketTransport.cpp:663-706 | What any CLOSE payload is read as: no status, its code and reason, or the code for what is wrong with it |
| WebSocketRules.CloseLayout | IXWebSocket-master/ixwebsocket/IXWebSocketTransport.cpp:1140-1161 | The octets of a CLOSE frame: none for code 1005, else the code in two octets and the reason |
| WebSocketRules.AbnormalEndExactly | IXWebSocket-master/ixwebsocket/IXWebSocketTransport.cpp:747-766 | An abnormal end closes an open connection with 1006 and a closing one with its own code and reason |
| WebSocketRules.ClosesOnce | IXWebSocket-master/ixwebsocket/IXWebSocketTransport.cpp:1191-1235 | Closing again sends nothing and keeps the first code and reason |
| WebSocketRules.ClosedForgets | IXWebSocket-master/ixwebsocket/IXWebSocketTransport.cpp:206-226 | A closed connection has reported its close once and kept nothing of it |
| WebSocketConnection.DrainedWaits | IXWebSocket-master/ixwebsocket/IXWebSocketTransport.cpp:467-554 | Without a fault a dispatched buffer waits either for a header, with fewer than 14 bytes, or for the rest of a frame, with fewer bytes than wanted |
| WebSocketConnection.InStepDrained | IXWebSocket-master/ixwebsocket/IXWebSocketTransport.cpp:464-767 | A receiver that has delivered a prefix of the stream's events stays in step when it drains its buffer |
| WebSocketConnection.InStepAppend | IXWebSocket-master/ixwebsocket/IXWebSocketTransport.cpp:1100-1138 | A receiver in step stays in step with the longer stream when bytes arrive |
| WebSocketClose.ClosingHandshake | IXWebSocket-master/ixwebsocket/IXWebSocketTransport.cpp:556-732 | Over the frames that really travel, in both directions and under any keys: the closing side is closed with its own code and reason exactly when these travel and their CLOSE message fits one frame, and otherwise is left as it was; the other side is closed by its peer, with what it read, exactly when the message fits one frame |
| WebSocketClose.ClosesInTheEnd | IXWebSocket-master/ixwebsocket/IXWebSocketTransport.cpp:390-396 | However the handshake goes, after the closing delay both sides are closed, each once, and the closing side with its own code and reason |
| WebSocketClose.LongReasonFails | IXWebSocket-master/ixwebsocket/IXWebSocketTransport.cpp:556-563 | Code 1000 with a UTF-8 reason of 65534 bytes or more travels, but its CLOSE message is fragmented and refused, and neither side is closed by the handshake |
| WebSocketClose.HearsClose | IXWebSocket-master/ixwebsocket/IXWebSocketTransport.cpp:556-732 | A CLOSE message in one frame has the effect of its payload; a fragmented one is complained about as a protocol error |
| WebSocketClose.CloseRoundTrip | IXWebSocket-master/ixwebsocket/IXWebSocketTransport.cpp:663-706 | Code and reason of a CLOSE frame are read as they were sent exactly when the code is one the receiver allows and the reason is UTF-8, or there is no status and the reason is the standard text for that |
| WebSocketClose.CloseSettles | IXWebSocket-master/ixwebsocket/IXWebSocketTransport.cpp:663-713 | The status a receiver reads is always one it can send back unchanged |
| WebSocketTransport.BuildHeader | IXWebSocket-master/ixwebsocket/IXWebSocketTransport.cpp:963-1027 | The octets the sender puts into the header are the encoded header |
| WebSocketTransport.PeekHeader | IXWebSocket-master/ixwebsocket/IXWebSocketTransport.cpp:467-541 | Reading the header in place gives the parsed header, or that it is incomplete |
| WebSocketTransport.MaskInPlace | IXWebSocket-master/ixwebsocket/IXWebSocketTransport.cpp:408-437 | The in-place loops apply the key to exactly the given range |
| WebSocketTransport.ReadCloseFrame | IXWebSocket-master/ixwebsocket/IXWebSocketTransport.cpp:663-706 | Code and reason of a CLOSE frame, with the replacements for a missing or invalid code and for an invalid text |
| WebSocketTransport.WebSocketTransport.constructor | IXWebSocket-master/ixwebsocket/IXWebSocketTransport.cpp:61-83 | A new transport is closed, with empty buffers and nothing delivered |
| WebSocketTransport.WebSocketTransport.SendOnSocket | IXWebSocket-master/ixwebsocket/IXWebSocketTransport.cpp:1066-1098 | Whatever the socket answers, bytes sent followed by bytes waiting stay the concatenation of all frames in order; bytes are left waiting only when the socket asked to try again, and the call fails only when the socket failed, which closes the connection unless it is closing already |
| WebSocketTransport.WebSocketTransport.SendFragment | IXWebSocket-master/ixwebsocket/IXWebSocketTransport.cpp:948-1034 | One more frame behind all earlier ones, and conservation of bytes |
| WebSocketTransport.WebSocketTransport.SendInFragments | IXWebSocket-master/ixwebsocket/IXWebSocketTransport.cpp:886-930 | The frames added are the fragments of the message, all of them when the progress callback never declines and the socket does not fail |
| WebSocketTransport.WebSocketTransport.SendData | IXWebSocket-master/ixwebsocket/IXWebSocketTransport.cpp:832-946 | A message adds exactly its fragments, or nothing when the connection cannot send; a connection that can send answers false only when a send has failed |
| WebSocketTransport.WebSocketTransport.SendCloseFrame | IXWebSocket-master/ixwebsocket/IXWebSocketTransport.cpp:1140-1161 | The CLOSE frame with code and reason is sent as a message is |
| WebSocketTransport.WebSocketTransport.Close | IXWebSocket-master/ixwebsocket/IXWebSocketTransport.cpp:1191-1235 | Closing once sends a CLOSE frame and enters the closing state; closing again does nothing |
| WebSocketTransport.WebSocketTransport.HandleCloseFrame | IXWebSocket-master/ixwebsocket/IXWebSocketTransport.cpp:661-732 | The reply to a CLOSE frame and the state it leads to |
| WebSocketTransport.WebSocketTransport.EmitMessage | IXWebSocket-master/ixwebsocket/IXWebSocketTransport.cpp:788-822 | A text that is not UTF-8 is not delivered and an open connection is closing with code 1007; any other message is delivered and nothing else changes |
| WebSocketTransport.WebSocketTransport.GetMergedChunks | IXWebSocket-master/ixwebsocket/IXWebSocketTransport.cpp:769-786 | The merged message is the concatenation of the chunks |
| WebSocketTransport.WebSocketTransport.CheckSequence | IXWebSocket-master/ixwebsocket/IXWebSocketTransport.cpp:574-595 | The complaints about data frames out of sequence, and the kind of the message under way |
| WebSocketTransport.WebSocketTransport.StoreOrEmit | IXWebSocket-master/ixwebsocket/IXWebSocketTransport.cpp:597-634 | The last fragment delivers all chunks as one message and forgets them; any other is kept and announced |
| WebSocketTransport.WebSocketTransport.HandleData | IXWebSocket-master/ixwebsocket/IXWebSocketTransport.cpp:570-635 | A data frame leads to the chunks, the kind and the events of the receiving function |
| WebSocketTransport.WebSocketTransport.HandlePing | IXWebSocket-master/ixwebsocket/IXWebSocketTransport.cpp:636-655 | A ping is answered with the same payload if enabled, and delivered |
| WebSocketTransport.WebSocketTransport.HandlePong | IXWebSocket-master/ixwebsocket/IXWebSocketTransport.cpp:656-660 | A pong is noted and delivered |
| WebSocketTransport.WebSocketTransport.UnmaskReceiveBuffer | IXWebSocket-master/ixwebsocket/IXWebSocketTransport.cpp:428-437 | The payload in the buffer is unmasked and nothing else changes |
| WebSocketTransport.WebSocketTransport.HandleFrame | IXWebSocket-master/ixwebsocket/IXWebSocketTransport.cpp:556-742 | A complete frame is handled as the receiving function says and removed unless it is at fault |
| WebSocketTransport.WebSocketTransport.DispatchTurn | IXWebSocket-master/ixwebsocket/IXWebSocketTransport.cpp:464-743 | One turn of the loop is one turn of the receiving function |
| WebSocketTransport.WebSocketTransport.Dispatch | IXWebSocket-master/ixwebsocket/IXWebSocketTransport.cpp:461-767 | All events so far are exactly those of the whole stream received, no new text among them that is not UTF-8; the buffer then waits for bytes unless a fault or an abnormal end stopped it |
| WebSocketTransport.WebSocketTransport.EndAbnormally | IXWebSocket-master/ixwebsocket/IXWebSocketTransport.cpp:747-766 | The buffer is discarded and the connection closed, unless it is closed already |
| WebSocketTransport.WebSocketTransport.EndClosingDelay | IXWebSocket-master/ixwebsocket/IXWebSocketTransport.cpp:390-396 | A side that has waited too long for the answer to its CLOSE frame is closed with the code and reason it gave |
| WebSocketTransport.WebSocketTransport.ReceiveFromSocket | IXWebSocket-master/ixwebsocket/IXWebSocketTransport.cpp:1100-1138 | Received bytes are appended in order; a waiting buffer always leads to a read, and stays under the wanted size (or one chunk) plus one chunk |
| WebSocketTransport.EndToEnd | IXWebSocket-master/ixwebsocket/IXWebSocketTransport.cpp:464-1138 | Two transports joined by a byte stream: when all bytes of any messages have arrived, the receiver has delivered exactly those messages in order, and its buffers are empty |
| Sha1.Sha1Block | IXWebSocket-master/ixwebsocket/IXWebSocketHandshakeKeyGen.h:100-109 | The in-place rounds over five registers and a ring of sixteen words compute the compression function of section 6.1.2 of FIPS 180-4 |
| Sha1.AllRounds | IXWebSocket-master/ixwebsocket/IXWebSocketHandshakeKeyGen.h:100-107 | The five loops are the eighty rounds |
| Sha1.Loop | IXWebSocket-master/ixwebsocket/IXWebSocketHandshakeKeyGen.h:59-94 | Each loop carries the registers and the ring from its first to its last round of the definition |
| Sha1.Turn | IXWebSocket-master/ixwebsocket/IXWebSocketHandshakeKeyGen.h:63-94 | One step on the slots the source addresses is one round of the definition |
| Sha1.RingStep | IXWebSocket-master/ixwebsocket/IXWebSocketHandshakeKeyGen.h:53-56 | Overwriting the oldest ring word by the mixed one gives the next word of the schedule and keeps the last sixteen |
| Sha1.FileStep | IXWebSocket-master/ixwebsocket/IXWebSocketHandshakeKeyGen.h:63-68 | Writing two slots turns the register file by one round |
| Sha1.SameLogic | IXWebSocket-master/ixwebsocket/IXWebSocketHandshakeKeyGen.h:63-94 | The source's choice and majority expressions are those of FIPS 180-4 on every word |
| Sha1.Rotations | IXWebSocket-master/ixwebsocket/IXWebSocketHandshakeKeyGen.h:49-52 | The shifts are rotations by one, five and thirty bits |
| Sha1.ConstantsAreRoots | IXWebSocket-master/ixwebsocket/IXWebSocketHandshakeKeyGen.h:63-94 | The four constants are the square roots of 2, 3, 5 and 10 in units of 2 to the power of -30 |
| Sha1.AddInto | IXWebSocket-master/ixwebsocket/IXWebSocketHandshakeKeyGen.h:95-108 | The last loop adds every register to its hash word |
| HandshakeKey.Generate | IXWebSocket-master/ixwebsocket/IXWebSocketHandshakeKeyGen.h:128-170 | For every key the 28 characters are the accept key (section 4.2.2 of RFC 6455) of the first 24 bytes of the C string, padded with zeros |
| HandshakeKey.NormalizeFixes | IXWebSocket-master/ixwebsocket/IXWebSocketHandshakeKeyGen.h:130-132 | A key is hashed as it stands exactly when it has 24 bytes with NULs only at its end |
| HandshakeKey.NormalizeExactly | IXWebSocket-master/ixwebsocket/IXWebSocketHandshakeKeyGen.h:130-132 | Octet by octet: the key up to its first NUL, then zeros |
| HandshakeKey.QuadBits | IXWebSocket-master/ixwebsocket/IXWebSocketHandshakeKeyGen.h:111-125 | The four values of a base64 group are the bits of its three bytes, six at a time |
| HandshakeKey.EncodeDigest | IXWebSocket-master/ixwebsocket/IXWebSocketHandshakeKeyGen.h:111-125 | The loop over triples and the last pair is base64 of the twenty bytes, and no other character is written |
| HandshakeKey.InputBlock | IXWebSocket-master/ixwebsocket/IXWebSocketHandshakeKeyGen.h:135-156 | The hand-made first block is key, constant and padding bit as SHA-1 pads them |
| HandshakeKey.LastBlock | IXWebSocket-master/ixwebsocket/IXWebSocketHandshakeKeyGen.h:158-158 | The hand-made second block is the rest of the padding |
| HandshakeKey.TwoBlocks | IXWebSocket-master/ixwebsocket/IXWebSocketHandshakeKeyGen.h:135-159 | SHA-1 padding of key and constant is exactly these two blocks |
| HandshakeKey.GuidWords | IXWebSocket-master/ixwebsocket/IXWebSocketHandshakeKeyGen.h:141-149 | The nine words are the GUID of RFC 6455 in ASCII |
| HandshakeKey.GuidSpelled | IXWebSocket-master/ixwebsocket/IXWebSocketHandshakeKeyGen.h:141-149 | Their octets are the character codes of the text 258EAFA5-E914-47DA-95CA-C5AB0DC85B11 |
| HandshakeKey.InitialDigits | IXWebSocket-master/ixwebsocket/IXWebSocketHandshakeKeyGen.h:133-134 | The initial hash value, octet by octet |
| HandshakeKey.DigestOctets | IXWebSocket-master/ixwebsocket/IXWebSocketHandshakeKeyGen.h:160-168 | The hash value is turned into bytes most significant first |
| InetText.V4Exact | IXWebSocket-master/ixwebsocket/IXNetSystem.cpp:384-397 | The IPv4 parser accepts a text exactly when it is the dotted decimal print of some four bytes, and yields those bytes |
| InetText.PtonV4 | IXWebSocket-master/ixwebsocket/IXNetSystem.cpp:384-397 | The parsing loop fails or writes the four bytes, and touches no other byte |
| Numerals.ReadNumber | IXWebSocket-master/ixwebsocket/IXNetSystem.cpp:388-389 | The digit loops take the longest run of digits up to the cap, and its value |
| Numerals.DigitValues | IXWebSocket-master/ixwebsocket/IXNetSystem.cpp:365-371 | What every character is worth: decimal digits, letters A to F in either case when hexadecimal, and nothing else |
| InetV6.ExampleAddress | IXWebSocket-master/ixwebsocket/IXNetSystem.cpp:404-443 | The example of section 2.2 of RFC 4291, with upper-case letters and a gap, is read as the eight groups given there |
| InetV6.V6Exact | IXWebSocket-master/ixwebsocket/IXNetSystem.cpp:404-443 | The IPv6 parser accepts a text exactly when it is a text form of section 2.2 of RFC 4291 (eight groups, or one `::` for one or more zero groups, with an optional dotted quad at the end), and yields the address it denotes |
| InetV6.FormParses | IXWebSocket-master/ixwebsocket/IXNetSystem.cpp:404-443 | Every text form is accepted with its own meaning |
| InetV6.ParsedForm | IXWebSocket-master/ixwebsocket/IXNetSystem.cpp:404-430 | Whatever is accepted is a text form |
| InetV6.ScanText | IXWebSocket-master/ixwebsocket/IXNetSystem.cpp:406-430 | The parsing loop over an uninitialised array fails or reads the groups and the place of the gap |
| InetV6.OpenGap | IXWebSocket-master/ixwebsocket/IXNetSystem.cpp:431-436 | The move and the zero fill put the missing zero groups into the gap |
| InetV6.PtonV6 | IXWebSocket-master/ixwebsocket/IXNetSystem.cpp:404-443 | The whole parser fails or writes the sixteen bytes of the address, the dotted quad over the last four, and no byte beyond |
| InetPrint.V6RoundTrip | IXWebSocket-master/ixwebsocket/IXNetSystem.cpp:310-443 | For every 16-byte address, IPv4-mapped ones included, parsing the printed text gives the address back |
| InetPrint.V4RoundTrip | IXWebSocket-master/ixwebsocket/IXNetSystem.cpp:307-397 | For every 4-byte address, parsing the printed text gives the address back |
| InetPrint.ShortenedForm | IXWebSocket-master/ixwebsocket/IXNetSystem.cpp:337-348 | The printed text is a text form of the address; it leaves out a run of zero groups exactly when there is one of two or more, and then a longest one |
| InetPrint.MappedPrinted | IXWebSocket-master/ixwebsocket/IXNetSystem.cpp:311-336 | An IPv4-mapped address is printed as ::ffff: and the dotted quad, whatever the four bytes are |
| InetPrint.SearchFinds | IXWebSocket-master/ixwebsocket/IXNetSystem.cpp:338-343 | The search ends with the first of the longest spans of colons and zeros |
| InetPrint.SpanCovers | IXWebSocket-master/ixwebsocket/IXNetSystem.cpp:341-341 | A span at the start of a piece covers exactly the zero groups that follow and their colons |
| InetPrint.FindLongest | IXWebSocket-master/ixwebsocket/IXNetSystem.cpp:338-343 | The scanning loop over the buffer is that search |
| InetPrint.Cut | IXWebSocket-master/ixwebsocket/IXNetSystem.cpp:344-348 | The in-place edit replaces the span by two colons |
| InetPrint.NtopV6 | IXWebSocket-master/ixwebsocket/IXNetSystem.cpp:310-358 | The text is returned exactly when it is shorter than the buffer; the full text always fits the 100-byte buffer, and what is returned parses back |
| InetPrint.NtopV4 | IXWebSocket-master/ixwebsocket/IXNetSystem.cpp:307-309 | The dotted text is returned exactly when it is shorter than the buffer, and parses back |
| Utf8.ValidatesExactly | IXWebSocket-master/ixwebsocket/IXUtf8Validator.h:168-176 | A string is accepted exactly when it is a concatenation of characters of section 4 of RFC 3629 |
| Utf8.ShownEncodes | IXWebSocket-master/ixwebsocket/IXUtf8Validator.h:85-93 | The code points left at each return to the accepting state are scalar values, and the string is their encoding |
| Utf8.EncodingIsShown | IXWebSocket-master/ixwebsocket/IXUtf8Validator.h:85-93 | Every encoded sequence of scalar values is accepted and shows exactly those values |
| Utf8.FeedPieces | IXWebSocket-master/ixwebsocket/IXUtf8Validator.h:126-140 | Decoding pieces in turn is decoding their concatenation |
| Utf8.FeedExactly | IXWebSocket-master/ixwebsocket/IXUtf8Validator.h:126-149 | From any accepting state, acceptance is membership in the grammar |
| Utf8.TableIsDelta | IXWebSocket-master/ixwebsocket/IXUtf8Validator.h:50-76 | The 400-entry table is the transition by octet ranges, and its classes give the payload bits of lead octets |
| Utf8.CharEncodes | IXWebSocket-master/ixwebsocket/IXUtf8Validator.h:50-93 | Every character of the grammar is the encoding of its scalar value |
| Utf8.EncodingIsChar | IXWebSocket-master/ixwebsocket/IXUtf8Validator.h:50-93 | Every encoding of a scalar value is a character of the grammar with that value |
| Utf8.DecodeNextByte | IXWebSocket-master/ixwebsocket/IXUtf8Validator.h:85-93 | One table lookup is one transition, with the code point accumulated |
| Utf8.ValidateUtf8 | IXWebSocket-master/ixwebsocket/IXUtf8Validator.h:168-176 | The function answers membership in the grammar |
| Utf8.Utf8Validator.Decode | IXWebSocket-master/ixwebsocket/IXUtf8Validator.h:126-140 | The loop feeds the bytes up to the first rejection |
| Utf8.Utf8Validator.Consume | IXWebSocket-master/ixwebsocket/IXUtf8Validator.h:111-118 | One byte is one transition, refused exactly in the rejecting state |
| UploadQueue.EveryInterleaving | ViralEngine/core/ViralUploadEngine.cpp:77-325 | In every interleaving a queued job is in the queue or in the worker's hands and not yet started, at most one job is uploading, the one the worker has, and every queued id has a job |
| UploadQueue.ApplyKeepsInv | ViralEngine/core/ViralUploadEngine.cpp:77-325 | Every critical section of every thread keeps the invariant |
| UploadQueue.RunKeepsInv | ViralEngine/core/ViralUploadEngine.cpp:77-325 | Every run keeps the invariant |
| UploadQueue.Quiescent | ViralEngine/core/ViralUploadEngine.cpp:198-226 | When the worker is idle and the queue empty no job is waiting or uploading |
| UploadQueue.CancelIsFinal | ViralEngine/core/ViralUploadEngine.cpp:137-286 | A cancelled job stays cancelled in every continuation exactly when the worker is not between its check of that job and the start of the thread that polls its progress |
| UploadQueue.CancelTooLate | ViralEngine/core/ViralUploadEngine.cpp:222-238 | From the empty engine: a job cancelled between the check and the start is uploaded all the same |
| UploadQueue.CancelThenThrow | ViralEngine/core/ViralUploadEngine.cpp:233-324 | From the empty engine: a job cancelled before an exception from setting up the upload has failed, and can be tried again |
| UploadQueue.EnqueueExact | ViralEngine/core/ViralUploadEngine.cpp:77-108 | A new job keeps the invariant exactly when its id is new or the queue is full |
| UploadQueue.CollisionLosesJob | ViralEngine/core/ViralUploadEngine.cpp:63-72 | Were two jobs to get the same random id, the second would stay queued for ever, outside the queue |
| UploadQueue.Drains | ViralEngine/core/ViralUploadEngine.cpp:198-325 | Whatever the server answers, an undisturbed worker empties the queue within the queue length plus the retries left, and leaves no job waiting or uploading |
| UploadQueue.AllSucceed | ViralEngine/core/ViralUploadEngine.cpp:198-325 | When all uploads succeed exactly the queued jobs that are not cancelled are completed, and no other status changes |
| UploadQueue.TurnSpends | ViralEngine/core/ViralUploadEngine.cpp:289-318 | Every turn of the worker spends a queue entry or a retry |
| UploadQueue.TurnDoes | ViralEngine/core/ViralUploadEngine.cpp:208-318 | What one undisturbed turn does to the job at the head of the queue, for each outcome |
| UploadQueue.ThreeTries | ViralEngine/core/ViralUploadEngine.cpp:289-318 | A new job is given up after exactly three failed uploads, and waits again after the first two |
| UploadQueue.RetryGivesThree | ViralEngine/core/ViralUploadEngine.cpp:148-318 | A failed job that is tried again by hand gets three more tries |
| UploadQueue.ControlJob | ViralEngine/core/ViralUploadEngine.cpp:114-160 | A control call changes the job it names as stated if its status is the right one, and no other job |
| UploadQueue.ControlQueue | ViralEngine/core/ViralUploadEngine.cpp:125-160 | Resume and retry put the job behind all others exactly when its status is the right one |
| UploadQueue.WorkJob | ViralEngine/core/ViralUploadEngine.cpp:206-325 | A worker step changes the job in its hands as stated, and no other job |
| UploadQueue.WorkQueue | ViralEngine/core/ViralUploadEngine.cpp:206-318 | The worker takes the head of the queue, drops it if cancelled, and puts a failed one back at the end exactly while tries are left |
| UploadQueue.UploadEngine.Enqueue | ViralEngine/core/ViralUploadEngine.cpp:77-108 | A new queued job and its id at the end of the queue, or an empty id when ten are waiting; the invariant is kept exactly when the id is new or the queue full |
| UploadQueue.UploadEngine.Pause | ViralEngine/core/ViralUploadEngine.cpp:114-123 | Only an uploading job is paused; the invariant is kept |
| UploadQueue.UploadEngine.Resume | ViralEngine/core/ViralUploadEngine.cpp:125-135 | Only a paused job is queued again; the invariant is kept |
| UploadQueue.UploadEngine.Cancel | ViralEngine/core/ViralUploadEngine.cpp:137-146 | The job is cancelled whatever its status; the invariant is kept |
| UploadQueue.UploadEngine.Retry | ViralEngine/core/ViralUploadEngine.cpp:148-160 | Only a failed job is queued again, with its count and progress reset; the invariant is kept |
| UploadQueue.UploadEngine.GetStatus | ViralEngine/core/ViralUploadEngine.cpp:174-179 | The status of the job, cancelled for an unknown id |
| UploadQueue.UploadEngine.PopJob | ViralEngine/core/ViralUploadEngine.cpp:206-212 | The head of the queue moves to the worker; the invariant is kept |
| UploadQueue.UploadEngine.CheckJob | ViralEngine/core/ViralUploadEngine.cpp:214-222 | A cancelled or unknown job is dropped; the invariant is kept |
| UploadQueue.UploadEngine.StartJob | ViralEngine/core/ViralUploadEngine.cpp:233-238 | The job becomes the one uploading; the invariant is kept |
| UploadQueue.UploadEngine.LaunchPoller | ViralEngine/core/ViralUploadEngine.cpp:256-286 | From here on an exception from the upload is not caught any more; the invariant is kept |
| UploadQueue.UploadEngine.ReportProgress | ViralEngine/core/ViralUploadEngine.cpp:262-270 | Progress of the running job; the invariant is kept |
| UploadQueue.UploadEngine.FinishJob | ViralEngine/core/ViralUploadEngine.cpp:293-318 | Cancelled and paused jobs are left alone, otherwise completed, queued again, or failed after three tries; the invariant is kept |
| UploadQueue.UploadEngine.FailJob | ViralEngine/core/ViralUploadEngine.cpp:241-324 | An exception before the poller thread exists fails the job without looking at its status; the invariant is kept |
| PlayerPool.ForwardExact | ViralEngine/core/ViralEngine.c:251-302 | Scrolling forward one by one from 0, with player messages at any time, the live players at i are exactly those of i-2 to i+2 within the feed |
| PlayerPool.EveryRun | ViralEngine/core/ViralEngine.c:251-302 | In every run of scrolls and player messages a live player sits in slot index mod 5 with the url of its index, no index has two, and the current index has one |
| PlayerPool.OrderlyRun | ViralEngine/core/ViralEngine.c:80-87 | In every run without a scroll to another video between a successful comparison and the start that follows it, no other player than the current one is ever started |
| PlayerPool.StrayExactly | ViralEngine/core/ViralEngine.c:80-87 | Until the next scroll no other player than the current one is started, exactly when no start is still to come for a video that is no longer current |
| PlayerPool.LateExactly | ViralEngine/core/ViralEngine.c:251-302 | A scroll leaves such a late start behind exactly when it moves away from a video whose player is about to be started and survives the scroll |
| PlayerPool.StartTooLate | ViralEngine/core/ViralEngine.c:80-87 | A scroll to 1 between the comparison and the start of video 0 leaves video 0 started while video 1 is current |
| PlayerPool.ScrollTames | ViralEngine/core/ViralEngine.c:251-302 | A scroll by itself starts no other player than the current one and pauses the one before |
| PlayerPool.ScrollPlays | ViralEngine/core/ViralEngine.c:266-275 | After a scroll the player of the new video is running exactly when it was there before and was running, ready or paused; otherwise it is being prepared |
| PlayerPool.PreparedPlays | ViralEngine/core/ViralEngine.c:77-90 | A player that reports the current video prepared is running one step later |
| PlayerPool.StartsOnce | ViralEngine/core/ViralEngine.c:86-264 | A start that was to come is made once: when the video is scrolled away from and its player paused it is not made again |
| PlayerPool.MessageExactly | ViralEngine/core/ViralEngine.c:77-117 | A message sets its player's state, and a start to come if the current video is prepared, and nothing else |
| PlayerPool.PreloadExact | ViralEngine/core/ViralEngine.c:277-285 | After any run, a scroll preloads each of the next two videos exactly when its slot is not one that kept this index after its player was released |
| PlayerPool.StaleAfterReturn | ViralEngine/core/ViralEngine.c:287-299 | In a feed of five, scrolling to the end and back to the start leaves video 1 without a player |
| PlayerPool.ScrollKeepsInv | ViralEngine/core/ViralEngine.c:251-302 | A scroll keeps the invariant and makes the index current |
| PlayerPool.MessageKeepsInv | ViralEngine/core/ViralEngine.c:77-117 | A player's message, up to the comparison, keeps the invariant |
| PlayerPool.WindowMoves | ViralEngine/core/ViralEngine.c:251-302 | A step forward moves the window of live players by one |
| PlayerPool.ViralFeed.constructor | ViralEngine/core/ViralEngine.c:199-206 | A new feed has five empty slots and no current index |
| PlayerPool.ViralFeed.PreloadAhead | ViralEngine/core/ViralEngine.c:277-285 | The loop prepares the next two videos whose slots hold another index, and stops at the end of the feed |
| PlayerPool.ViralFeed.ScrollTo | ViralEngine/core/ViralEngine.c:251-302 | The whole scroll, with the invariant kept; afterwards the player of the new video is there, running exactly when it was there and running, ready or paused; an index outside the feed changes nothing |
| PlayerPool.ViralFeed.OnMessage | ViralEngine/core/ViralEngine.c:80-86 | The slot's new state, and a start to come exactly when the prepared video is the current one |
| PlayerPool.ViralFeed.StartPlayer | ViralEngine/core/ViralEngine.c:86-87 | The start that follows a successful comparison, in a step of its own |
| ChatJson.MessageRoundTrip | ViralEngine/core/ViralChatEngine.cpp:137-226 | For every message, any recipient included: it is recovered exactly when id, conversation and sender hold no quote and the recipient lets type, text and media url through (it forges none of them and they hold no quote, or what it forges is what they are) |
| ChatJson.PlainRecipient | ViralEngine/core/ViralChatEngine.cpp:137-226 | For a recipient without quotes: exactly when the five fields that are read hold none and it is not a system message |
| ChatJson.HeadersRead | ViralEngine/core/ViralChatEngine.cpp:137-170 | Id, conversation and sender are recovered for any recipient, exactly as far as they hold no quote |
| ChatJson.BehindRecipient | ViralEngine/core/ViralChatEngine.cpp:137-226 | Type, text and media url are read from what the recipient forges, or else up to their first quote |
| ChatJson.TextReplaced | ViralEngine/core/ViralChatEngine.cpp:137-226 | A recipient that holds quotes can put any text in place of the one sent |
| ChatJson.ObjectRoundTrip | ViralEngine/core/ViralChatEngine.cpp:137-152 | In an object of strings without quotes, extracting a key is looking it up, and a missing key gives the empty string |
| ChatJson.JsonGetFinds | ViralEngine/core/ViralChatEngine.cpp:137-152 | The first match of a key is its own field whenever the fields before hold no quote, and its value is read up to its first quote |
| ChatJson.AtQuote | ViralEngine/core/ViralChatEngine.cpp:138-149 | The search pattern matches at a quoted word exactly when it is that word with the same continuation |
| ChatJson.FieldSkipped | ViralEngine/core/ViralChatEngine.cpp:138-149 | A field with another key holds no match, not even when its value is the key |
| ChatJson.BuiltIsMessage | ViralEngine/core/ViralChatEngine.cpp:212-226 | A built message is read as a message whatever its fields hold |
| ChatJson.Delivery | ViralEngine/core/ViralChatEngine.cpp:154-182 | A message without quotes that one engine builds is what the other reports, addressed to itself and delivered |
| ChatSignals.BuiltText | ViralEngine/core/ViralChatEngine.cpp:212-226 | The text of a message, key by key |
| ChatSignals.NoteTexts | ViralEngine/core/ViralChatEngine.cpp:176-305 | The texts of acknowledgement, read note, typing and presence |
| ChatSignals.TypingWord | ViralEngine/core/ViralChatEngine.cpp:187-190 | Typing with any unquoted word is reported for its conversation, as yes exactly for true and 1 |
| ChatSignals.TypingHeard | ViralEngine/core/ViralChatEngine.cpp:187-289 | Typing that one engine sends is what the other reports |
| ChatSignals.PresenceWord | ViralEngine/core/ViralChatEngine.cpp:192-195 | Presence with any unquoted word is reported for its user, as online exactly for true and 1 |
| ChatSignals.PresenceHeard | ViralEngine/core/ViralChatEngine.cpp:192-305 | Presence that one engine sends is reported by the other for a user without a name |
| ChatSignals.StatusHeard | ViralEngine/core/ViralChatEngine.cpp:179-185 | A status is reported for its message: delivered, read, or sent for any other word |
| ChatSignals.NotesIgnored | ViralEngine/core/ViralChatEngine.cpp:154-277 | An acknowledgement and a read note are ignored by another engine |
| ChatJson.ChatEngine.OnRawMessage | ViralEngine/core/ViralChatEngine.cpp:154-197 | Each branch: a message is stored at the end of its conversation, reported and acknowledged; the others are reported only; anything else is ignored |
| ChatJson.ChatEngine.SendMessage | ViralEngine/core/ViralChatEngine.cpp:228-267 | The message is stored as pending and its text sent or queued |
| ChatJson.ChatEngine.SendTyping | ViralEngine/core/ViralChatEngine.cpp:283-289 | The typing text is sent or queued |
| ChatJson.ChatEngine.MarkRead | ViralEngine/core/ViralChatEngine.cpp:275-277 | The read note is sent or queued |
| ChatJson.ChatEngine.OnConnected | ViralEngine/core/ViralChatEngine.cpp:114-123 | Presence goes out first, then everything queued, in order |
| ChatJson.ChatEngine.FlushOfflineQueue | ViralEngine/core/ViralChatEngine.cpp:313-319 | Everything queued is sent in order |
| DiskCache.EvictedOldest | ViralEngine/core/ViralStorageEngine.cpp:355-361 | Rows are deleted in order of last access, and no deleted row was accessed later than one that stays |
| DiskCache.EvictedNeeded | ViralEngine/core/ViralStorageEngine.cpp:355-361 | With any shorter list of deletions, the last one restored for instance, the total is above the limit |
| DiskCache.EvictedTotal | ViralEngine/core/ViralStorageEngine.cpp:342-361 | The total ends at or under the limit, and what is missing is what was deleted |
| DiskCache.EvictedRows | ViralEngine/core/ViralStorageEngine.cpp:355-361 | Kept and deleted rows together are the old rows, each as often |
| DiskCache.PutDistinct | ViralEngine/core/ViralStorageEngine.cpp:311-323 | After a registration the table holds the new row, every row of another key, and nothing else |
| DiskCache.PutExactly | ViralEngine/core/ViralStorageEngine.cpp:311-323 | The same as multisets: no row of another key is lost or doubled |
| DiskCache.NothingEvicted | ViralEngine/core/ViralStorageEngine.cpp:355-361 | Rows that fit the limit together all stay |
| DiskCache.EndsExactly | ViralEngine/core/ViralStorageEngine.cpp:355-361 | With sizes that are not negative eviction can end exactly when the limit is not negative |
| DiskCache.NewestStays | ViralEngine/core/ViralStorageEngine.cpp:311-361 | An entry newer than all others stays exactly when it fits the limit by itself |
| DiskCache.LimitBytes | ViralEngine/core/ViralStorageEngine.cpp:33-35 | The limit in a 32-bit integer that wraps around: not negative exactly when megabytes mod 4096 is below 2048, and exact from 0 to 2047 |
| DiskCache.EndsForMegabytes | ViralEngine/core/ViralStorageEngine.cpp:33-361 | With sizes that are not negative eviction can end exactly when megabytes mod 4096 is below 2048 |
| DiskCache.Cache.EvictionTurn | ViralEngine/core/ViralStorageEngine.cpp:355-361 | One turn of the loop for any limit: it deletes an oldest row while the total is above the limit; with a negative limit and sizes that are not negative there is always another turn |
| DiskCache.Cache.EvictIfNeeded | ViralEngine/core/ViralStorageEngine.cpp:355-361 | With a limit that is not negative the loop ends, having deleted rows as the relation says, for every choice the database makes between rows of equal age |
| DiskCache.Cache.RegisterCacheEntry | ViralEngine/core/ViralStorageEngine.cpp:311-361 | The row replaces one of the same key; when it and the rows of other keys fit the limit together the table is exactly these, and otherwise the total ends under the limit and a newest row stays exactly when it fits |
| DiskCache.Cache.GetCachedPath | ViralEngine/core/ViralStorageEngine.cpp:325-340 | The path of the key and a new access time for its row alone; the empty string and no change for a missing key |
| DiskCache.Cache.GetCacheSizeBytes | ViralEngine/core/ViralStorageEngine.cpp:342-353 | The sum of all sizes |
| DiskCache.Cache.SelectOldest | ViralEngine/core/ViralStorageEngine.cpp:358-359 | Some row that no other was accessed before |
| PushRouting.OnceEach | chat-master/server/cluster.go:707-766 | With no routing error each remote recipient is in exactly one call, the one to the node the ring assigns, with its record unchanged, and nobody else is in any |
| PushRouting.SplitExact | chat-master/server/push.go:197-219 | The local part and the requests by node hold exactly the recipients, each once, at home, with its record |
| PushRouting.NoneEmpty | chat-master/server/cluster.go:711-730 | No node gets a request without recipients |
| PushRouting.RoutableExactly | chat-master/server/cluster.go:782-797 | A user can be routed exactly when the ring puts its topic on another node that is there |
| PushRouting.PushPacket | chat-master/server/cluster.go:711-730 | Besides its recipients a push to a node carries the payload and the sender, and nothing else |
| PushRouting.ListPacket | chat-master/server/cluster.go:731-751 | A list sent to a node carries its users, the direction and the sender; a deletion goes to every other node |
| PushRouting.GroupByNode | chat-master/server/cluster.go:709-730 | The loop groups the recipients by node in any order, and fails exactly when some recipient's node is this one or not there |
| PushRouting.CallAll | chat-master/server/cluster.go:753-766 | The calling loop calls different nodes with their requests up to the first failure, and all of them exactly when all accept |
| PushRouting.RouteUserReq | chat-master/server/cluster.go:707-780 | For every request (a push, a list of users, a deletion, one user): nothing is sent when some user's node is missing, otherwise each node gets its own packet up to the first failure; a request that is split into nothing goes whole to the node of its own user |
| PushRouting.GroupList | chat-master/server/cluster.go:731-744 | The loop groups a list of users by node, keeping their order, and fails exactly when some user's node is this one or not there |
| PushRouting.ListExact | chat-master/server/cluster.go:731-744 | Each user of a list is in the packet for its home as often as in the list, and in no other |
| PushRouting.ListBeforeGone | chat-master/server/cluster.go:731-751 | A list of users is never announced as a deletion |
| PushRouting.DeletionForgetsUser | chat-master/server/cluster.go:745-751 | The announcement that a user is deleted names no user, whoever it is about |
| PushRouting.SendPush | chat-master/server/push.go:188-230 | What is queued locally and which calls are made, for every cluster, receipt and reply |
| PushRouting.SplitRecipients | chat-master/server/push.go:209-215 | The loop puts each recipient on its side with its record, in any order |

## Left out

- Node restarts: the term is kept in memory only, so a node that restarts could vote twice in a term; runs are without restarts and with fixed membership.
- Agreement of a health message's ring signature with its node list across leader changes: a follower's rehash does not update its active nodes; the signature is any function of a node list.
- A vote call completes at most once, as an RPC call does; the RPC layer itself is not part of this model.
- The ring hash: any function from topics to nodes.
- permessage-deflate: compression is off, as the codec is not visible.
- Sockets, TLS, DNS, poll, timers, heartbeats, the blocking flush of the send buffer and the wait for it in blocking mode: the socket is an arbitrary count of bytes accepted or delivered.
- Reconnection: one connection's lifetime is modelled; buffers are not reset between connections in the program.
- The wire size passed to the close callback: it depends on how the stream was cut into reads.
- The order in which threads reach the closing delay: it is one step that may come at any time after the handshake.
- Octets in frames and texts are integers below 256 and their bit operations are written as arithmetic; SHA-1 uses bit-vectors.
- The choice of address family and its error, the platforms on which both functions are the system's own, and what a failing parser has already written to its output.
- Addresses are printed with one longest run left out, not always the first of several: nothing more is stated about ties.
- Upload jobs are found by id; the worker's pointer into the vector, which a later enqueue may move, is not modelled. Runs are those in which new ids are new.
- An exception that leaves the upload while the poller thread is joinable ends the process, and callbacks are taken not to throw.
- Pausing and resuming the whole upload engine and stopping the worker only delay the worker's next step. A bound on the queue length or on retries under pause and resume is not stated, as resume and retry skip the size check.
- A scroll of the feed is one step, as it holds the lock; a player's message is two, the comparison and the start. Shutting a player down ends its message loop.
- Playback, seeking, volume, surfaces and the release of a whole feed; replacing the url list of a feed in use.
- Conversations and limits on message lists of the chat engine; the time of a received message, which the program leaves unset, is a parameter.
- SQL texts and their escaping, files on disk, and integer overflow of the database's sum.
- A missing push receipt, and what a node does with a user cache request it gets.
- HTTP, the command line tool, file, gRPC and long-poll handlers, calls, API keys and generated code: plumbing, or easier than what is here.
- DiskCache.Cache.EvictIfNeeded: requires a limit that is not negative, because with a negative one the loop does not end; DiskCache.Cache.EvictionTurn covers its turns.
- DiskCache.Cache.RegisterCacheEntry: requires a limit that is not negative, for the same reason.
