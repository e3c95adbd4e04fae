# FleetShell protocols, codecs and spools

A Dafny model of the parts of FleetShell whose correctness depends on interleaving, on how bytes
are cut into reads, or on several programs agreeing about one data set. Every module models one
component; the table below names what is proved of it.

**Gateway sessions.** `ParkedSessions` is the machine of connection handlers, the shared map of
parked guacd sessions and one detached timer per park. Timers are never cancelled, so a session
parked twice can be expired by its first timer: the grace period holds as an upper bound in every
run, and as a lower bound exactly when no earlier timer is pending. `AgentFrames` and `AgentMux`
are the in-band ssh-agent multiplex: the two relays of the gateway and the client's side as
readers over byte streams, and the whole exchange as a machine over six links that move bytes in
pieces of any size. `SshFrames` is the frame parser of the SSH relay.

**Streaming codecs.** `GuacCodec` and `GuacBridge` are the Guacamole encoder, the gateway's reader
and the client's bridge with its carry buffer. `HttpMessages`, `Chunked` and `HttpFraming` are the
HTTP/1.1 transform proxy: header operations, serialisation, readers, and the replacement of the
chunked coding by an announced length.

**Flattening and caching.** `Classification` factors spreadsheet rows into rule sets;
`ClassificationSync` loads them by name, resolves them per product and writes one hash per product.
`SpoolRecords` and `Spool` are the device and gateway spools with the six page actions that drive
them. `InfoProxy` is the streamed group-by of the info-proxy spool with its pipelined writes and
its pruning. `AuthzCache` is the authorisation cache: generation number, memo per process, and
signatures stored under the generation.

**Supporting algorithms.** `Slots` (slot allocator and idle monitors), `GroupTree` (indented group
file and paths to the root), `Ports` (two interpreters of one port notation), `Keystrokes` and
`Subtitles` (segments of recorded text, wrapping and cues).

`Wrappers`, `Bytes`, `Decimal`, `Utf8` and `Text` hold what several modules use: byte streams whose
reads return any non-empty piece, decimal numerals, UTF-8, trimming and joining.

A machine is a set of events with a guard `Enabled` and an effect `Next`; a run is any sequence of
enabled events, so a statement about runs covers every interleaving. One event is what the program
does between two points where it can be interrupted (an await, a lock). The classes beside a
machine (`Gateway`, `Portal`, `FrameParser`) hold the program's own variables, and each method
states that the whole new state is that of the event it models.

What a number, key, record or line looks like from outside is stated on its own, in terms of the
text or bytes that stand there (`MessageReads`, `WireSpelled`, `KeyReads`, `RuleReads`,
`HashDescribes`, `SameMeans`, `ActionsMean`, `ItemReads`): texts are spelled in ASCII, a joined text is
read by taking it apart, and a lossless reading goes both ways.

Where the code and its documentation differ, the code is followed:

* `classification_dedup.py` calls the factoring minimal. Among assignments that state every rule
  once it is, on every input (`FewestSets`). Among all lossless ones it is whenever the input has as
  many pairs no two of which fit in one set as the factoring has sets (`FewestOfAll`), in particular
  when supports are disjoint or nested; in general it is not (`RepeatingRulesCanSave`), because the
  least number of sets is then that of a covering problem the code does not solve.
* Two products of one modality may share a name. Only the one the importer reads first gets the
  rules stated for it, and both write to one key, where the one the portal reads last wins; neither
  query orders products of one name. `SharedKeyHolds` says what the key ends up with, and
  `AllWantedIffInput` and `AllWantedIffUnshadowed` when every key is right, for any two orders.
* The generation key can be unset or zero, and then the cache can answer with a stale signature;
  `SafeIffInitialised` gives the exact condition.
* A process drops its memo before it raises the generation. One of its own lookups in between writes
  the memo again, and the process then answers from before its own edit for as long as the memo
  lasts (`OwnEditMissed`); without such a lookup it sees its own edit at once (`OwnEditSeen`).
* Nothing in the schema keeps two devices, or two gateways, from sharing an address. `SaveRightIff`,
  `DeleteRightIff`, `GatewaySaveRightIff`, `GatewayDeleteRightIff` and `RespoolRightIff` say exactly
  when a single write or removal of keys leaves its side right, starting from any state in which it
  was, addresses shared or not. Two rows under one address can be right for a while and still lose a
  key: to one that moves away (`MovingTakesSharedKey`), to one without a pre-shared key
  (`KeylessTwinTakesKey`). The results over whole runs take addresses to be unique throughout.
* The header parser may leave bytes over (it accepts line ends without CR). A forwarded message then
  reads back as itself exactly when those bytes fit the announced length; `LeftoverWithoutLength` and
  `LeftoverPastLength` are messages that do not. Normalising never lengthens a head, but serialising
  writes a space after each colon, which can push a head at the size limit past it
  (`TightHeadIsRejected`).
* The scan of the client's bridge adds a declared length to its position without a check. A length
  close to the 64-bit limit makes the addition overflow (`ScanMatchesReader` says exactly when). A
  build with overflow checks then panics; the release profile has none, the position wraps, and on
  `1.a,18446744073709551594.` the loop never ends (`WrappedLoops`).
* A chunk's size line is read as text, so an extension with bytes that are not UTF-8 is an error
  although the grammar allows them (`ObsTextIsRejected`).
* A group file may repeat a label, and its last line decides. Some repeats make a cycle;
  `FileTreeAcyclicIff` says exactly which.

Assumptions. guacd identifiers are unique, job files can be written, and a timer that is due fires
before time goes on. For the cache: Valkey is reachable, the digest is injective, clocks of all
processes agree, and an edit is committed before its bump. For the spools: writes succeed and run
one action at a time. For the info-proxy spool: no other writer works on its keys, and the two
ordered queries return the rows of a scope together. For the slots: the clock does not go back.

## Model

| member | source | states |
|---|---|---|
| ParkedSessions.OwnershipIsLinear | fleetshell-gateway/src/handler.rs:335-368 | In every interleaving of connects, reconnects, drops and timers each live session has exactly one owner, one handler or timer, or one map entry; an ended one has none; a handler about to park never finds its key taken |
| ParkedSessions.JobWrittenOnceAtEnd | fleetshell-gateway/src/handler.rs:538-567 | A recorded session has no job file while it lives and exactly one once it has ended, on all three ending paths; sessions without recording never get one |
| ParkedSessions.ParkedAtMostGrace | fleetshell-gateway/src/handler.rs:741-761 | A parked session is never older than the grace period, counted from its latest park |
| ParkedSessions.ExpiresAtEarliestTimer | fleetshell-gateway/src/handler.rs:741-761 | Without a reconnect a parked session stays until the earliest timer ever armed for its id is due, older parks included, and is gone after that moment |
| ParkedSessions.TimeCanPass | fleetshell-gateway/src/handler.rs:743-761 | Due timers can always be worked off, so time is never blocked: the bounds above are not vacuous |
| ParkedSessions.FullGraceIff | fleetshell-gateway/src/handler.rs:741-761 | A parked session lives its full grace period if and only if no pending timer for its id falls due earlier |
| ParkedSessions.StaleTimerExample | fleetshell-gateway/src/handler.rs:741-761 | A reachable state in which an uncancelled earlier timer cuts a re-parked session short |
| ParkedSessions.RelayGuac | fleetshell-gateway/src/handler.rs:665-722 | The relay ends at the first turn that loses an endpoint, and says which one was lost |
| ParkedSessions.ConnectRelays | fleetshell-gateway/src/handler.rs:511-546 | A new session is relayed by its own handler, with its own metadata |
| ParkedSessions.ClientLossParks | fleetshell-gateway/src/handler.rs:544-553 | When a client is lost, its handler's own steps alone put the session into the map with its own metadata, nothing ends and no job is written, and a reconnect then finds it |
| ParkedSessions.ParkingWaits | fleetshell-gateway/src/handler.rs:741-745 | Whatever the others do, a handler on its way to park stays on it until it takes its own step, and the session does not end before |
| ParkedSessions.GuacdLossEnds | fleetshell-gateway/src/handler.rs:548-567 | When guacd is lost, the handler's next step ends the session and writes its job if it is recorded |
| ParkedSessions.GuacdLossIsFinal | fleetshell-gateway/src/handler.rs:548-567 | After guacd is lost no continuation of the run has the session parked |
| ParkedSessions.EndsOnlyByLoss | fleetshell-gateway/src/handler.rs:335-368 | In every run a session ends only after its handler lost guacd or a timer found it parked |
| ParkedSessions.InvKept | fleetshell-gateway/src/handler.rs:335-368 | Ownership, job accounting and timer coverage are kept by every step of every handler and timer |
| ParkedSessions.Gateway.NewSession | fleetshell-gateway/src/handler.rs:511-546 | A new session gets its record and one relaying owner; the whole new state is that of the machine step |
| ParkedSessions.Gateway.TakeParked | fleetshell-gateway/src/handler.rs:338-342 | A reconnect removes the map entry and becomes the owner in one step; the whole new state is that of the machine step |
| ParkedSessions.Gateway.RelayEnded | fleetshell-gateway/src/handler.rs:544-553 | The session is on its way to park when the client went away, and to end when guacd did; the whole new state is that of the machine step |
| ParkedSessions.Gateway.RelayAndLeave | fleetshell-gateway/src/handler.rs:665-722 | The relay and what follows it: the session is on its way to park if and only if the first endpoint lost was the client |
| ParkedSessions.Gateway.InsertParked | fleetshell-gateway/src/handler.rs:741-741 | The stream moves from the handler into the map; the whole new state is that of the machine step |
| ParkedSessions.Gateway.SpawnTimer | fleetshell-gateway/src/handler.rs:743-745 | A timer for the full grace period is armed and no earlier one is cancelled; the whole new state is that of the machine step |
| ParkedSessions.Gateway.TimerWakes | fleetshell-gateway/src/handler.rs:745-748 | A due timer takes whatever entry its id has now, or nothing; the whole new state is that of the machine step |
| ParkedSessions.Gateway.WriteJobFile | fleetshell-gateway/src/handler.rs:350-362 | The job file is written by whoever ended the session; the whole new state is that of the machine step |
| ParkedSessions.Gateway.Tick | fleetshell-gateway/src/handler.rs:744-745 | Time moves only when no timer is overdue; the whole new state is that of the machine step |
| ParkedSessions.Gateway.Drive | fleetshell-gateway/src/handler.rs:335-368 | Run under any schedule, the fields follow the machine and its ownership, job and timer invariant holds |
| AuthzCache.InitialisedIsSafe | fleetshell-portal/src/lib/server/cache.ts:140-169 | With the generation key initialised and edits committed before their bump, in every run over any number of processes: a stored signature covers every edit its generation stands for, and no lookup started a memo lifetime after a bump answers with an older signature |
| AuthzCache.SafeIffInitialised | fleetshell-portal/src/lib/server/cache.ts:140-158 | That holds in all runs if and only if the generation key was already at least 1 at the start |
| AuthzCache.ZeroGenIsUnsafe | fleetshell-portal/src/lib/server/cache.ts:147-152 | Generation 0 in the store lets a stale signature be answered |
| AuthzCache.UnsetGenIsUnsafe | fleetshell-portal/src/lib/server/cache.ts:147-152 | Two lookups that both find the key unset: the later SET takes a bump back, and a stale signature is answered |
| AuthzCache.SoftWindowIsTight | fleetshell-portal/src/lib/server/cache.ts:137-145 | Within the in-process reuse window a signature older than the edit is really answered, at every offset shorter than the window |
| AuthzCache.OwnEditSeen | fleetshell-portal/src/lib/server/cache.ts:161-169 | A process with no memo when its bump arrives, and none under way, sees its own edit at once: no lookup it starts afterwards, in any run, answers from before the edit |
| AuthzCache.OwnEditMissed | fleetshell-portal/src/lib/server/cache.ts:161-169 | A lookup of the same process between the two halves of the bump writes the memo again; from there the process answers from before its own edit |
| AuthzCache.Portal.CallScopeSignature | fleetshell-portal/src/lib/server/authz.ts:63-82 | A lookup starts with its own query and clock; the whole new state is that of the machine step |
| AuthzCache.Portal.AuthzGen | fleetshell-portal/src/lib/server/cache.ts:140-145 | The memo answers while it is younger than the reuse window; the whole new state is that of the machine step |
| AuthzCache.Portal.AuthzGenAnswer | fleetshell-portal/src/lib/server/cache.ts:145-150 | The stored generation, or that it is unset; the whole new state is that of the machine step |
| AuthzCache.Portal.AuthzGenInit | fleetshell-portal/src/lib/server/cache.ts:147-152 | An unset generation is set to 1; the whole new state is that of the machine step |
| AuthzCache.Portal.AuthzGenDone | fleetshell-portal/src/lib/server/cache.ts:150-154 | The memo takes the generation just read and the time; the whole new state is that of the machine step |
| AuthzCache.Portal.CacheGet | fleetshell-portal/src/lib/server/cache.ts:102-112 | A hit under the generation read answers the lookup; the whole new state is that of the machine step |
| AuthzCache.Portal.SelectScopes | fleetshell-portal/src/lib/server/authz.ts:63-82 | A miss computes the signature from the database as it is now; the whole new state is that of the machine step |
| AuthzCache.Portal.CacheSet | fleetshell-portal/src/lib/server/cache.ts:114-122 | The signature is stored under the generation read before it was computed; the whole new state is that of the machine step |
| AuthzCache.Portal.CommitEdit | fleetshell-portal/src/lib/server/cache.ts:161-169 | The database edit comes first; the whole new state is that of the machine step |
| AuthzCache.Portal.BumpDropMemo | fleetshell-portal/src/lib/server/cache.ts:161-165 | The process forgets its memo; the whole new state is that of the machine step |
| AuthzCache.Portal.BumpIncr | fleetshell-portal/src/lib/server/cache.ts:161-169 | The generation goes up by one, from nothing to 1; the whole new state is that of the machine step |
| AuthzCache.Portal.Drive | fleetshell-portal/src/lib/server/cache.ts:140-169 | Run under any interleaving, the variables follow the machine and the cache stays safe |
| SshFrames.ChunkingIrrelevant | fleetshell-gateway/src/ssh.rs:636-704 | Feeding any chunks one after the other gives the frames and the leftover of parsing their concatenation at once |
| SshFrames.ParseConserves | fleetshell-gateway/src/ssh.rs:636-704 | Dispatched frames re-encoded plus the leftover are the bytes received, and the leftover is not a dispatchable frame |
| SshFrames.ParseEncoded | fleetshell-gateway/src/ssh.rs:646-700 | Encoded frames parse back to themselves whatever follows, given a following byte after a final empty frame |
| SshFrames.TrailingEmptyFrameWaits | fleetshell-gateway/src/ssh.rs:653-670 | A frame without payload is dispatched only once a further byte arrives |
| SshFrames.ParseAppend | fleetshell-gateway/src/ssh.rs:580-590 | The parser state after a prefix is all that later bytes need |
| SshFrames.FrameParser.Feed | fleetshell-gateway/src/ssh.rs:636-704 | One read through the header and payload buffers refines the one-shot parse and its actions; the loop ends by bytes left and header completeness |
| SshFrames.FrameParser.Turn | fleetshell-gateway/src/ssh.rs:645-700 | One turn of the inner loop: header bytes, payload bytes or a dispatch |
| SshFrames.FrameParser.FillHeader | fleetshell-gateway/src/ssh.rs:646-662 | Header bytes are taken until three are there; the payload buffer gets the announced length |
| SshFrames.FrameParser.FillPayload | fleetshell-gateway/src/ssh.rs:663-670 | Payload bytes are taken up to the announced length |
| SshFrames.FrameParser.Dispatch | fleetshell-gateway/src/ssh.rs:672-700 | A whole frame is acted on and the buffers are reset |
| SshFrames.RelayClient | fleetshell-gateway/src/ssh.rs:571-704 | The relay over a whole connection dispatches the frames of the one-shot parse, whatever the reads |
| SshFrames.ActionsMean | fleetshell-gateway/src/ssh.rs:672-700 | Type 0 is typed data; type 1 with four bytes is a resize, rows before columns, high bytes first; nothing else does anything |
| AgentFrames.ReadAgentMessage | fleetshell-gateway/src/ssh.rs:234-256 | Reads exactly one length-prefixed message in any segmentation; end of file is clean only before the first byte; longer than the limit is an error |
| AgentFrames.MessageReads | fleetshell-gateway/src/ssh.rs:234-256 | A body behind its length, spelled as four bytes with the most significant first, is read with its prefix, and nothing after it |
| AgentFrames.MessageRefused | fleetshell-gateway/src/ssh.rs:234-256 | A length above the limit, a body that is too short and one to three bytes alone are errors |
| AgentFrames.MessageSpells | fleetshell-gateway/src/ssh.rs:234-256 | And whatever is read as a message is spelled so |
| AgentFrames.RelayAgentRequests | fleetshell-gateway/src/ssh.rs:259-275 | Writes what the one-shot specification says of the bytes read, with a tag before each message |
| AgentFrames.RelayAgentReplies | fleetshell-gateway/src/ssh.rs:278-306 | Writes the untagged messages, and stops at a foreign tag or a truncated record |
| AgentFrames.RequestsAreTagged | fleetshell-gateway/src/ssh.rs:259-275 | Any sequence of messages comes out as the same sequence of records |
| AgentFrames.RepliesAreUntagged | fleetshell-gateway/src/ssh.rs:278-306 | Any sequence of records comes out as the same sequence of messages |
| AgentFrames.RelaysInvert | fleetshell-gateway/src/ssh.rs:259-306 | The two relays undo each other on any sequence of messages |
| AgentFrames.RequestOnTheWire | fleetshell-gateway/src/ssh.rs:259-306 | A request stands on the wire as a zero byte, the length and the body, and comes back as it was |
| AgentFrames.RequestsStop | fleetshell-gateway/src/ssh.rs:259-275 | A broken message ends the relay of requests after every message before it was written |
| AgentFrames.RepliesStop | fleetshell-gateway/src/ssh.rs:278-306 | A foreign tag or a truncated record ends the relay of replies after every message before it was written |
| AgentFrames.ReadLine | fleetshell-client/src-tauri/src/agent_proxy.rs:142-157 | The status line up to its line end, the limit of 256 bytes or end of file, and nothing beyond |
| AgentFrames.RunAgentAuthPhase | fleetshell-client/src-tauri/src/agent_proxy.rs:107-159 | Serves records until the status line, as the recursive specification does on both streams |
| AgentFrames.ClientServesPhase | fleetshell-client/src-tauri/src/agent_proxy.rs:107-159 | On records followed by a status line and terminal bytes the agent gets exactly the requests, the gateway exactly the replies, the caller the line, and every later byte stays unread |
| AgentFrames.PhaseNeedsLine | fleetshell-client/src-tauri/src/agent_proxy.rs:107-141 | Without a whole record or a status line after any number of served requests the phase fails |
| AgentFrames.PhaseNeedsReplies | fleetshell-client/src-tauri/src/agent_proxy.rs:120-134 | When the agent stops answering the phase fails: the agent has the open request, the gateway every reply before it |
| AgentFrames.LineIsCut | fleetshell-client/src-tauri/src/agent_proxy.rs:142-157 | A status line is cut after 256 bytes and later bytes stay unread; one that the end of the stream cuts short counts as it is |
| AgentMux.ExchangesInOrder | fleetshell-gateway/src/ssh.rs:315-344 | Under any segmentation and scheduling the local agent sees the requests issued, in order, at most the newest missing; the gateway gets exactly their replies; nothing is missing when it is not waiting |
| AgentMux.FirstByteDecides | fleetshell-client/src-tauri/src/agent_proxy.rs:112-141 | A first byte of 0x00 on the gateway link always starts the record of the open request; any other starts the status line |
| AgentMux.CleanHandover | fleetshell-gateway/src/ssh.rs:494-507 | When the client has returned the line it is the gateway's own, every exchange is complete, both directions hold exactly the terminal bytes written, and the client goes on exactly when the gateway has authenticated |
| AgentMux.StatusLineMeans | fleetshell-client/src-tauri/src/ssh_proxy.rs:260-271 | The two lines are "200 CONNECTED" and "401 UNAUTHORIZED", and the client goes on exactly after the first |
| AgentMux.StageStep | fleetshell-gateway/src/ssh.rs:315-344 | Every step keeps the protocol in one of four stages, with at most one message under way on one link |
| AgentMux.NeverStuck | fleetshell-gateway/src/ssh.rs:315-344 | While a request is open some relay, the client or the agent can move |
| AgentMux.StepProgress | fleetshell-gateway/src/ssh.rs:315-344 | Every possible move brings the message nearer to its reader or hands it on |
| AgentMux.ReplyArrives | fleetshell-gateway/src/ssh.rs:315-344 | From every waiting state there is a run of internal steps that ends the wait |
| AgentMux.LineArrives | fleetshell-gateway/src/ssh.rs:494-507 | Once the gateway has sent the status line, moving bytes on its link alone brings the client past the agent phase |
| AgentMux.HandoverReachable | fleetshell-gateway/src/ssh.rs:315-344 | From every reachable state the terminal session can be reached: no schedule leads into a dead end |
| GuacCodec.EncodeInstruction | fleetshell-gateway/src/guac/protocol.rs:47-62 | The loop builds elements joined by commas and closed by a semicolon |
| GuacCodec.WireSpelled | fleetshell-gateway/src/guac/protocol.rs:47-62 | Every element is its length in decimal, a dot and its bytes, with a comma between elements and a semicolon at the end |
| GuacCodec.DecodeInvertsEncode | fleetshell-gateway/src/guac/protocol.rs:89-161 | Reading an encoded instruction with any suffix returns it and leaves the suffix, for values holding any separators |
| GuacCodec.DecodeInvertsElements | fleetshell-gateway/src/guac/protocol.rs:89-161 | The same for any non-empty list of elements |
| GuacCodec.ElementReads | fleetshell-gateway/src/guac/protocol.rs:95-155 | An element is read wherever a numeral, a dot, as many bytes of UTF-8 and a comma or semicolon stand |
| GuacCodec.ElementSpelled | fleetshell-gateway/src/guac/protocol.rs:95-155 | And nowhere else |
| GuacCodec.ElementPanics | fleetshell-gateway/src/guac/protocol.rs:117-127 | The reader panics exactly on a numeral beyond the allocation limit before a dot |
| GuacCodec.EncodingIsUnique | fleetshell-gateway/src/guac/protocol.rs:47-62 | Two sequences of instructions with the same bytes are the same sequence |
| GuacCodec.ReadInstruction | fleetshell-gateway/src/guac/protocol.rs:89-161 | The byte-wise reader equals the specification under every segmentation, its errors and its panics on lengths beyond 64 bits or the capacity limit included |
| GuacCodec.ReadElement | fleetshell-gateway/src/guac/protocol.rs:95-155 | One length, one value and one separator |
| GuacCodec.ReadDigits | fleetshell-gateway/src/guac/protocol.rs:95-125 | The digits up to the dot |
| GuacBridge.LastInstructionEnd | fleetshell-client/src-tauri/src/guac_proxy.rs:364-386 | The nested loop returns the end of the last complete instruction of the one-shot scan, nothing when there is none |
| GuacBridge.ScanMatchesReader | fleetshell-client/src-tauri/src/guac_proxy.rs:364-386 | On any stretch of a valid UTF-8 stream that end is the length of the longest prefix the gateway's reader can consume whole, and the scan overflows exactly when, behind elements that reader accepts, there is a length the position cannot take |
| GuacBridge.NoHugeLengthsNoOverrun | fleetshell-client/src-tauri/src/guac_proxy.rs:372-380 | It does not overflow when no digits before a dot, wherever they stand, make a 64-bit number reaching past the limit from there |
| GuacBridge.OverflowHidesInstructions | fleetshell-client/src-tauri/src/guac_proxy.rs:372-380 | Behind any whole instruction such a length makes the scan overflow, and the instruction, which the reader can consume, is not found |
| GuacBridge.WrappedAgrees | fleetshell-client/src-tauri/src/guac_proxy.rs:364-386 | Built without overflow checks the loop comes to the same end wherever nothing overflows |
| GuacBridge.WrappedLoops | fleetshell-client/src-tauri/src/guac_proxy.rs:364-386 | Built so, it never ends on an element, a comma and a length that wraps the position back onto that comma, whatever follows |
| GuacBridge.LoopingLength | fleetshell-client/src-tauri/src/guac_proxy.rs:372-380 | Such a length: 18446744073709551594 |
| GuacBridge.OverflowIff | fleetshell-client/src-tauri/src/guac_proxy.rs:372-380 | Adding a declared length to the position overflows exactly for lengths that fit 64 bits and reach past them from there |
| GuacBridge.OnRead | fleetshell-client/src-tauri/src/guac_proxy.rs:304-322 | One read: what is complete is sent as one text, the rest is carried |
| GuacBridge.RelayToBrowser | fleetshell-client/src-tauri/src/guac_proxy.rs:304-322 | The receive loop over a whole connection equals the fold over its reads |
| GuacBridge.MessagesAreWhole | fleetshell-client/src-tauri/src/guac_proxy.rs:304-322 | For every chunking of encoded instructions each message sent is a non-empty whole number of them, and the carry is empty or a proper prefix of the next one |
| GuacBridge.ReceivedConserves | fleetshell-client/src-tauri/src/guac_proxy.rs:304-322 | Messages sent plus carry are the bytes received |
| HttpMessages.HttpMessage.Find | fleetshell-gateway/src/transform.rs:101-107 | The value of the first field whose name is the given one up to the case of ASCII letters, or nothing when no name is |
| HttpMessages.SameMeans | fleetshell-gateway/src/transform.rs:101-107 | Two names are the same if and only if they have one length and, place by place, equal bytes or the two cases of one ASCII letter |
| HttpMessages.NamesSpelled | fleetshell-gateway/src/transform.rs:702-715 | The names asked for are "transfer-encoding" and "content-length", the coding is "chunked" |
| HttpMessages.HeaderMeans | fleetshell-gateway/src/transform.rs:101-107 | A header has a value if and only if some field is the first whose name is the same up to case, and then that field's value |
| HttpMessages.HttpMessage.SetHeader | fleetshell-gateway/src/transform.rs:111-123 | The first match is replaced, otherwise a field is appended |
| HttpMessages.SetReplaces | fleetshell-gateway/src/transform.rs:111-123 | Setting a header that is there changes the value of its first field and nothing else |
| HttpMessages.SetAppends | fleetshell-gateway/src/transform.rs:111-123 | Setting one that is not there appends it |
| HttpMessages.HttpMessage.RemoveHeader | fleetshell-gateway/src/transform.rs:126-129 | Every match goes, the others keep their order |
| HttpMessages.RemoveMeans | fleetshell-gateway/src/transform.rs:126-129 | Removing from a single field keeps it exactly when its name differs |
| HttpMessages.RemoveAppend | fleetshell-gateway/src/transform.rs:126-129 | And removing works on two parts of a message independently |
| HttpMessages.HttpMessage.ToBytes | fleetshell-gateway/src/transform.rs:136-161 | First line, fields, empty line and body |
| HttpMessages.HeadSpelled | fleetshell-gateway/src/transform.rs:136-161 | The head is the first line, each name, a colon and a space, each value, every line closed by CR LF, and an empty line |
| HttpMessages.HeaderAfterSet | fleetshell-gateway/src/transform.rs:101-123 | After setting a header looking it up gives the new value, and every other name what it gave before |
| HttpMessages.HeaderAfterRemove | fleetshell-gateway/src/transform.rs:101-129 | After removing a header it is not found, and every other name is as before |
| HttpMessages.HeadInjective | fleetshell-gateway/src/transform.rs:136-161 | For lines free of CR and LF and names without a colon the serialised head determines first line and fields |
| HttpMessages.EndsOnce | fleetshell-gateway/src/transform.rs:607-640 | The serialised head holds no empty line but its last |
| HttpFraming.ReadHeaderBlock | fleetshell-gateway/src/transform.rs:607-640 | Byte-wise reading stops at the first empty line, at the size limit or at end of file |
| HttpFraming.BlockMeans | fleetshell-gateway/src/transform.rs:607-640 | A block is read if and only if it ends in the first CR LF CR LF and holds at most 65536 bytes; a clean end is the empty stream alone |
| HttpFraming.ReadBody | fleetshell-gateway/src/transform.rs:702-742 | Chunked coding first, then the announced length with leftover bytes, then none |
| HttpFraming.ChunkedMeans | fleetshell-gateway/src/transform.rs:707-714 | A message is chunked if and only if its first Transfer-Encoding field, named in any case, has "chunked" somewhere in it, in any case |
| HttpFraming.LengthMeans | fleetshell-gateway/src/transform.rs:716-738 | A numeral in the first Content-Length field, signed or padded or neither, takes that many bytes, up to 16777216, or is an error |
| HttpFraming.LengthRefused | fleetshell-gateway/src/transform.rs:716-720 | A length with any other visible character in it, or an empty one, is an error |
| HttpFraming.Normalise | fleetshell-gateway/src/transform.rs:343-349 | A decoded message loses its coding and announces its length |
| HttpFraming.NormalisedFraming | fleetshell-gateway/src/transform.rs:460-466 | The normalised message is no longer chunked and announces its body length |
| HttpFraming.BodyRereadsIff | fleetshell-gateway/src/transform.rs:702-742 | The forwarded body is read again as itself, leaving what follows, if and only if the header parser's leftover bytes fit the announced length |
| HttpFraming.ReframingIff | fleetshell-gateway/src/transform.rs:607-640 | Re-reading a forwarded message gives the same header block and body and leaves exactly the later bytes, if and only if its head is within the limit and the leftover bytes fit (section 6.3 of RFC 9112) |
| HttpFraming.LeftoverWithoutLength | fleetshell-gateway/src/transform.rs:731-742 | Without an announced length leftover bytes become the body, and reading the forwarded message takes all of them for what follows |
| HttpFraming.LeftoverPastLength | fleetshell-gateway/src/transform.rs:712-730 | With an announced length that the leftover bytes run past, reading the forwarded message cuts the body at the length and takes the rest for what follows |
| HttpFraming.NormalisedHeadNoLonger | fleetshell-gateway/src/transform.rs:343-349 | Replacing the chunked coding by the length never makes a head longer, for any fields and any body read |
| HttpFraming.SerialisedComesThrough | fleetshell-gateway/src/transform.rs:607-640 | A message whose own serialisation is within the limit and whose leftover bytes fit is forwarded so that it reads back as itself |
| HttpFraming.TightHeadIsRejected | fleetshell-gateway/src/transform.rs:136-161 | A block at the size limit written without the space after the colon is read, and rejected by the next reader once it is serialised with it |
| Chunked.ReadLine | fleetshell-gateway/src/transform.rs:757-758 | The bytes up to and with the line feed, or all of them |
| Chunked.ReadChunked | fleetshell-gateway/src/transform.rs:745-794 | The loop equals the recursive decoding, its errors and its overflow panic included, and its buffer stays within the limit on every stream |
| Chunked.DecodeInvertsEncode | fleetshell-gateway/src/transform.rs:745-794 | Every chunked encoding without trailers of a body within the limit, any chunk sizes and UTF-8 extensions, decodes to the body and is consumed exactly to its terminal CRLF (section 7.1 of RFC 9112) |
| Chunked.TruncatedIsRejected | fleetshell-gateway/src/transform.rs:745-794 | An encoding cut short anywhere, in a size line, in data or at its end, is never taken for a whole body |
| Chunked.BadLineIsRejected | fleetshell-gateway/src/transform.rs:756-762 | A size line that is not UTF-8 is an error, after any number of good chunks and whatever size it announces |
| Chunked.ObsTextIsRejected | fleetshell-gateway/src/transform.rs:756-762 | So a quoted extension value with a byte of obs-text, which section 7.1.1 of RFC 9112 allows, is rejected |
| Chunked.DecodeIsBounded | fleetshell-gateway/src/transform.rs:778-787 | No decoded body exceeds the limit, and what remains is a proper suffix |
| Chunked.HeldIsBounded | fleetshell-gateway/src/transform.rs:778-787 | The body buffer never grows past the limit, on streams that end in an error too; a decoded body fills it |
| Chunked.SizeLineReads | fleetshell-gateway/src/transform.rs:765-770 | A size line with a plus or none, leading zeros, either case and any extension reads as its number |
| Chunked.SizeLineSpells | fleetshell-gateway/src/transform.rs:765-770 | A number written in base 16 in lower or upper case, behind zeros and before any extension, is the size |
| Chunked.SizeRefused | fleetshell-gateway/src/transform.rs:765-770 | A visible character that is no hexadecimal digit before any semicolon makes the size an error |
| Chunked.SpacesAreSpaces | fleetshell-gateway/src/transform.rs:765-765 | What trimming the bytes removes are exactly the encodings of the characters with the White_Space property |
| Classification.FactorModality | infrastructure/import/classification_dedup.py:182-205 | The sets are the classes of rules under equal support: each input rule in a set, each set's targets its rules' support, supports distinct |
| Classification.FactoringIsLossless | infrastructure/import/classification_dedup.py:182-205 | Every target gets exactly the rules paired with it, and every rule lies in exactly one set |
| Classification.FewestSets | infrastructure/import/classification_dedup.py:10-13 | No lossless assignment that states every rule once has fewer sets, on any input |
| Classification.PairsNeedSets | infrastructure/import/classification_dedup.py:10-13 | Every lossless assignment, repeating rules or not, has at least as many sets as the input has pairs no two of which fit in one set |
| Classification.FewestOfAll | infrastructure/import/classification_dedup.py:10-13 | The factoring is the smallest of all lossless assignments whenever the input has as many such pairs as the factoring has sets |
| Classification.FewestWithOwnTargets | infrastructure/import/classification_dedup.py:10-13 | So it is when every set has a target that only sets with all of its targets share |
| Classification.DisjointSupportsOwn | infrastructure/import/classification_dedup.py:10-13 | Rules whose supports are disjoint or equal meet that condition |
| Classification.NestedSupportsOwn | infrastructure/import/classification_dedup.py:10-13 | Rules whose supports form a chain meet that condition |
| Classification.RepeatingRulesCanSave | infrastructure/import/classification_dedup.py:10-13 | For three rules on overlapping supports two sets suffice where the factoring has three: it is not the smallest on every input |
| Classification.OverlappingHasTwoIndependent | infrastructure/import/classification_dedup.py:10-13 | That input has no three pairs no two of which fit in one set |
| Classification.NameFor | infrastructure/import/classification_dedup.py:99-103 | The loop ends at the first numbered candidate not in use |
| Classification.CandidatesSpelled | infrastructure/import/classification_dedup.py:99-103 | The candidates are the base, the base with "-2", and so on in decimal |
| Classification.NameSets | infrastructure/import/classification_dedup.py:241-251 | All sets of a modality get different names, none with a slash in it |
| Classification.CimKeepsTheRest | infrastructure/import/classification_dedup.py:264-271 | Adding the modality-wide set removes none of the factored sets |
| Classification.CimIsIdempotent | infrastructure/import/classification_dedup.py:264-271 | Adding the modality-wide set again replaces it and changes nothing else |
| ClassificationSync.IndexByName | infrastructure/import/load.py:1233-1236 | The first product with a name owns it |
| ClassificationSync.Tables.StageClassification | infrastructure/import/load.py:1237-1266 | After loading the tables hold exactly the rows of the artifact, unknown product names passed over |
| ClassificationSync.ResolveModality | fleetshell-portal/src/lib/server/classification.ts:38-112 | Each product resolves to the regexes of its effective sets with the union of their codes, in strictly increasing position of the canonical list |
| ClassificationSync.OrderedHas | fleetshell-portal/src/lib/server/classification.ts:28-31 | Ordering keeps exactly the codes of the canonical list |
| ClassificationSync.OrderCodesStand | fleetshell-portal/src/lib/server/classification.ts:28-31 | The i-th and a later code of the result stand at an earlier and a later place of the canonical list |
| ClassificationSync.OrderIsDetermined | fleetshell-portal/src/lib/server/classification.ts:28-31 | Membership and this order determine the sequence |
| ClassificationSync.ResolvedInOrder | fleetshell-portal/src/lib/server/classification.ts:88-109 | The codes of every resolved field stand in canonical order |
| ClassificationSync.ResolvedIsUnion | fleetshell-portal/src/lib/server/classification.ts:88-109 | Factoring, naming, loading and resolving together lose and add nothing, with or without a modality-wide set: a product has exactly the regexes the input gives it, its family or its modality, each with the ordered union of all codes paired with both |
| ClassificationSync.NamedIsImported | infrastructure/import/classification_dedup.py:235-276 | What factoring and naming give, with the modality-wide set added if the modality has one, is what the other results take as imported |
| ClassificationSync.ResolvedIsInput | fleetshell-portal/src/lib/server/classification.ts:88-109 | The fields of a product are a function of the input rows and the products alone: the same for every factoring, naming and loading |
| ClassificationSync.ImportAndResolve | infrastructure/import/classification_dedup.py:222-276 | Factoring, naming, loading and resolving run one after the other give every product the fields the input has for it, with or without a modality-wide set, whatever the orders in which importer and portal read the products |
| ClassificationSync.NamesakeGetsNothing | infrastructure/import/load.py:1233-1236 | Of several products with one name only the first gets the rules stated for the name |
| ClassificationSync.Valkey.SyncModality | fleetshell-portal/src/lib/server/classification.ts:140-165 | Every product key is deleted and rewritten unless it has no fields; the counts are those of the specification |
| ClassificationSync.KeyReads | fleetshell-portal/src/lib/server/classification.ts:151-152 | A key comes apart at its colons into "data_classes", the modality and the product |
| ClassificationSync.HashReads | fleetshell-portal/src/lib/server/classification.ts:158-160 | Every field is a regex between slashes, its value comes apart at commas into the codes in their order, and there are as many fields as regexes |
| ClassificationSync.LastNamesakeWins | fleetshell-portal/src/lib/server/classification.ts:151-163 | The last product of a name decides what the shared key holds |
| ClassificationSync.OtherKeysStay | fleetshell-portal/src/lib/server/classification.ts:151-163 | Keys of no product of the modality stay as they were |
| ClassificationSync.AllWantedIff | fleetshell-portal/src/lib/server/classification.ts:140-165 | Every key holds its own product's fields if and only if products that share a name resolve alike |
| ClassificationSync.AllWantedIffInput | fleetshell-portal/src/lib/server/classification.ts:140-165 | That is so if and only if the input holds the same for products that share a name, whatever the orders in which importer and portal read them |
| ClassificationSync.AllWantedIffUnshadowed | fleetshell-portal/src/lib/server/classification.ts:140-165 | In a product-based modality it is so if and only if no product for which the importer finds a later namesake has rules that add to the modality-wide ones |
| ClassificationSync.SharedKeyHolds | fleetshell-portal/src/lib/server/classification.ts:151-163 | The key of a shared name ends up with the rules stated for the name exactly when the product the portal reads last is the one the importer read first, and with the modality-wide ones alone when it is not |
| SpoolRecords.BuildDeviceHash | fleetshell-portal/src/lib/server/device_spool.ts:40-59 | The put statements build the hash of the joined row, which holds what its columns say, key by key |
| SpoolRecords.HashDescribes | fleetshell-portal/src/lib/server/device_spool.ts:40-59 | Key by key: each column is under its own name exactly when it is not empty, "contracts" lists internal use, DPA and DMY in this order, and no other key occurs |
| SpoolRecords.DeviceHashNeverEmpty | fleetshell-portal/src/lib/server/device_spool.ts:40-59 | The hash always names a transfer matrix, has contracts exactly when one applies, and no blank field |
| SpoolRecords.CryptoIsExplicit | fleetshell-portal/src/lib/server/gateway_spool.ts:69-96 | A crypto field is left out only when it was stored with nothing in it; a password only for dynamic addresses |
| SpoolRecords.SiteMeans | fleetshell-portal/src/lib/server/gateway_spool.ts:69-96 | Field by field, what the record says of the stored settings, with the default where one is absent |
| SpoolRecords.IdentityMeans | fleetshell-portal/src/lib/server/gateway_spool.ts:83-83 | The identity is stored without the white space around it, and left out when nothing else is in it |
| SpoolRecords.BuildNatRecord | fleetshell-portal/src/lib/server/gateway_spool.ts:99-122 | Every entry occurs as often as there are attached devices it stands for, in any row order |
| SpoolRecords.EntryMeans | fleetshell-portal/src/lib/server/gateway_spool.ts:102-109 | An entry has the device's address as the global one; the internal one is the real address under backend translation when there is one, else the same |
| SpoolRecords.BackendMeans | fleetshell-portal/src/lib/server/gateway_spool.ts:111-120 | The backend part has the three addresses under their own names and is left out when all are empty |
| SpoolRecords.NatMeans | fleetshell-portal/src/lib/server/gateway_spool.ts:117-122 | The record names the mode of the row and holds the entries of the attached devices |
| SpoolRecords.NatDependsOnAttached | fleetshell-portal/src/lib/server/gateway_spool.ts:99-122 | The record depends on nothing but the gateway row and its attached devices |
| Spool.DeviceKeysFollow | fleetshell-portal/src/lib/server/device_spool.ts:93-122 | After any run with unique addresses every device key is the current hash of the one device that owns its address |
| Spool.GatewayKeysFollow | fleetshell-portal/src/lib/server/gateway_spool.ts:135-161 | After any run with unique addresses every site, nat and psk key is that of the one gateway owning its address with the devices attached now |
| Spool.SavedRowsHaveKeys | fleetshell-portal/src/lib/server/device_spool.ts:93-122 | Every saved row with an address has its keys, the pre-shared key exactly when it has one |
| Spool.OrNullMeans | fleetshell-portal/src/routes/(app)/devices/+page.server.ts:197-200 | A form field is stored without the white space around it, and as nothing when nothing else is in it |
| Spool.DeviceRowMeans | fleetshell-portal/src/routes/(app)/devices/+page.server.ts:202-232 | Column by column, the row a device form writes |
| Spool.GatewayRowMeans | fleetshell-portal/src/routes/(app)/gateways/+page.server.ts:197-233 | Column by column, the row a gateway form writes |
| Spool.DeviceActionsMean | fleetshell-portal/src/routes/(app)/devices/+page.server.ts:235-329 | A device action changes one row of one table, and only under its conditions |
| Spool.GatewayActionsMean | fleetshell-portal/src/routes/(app)/gateways/+page.server.ts:247-315 | So does a gateway action: saving needs a region and readable settings, deleting needs no attached device |
| Spool.DeviceSaveWrites | fleetshell-portal/src/lib/server/device_spool.ts:93-115 | After a save the new address holds the row's hash, an address given up holds nothing, every other key is as before |
| Spool.DeviceDeleteWrites | fleetshell-portal/src/routes/(app)/devices/+page.server.ts:307-321 | After a deletion the address holds nothing and every other key is as before |
| Spool.DeviceSaveRespools | fleetshell-portal/src/lib/server/device_spool.ts:117-121 | A save respools exactly the gateways the device has and had |
| Spool.SavedSlots | fleetshell-portal/src/lib/server/gateway_spool.ts:135-161 | After a gateway save the three keys under every address: the new records, nothing, or what was there |
| Spool.InvKept | fleetshell-portal/src/routes/(app)/devices/+page.server.ts:235-329 | Each of the six actions keeps all keys in step with the tables |
| Spool.SaveRightIff | fleetshell-portal/src/lib/server/device_spool.ts:111-122 | From any state with right keys, shared addresses included, a save leaves all device keys right if and only if no row with another hash has the new address and no other saved row has the address given up |
| Spool.DeleteRightIff | fleetshell-portal/src/routes/(app)/devices/+page.server.ts:307-321 | A deletion leaves all device keys right if and only if no other saved row has the address |
| Spool.DeleteTakesNoOtherKeyIff | fleetshell-portal/src/routes/(app)/devices/+page.server.ts:307-321 | A deletion takes no other device's key if and only if there is no key under the address or no other row has it |
| Spool.GatewaySaveRightIff | fleetshell-portal/src/lib/server/gateway_spool.ts:158-161 | From any state with right keys a save leaves all gateway keys right if and only if the other rows under the new address take the same records, with or without a pre-shared key, and no other saved row has the address given up |
| Spool.RespoolRightIff | fleetshell-portal/src/lib/server/device_spool.ts:111-122 | Respooling the gateway of a changed device, with further gateways still to respool or not, leaves right what was right if and only if every such row under its address takes the same records |
| Spool.GatewayDeleteRightIff | fleetshell-portal/src/routes/(app)/gateways/+page.server.ts:301-315 | A deletion leaves all gateway keys right if and only if no other saved row has the address |
| Spool.GatewayDeleteTakesNoOtherKeyIff | fleetshell-portal/src/routes/(app)/gateways/+page.server.ts:301-315 | A deletion takes no other gateway's keys if and only if there are none under the address or no other row has it |
| Spool.SharedAddressBreaksSpool | infrastructure/sql/schema_global.sql:469-492 | The schema lets two devices share an address; then one save overwrites and one deletion removes the other's key |
| Spool.MovingTakesSharedKey | infrastructure/sql/schema_global.sql:469-492 | Two devices alike may share an address with right keys; when one moves, the other loses its key |
| Spool.SharedPublicAddressBreaksSpool | infrastructure/sql/schema_global.sql:140-162 | The schema lets two gateways share a public address; then the second save overwrites the first's records |
| Spool.KeylessTwinTakesKey | infrastructure/sql/schema_global.sql:140-162 | A gateway with the same records but no pre-shared key removes the key of the one it shares its address with |
| Spool.Portal.WriteDevice | fleetshell-portal/src/lib/server/device_spool.ts:93-104 | The device's key is rewritten; without an address nothing is written; tables and keys afterwards are those of the machine step |
| Spool.Portal.DeleteDeviceKey | fleetshell-portal/src/lib/server/device_spool.ts:82-86 | The key of an address goes; tables and keys afterwards are those of the machine step |
| Spool.Portal.WriteGateway | fleetshell-portal/src/lib/server/gateway_spool.ts:135-152 | The three keys are rewritten, or the pre-shared key removed; tables and keys afterwards are those of the machine step |
| Spool.Portal.DeleteGatewayKeys | fleetshell-portal/src/lib/server/gateway_spool.ts:125-129 | All three keys of an address go; tables and keys afterwards are those of the machine step |
| Spool.Portal.OnDeviceSave | fleetshell-portal/src/lib/server/device_spool.ts:111-122 | The device, its old address, and the gateways it has and had; tables and keys afterwards are those of the machine step |
| Spool.Portal.OnGatewaySave | fleetshell-portal/src/lib/server/gateway_spool.ts:158-161 | The gateway and its old address; tables and keys afterwards are those of the machine step |
| Spool.Portal.UpdateDevice | fleetshell-portal/src/routes/(app)/devices/+page.server.ts:235-269 | The row keeps its customer; an unknown gateway fails in the database; tables and keys afterwards are those of the machine step |
| Spool.Portal.CreateDevice | fleetshell-portal/src/routes/(app)/devices/+page.server.ts:279-301 | A new row without a customer; tables and keys afterwards are those of the machine step |
| Spool.Portal.DeleteDevice | fleetshell-portal/src/routes/(app)/devices/+page.server.ts:307-321 | Refused while single-system grants name the device; tables and keys afterwards are those of the machine step |
| Spool.Portal.UpdateGateway | fleetshell-portal/src/routes/(app)/gateways/+page.server.ts:247-271 | Refused without a region or with bad crypto data; tables and keys afterwards are those of the machine step |
| Spool.Portal.CreateGateway | fleetshell-portal/src/routes/(app)/gateways/+page.server.ts:276-298 | Refused without a region or with bad crypto data; tables and keys afterwards are those of the machine step |
| Spool.Portal.DeleteGateway | fleetshell-portal/src/routes/(app)/gateways/+page.server.ts:301-315 | Refused while devices are attached; tables and keys afterwards are those of the machine step |
| InfoProxy.KeyInjective | fleetshell-portal/src/lib/server/infoproxy.ts:54-59 | No two scopes share a key, across tiers and proxy types |
| InfoProxy.IntranetKeys | fleetshell-portal/src/lib/server/infoproxy.ts:54-59 | The keys of the intranet, spelled out |
| InfoProxy.InternetKeys | fleetshell-portal/src/lib/server/infoproxy.ts:54-59 | The keys of the internet, spelled out |
| InfoProxy.EncodeRuleInjective | fleetshell-portal/src/lib/server/infoproxy.ts:62-79 | A member determines its rule, up to absent and empty text, for texts without tabs |
| InfoProxy.RuleReads | fleetshell-portal/src/lib/server/infoproxy.ts:62-79 | A member comes apart at its tabs into name, range, first port, last port and protocol |
| InfoProxy.KeyCount | fleetshell-portal/src/lib/server/infoproxy.ts:129-155 | As many keys as distinct scopes |
| InfoProxy.Spooler.Serve | fleetshell-portal/src/lib/server/infoproxy.ts:263-277 | Transactions in flight may run in any order and at any time without changing the outcome |
| InfoProxy.Spooler.WriteKey | fleetshell-portal/src/lib/server/infoproxy.ts:263-277 | Each key is dispatched once, and its effect is one delete and add |
| InfoProxy.Spooler.StreamScoped | fleetshell-portal/src/lib/server/infoproxy.ts:166-200 | Whatever the cursor batches, exactly one key per scope of the ordered rows is written, with all its members |
| InfoProxy.Spooler.GlobalTier | fleetshell-portal/src/lib/server/infoproxy.ts:282-303 | One key per proxy type, with all its members |
| InfoProxy.Spooler.Prune | fleetshell-portal/src/lib/server/infoproxy.ts:344-358 | Exactly the keys with the prefix that were not wanted go, even if the scan repeats keys; at least that many are counted |
| InfoProxy.Spooler.Sync | fleetshell-portal/src/lib/server/infoproxy.ts:242-361 | Afterwards the store under the prefix is the group-by of all rows, everything else is untouched, and the count is the number of distinct scopes |
| InfoProxy.SpoolIsGroupBy | fleetshell-portal/src/lib/server/infoproxy.ts:242-361 | A scope's key exists exactly if it has rows, with exactly their encoded rules, whatever the store held before |
| InfoProxy.OthersStay | fleetshell-portal/src/lib/server/infoproxy.ts:344-358 | Of the keys that begin with "infoproxy:" those of rows stay, and no other key is touched |
| Slots.SlotManager.Claim | fleetshell-client/src-tauri/src/slot.rs:92-111 | The first free slot, or none when all are taken |
| Slots.SlotManager.Release | fleetshell-client/src-tauri/src/slot.rs:117-126 | The slot is freed and every task of its pool aborted; a free slot or a bad index changes nothing |
| Slots.SlotManager.Push | fleetshell-client/src-tauri/src/slot.rs:66-69 | A task handle joins the pool of its slot |
| Slots.IdleMonitor | fleetshell-client/src-tauri/src/slot.rs:140-166 | The monitor stops at the first sample whose last activity is at least max(10, timeout) seconds old |
| Slots.SlotIpInjective | fleetshell-client/src-tauri/src/slot.rs:28-32 | Different slots have different addresses |
| Slots.SlotIpMeans | fleetshell-client/src-tauri/src/slot.rs:28-32 | The addresses run from 127.0.0.2 to 127.0.0.17 |
| Slots.SlotsAreOwned | fleetshell-client/src-tauri/src/server.rs:366-434 | In every interleaving a slot is taken exactly when one request or one monitor holds it, and no two holders share an address |
| Slots.ReleaseFreesOwnClaim | fleetshell-client/src-tauri/src/server.rs:385-397 | Whoever releases a slot is its only holder, and frees it and nothing else |
| Slots.RefusedOnlyWhenFull | fleetshell-client/src-tauri/src/server.rs:542-552 | A claim is refused only when sixteen different holders have the slots |
| Slots.ServedWhenBound | fleetshell-client/src-tauri/src/server.rs:542-642 | From its claim on a group is handed to a monitor exactly when as many ports were bound as it has; the monitor gets the slot claimed, the timeout given, and the moment of the claim as first activity |
| Slots.ReleasedOnlyWhenIdle | fleetshell-client/src-tauri/src/slot.rs:140-166 | In every run a monitor releases only after a look that found the last activity at least max(10, timeout) seconds old with no activity in between, hence that long after the claim at least |
| Slots.LooksDecide | fleetshell-client/src-tauri/src/slot.rs:140-166 | A look leads to the release exactly when the last activity is at least max(10, timeout) seconds old, and moving a byte is activity |
| Slots.OwnershipKept | fleetshell-client/src-tauri/src/server.rs:457-523 | Every step of requests and monitors keeps the ownership |
| GroupTree.ParseFileTree | infrastructure/import/build_group_hierarchy.py:44-58 | Every label gets the nearest line above it with fewer tabs, the last line of a label deciding |
| GroupTree.EntriesMean | infrastructure/import/build_group_hierarchy.py:44-58 | Lines with nothing but white space are passed over; the tabs a line begins with are its depth, what is left after trimming its label |
| GroupTree.NameParent | infrastructure/import/build_group_hierarchy.py:76-82 | The longest prefix before an underscore that is a known label |
| GroupTree.ParentsMean | infrastructure/import/build_group_hierarchy.py:76-89 | A manual parent comes first, then the file's, then the longest prefix before an underscore that is a label |
| GroupTree.ChainPath | infrastructure/import/load.py:364-375 | The walk ends on every parent table and gives the path; no node has the empty path and an unknown parent is the root |
| GroupTree.GroupPath | infrastructure/import/load.py:968-972 | The same over the links between known groups |
| GroupTree.PathHoldsReachable | infrastructure/import/load.py:364-375 | On any table, cyclic or not, a path holds exactly the nodes above its node and itself, each once |
| GroupTree.PathOfParent | infrastructure/import/build_group_hierarchy.py:102-121 | Without cycles a path is the parent's path and the node |
| GroupTree.PrefixIffAncestor | infrastructure/import/build_group_hierarchy.py:8-9 | Without cycles one path is a prefix of another if and only if its node is the same or an ancestor |
| GroupTree.FileTreeAcyclic | infrastructure/import/build_group_hierarchy.py:44-58 | A file has no cycles, repeated labels or not, when every label's last line stands below the last line of another label |
| GroupTree.AcyclicIffClimbs | infrastructure/import/load.py:364-375 | Any parent table has no cycles if and only if every node comes to a root within as many steps as there are links |
| GroupTree.DistinctNamesAcyclic | infrastructure/import/build_group_hierarchy.py:44-58 | A file with distinct labels has no cycles |
| GroupTree.FileTreeAcyclicIff | infrastructure/import/build_group_hierarchy.py:44-58 | A file's tree has no cycle if and only if no ring of last lines is in it, each below a line of the next one's label |
| GroupTree.AllParentsAcyclicIff | infrastructure/import/build_group_hierarchy.py:76-89 | Parents found by name never close a cycle: the tree of all labels has one exactly when the stated parents do, if these are stated labels themselves |
| GroupTree.TreeAcyclicIff | infrastructure/import/build_group_hierarchy.py:84-121 | Without manual entries the tree of all labels, those in the file and those in the database, has no cycle if and only if no ring of last lines is in the file |
| GroupTree.MutualLinesMakeCycle | infrastructure/import/build_group_hierarchy.py:54-56 | Two labels whose last lines stand below each other's lines make a cycle, in any file |
| GroupTree.RepeatedLabelMakesCycle | infrastructure/import/build_group_hierarchy.py:54-56 | The shortest such file: a label that returns below its own child |
| Ports.ParsePorts | fleetshell-client/src-tauri/src/tunnel.rs:172-195 | Ports and inclusive ranges in order, invalid parts passed over |
| Ports.ItemLists | fleetshell-client/src-tauri/src/tunnel.rs:172-195 | The client lists exactly these, in order |
| Ports.CheckPort | fleetshell-gateway/src/auth.rs:161-180 | Whether some part covers the port |
| Ports.ParseU16Is | fleetshell-gateway/src/auth.rs:161-180 | A text is read as a port if and only if it is a decimal numeral of at most 65535, with a plus or without, behind any zeros |
| Ports.PartAllowsIff | fleetshell-gateway/src/auth.rs:161-180 | A part allows a port if and only if it is that port's numeral, or two numerals around its first dash with the port between them, white space anywhere around numerals |
| Ports.ItemReads | fleetshell-gateway/src/auth.rs:161-180 | A written port or range allows exactly the ports it covers |
| Ports.InterpretersAgree | fleetshell-gateway/src/auth.rs:161-180 | For every text a port is in the client's list exactly when the gateway allows it |
| Ports.WrittenListReads | fleetshell-gateway/src/auth.rs:161-180 | A list of written entries means, to both programs, the ports its entries cover |
| Ports.JoinedReadsAsRows | fleetshell-client/src-tauri/src/server.rs:322-327 | A list joined from rows reads as the rows' lists one after the other |
| Ports.FlattenRows | fleetshell-client/src-tauri/src/server.rs:322-327 | The flattening loop gives the ports of the joined list |
| Ports.JoinAuthorisesUnion | fleetshell-gateway/src/auth.rs:161-180 | A token for the joined rows authorises exactly the union of the rows' ports |
| Keystrokes.SegmentEvents | fleetshell-gateway/src/bin/guacrecord.rs:575-641 | The loop equals the fold over the events |
| Keystrokes.SegmentsOrdered | fleetshell-gateway/src/bin/guacrecord.rs:575-641 | For time-ordered events every segment ends no earlier than it starts and no later than the next starts |
| Keystrokes.SegmentsKeepText | fleetshell-gateway/src/bin/guacrecord.rs:575-641 | The segments hold exactly the visible characters typed, in order |
| Keystrokes.CharactersMean | fleetshell-gateway/src/bin/guacrecord.rs:506-515 | Visible ASCII types itself; with Ctrl a letter in either case is the caret and the capital |
| Keystrokes.KeypadMeans | fleetshell-gateway/src/bin/guacrecord.rs:542-557 | The keypad types its digits and signs, both Enter keys end the line, Tab is a tab |
| Keystrokes.NamedKeysMean | fleetshell-gateway/src/bin/guacrecord.rs:516-529 | The named keys and their labels |
| Keystrokes.FunctionKeysMean | fleetshell-gateway/src/bin/guacrecord.rs:530-541 | F1 to F12 |
| Keystrokes.OtherKeysMean | fleetshell-gateway/src/bin/guacrecord.rs:499-560 | No other key does anything |
| Keystrokes.PauseSplits | fleetshell-gateway/src/bin/guacrecord.rs:608-612 | Two words make two segments if and only if at least two seconds pass between them; the segments have the times of typing |
| Keystrokes.EnterSplits | fleetshell-gateway/src/bin/guacrecord.rs:630-630 | So they do when Enter is pressed between them |
| Keystrokes.FullLineCuts | fleetshell-gateway/src/bin/guacrecord.rs:614-628 | The 72nd character cuts the line at its last space, and what follows begins the next segment |
| Keystrokes.FullWordCuts | fleetshell-gateway/src/bin/guacrecord.rs:614-628 | Without a space the full line is a segment as it is |
| Keystrokes.ControlSplits | fleetshell-gateway/src/bin/guacrecord.rs:591-634 | A letter typed with either Ctrl key is marked and ends its segment; what is typed after Ctrl is let go is text again |
| Keystrokes.IdleKeys | fleetshell-gateway/src/bin/guacrecord.rs:592-606 | The other modifiers and letting a key go change nothing |
| Keystrokes.LabelsNeverCut | fleetshell-gateway/src/bin/guacrecord.rs:629-635 | A label or a tab is added to the line without cutting it |
| Subtitles.WrapText | fleetshell-gateway/src/bin/guacrecord.rs:706-728 | The wrapping loop equals the recursive specification |
| Subtitles.Break | fleetshell-gateway/src/bin/guacrecord.rs:714-722 | A line ends at the last space before its limit, or at the limit when there is none |
| Subtitles.BreaksAtSpace | fleetshell-gateway/src/bin/guacrecord.rs:706-728 | Text whose last space before the limit is known is broken there, and the rest is wrapped on |
| Subtitles.BreaksInWord | fleetshell-gateway/src/bin/guacrecord.rs:706-728 | Without a space the line is full; when the only space comes first the text stays whole |
| Subtitles.WrapIsFaithful | fleetshell-gateway/src/bin/guacrecord.rs:706-728 | Lines spell the text with at most one space left out per break; all are non-empty and within the limit but a last one that begins with a space |
| Subtitles.WriteSrt | fleetshell-gateway/src/bin/guacrecord.rs:666-686 | The cues of all segments in order |
| Subtitles.CuesAreReadable | fleetshell-gateway/src/bin/guacrecord.rs:666-686 | Cues are numbered from 1, show one or two lines, two unless it is a segment's last, last at least 500 ms, and end 100 ms before the next segment if and only if that starts at least 600 ms after the cue; the end is stated exactly |

## Left out

- TLS, sockets, russh, axum and Tauri, SQL text, S3, guacenc: they appear as byte sequences, maps, rows and steps.
- JWT, HMAC, password hashing and session cookies.
- ParkedSessions.RelayGuac: says which endpoint was lost at which turn; the bytes it moves, and those it may lose when a client drops, are not modelled.
- Guacamole handler cancellation by the runtime, job files that cannot be written, and a restart of the gateway.
- `resolveGroupIds` and `invalidateUserGroups`: group membership has its own expiry; a query carries the group set it was asked with.
- The page cache keyed by two reads of the generation, the kill switch and expiry of stored entries (an expired entry is a miss).
- Answers given with generation 0 while Valkey is unreachable.
- SSH keys, channel setup and window changes beyond the frame that asks for them; a failed write that ends the relay.
- Agent messages above the limit and status lines other than the two the gateway sends are in `AgentFrames` but not in the `AgentMux` machine.
- `agent_auth_phase` ending because a relay failed: the machine covers the runs in which the connection stays up.
- GuacCodec.ReadInstruction: a length below the capacity limit that the allocator cannot serve aborts the process; here it is an ordinary truncated element.
- GuacBridge.LastInstructionEnd: the method is that of a build with overflow checks, which panics; the loop of a build without them, which need not end, is the function `WrappedTurns`. Where that loop goes after a sum has wrapped is shown for the lengths of `WrappedLoops` only.
- The client's lossy decoding, trimming and upper-casing of the status line, which change neither of the two lines.
- The bridge's browser-to-gateway direction with its ping replies.
- The `httparse` grammar: a message is its first line and fields, and the bytes the parser left over are any bytes.
- Responses without a body (to HEAD, 1xx, 204 and 304), which are forwarded without reading one, and the removal of HSTS, Alt-Svc and key-pinning headers.
- HTTP trailers, bodies that end with the connection, 101 upgrades, host and location rewriting, and keep-alive decisions.
- Reading the spreadsheets: rows arrive as target, regex and codes. The order of regexes in a hash is left open.
- Classification.FactorModality: the order of sets and of rules in a set, which the sorts settle, is left open.
- Classification.NameSets: the base names come in as arguments; any will do for the names to differ.
- Classification.NameFor: which token becomes the base name is left open; any token of the set's rules or the fallback is allowed.
- Product families are read as the product rows give them; the stage that fills them is not modelled.
- Keys of products that were renamed or deleted, which `syncModalityToValkey` never visits.
- JavaScript coercions of ill-typed crypto settings and legacy double-encoded ones; JSON text of the records; the order of NAT entries.
- Changes to products, regions and customers that would need a re-spool: the joined tables stay fixed during a run.
- Spool.DeleteRightIff: its condition names the rows saved so far, which the action does not know; `DeleteTakesNoOtherKeyIff` says what can be told from rows and keys.
- Spool failures, which the actions log and ignore.
- Info-proxy progress ticks, counts per proxy type, and the SQL of the three queries.
- InfoProxy.Spooler.Prune: the number it returns counts scan results, so a scan that repeats a stale key counts it twice.
- InfoProxy.Spooler.Scan: its contract allows repeated keys, although the modelled body does not produce them.
- Binding a port and falling back to another one is one step that succeeds or fails; task handles pushed after a release are not modelled.
- The `ports` column of the token is taken as the comma join of the row specifications.
- Slot clocks that go back between an activity and a look (the idle time is then zero); in the machine time only grows.
- Manual parents that are neither in the file nor manual entries themselves: `AllParentsAcyclicIff` does not cover them.
- Group rows, grants and memberships beyond the paths.
- Overflow of 64-bit millisecond sums in subtitles; the text layout of `.keys.txt` and the time stamps.
- The other deny-list and subscription spools, anonymisation, and the user interface.
