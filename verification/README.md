# A verified model of the gateway's core

RDGatewayRS lets Remote Desktop clients reach backends through HTTPS. This project models the parts
of it that decide, parse and relay, and proves what they promise:

- **Access control.** Rules are matched against a request by user, group, port and a host pattern,
  which is a wildcard or a CIDR block. `Wildcards` relates the single-backtrack matcher to a
  declarative relation in which `*` stands for any string and says exactly for which texts the two
  agree; `HostPatterns` says for which hosts the engine's name patterns do; `CidrBlocks` relates the
  bit masks to leading bits; `Acl` says which rule decides, and that the engine's sorted copy decides
  every request like the rules as they were loaded.
- **TSG messages and the session.** `Messages` is the codec of the tunnelling protocol, `Utf16` its
  names, `MessageProofs` its round trips, and `MessageLayout` says by number which bytes a message is.
  `Session` is the handshake state machine of both transports.
- **RPC over HTTP.** `Rts` and `Rpc` are the two PDU codecs, `RtsLayout` and `RpcLayout` their bytes; `VirtualConnections` and `RpchHandlers`
  match the OUT and IN requests of one client through a locked map, in every interleaving;
  `RpcStream` and `RpcStreamProofs` are the loop that cuts PDUs out of a chunked body; `Opnums` maps
  RPC operations onto the session; `InChannel` is the IN handler as a whole; `ChannelRuns` interleaves
  all handlers with the turns of their loops and proves that each loop is still the run of its own body.
- **The WebSocket path.** `WsHandshake` is the message loop up to the first Data; `Relay` and
  `RelayProofs` are the two tasks behind it with their queue of 8, in every interleaving;
  `RelayLoops` holds the two loops as the tasks write them; `WsSession` joins the three, so that a whole
  session is stated from its first frame on.
- **Session cookies.** `SessionToken` signs and validates tokens for any MAC and any clock, over
  `Decimal` and `Base64Url`.

`Bytes`, `Texts`, `Wrappers`, `Uuids` and `OutStreams` are shared. The code that updates objects or loops over
buffers is modelled by classes and methods, proved against functions about which the lemmas speak.

## Where the code does something else than one might expect

- The wildcard loop tests for literal equality before it tests for `*`, so a host that itself contains
  a `*` can use up the pattern's star. `Wildcards.GlobCorrectExactly` gives the exact condition for the
  matcher: it agrees with the relation for every pattern if and only if `*` occurs in the candidate at
  most as its last character, and `Wildcards.EarlyStarIsMissed` names a pattern that fails for every
  other candidate. The engine takes the pattern `*` for everything before it calls the matcher, which
  saves a few more hosts: `HostPatterns.HostsJudgedExactly` gives the exact condition for it.
- `RpcPduHeader::parse` refuses a buffer that does not yet hold the whole fragment, so the loop at
  `crates/rdg-server/src/handlers/rpch.rs:312-321` that waits for the rest never iterates, and a body
  is refused when a chunk ends inside a PDU past its header.
  `RpcStreamProofs.ConformingClientsServed` says exactly which runs succeed.
- `TunnelCreate::write` drops `paa_cookie`, `TunnelAuthResponse::write` drops `soh_response`, and
  `write_close_channel_response`, whose comment speaks of an echoed payload, writes none.
  `MessageProofs.RoundTripExactly` says which messages survive.
- `docs/ARCHITECTURE.md` has the relay echo unknown message types; the code answers type 0x10 only,
  and zeroes its reserved field. The same document calls the first Data already stripped; the code
  strips it. The model follows the code.
- RTS commands are written with 2-byte types.

## Model

| member | source | states |
|---|---|---|
| Wildcards.MatchLoop | crates/rdg-core/src/acl.rs:133-160 | the backtracking loop ends after at most (m+1)(n+1) turns, on a lexicographic measure, with the value of the loop's recurrence |
| Wildcards.GlobMatches | crates/rdg-core/src/acl.rs:129-160 | the matcher decides `Glob` within that bound; every yes is a match up to ASCII case, and without an early star every match is found |
| Wildcards.LowerEqual | crates/rdg-core/src/acl.rs:130-131 | lower-casing makes two bytes equal exactly if they are the same byte or an ASCII capital and its small letter |
| Wildcards.MatchesIsExpansion | crates/rdg-core/src/acl.rs:129-160 | matching by positions is the same as cutting the candidate into pieces that the pattern's bytes cover |
| Wildcards.LoopSound | crates/rdg-core/src/acl.rs:138-160 | from every loop state, a true result means the rest of the pattern matches |
| Wildcards.LoopComplete | crates/rdg-core/src/acl.rs:138-160 | from every loop state with no star ahead but at the very end, a match is found |
| Wildcards.OldStarIsRedundant | crates/rdg-core/src/acl.rs:144-151 | keeping only the last star loses no match |
| Wildcards.GlobMeaning | crates/rdg-core/src/acl.rs:129-160 | a true result always is a match, and a match is always found for candidates with no early star |
| Wildcards.EarlyStarIsMissed | crates/rdg-core/src/acl.rs:139-142 | for every candidate with an early star there is a pattern that matches and is refused |
| Wildcards.GlobCorrectExactly | crates/rdg-core/src/acl.rs:129-160 | code and relation agree on all patterns exactly for candidates with a star at most at the end |
| CidrBlocks.MaskIsLeadingOnes | crates/rdg-core/src/acl.rs:212-226 | the largest word is 2^w - 1, and shifted it is prefix ones followed by zeros, 2^w - 2^(w-prefix), for prefix 0 and full width too |
| CidrBlocks.ContainsIsLeadingBits | crates/rdg-core/src/acl.rs:169-182 | membership is one family and equal quotients by 2^(32-prefix) or 2^(128-prefix) |
| CidrBlocks.ContainsIsEquivalence | crates/rdg-core/src/acl.rs:169-182 | membership is reflexive, symmetric and transitive between network and address |
| CidrBlocks.ExtremePrefixes | crates/rdg-core/src/acl.rs:212-226 | prefix 0 accepts the whole family, the full prefix only the network itself |
| CidrBlocks.LongerPrefixNarrows | crates/rdg-core/src/acl.rs:169-182 | a longer prefix of the same network accepts a subset |
| CidrBlocks.BlockIsAlignedRun | crates/rdg-core/src/acl.rs:169-182 | a block is an aligned run of exactly 2^(w-prefix) addresses |
| Acl.CidrParsesExactly | crates/rdg-core/src/acl.rs:184-202 | a pattern is a block exactly if it is an address, the first slash, and a bit count its family has |
| HostPatterns.HostsJudgedExactly | crates/rdg-core/src/acl.rs:114-127 | all name patterns mean their expansion for a host exactly if it has no early star, or one at its head that is followed by one byte, or by one byte repeated and a star |
| HostPatterns.OtherStarsMislead | crates/rdg-core/src/acl.rs:114-142 | for every other host there is a name pattern that is judged wrongly |
| Acl.CidrPatternMeaning | crates/rdg-core/src/acl.rs:114-127 | a block pattern accepts the hosts that are addresses with its leading bits |
| Acl.BestIsWinner | crates/rdg-core/src/acl.rs:59-64 | the selected rule is the last among the matching ones of highest priority, and none is selected only if none matches |
| Acl.LastHighestDecides | crates/rdg-core/src/acl.rs:52-65 | the decision is the action of that rule, and deny without one; what the action is worth is `Acl.AllowedExactly` |
| Acl.AllowedExactly | crates/rdg-core/src/acl.rs:52-112 | access is allowed exactly if, of the rules whose set user, group, port and host the request has, the last of highest priority has an action that spells "allow" up to case |
| Acl.OneRuleMore | crates/rdg-core/src/acl.rs:52-65 | inserting or removing a rule that does not match or does not win changes no decision |
| Acl.SortIsStable | crates/rdg-core/src/acl.rs:67-70 | the sort is descending and keeps each priority's rules in their order |
| Acl.SortingKeepsDecision | crates/rdg-core/src/acl.rs:45-70 | every stable descending sort of the rules decides every request alike |
| Acl.AclEngine.constructor | crates/rdg-core/src/acl.rs:22-27 | an engine holds a stable sort of the rules it was given |
| Acl.AclEngine.Reload | crates/rdg-core/src/acl.rs:45-47 | so does a reloaded one |
| Acl.AclEngine.CheckAccess | crates/rdg-core/src/acl.rs:29-43 | the engine decides on its sorted rules what the unsorted ones decide, and allows exactly by a rule as in `Acl.AllowedExactly` |
| Utf16.DecodeEncode | crates/rdg-proto/src/messages.rs:784-787 | every string of scalars decodes from its UTF-16 units, surrogate pairs included |
| Utf16.EncodeDecode | crates/rdg-proto/src/messages.rs:780-781 | units that decode are the encoding of what they decode to |
| Utf16.EncodesScalars | crates/rdg-proto/src/messages.rs:784-787 | a scalar is one unit of its own value, or a high and a low surrogate that carry ten bits each of what is above 65536 |
| Utf16.EncodeUtf16Le | crates/rdg-proto/src/messages.rs:784-792 | the loop writes the units low byte first and the terminator |
| Utf16.ReadBackUntilNul | crates/rdg-proto/src/messages.rs:771-792 | a written name reads back up to its first NUL |
| Utf16.ReadsExactly | crates/rdg-proto/src/messages.rs:771-782 | bytes read as a string exactly if they are its units, low byte first, up to their end or a zero unit |
| MessageProofs.NameReads | crates/rdg-proto/src/messages.rs:381-391 | a name of fitting length reads back from behind its length field, whatever follows |
| MessageProofs.PayloadReads | crates/rdg-proto/src/messages.rs:114-658 | the payload of every writable message parses to that message |
| MessageProofs.PayloadExact | crates/rdg-proto/src/messages.rs:114-658 | only a writable message comes back from its own payload, whole or cut off |
| MessageProofs.WrittenIsFramed | crates/rdg-proto/src/messages.rs:717-767 | a written message parses to itself with any tail, and is complete while no proper prefix is |
| MessageProofs.TailIgnored | crates/rdg-proto/src/messages.rs:717-729 | a complete message parses alike whatever follows it |
| MessageProofs.RoundTripExactly | crates/rdg-proto/src/messages.rs:284-767 | over all messages: parse gives back what write wrote exactly for the writable ones |
| MessageProofs.StreamSplitsUniquely | crates/rdg-proto/src/websocket.rs:46-54 | a concatenation of written messages is so in one way only |
| MessageProofs.DataFrameReads | crates/rdg-proto/src/websocket.rs:30-43 | a Data frame of up to 65535 bytes parses to its count and its data |
| MessageLayout.ParsesExactly | crates/rdg-proto/src/messages.rs:77-767 | for all buffers and messages of all types: one parses as the other exactly if type code, length and every field, flag-announced option, name and PAA cookie lie at their offsets |
| MessageLayout.WrittenExactly | crates/rdg-proto/src/messages.rs:96-711 | a writable message is written as these bytes, with a zero reserved field, its own length, and nothing behind its last field |
| MessageLayout.WritersDrop | crates/rdg-proto/src/messages.rs:253-684 | the PAA cookie, the SoH response and a close response's payload change nothing of what is written |
| Bytes.FieldValues | crates/rdg-proto/src/messages.rs:78-100 | a field is its bytes, each weighing 256 times the one before |
| Bytes.CastsTruncate | crates/rdg-proto/src/rpch.rs:273-282 | a cast to u16 or u32 leaves what is over a multiple of the type's size |
| Session.GatewaySession.constructor | crates/rdg-core/src/session.rs:43-54 | a new session awaits the handshake with the first ids to give |
| Session.GatewaySession.ProcessMessage | crates/rdg-core/src/session.rs:58-153 | one message moves the session and is answered as the step functions say, and a refused one changes nothing |
| Session.ErrorFreeRuns | crates/rdg-core/src/session.rs:58-153 | error-free runs are exactly the prefixes of handshake, tunnel, authorization, channel, data..., with every field read off the messages |
| Session.RefusalsLeaveNoTrace | crates/rdg-core/src/session.rs:58-153 | every run ends where its accepted messages alone would, and those are in order |
| Session.TargetKnownInTransfer | crates/rdg-core/src/session.rs:109-127 | target and channel id are set exactly in data transfer and are those of the one accepted ChannelCreate |
| Session.RepliesParse | crates/rdg-core/src/session.rs:58-153 | a reply parses as the success response of the next type code, with every field given: constants, the version asked for, or the id the session then has |
| Rts.CommandReadsBack | crates/rdg-proto/src/rpch.rs:87-170 | a written command parses to itself and leaves what follows |
| Rts.CommandWritesBack | crates/rdg-proto/src/rpch.rs:87-170 | a parsed command writes back the bytes it was parsed from |
| Rts.CommandsSize | crates/rdg-proto/src/rpch.rs:75-85 | a list of commands is written to as many bytes as announced |
| Rts.ToBytes | crates/rdg-proto/src/rpch.rs:263-288 | the writing loop produces the PDU's bytes |
| Rts.Parse | crates/rdg-proto/src/rpch.rs:201-261 | the parsing loop computes the parse function, errors included |
| Rts.PduRoundTripExactly | crates/rdg-proto/src/rpch.rs:201-288 | parse gives back a written PDU exactly if its header is valid and it is at most 65535 bytes long |
| Rts.PduWritesBack | crates/rdg-proto/src/rpch.rs:201-288 | every accepted byte string is written back from what it parsed to |
| Rts.SequencesReadBack | crates/rdg-proto/src/rpch.rs:290-412 | CONN/A1, CONN/B1 and CONN/C2 are recognized from their bytes, and not for each other |
| RtsLayout.CommandExactly | crates/rdg-proto/src/rpch.rs:75-170 | bytes are a command, written or parsed, exactly if its type code, numbers and UUID lie at their offsets |
| RtsLayout.PduParsesExactly | crates/rdg-proto/src/rpch.rs:201-288 | bytes parse as a PDU exactly if constants, own length, fields, number of commands and commands lie at their offsets |
| RtsLayout.A1Exactly | crates/rdg-proto/src/rpch.rs:349-375 | a PDU is a CONN/A1 exactly if its flags are zero and its commands are version, connection cookie, OUT cookie, window |
| RtsLayout.B1Exactly | crates/rdg-proto/src/rpch.rs:386-414 | a PDU is a CONN/B1 exactly if its commands are version, connection cookie, IN cookie, lifetime, keepalive, group |
| RtsLayout.C2Exactly | crates/rdg-proto/src/rpch.rs:421-444 | CONN/C2 reads back with version 1, window 262144 and timeout 120000, in this order |
| Uuids.UuidOnWire | crates/rdg-proto/src/rpch.rs:611-621 | the wire form of a UUID is exactly the bytes whose first three little-endian fields are its big-endian values, and whose last eight are its own |
| VirtualConnections.VirtualConnection.constructor | crates/rdg-proto/src/rpch.rs:482-496 | a new connection waits for the OUT channel |
| VirtualConnections.VirtualConnection.AcceptOutChannel | crates/rdg-proto/src/rpch.rs:538-553 | CONN/A1 fills the OUT fields from the first state, and fails unchanged from any other |
| VirtualConnections.VirtualConnection.AcceptInChannel | crates/rdg-proto/src/rpch.rs:555-586 | CONN/B1 needs the waiting state and the same cookie, and gives CONN/C2 |
| VirtualConnections.VirtualConnection.EnterDataTransferState | crates/rdg-proto/src/rpch.rs:588-598 | data transfer is entered only from the established state |
| VirtualConnections.StepsClimb | crates/rdg-proto/src/rpch.rs:518-598 | successful steps go up one state, keep the cookie, and keep which fields are set |
| VirtualConnections.ChannelsMeet | crates/rdg-proto/src/rpch.rs:518-586 | after CONN/A1 a CONN/B1 is accepted exactly with the same cookie, answered under the call id of CONN/A1, and every field of the connection is then given |
| RpchHandlers.HandleOutChannel | crates/rdg-server/src/handlers/rpch.rs:86-154 | a CONN/A1 replaces the pending entry of its cookie by a connection it has put in the waiting state |
| RpchHandlers.ConnectInChannel | crates/rdg-server/src/handlers/rpch.rs:200-247 | a CONN/B1 takes its entry out of the map and is then always accepted |
| RpchHandlers.RequestsExactly | crates/rdg-server/src/handlers/rpch.rs:86-118 | a request is taken exactly if it parses and is a CONN/A1 or CONN/B1, and is a bad request otherwise |
| RpchHandlers.RpchState.Store | crates/rdg-server/src/handlers/rpch.rs:132-144 | inserting replaces one key and keeps entries ready |
| RpchHandlers.RpchState.Take | crates/rdg-server/src/handlers/rpch.rs:228-240 | removing yields the entry at most once |
| RpchHandlers.RunKeepsInvariant | crates/rdg-server/src/handlers/rpch.rs:125-250 | every interleaving keeps the invariant of map and handlers |
| RpchHandlers.ChannelsAreCorrelated | crates/rdg-server/src/handlers/rpch.rs:125-250 | in every interleaving pending entries wait under their own cookie, CONN/C2 carries its CONN/A1's call id, no sender has two holders, and no handler fails by its own state |
| ChannelRuns.RunKeepsInvariant | crates/rdg-server/src/handlers/rpch.rs:125-378 | every interleaving of handlers and loop turns keeps the invariant of map, loops and streams |
| ChannelRuns.StreamsCarryOneChannel | crates/rdg-server/src/handlers/rpch.rs:125-378 | in every interleaving, with sends failing at any time, an OUT stream is empty or carries exactly one IN handler's CONN/C2, at most one bind_ack and one response per bound request |
| ChannelRuns.LoopsAreRuns | crates/rdg-server/src/handlers/rpch.rs:159-378 | in every interleaving a loop starts behind the CONN/B1 of its own body and, going on or ended, has handled and sent what the run over that body alone does on a stream that takes as much |
| ChannelRuns.ConformingChannelsServed | crates/rdg-server/src/handlers/rpch.rs:276-378 | in every interleaving a loop has ended without error exactly if it has handled all PDUs of a conforming body, with one answer for each Bind and request; a conforming client's loop ends otherwise only when a send fails |
| RpchHandlers.PendingIsLastStored | crates/rdg-server/src/handlers/rpch.rs:134-144 | in every interleaving an entry is pending exactly if some OUT handler stored one under its cookie and nobody has stored or taken one since, and it is the one stored |
| RpchHandlers.TakesLastStored | crates/rdg-server/src/handlers/rpch.rs:228-241 | in every interleaving a CONN/B1 gets what the last OUT handler stored under its cookie, and is refused exactly if there is none or it was taken |
| RpchHandlers.HolderConnects | crates/rdg-server/src/handlers/rpch.rs:228-250 | whoever holds an entry connects to its sender, whatever other handlers do in between |
| Rpc.HeaderRoundTripExactly | crates/rdg-proto/src/rpc.rs:118-175 | a written header reads back exactly if its version is spoken and its fragment is all there |
| Rpc.HeaderWritesBack | crates/rdg-proto/src/rpc.rs:118-175 | a header that parses is written back as the bytes it was parsed from |
| Rpc.HeaderOfFragment | crates/rdg-proto/src/rpc.rs:118-164 | a header reads the same with more bytes behind it and from its fragment alone |
| Rpc.SyntaxReads | crates/rdg-proto/src/rpc.rs:197-218 | a written syntax id parses to itself and leaves what follows; its bytes are given by `RpcLayout.SyntaxExactly` |
| Rpc.ContextReads | crates/rdg-proto/src/rpc.rs:275-304 | a presentation context with at least one transfer syntax parses to itself |
| Rpc.ContextsStoodThere | crates/rdg-proto/src/rpc.rs:275-304 | contexts that parse are the bytes they were parsed from |
| Rpc.BindParse | crates/rdg-proto/src/rpc.rs:235-321 | the nested loops over a moving cursor compute the bind parser, errors included; the fields it yields are given by `RpcLayout.BindFields` |
| Rpc.FirstOfContexts | crates/rdg-proto/src/rpc.rs:275-304 | the outer loop reads all announced contexts and keeps the first |
| Rpc.ReadTransferSyntaxes | crates/rdg-proto/src/rpc.rs:292-297 | the inner loop reads all announced syntaxes and keeps the first |
| Rpc.BindAcceptsExactly | crates/rdg-proto/src/rpc.rs:235-321 | a bind is accepted exactly if its body begins with the announced number of well-formed contexts, and yields the first one with its first transfer syntax |
| Rpc.BindStaysInside | crates/rdg-proto/src/rpc.rs:235-321 | neither the authentication trailer nor bytes behind the fragment matter |
| Rpc.AckReadsBack | crates/rdg-proto/src/rpc.rs:354-391 | a bind_ack is as long as its header says, aligns its results to 4 and reads back up to the recomputed lengths |
| Rpc.RequestAcceptsExactly | crates/rdg-proto/src/rpc.rs:404-439 | a request is accepted, as a given one, exactly if the buffer begins with that one's bytes and an authentication trailer of the announced length |
| Rpc.ResponseReadsBack | crates/rdg-proto/src/rpc.rs:466-484 | a response is as long as its header says and carries its call id, context id and stub |
| RpcLayout.HeaderParsesExactly | crates/rdg-proto/src/rpc.rs:72-164 | a buffer begins with a header exactly if version, type code, flags, drep, lengths and call id lie at their offsets and the fragment is all there |
| RpcLayout.SyntaxExactly | crates/rdg-proto/src/rpc.rs:197-218 | bytes are a syntax id exactly if its UUID fields and its version lie at their offsets |
| RpcLayout.ContextExactly | crates/rdg-proto/src/rpc.rs:275-304 | bytes are a context exactly if id, count and syntaxes lie at their offsets |
| RpcLayout.BindFields | crates/rdg-proto/src/rpc.rs:235-321 | what a parsed Bind yields lies in it at these offsets |
| RpcLayout.TsgBindOnTheWire | crates/rdg-proto/src/rpc.rs:20-32 | a Bind is one for this gateway exactly if its first context carries the given numbers of the TSG interface 1.3 and of NDR 2.0 |
| RpcLayout.RequestExactly | crates/rdg-proto/src/rpc.rs:404-439 | a Request parses exactly to the fields at these offsets and the stub before its trailer |
| RpcLayout.AckOnTheWire | crates/rdg-proto/src/rpc.rs:340-391 | the bind_ack sent, by offset: call id, group, 5840 twice, an empty address, one acceptance, NDR |
| RpcLayout.ResponseOnTheWire | crates/rdg-proto/src/rpc.rs:453-484 | the response sent, by offset: call id, hint, context id, no cancels, the stub |
| RpcStream.FillBuffer | crates/rdg-server/src/handlers/rpch.rs:290-305 | waiting for bytes appends frames until there are enough or the body ends |
| RpcStream.FillKeepsBytes | crates/rdg-server/src/handlers/rpch.rs:290-305 | buffer and remaining body hold the same bytes before and after waiting |
| RpcStream.ProcessRpcPdusStreaming | crates/rdg-server/src/handlers/rpch.rs:277-378 | the loop sends, errs and leaves the connection exactly as the recursive run does, failing or not |
| RpcStream.HandlePdu | crates/rdg-server/src/handlers/rpch.rs:326-376 | Bind, bound Request and everything else are handled as the step function says, and a failure leaves connection, session and stream as stated |
| RpcStreamProofs.SecondWaitIsIdle | crates/rdg-server/src/handlers/rpch.rs:308-321 | the run equals one without the second waiting loop |
| RpcStreamProofs.NoByteLost | crates/rdg-server/src/handlers/rpch.rs:288-324 | handled PDUs are the first bytes received, each as long as its own header says, and all bytes in a run without error |
| RpcStreamProofs.FramingIsUnique | crates/rdg-proto/src/rpc.rs:118-164 | bytes are cut into PDUs in one way only |
| RpcStreamProofs.ChunkingsAgree | crates/rdg-server/src/handlers/rpch.rs:277-378 | two successful runs over the same bytes handle the same PDUs and end in the same state with the same output |
| RpcStreamProofs.ChunkingSucceedsExactly | crates/rdg-server/src/handlers/rpch.rs:277-378 | a chunking succeeds exactly if the bytes in one chunk do and no chunk ends inside a PDU past its header |
| RpcStreamProofs.HandledRuns | crates/rdg-server/src/handlers/rpch.rs:277-378 | any list of PDUs that can be handled, sent in one chunk, runs through |
| RpcStreamProofs.RunSucceedsExactly | crates/rdg-server/src/handlers/rpch.rs:277-378 | a run succeeds exactly if its bytes are some PDUs that can be handled and no chunk ends inside one past its header, and it then handles these |
| RpcStreamProofs.HandledExactly | crates/rdg-server/src/handlers/rpch.rs:326-376 | PDUs can be handled exactly if at most one is a Bind, it carries the bytes of the TSG and NDR syntaxes, the requests after it parse, their operations 1, 2, 4 come in order, and the stream takes the answers |
| RpcStreamProofs.ConformingClientsServed | crates/rdg-server/src/handlers/rpch.rs:277-378 | a run from a connection just established succeeds exactly if its bytes are such PDUs and no chunk ends inside one past its header |
| RpcStreamProofs.RunLeaves | crates/rdg-server/src/handlers/rpch.rs:326-376 | a failing run leaves what it had at the last loop head, but for a connection or session that had moved before its reply failed |
| RpcStreamProofs.SplitPdu | crates/rdg-server/src/handlers/rpch.rs:308-321 | a PDU cut between its header and its end is refused with the bytes missing, and is handled if cut anywhere else |
| RpcStreamProofs.RunIsHandled | crates/rdg-server/src/handlers/rpch.rs:277-378 | every run comes to what its handled PDUs come to on their own |
| RpcStreamProofs.OutputOfRun | crates/rdg-server/src/handlers/rpch.rs:243-378 | in every run the OUT channel carries at most one bind_ack and then the k-th response under the k-th request's call id and context id; bound, data transfer and a handled Bind are the same thing |
| RpcStreamProofs.SessionOfRun | crates/rdg-server/src/handlers/rpch.rs:285-365 | at the last loop head of every run the session is the one its tunnel operations lead to, a prefix of 1, 2, 4; what a failing run leaves is the same or a later such session |
| Opnums.ProcessTsgOpnum | crates/rdg-server/src/handlers/rpch.rs:390-474 | an operation drives the session and answers as the operation function says, and a refused one leaves the session as it was |
| Opnums.OperationsFollowHandshake | crates/rdg-server/src/handlers/rpch.rs:390-474 | operations succeed exactly if those among 1, 2, 4 come in that order, and leave the session where the messages they stand for do, never between handshake and tunnel |
| Opnums.SessionAfterOperations | crates/rdg-server/src/handlers/rpch.rs:390-474 | after operations that succeed the session has exactly these ids, client name, host and port |
| Opnums.StubsRead | crates/rdg-server/src/handlers/rpch.rs:421-473 | a response stub holds the tunnel or channel id the session then has, and success |
| InChannel.HandleInChannel | crates/rdg-server/src/handlers/rpch.rs:159-274 | the whole handler: CONN/B1, the map, CONN/C2 on the matched OUT channel and no other, and the loop |
| InChannel.ServeChannel | crates/rdg-server/src/handlers/rpch.rs:251-274 | CONN/C2 goes out first, and the loop's failures become internal errors |
| InChannel.OpeningExactly | crates/rdg-server/src/handlers/rpch.rs:165-221 | however the body is cut, the handler gets a CONN/B1 exactly if the first bytes are one, and the loop starts with all bytes behind it |
| InChannel.OutChannelOfMatch | crates/rdg-server/src/handlers/rpch.rs:228-272 | a matched OUT channel carries CONN/C2 under its CONN/A1's call id, then at most one bind_ack, then responses |
| WsHandshake.ServeHandshake | crates/rdg-server/src/handlers/websocket.rs:243-494 | the message loop before the relay computes the greeting function |
| WsHandshake.RelayStartsExactly | crates/rdg-server/src/handlers/websocket.rs:246-494 | the relay starts exactly for handshake, tunnel, authorization, channel, Data with nothing unreadable before it, with that channel's host and port, that Data and four replies sent |
| Relay.SkipOneMore | crates/rdg-server/src/handlers/websocket.rs:321-331 | a ChannelCreate skips the next Data, and several before it skip it once |
| Relay.StripsCount | crates/rdg-server/src/handlers/websocket.rs:333-337 | data of two bytes or more loses its first two, and shorter data nothing |
| Relay.RunKeepsInvariant | crates/rdg-server/src/handlers/websocket.rs:311-461 | every interleaving keeps the invariant of both tasks and the queue |
| RelayProofs.WireReads | crates/rdg-proto/src/websocket.rs:30-43 | frames on the wire parse back to the data and the control messages sent |
| RelayProofs.RelayIsFaithful | crates/rdg-server/src/handlers/websocket.rs:297-461 | in every interleaving the client's Data frames are the backend's bytes, its other frames the owed replies in order, and the backend's bytes the stripped unskipped Data |
| RelayProofs.ReplyOnTheWire | crates/rdg-server/src/handlers/websocket.rs:350-398 | the frames answered are exactly those of type codes 8, 13, 14 and 16, and their answers are given byte by byte |
| RelayProofs.ReaderStopsExactly | crates/rdg-server/src/handlers/websocket.rs:323-410 | the reading task ends with the first close, error or CloseChannel, unless a write failed before |
| RelayProofs.QueueNeverLocks | crates/rdg-server/src/handlers/websocket.rs:312-452 | a full queue always lets the writing task go on, and then the reading one |
| RelayLoops.WsToTcp | crates/rdg-server/src/handlers/websocket.rs:316-412 | the reading loop writes the unskipped data and sends the owed replies of the frames it read, up to the first that stops it or a failed write |
| RelayLoops.TcpToWs | crates/rdg-server/src/handlers/websocket.rs:415-459 | the writing loop forwards reads and replies in order until the backend ends or the client is gone |
| RelayLoops.Backend.WriteAll | crates/rdg-server/src/handlers/websocket.rs:343-346 | a write is whole, or fails after a part |
| WsSession.ReaderIsItsLoop | crates/rdg-server/src/handlers/websocket.rs:316-412 | in every interleaving an ended reader stands where the reading loop on its own ends over the frames it consumed: same stop, same bytes written, same replies queued |
| WsSession.WholeSession | crates/rdg-server/src/handlers/websocket.rs:243-461 | from the first frame on, in every interleaving, the messages read begin with handshake and Data in order, the client has got four responses, the backend's bytes and the owed replies in order, and the backend the stripped unskipped Data from the first on |
| Decimal.ParseShow | crates/rdg-server/src/handlers/auth.rs:52-83 | every number in range parses back from what is printed |
| Decimal.ParsesExactly | crates/rdg-server/src/handlers/auth.rs:81-82 | a text parses to a number exactly if it is digits, behind a sign its type has or none, for that number, in range |
| Decimal.NumberByPlaces | crates/rdg-server/src/handlers/auth.rs:81-82 | digits weigh ten times what the next ones do |
| Base64Url.DecodeEncode | crates/rdg-server/src/handlers/auth.rs:56-73 | every byte string decodes from its encoding |
| Base64Url.EncodeDecode | crates/rdg-server/src/handlers/auth.rs:73 | only its encoding decodes to a byte string |
| Base64Url.EncodeSpells | crates/rdg-server/src/handlers/auth.rs:56-57 | the characters of an encoding, read as base-64 digits, spell the number the bytes spell, filled up with two or four zero bits |
| SessionToken.SignatureDecides | crates/rdg-server/src/handlers/auth.rs:61-74 | for any MAC the check passes exactly the payload followed by the one encoding of its MAC |
| SessionToken.PayloadAcceptedExactly | crates/rdg-server/src/handlers/auth.rs:76-92 | a payload names a user exactly if it is two numbers in range around one colon and the clock is at most 86400 seconds past the second |
| SessionToken.TokenValidates | crates/rdg-server/src/handlers/auth.rs:51-93 | a token is user, colon, time, dot and MAC, and validates to its user for 86400 seconds and to nobody after |
| SessionToken.TwoFields | crates/rdg-server/src/handlers/auth.rs:77-80 | a text splits into two fields exactly if the separator is in it once |
| SessionToken.TrimPadded | crates/rdg-server/src/handlers/auth.rs:40 | trimming takes the white space around a text and nothing else |
| SessionToken.CookieValidates | crates/rdg-server/src/handlers/auth.rs:36-93 | the cookie of a signed token validates for 86400 seconds, behind any other cookies and before anything |

## Left out

- RelayLoops.WsToTcp: does not wait on a full control queue, because it is one task without the other; waiting is modelled in `Relay`, where the two interleave, and `WsSession.ReaderIsItsLoop` says that the reader ends there as this loop does.
- TLS, certificates, telemetry, metrics, configuration, the database, REST and portal handlers, the text and web interfaces: input and output, or thin wrappers.
- NTLM and Kerberos authentication, `guacamole.rs`, the KDC proxy and the `axum` WebSocket variant at `crates/rdg-server/src/handlers/websocket.rs:503-557`.
- Host names, patterns, tokens and cookie headers are ASCII bytes; other characters and their white space are not modelled.
- Parsing the text of an IP address is a parameter of `Acl`; addresses are numbers, without their octets.
- `sort_by` is a stable insertion sort; the theorem about decisions holds for every stable descending sort.
- The fields of the message structs stand in one datatype, `TsgMessage`.
- `VirtualConnection` objects are handed to and from the shared map by value, as the move in the source does; the map and its lock are one object whose methods are the critical sections.
- Sockets, WebSocket framing and HTTP bodies are sequences of frames; a body or WebSocket that has ended or failed stays so. Connecting to the backend is assumed to succeed when the relay starts.
- A sending channel whose receiver goes away is a stream that takes a fixed number of frames; how a full channel makes a sender wait is modelled for the relay's queue only.
- In `Relay` and `RelayLoops` replies and data travel as typed values whose bytes are fixed by `Wire`; the lemmas of `RelayProofs` are about the bytes.
- Flushing, shutting down, logging, byte counters and pings that are only logged have no state.
- The MAC is any function, so its strength is not modelled, and the clock is a parameter.
