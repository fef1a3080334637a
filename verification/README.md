# Voirc: a verified model of its protocols

Voirc is a voice and text chat client with an embedded IRC server, an audio relay, peer-to-peer
links and a signed message log. This project models the protocols it is built from and proves what
they keep over every run, every input and every interleaving. `dafny verify dfyconfig.toml` checks
all of it.

How the files fit together:

- `irc_server.dfy` has the server's tables and the sections that run under its lock, as functions on
  states and as methods of a class that updates the maps in place. `server_runs.dfy` makes every such
  section one atomic step of a machine with a program counter per connection, so HELLO, JOIN,
  POW_SET and admission take several steps with other connections in between, and proves the
  inductive invariant. `server_theorems.dfy`, `server_commands.dfy` and `admission.dfy` hold what
  follows for whole runs, and `server_progress.dfy` that commands which are not refused have their effect.
- `fragments.dfy` has the receiver of signalling fragments under loss, reordering, duplication,
  expiry and interleaving; `fragment_sender.dfy` the sender, down to where a cut falls inside a
  UTF-8 character; `encoding.dfy` that its decoding is that of the bytes; `line_handling.dfy` a
  fragment's way through the server's line handling; `delivery.dfy` all of that together, from the
  payload sent to the payload received.
- `canonical.dfy` has what a signature and a chain hash commit to; `stable_sort.dfy`,
  `signed_log.dfy` and `log_sync.dfy` the signed log, its file, and its merge between peers.
- `utf8.dfy` has lossy decoding of bytes, `relay.dfy` the relay's byte streams, `relay_server.dfy`
  every interleaving of its connections down to the single send, `relay_progress.dfy` that they get on;
  `file_transfer.dfy` files over a data channel; `voice_framing.dfy` the re-blocking of microphone
  samples.
- `peers.dfy` has what a client knows of its peers; `topology.dfy` how two participants decide about
  a link, from the role each decides by and the roles it knows; `room_runs.dfy` the room as a machine in
  which participants enter, hear of each other, announce, promote, demote, offer and answer;
  `flooding.dfy` what becomes of a packet on any links, forwarders and relay clients;
  `heard_once.dfy` when it is heard exactly once given the roles, how often otherwise, and when it dies;
  `link_trees.dfy` when it is heard exactly once whatever the links are.
- `lock_progress.dfy` has the fair lock around the server's state.
- `pow.dfy` has the proof of work behind nick registration; `text.dfy` and `bytes.dfy` the string and
  byte primitives the protocols use.

Where the program does not do what its comments or documentation say, the model follows the program:

- A read error leaves the connection handler before its cleanup block (src/irc_server.rs:165). Channel
  members are clients exactly until an address that is still on a channel registers again
  (`MembersAreClientsIff`); `ReadErrorLeavesMember` is a run that gets there.
- The difficulty can be raised between HELLO's check and its binding;
  `DifficultyMayRiseBeforeBinding` is such a run, and `BindingMeetsDifficultyIff` says when it matters.
- A refused HELLO asks for the lock while it holds it (src/irc_server.rs:446-449, 456-466). With a fair
  lock and somebody waiting to write in between, the server stands still (`LockProgress`).
- A participant decides its links by the role it connected with (src/gui.rs:1021), which is never
  moderator; promotion changes only the role it forwards by (src/gui.rs:1775). A promoted
  moderator therefore rejects regular peers. Whoever joins later takes everybody for a regular peer
  (src/irc_client.rs:302-326), so that without a later announcement any two link, not the two tiers of
  src/topology.rs:9-12 (`UntoldOnceIff`).
- The microphone task sends every packet to the relay as well (src/gui.rs:1201-1204), and what comes by
  the relay is played and forwarded like what comes by a link. In a hosted room with
  everybody on its relay and only the host forwarding, two others hear each other's packets three or
  four times; `InformedOnceIff` and `UninformedOnceIff` say when it is once.
- The server trims every line before it relays it (src/irc_server.rs:170), so that a signalling payload
  with white space before a cut reaches its target changed: `DeliveredIff` says which payloads arrive,
  `SpaceIsLost` is one that does not.
- A file header that announces 2^63 bytes or more makes `Vec::with_capacity` panic
  (src/webrtc_peer.rs:83); the handler handles nothing any more (`HugeHeaderStops`).
- Nothing calls `load_channel` (src/persistence.rs:225): after a restart the lists have later messages
  only, while the files go on (`GoOnUnloaded`), and a message synced again is written a second time
  (`SyncedAgainLoadsTwice`).
- "No field can bleed into another" (src/persistence.rs:389) holds exactly for fields whose texts have no
  NUL and whose chain hash has no piece between NULs that reads as a timestamp.
- A relay nick is decoded before it is forwarded and can grow past what the readers take
  (`UnreadableHandshake`).
- The zero-bit counter reaches 256 on the all-zero hash and does not fit its byte; a unit test expects
  32 there (src/pow.rs:192).

## Model

| member | source | states |
|---|---|---|
| IrcServer.ServerState.FindAddrByNick | src/irc_server.rs:47-51 | the search returns some holder of the nick, and nothing exactly when there is none |
| IrcServer.ServerState.Admit | src/irc_server.rs:96-106 | a connection is let in exactly when fewer than 100 clients in all and fewer than 5 of its IP address are registered |
| IrcServer.ServerState.CleanupClient | src/irc_server.rs:177-202 | the cleanup block: client removed, and if it had a nick, key binding dropped, all channels left and one QUIT to everybody who shared one |
| IrcServer.ServerState.LeaveAll | src/irc_server.rs:184-191 | the channel sweep removes the address everywhere and collects exactly the other members of its channels |
| IrcServer.ServerState.ChangeNick | src/irc_server.rs:219-238 | NICK: refused exactly when the nick is bound to a key this client has not proved |
| IrcServer.ServerState.RelayPrivmsg | src/irc_server.rs:271-302 | PRIVMSG: nothing from an unauthenticated user of a bound nick; else to the other members of the channel, or to one holder of the nick |
| IrcServer.ServerState.Join | src/irc_server.rs:313-331 | JOIN's write section: membership, the announcement to all members, then the list of names |
| IrcServer.ServerState.KickMember | src/irc_server.rs:334-361 | KICK: only by an authenticated client and for a nick that exists, announced to all members before the target leaves |
| IrcServer.ServerState.PartChannel | src/irc_server.rs:362-384 | PART: announced to the other members, then the client leaves |
| IrcServer.ServerState.CheckHelloNick | src/irc_server.rs:444-451 | HELLO's first section: refused unless the client's nick is the hello nick |
| IrcServer.ServerState.CheckHelloPow | src/irc_server.rs:453-468 | HELLO's second section: refused exactly when the nick misses the difficulty now in force |
| IrcServer.ServerState.Hello | src/irc_server.rs:470-511 | HELLO's last section: bind and authenticate, or refuse a nick bound to another key |
| IrcServer.ServerState.AnnounceKey | src/irc_server.rs:498-510 | the nested loop with its `notified` set sends one line to each sharer of a channel, however many channels they share |
| IrcServer.ServerState.SetPowBits | src/irc_server.rs:552-560 | POW_SET's write section: new difficulty, announced to every client |
| ServerRuns.InvStep | src/irc_server.rs:134-206 | every step of every connection keeps: live connections past their handshake are registered and fit their program counter; registered clients are live, read errors apart |
| ServerRuns.MembershipStep | src/irc_server.rs:147-202 | if all channel members are clients with a nick, a step keeps that exactly when it does not register an address that is already on a channel |
| ServerRuns.OthersKeepIdentity | src/irc_server.rs:208-395 | no step of one connection changes who another client is |
| ServerRuns.RunSection | src/irc_server.rs:147-560 | every step of the machine is what one method of the server does to its fields |
| ServerRuns.ChannelsGainOnlyJoiner | src/irc_server.rs:313-331 | channels gain only the acting connection, and only in JOIN's write section |
| ServerTheorems.HelloBindsUnderItsNick | src/irc_server.rs:444-487 | in every interleaving, when HELLO's binding section runs the client is registered under exactly the hello nick |
| ServerTheorems.HelloBindHistory | src/irc_server.rs:411-470 | in every run a client about to bind has passed all of its own HELLO in sequence: the signature, the nick, and then the difficulty in force at the moment of that check, with no other section of its own since |
| ServerTheorems.BoundKeysWereProved | src/irc_server.rs:411-487 | in every run each bound nick was bound by such a HELLO: its signature under that key, and its hash against the difficulty in force when that HELLO was checked |
| ServerTheorems.DifficultyMayRiseBeforeBinding | src/irc_server.rs:453-487 | a run in which a nick is bound that misses the difficulty in force when it is bound |
| ServerTheorems.BindingMeetsDifficultyIff | src/irc_server.rs:453-560 | a nick meets the difficulty in force when it is bound exactly when no POW_SET section ran between its check and its binding, or the last one that did set no more bits than its hash has |
| ServerTheorems.MembersAreClientsIff | src/irc_server.rs:147-383 | in every run all channel members are registered clients with a nick, exactly up to the first registration of an address that is already on a channel |
| ServerTheorems.MemberRegisteredNeedsReadError | src/irc_server.rs:165 | the first such registration comes after a read error on that address |
| ServerTheorems.CleanupLeavesNoTrace | src/irc_server.rs:177-202 | up to such a registration, after cleanup the address is in no table, even on the branch that skips the channel sweep |
| ServerTheorems.CleanupResidue | src/irc_server.rs:179-191 | for any state at all: cleanup leaves an address on a channel exactly when its client has no nick and it was on one |
| ServerTheorems.ReadErrorLeavesMember | src/irc_server.rs:165 | a run with a read error after which a channel member has no client |
| ServerTheorems.QuitReachesExactlySharers | src/irc_server.rs:184-199 | on cleanup exactly those sharing a channel with the leaver get one QUIT each, and all of them are registered to get it |
| ServerTheorems.PubkeyReachesExactlySharers | src/irc_server.rs:484-510 | when HELLO binds, exactly the other clients sharing a channel get one VOIRC_PUBKEY each; it fails to bind only against another key |
| ServerTheorems.BindingStep | src/irc_server.rs:57-65 | one step undoes a binding exactly when a connection using the nick runs cleanup |
| ServerTheorems.BoundNickStays | src/irc_server.rs:178-182 | in every run a bound nick stays bound to its key until a connection using it disconnects |
| ServerTheorems.BoundNickTakenOnlyByKeyHolder | src/irc_server.rs:219-237 | meanwhile a client comes to use the nick exactly by its own NICK while holding the bound key |
| ServerProgress.JoinMakesMember | src/irc_server.rs:309-315 | in every run whoever sends JOIN with a nick is on that channel after its next step, whatever other connections did in between and whoever is on it |
| ServerProgress.JoinerAsked | src/irc_server.rs:305-315 | whoever is about to be put on a channel last sent JOIN for it, under the nick that will be announced |
| ServerProgress.JoinWithoutNick | src/irc_server.rs:309-312 | a JOIN without a nick changes nothing, and the connection is ready for its next command |
| ServerProgress.PowSetTakesEffect | src/irc_server.rs:529-561 | in every run a POW_SET of at most 28 bits from an authenticated client is in force after its next step |
| ServerProgress.PowSetterAsked | src/irc_server.rs:529-548 | whoever is about to set the difficulty last sent POW_SET with it, at most 28 and authenticated |
| ServerProgress.HelloSucceeds | src/irc_server.rs:405-487 | in every interleaving: a HELLO whose signature verifies, under the client's own nick, strong enough when checked and not bound to another key when bound, authenticates the client and binds the nick |
| ServerProgress.NickIsLastAllowed | src/irc_server.rs:219-238 | in every run a client's nick is the one it last asked for that was free then, or bound to the key it had proved |
| ServerProgress.CommandRuns | src/irc_server.rs:162-176 | from any moment of any run, whatever the others are doing, a connection finishes what it does within three steps of its own and takes up any next command |
| ServerProgress.LetInIff | src/irc_server.rs:96-106 | in every run whoever is not connected is let in exactly while fewer than 100 clients, and fewer than 5 of its IP address, are registered |
| ServerProgress.Registers | src/irc_server.rs:134-156 | and once let in it can register, with no nick and nothing proved, even where an earlier client of that address was left behind |
| ServerCommands.DeliveredRightly | src/irc_server.rs:177-560 | in every run and for every step, what a client is queued is exactly what the step tells it, and every line is rightly told: messages under the sender's own nick to those they are for and not from an unauthenticated user of a bound nick, channel events to those on the channel, keys and departures to those sharing one, replies to the acting client alone |
| ServerCommands.AudienceIsRegistered | src/irc_server.rs:184-510 | up to the registration of an address already on a channel, nobody a line is for is missing from the clients |
| ServerCommands.StepMembers | src/irc_server.rs:177-384 | of all steps, JOIN's write section puts exactly its client on exactly that channel, PART and a permitted KICK take one off, cleanup takes a client with a nick off all, and nothing else changes who is where |
| ServerCommands.AuthenticatedHasProved | src/irc_server.rs:411-487 | in every run an authenticated client holds a key it proved by a HELLO of its own since it registered: signature, nick, and the difficulty then in force |
| ServerCommands.DifficultyChangedByProvedClient | src/irc_server.rs:529-561 | in every run the difficulty changes only by POW_SET's last section, to at most 28, for a client that proved a key, and every client is told |
| ServerCommands.MemberRemovedOnlyBy | src/irc_server.rs:177-384 | in every run a member leaves a channel only by its own PART or disconnection or by a KICK from an authenticated client |
| ServerCommands.KickerHasProved | src/irc_server.rs:334-361 | the sender of such a KICK proved its key |
| LockProgress.DoomStep | src/irc_server.rs:444-468 | somebody who reads waits behind somebody who waits to write exactly from the moment a refused HELLO asks for its second read while somebody waits to write |
| LockProgress.DoomedIffOverlap | src/irc_server.rs:444-468 | in every run that standstill is there exactly when at some moment such an overlap happened |
| LockProgress.ServedIff | src/irc_server.rs:444-468 | from any moment on, if nobody asks any more, only so many steps are left, and in the end everybody was served exactly when there was no such overlap |
| LockProgress.FirstComeFirstServed | src/irc_server.rs:567-572 | in every run, whatever is asked for in between, those that entered followed by those waiting are those that were waiting followed by those that asked |
| LockProgress.NeverOvertaken | src/irc_server.rs:567-572 | so whoever waits enters after exactly those before it, and meanwhile stands behind exactly those of them that have not entered |
| LockProgress.ServedWithin | src/irc_server.rs:444-468 | while others go on asking, a request with i before it has entered once more than 2i and the number of holders steps of entering or letting go were made, and until then one more can be, unless the standstill came |
| LockProgress.NobodyWrites | src/irc_server.rs:567-572 | after the overlap a writer waits for good and none ever enters |
| LockProgress.StandstillRun | src/irc_server.rs:444-451 | a run to the standstill: a HELLO refused while a client waits to write |
| LockProgress.AllServed | src/irc_server.rs:567-572 | whatever any number of tasks ask for, some run lets every one of them in and out again |
| Admission.AdmissionBound | src/irc_server.rs:92-156 | registered plus accepted-but-unregistered connections never exceed 99 (4 per IP address) plus the largest number pending at once |
| Admission.CapsExactWithoutOverlap | src/irc_server.rs:96-106 | the caps of 100 and 5 are exact when handshakes never overlap |
| Admission.AdmissionBoundReached | src/irc_server.rs:92-156 | for every number of overlapping handshakes some run meets the bound with equality |
| Fragments.ParsePrint | src/irc_client.rs:533-545 | the header of every fragment parses back, whatever its chunk contains |
| Fragments.ParseIff | src/irc_client.rs:533-545 | exactly which texts are taken for a fragment and for which: prefix, bracket, counts between slashes, one bar, id, bracket, chunk; a count that cannot be read is 0 |
| Text.ParseUsizeIff | src/irc_client.rs:544-545 | a count is read from exactly its decimal form behind any zeros and at most one plus sign, below 2^64 |
| Fragments.Receiver.HandleFragment | src/irc_client.rs:532-569 | one line: ignored if malformed, else added to its buffer, which is emitted and dropped when it holds as many parts as announced |
| Fragments.Receiver.JoinParts | src/irc_client.rs:557-560 | the assembly loop joins the parts present in order of their numbers |
| Fragments.Receiver.Expire | src/irc_client.rs:290-294 | expiry drops buffers and nothing else |
| Fragments.KeyInjective | src/irc_client.rs:547 | sender and message id can be told from a buffer's key, whatever the sender's name |
| Fragments.CountMeansComplete | src/irc_client.rs:556 | a buffer of one message's parts that holds as many as announced misses none |
| Fragments.Replay | src/irc_client.rs:532-569 | the receiver fed the printed fragments of a sequence of events does what the events say |
| Fragments.EmitsOnlySentMessages | src/irc_client.rs:532-569 | if each fragment arrives with the text it was sent with, then under any loss, reordering, duplication, expiry and interleaving every emission is a message its sender sent, whole and unchanged |
| Fragments.EmitsOnLastMissing | src/irc_client.rs:548-568 | if fragments arrive at most once and nothing expires, an arrival emits its message exactly when it is the last missing fragment |
| Fragments.EmittedExactlyOnce | src/irc_client.rs:548-568 | if moreover all fragments of a message arrive, exactly one event emits it |
| Fragments.EmitsOnlyWhenAllArrived | src/irc_client.rs:548-568 | even with duplicates and expiry a message is emitted only when all its fragments have arrived |
| Fragments.AnyFragmentsIff | src/irc_client.rs:547-568 | for any fragments under an id, with any numbers and totals: a message comes out the first time there are as many different numbers as the first fragment announced, put together from the chunks that came last under 1 to that |
| FragmentSender.SendWebrtcSignal | src/irc_client.rs:222-237 | one line per 400 bytes, numbered from 1, each announcing the number of lines there are |
| FragmentSender.ReassembledIffAligned | src/irc_client.rs:228-230 | reassembly gives the payload back exactly when no cut falls inside a character |
| FragmentSender.AsciiSurvives | src/irc_client.rs:228-230 | cutting and decoding change no ASCII payload |
| FragmentSender.EmittedPayloadWasSent | src/irc_client.rs:222-237 | if fragments arrive with the texts they were sent with: every emission is the payload its sender sent, for payloads without a cut character; what the server between the two changes is in `Delivery` |
| FragmentSender.OnlyEmptyPayloadsHaveNoFragment | src/irc_client.rs:225-228 | the empty payload, and no other, is sent as no fragment at all |
| Encoding.ChunkIsDecodedBytes | src/irc_client.rs:228-230 | the bytes of each chunk are what lossy decoding makes of the payload's bytes from one multiple of 400 to the next |
| Encoding.ValidIff | src/relay.rs:57 | bytes are left alone by lossy decoding exactly when they are the UTF-8 of some text |
| Encoding.BrokenTakes | src/relay.rs:57 | elsewhere one replacement character stands for the longest run of bytes that could begin a character, or for one byte |
| LineHandling.FragmentAcceptedIffFits | src/irc_server.rs:165-174 | the server takes a fragment exactly when target, counts and chunk have at most 483 bytes together |
| LineHandling.WireExample | src/irc_client.rs:229-235 | the line of the second of three fragments, character by character |
| LineHandling.FullFragmentAcceptedIff | src/irc_server.rs:165-174 | a full 400-byte ASCII chunk is taken exactly when the target and the digits of both counts have at most 83 bytes |
| LineHandling.RelayedUnchangedIff | src/irc_server.rs:254-302 | a line's text is relayed unchanged exactly when the target has no colon and the chunk does not end in white space |
| LineHandling.FragmentRelayedIff | src/irc_server.rs:165-302 | from the wire to the relay: a fragment gets through as sent exactly when it fits, its target has no colon, and its chunk has no line feed and does not end in white space |
| LineHandling.ColonBeginsText | src/irc_server.rs:254-256 | the text of a message is what follows its first colon, whatever stands between that and the target |
| LineHandling.NoColonNoText | src/irc_server.rs:256 | a message without a colon is relayed with an empty text |
| LineHandling.NotRelayed | src/irc_server.rs:252-253 | a message that is only a target is not relayed, and no other command is |
| Delivery.PieceRelayed | src/irc_server.rs:165-302 | a fragment without a line feed is read as one line and relayed, with its trimmed text, exactly when it fits |
| Delivery.MessageRelayed | src/irc_server.rs:165-302 | of all lines of a message without line feeds the server relays exactly the texts of those that fit, in order |
| Delivery.RelayedHaveNoFeed | src/irc_server.rs:165-302 | whatever a client sends, no text relayed has a line feed |
| Delivery.Listen | src/irc_client.rs:532-569 | the receiver fed any texts does to its buffers what the results below take it to do |
| Delivery.TrimmedWholeIff | src/irc_server.rs:170 | chunks without the white space at their ends make up the payload exactly when no cut falls inside a character and no chunk ends in white space |
| Delivery.DeliveredIff | src/irc_client.rs:222-237 | from the sender's lines through the server to the receiver, in any order of arrival: the payload comes out, and then once and nothing else does, if and only if it is not empty, the target has no colon, no cut falls inside a character, every line fits, and no chunk has a line feed or ends in white space |
| Delivery.EmittedPayloadIff | src/irc_client.rs:532-569 | with many messages at once under loss, reordering, duplication and expiry: every emission is one message's chunks, all of whose lines fit, without the white space at their ends, and it is that message's payload exactly when that payload is deliverable |
| Delivery.SpaceIsLost | src/irc_server.rs:170 | 399 characters, a space and a letter arrive without the space |
| Delivery.DisguisedReceives | src/irc_server.rs:254-256 | a target with a colon that receives a message all the same |
| Canonical.CanonicalInjective | src/persistence.rs:380-392 | fields without NUL are determined by their canonical form, against any other fields |
| Canonical.CanonicalCollides | src/persistence.rs:380-392 | fields with a NUL share their canonical form with other fields |
| Canonical.ChainHashCollides | src/persistence.rs:380-392 | so do fields whose chain hash has, between NULs, a piece that reads as a timestamp before its last |
| Canonical.UnambiguousIff | src/persistence.rs:388-390 | a canonical form is unambiguous exactly when the four texts hold no NUL and no piece of the chain hash before its last reads as a 64-bit timestamp |
| Canonical.CanonicalReadsBack | src/persistence.rs:380-392 | split at its NULs, the canonical form of fields without one is exactly the fields in their order, the timestamp in decimal |
| Canonical.ChainInputDeterminesTail | src/persistence.rs:394-412 | two timestamp lists have the same chain-hash pre-image exactly when their last five entries agree |
| Canonical.ChainInputReadsBack | src/persistence.rs:394-412 | what is hashed are the last five timestamps or all of fewer, in order, in decimal, between commas |
| Canonical.RecentIsEnough | src/persistence.rs:276-290 | hashing the recent timestamps is hashing the whole log's |
| Canonical.TamperingFailsIff | src/persistence.rs:132-190 | every change to the signed fields of a verified message is detected exactly when its canonical form is unambiguous in that sense |
| Canonical.VerdictIff | src/persistence.rs:132-190 | forged exactly when the signature does not verify; else out of chain exactly when the known history's hash differs; else from the future exactly when dated more than 120 seconds ahead |
| Canonical.ChainMismatchIff | src/persistence.rs:132-190 | with a collision-free hash a message is flagged exactly when the last five timestamps known differ from those its author saw |
| StableSort.SortIffStable | src/persistence.rs:261-262 | the sort is the one ascending list that keeps messages of equal timestamp in order |
| StableSort.SortsEqualIff | src/persistence.rs:261-262 | two lists sort alike exactly when they order the messages of every timestamp alike |
| SignedLog.PushIsExpected | src/persistence.rs:252-262 | pushing and sorting one by one is sorting the de-duplicated history once |
| SignedLog.MessageLog.Append | src/persistence.rs:248-265 | the message is pushed to its list and its file, other lists stay, and a channel whose list was that of all appends keeps that property |
| SignedLog.MessageLog.LoadChannel | src/persistence.rs:225-246 | a channel is replaced by the sorted readable lines of its file, if there is one |
| SignedLog.MessageLog.MessagesSince | src/persistence.rs:268-273 | exactly the messages after the given time, in order |
| SignedLog.SincePicks | src/persistence.rs:268-273 | those are exactly the messages at the places with a later timestamp, in the order of the list |
| SignedLog.ChannelPicks | src/persistence.rs:248-265 | a channel's list is made of exactly the messages appended to it, in order |
| SignedLog.FirstByIdPicks | src/persistence.rs:257-259 | and of these of exactly those whose id none appended before has |
| SignedLog.FileReadsBack | src/persistence.rs:305-314 | what was appended through a file is read back, in order |
| SignedLog.ParsedPicks | src/persistence.rs:231-238 | of any file's lines exactly those that parse are loaded, in order |
| SignedLog.LineEndings | src/persistence.rs:231-232 | a carriage return before a line feed makes no difference, and an empty line none at all |
| SignedLog.SameFileIff | src/persistence.rs:300-303 | two channels share a file exactly when they differ only where both have an underscore or one of the nine characters replaced by it |
| SignedLog.LoadRebuildsIff | src/persistence.rs:225-246 | loading rebuilds the list exactly when no id was appended to the channel twice and no other channel used its file |
| SignedLog.Restart | src/persistence.rs:225-246 | a second start that loads a channel from the first one's files has the list of everything appended exactly under that condition |
| SignedLog.GoOn | src/persistence.rs:225-265 | after loading under that condition and any later appends the list is that of everything appended before and after |
| SignedLog.GoOnUnloaded | src/persistence.rs:216-265 | without loading, each list is that of the later appends alone while the files hold everything |
| SignedLog.SyncedAgainLoadsTwice | src/persistence.rs:225-265 | a message appended again after such a start makes loading its file give another list than expected |
| LogSync.ProcessSyncResponse | src/persistence.rs:329-374 | exactly the acceptable messages whose append succeeds are stored, in order, and the two counts say how many were stored and refused |
| LogSync.TakenOverPicks | src/persistence.rs:338-368 | taken over are exactly the messages at the places where no other key is trusted for the author, the verdict is not forged and the append succeeds, in the order of the response |
| LogSync.RejectedCount | src/persistence.rs:340-357 | the number rejected is the number of places in the response that fail one of the first two |
| LogSync.CountsAddUp | src/persistence.rs:329-374 | accepted plus rejected is delivered when no append fails |
| LogSync.Convergence | src/persistence.rs:248-265 | two logs fed the same messages in any order and multiplicity hold the same messages with the same sequence of timestamps |
| LogSync.IdenticalIff | src/persistence.rs:248-265 | their lists are identical exactly when messages of equal timestamp first arrived in the same order at both |
| LogSync.ConvergenceExact | src/persistence.rs:248-265 | with distinct timestamps the lists are identical |
| LogSync.MergeIdempotent | src/persistence.rs:257-259 | feeding messages again changes no list |
| LogSync.SyncSinceIsLast | src/gui.rs:1665-1671 | the time a sync request asks from is the log's own last timestamp, or 0 without one above 0 |
| LogSync.SyncAddsExactly | src/persistence.rs:268-273 | a sync adds exactly the peer's acceptable messages after that time |
| LogSync.SyncCompleteIff | src/gui.rs:1664-1674 | after one sync the log holds all of the peer's acceptable messages exactly when it held those up to its own last timestamp before |
| Relay.StreamReadsBackIff | src/relay.rs:79-181 | for payloads of any length, the server reads a client's stream back to the payloads sent up to the first it does not take, exactly unless that one is so long that the 16 bits sent of its length look valid |
| Relay.StreamExactIff | src/relay.rs:176-181 | all payloads come through exactly when each has 1 to 4096 bytes |
| Relay.HelloTakenIff | src/relay.rs:50-56 | a handshake is taken as it was sent exactly when the nick has 1 to 64 bytes |
| Relay.OnTheWire | src/relay.rs:9-10 | a packet byte by byte: the nick's length, the nick, the payload's length with the high byte first, the payload |
| Relay.CutStreamReadsPrefix | src/relay.rs:79-95 | a stream cut anywhere gives a prefix of the payloads |
| Relay.ReadLoop | src/relay.rs:79-95 | the read loop collects exactly these frames |
| Relay.BuildFrame | src/relay.rs:97-102 | the pushes to the buffer build the frame of nick and payload |
| Relay.CutPacketsReadPrefix | src/relay.rs:144-169 | a client's reader gets back every frame before the first with a nick over 64 bytes, and from any part of the stream a prefix |
| Relay.UnreadableHandshake | src/relay.rs:50-102 | a handshake of 64 bytes that are no UTF-8 is accepted, decodes to a nick of 192 bytes, and makes every frame of its client unreadable |
| Utf8.LossyKeepsIff | src/relay.rs:57 | lossy decoding leaves exactly valid UTF-8 as it is |
| Utf8.LossyIsValid | src/relay.rs:57 | what it gives is valid, so that a reader's second decoding changes nothing |
| RelayServer.RelayState.Forward | src/relay.rs:104-110 | the fan-out loop queues the frame for everybody but its sender |
| RelayServer.LoneForward | src/relay.rs:104-110 | the single sends of one connection, in any order, come to that fan-out |
| RelayServer.InvStep | src/relay.rs:45-122 | every step of every connection keeps: queues hold exactly what was heard, streams what was forwarded, and nothing of any sender is missing or out of order |
| RelayServer.ReaderHearsOthers | src/relay.rs:45-169 | in every run a reader recovers, of what was queued for it, exactly what comes before the first sender whose decoded nick has over 64 bytes, so all of it exactly when there is none; a prefix from any part of the stream; never its own; and of each other sender it was queued everything since it connected, in order |
| RelayServer.SenderIsReadInOrder | src/relay.rs:79-95 | in every run what was forwarded for a client is a prefix of what it sent, and all of it once its stream is used up |
| RelayServer.EndToEnd | src/relay.rs:45-181 | from one client's sends to another's queue: a prefix of the payloads under the sender's decoded nick, and all of them once sent on; the reader recovers the queue up to the first nick it does not take |
| RelayProgress.CanDeliver | src/relay.rs:79-110 | from any moment of any run a client's connection can, by steps of its own alone, read all that its client sent and deliver it to another one that was there before |
| RelayProgress.CanConnect | src/relay.rs:50-67 | from any moment of any run whoever sends a handshake with a nick of 1 to 64 bytes can be let in, under the decoded nick |
| RelayProgress.CanLeave | src/relay.rs:112-116 | and whoever is there can leave, with nothing of it left in the table |
| FileTransfer.SendFile | src/webrtc_peer.rs:324-336 | the chunk loop sends the header, the data in pieces of at most 16384 bytes, and the end |
| FileTransfer.TransferIs | src/webrtc_peer.rs:328-334 | message by message: the header with name and size, the k-th 16384 bytes as the k-th piece, the end |
| FileTransfer.Receiver.OnMessage | src/webrtc_peer.rs:71-101 | one message: a header starts a file, or stops all handling if it announces 2^63 bytes or more; bytes extend it, an end hands it over; anything else is ignored |
| FileTransfer.HeaderReadsBack | src/webrtc_peer.rs:78-84 | a header gives name and size back, whatever colons the name holds |
| FileTransfer.HeaderIff | src/webrtc_peer.rs:78-80 | exactly which messages are headers: text with the prefix and another colon; the name goes up to the last one, and a size that cannot be read is 0 |
| FileTransfer.EndIff | src/webrtc_peer.rs:86 | exactly which messages end a file: that text with nothing but white space around it |
| FileTransfer.FilesArrive | src/webrtc_peer.rs:71-101 | any list of files sent one after another arrives as that list, whatever was left unfinished before |
| FileTransfer.Exchange | src/webrtc_peer.rs:324-336 | the sender's loop and the receiver's handler together: the files sent are the files handed over |
| FileTransfer.CutFilesArePrefix | src/webrtc_peer.rs:71-101 | when the channel ends early, the files handed over are a prefix of those sent, each whole |
| FileTransfer.HandsOverIff | src/webrtc_peer.rs:71-101 | in any sequence of messages a file is handed over exactly at an end before which no header announced 2^63 bytes or more and the last header or end is a header, with that header's name and all bytes since |
| FileTransfer.StoppedIff | src/webrtc_peer.rs:80-84 | handling has stopped exactly when some header announced 2^63 bytes or more, and then nothing is handed over |
| FileTransfer.HugeHeaderStops | src/webrtc_peer.rs:80-84 | after a header of any name with such a size no file is handed over, whatever follows |
| FileTransfer.InterleavedTransfersIff | src/webrtc_peer.rs:71-101 | of two transfers interleaved in any way both files arrive exactly when one ended before the other began; otherwise one file arrives, with the name of the later header and all bytes of both from there to the first end |
| VoiceFraming.InputStream.Process | src/voice_mixer.rs:58-76 | the canceller loop takes whole chunks and keeps the rest |
| VoiceFraming.InputStream.DrainFrames | src/voice_mixer.rs:246-263 | the drain loop takes whole frames, sends the loud ones and keeps the rest |
| VoiceFraming.InputStream.OnInput | src/voice_mixer.rs:239-263 | one callback: the canceller if there is one, then the frames, exactly as the results below take it |
| VoiceFraming.NextBlock | src/voice_mixer.rs:58-76 | each whole chunk is cancelled in the state all chunks before it left, and its result follows theirs |
| VoiceFraming.FramesAreRuns | src/voice_mixer.rs:246-247 | frame k is the k-th run of 960 samples |
| VoiceFraming.CallbacksAreOne | src/voice_mixer.rs:240-263 | any callbacks leave the state and frames that one callback with all their samples would |
| VoiceFraming.FramingIndependent | src/voice_mixer.rs:240-263 | two ways of cutting the same samples into callbacks give the same frames |
| VoiceFraming.SamplesConserved | src/voice_mixer.rs:240-263 | samples in are 960 times the frames plus the two residues, which are shorter than the two frame sizes |
| VoiceFraming.SentAreTheLoud | src/voice_mixer.rs:249-256 | after any callbacks the frames sent are exactly those at the places of the loud ones, in order: all if all are loud, none if none is |
| VoiceFraming.FramesHoldInput | src/voice_mixer.rs:243-248 | without a canceller the frames and then the rest are the input, sample by sample |
| VoiceFraming.FramesHoldCancelled | src/voice_mixer.rs:58-76 | with one they are the chunks of the input, each cancelled in the state the one before it left, and what is short of a chunk is kept |
| VoiceFraming.FramesAreInputRuns | src/voice_mixer.rs:240-247 | with a canceller that changes nothing the frames are the input's runs of 960 samples |
| Peers.AppState.RegisterPeerPubkey | src/state.rs:250-259 | a key is refused exactly when the nick is known under another |
| Peers.AppState.AllSuperpeers | src/state.rs:197-203 | the names of exactly the known hosts and moderators, each once |
| Peers.RemovedIsFree | src/state.rs:230-242 | a removed nick accepts any key again and counts as a regular peer |
| Peers.KeyIsFirst | src/state.rs:230-263 | after any history a nick's key is the first registered since its last removal |
| Peers.KeyStays | src/state.rs:230-259 | between removals a nick's key never changes, and exactly the registrations repeating it are accepted |
| Peers.RoleIsLastSet | src/state.rs:121-195 | after any history a peer's role is the one last set since its last removal, whatever else was updated |
| Peers.KnownIff | src/state.rs:121-242 | after any history a peer is known exactly when an update introduced it and it was not forgotten since |
| Peers.StatusIsLast | src/state.rs:121-188 | after any history a known peer shows the connection state last shown, and counts as connected or speaking as last said, since it became known |
| Peers.PerformAll | src/state.rs:121-263 | the methods of the state, performed in any order, leave what replaying the updates says |
| Topology.LessIsTotal | src/gui.rs:1240-1242 | of two different nicks exactly one is less |
| Topology.LessIff | src/gui.rs:1240 | of two nicks the one that begins the other, or is smaller at the first difference, makes the offer |
| Topology.ShouldConnectTo | src/topology.rs:33-63 | the decision, made with the list of superpeers known, is the condition on roles and view used below |
| Topology.OneSideCalls | src/gui.rs:1235-1242 | whatever the two believe, a link both sides decide for is made by exactly one offer, which the other side accepts, and no other link is made |
| Topology.InformedLinks | src/topology.rs:33-63 | when everybody knows the roles two participants link exactly when nobody is a superpeer, or one is a host that was not demoted, or both were promoted, or both demoted |
| Topology.SidesDisagreeIff | src/gui.rs:1709-1713 | and they decide differently exactly when somebody is a superpeer, neither is such a host, and they are of different kinds: a promoted moderator rejects regular peers |
| Topology.UninformedLinks | src/topology.rs:55-60 | when nobody knows of a superpeer any two link |
| RoomRuns.NobodyDecidesAsModerator | src/gui.rs:1021 | in every run nobody decides as a moderator, whatever promotions there are |
| RoomRuns.LinkWasAgreed | src/gui.rs:1235-1242 | in every run each link came of one offer by the lesser side and one answer, both by sides that decided for it at that moment |
| RoomRuns.KnowsWhatWasTold | src/gui.rs:1648-1786 | in every run the role one knows of another is the one last heard or ordered since it entered, the role one forwards by the one it entered with or last heard an order of, and the role one decides by the one it came as |
| RoomRuns.ObeysIff | src/gui.rs:1750-1786 | in every run an order can be obeyed exactly when it was given and whoever gave it was last said, to the one who hears it, to be host or moderator |
| RoomRuns.LateJoinersIgnoreOrders | src/gui.rs:1751-1755 | a run in which somebody who joined after the host's announcement ignores the host's order and keeps the role it knew |
| RoomRuns.PossibleIff | src/gui.rs:1235-1786 | in every run each event can happen exactly when what was said, offered, answered and left before it allows it |
| RoomRuns.InformedIffTold | src/gui.rs:1648-1786 | so everybody takes exactly those for superpeers who are if and only if everybody was last told so |
| RoomRuns.UninformedIffTold | src/irc_client.rs:302-326 | and nobody knows of a superpeer if and only if nobody was last told of one |
| RoomRuns.SettlesIff | src/gui.rs:1235-1256 | from any moment of any run offers, answers and lost links can bring the links into agreement with the decisions if and only if every missing link has an offer under way or a caller who has heard of the other |
| RoomRuns.DemotionIsKnown | src/gui.rs:1780-1786 | a run in which one is promoted and demoted again and everybody knows the roles, the demoted one having an entry of its own |
| RoomRuns.PromotedRejectsPeer | src/gui.rs:1709-1713 | a run in which everybody knows all roles and a promoted moderator rejects the offer that a regular peer rightly made |
| RoomRuns.JoinersHearTwice | src/irc_client.rs:302-326 | a run in which two join after the host announced its role, all three link, and a packet is heard twice over links alone |
| Topology.InformedLinkCount | src/topology.rs:33-63 | with h hosts, m promoted, d demoted and p regular participants who know the roles, and somebody a superpeer, there are h(h-1)/2 + h(m+d+p) + m(m-1)/2 + d(d-1)/2 links |
| Topology.MeshLinkCount | src/topology.rs:55-60 | without a superpeer, or with none known, there are n(n-1)/2 |
| Flooding.Participant.Speak | src/gui.rs:1195-1206 | the microphone task sends a packet once on every link and once to the relay if connected |
| Flooding.SpeakIsSpoken | src/gui.rs:1195-1206 | what that adds to each link is what the spoken copies of the model below say |
| Flooding.HearIsForwards | src/gui.rs:1208-1218 | what hearing adds to each link is what the forwarded copies say |
| Flooding.Participant.Hear | src/gui.rs:1208-1218 | a superpeer forwards a packet once on every link but the one it came by, and nobody else forwards |
| Flooding.QuietHeardExactlyWalks | src/gui.rs:995-1007 | for any links, forwarders and relay clients and any order of arrival, once nothing is under way exactly the walks whose first hop is a link or the relay and that go on through forwarders were heard, each once |
| HeardOnce.OnceInRunsIff | src/gui.rs:995-1007 | a listener has exactly one such walk, and the speaker none, exactly when a run that came to rest has let it hear one copy, and the speaker none |
| HeardOnce.InformedOnceIff | src/gui.rs:995-1218 | when everybody knows the roles, everybody hears everybody else exactly once and nobody himself, if and only if he is alone, or the relay has at most one client and nobody is a superpeer or there is one host and at most one promoted and one demoted or there are just two superpeers, or all are on the relay with one promoted, no host and at most one demoted |
| HeardOnce.UninformedOnceIff | src/gui.rs:995-1218 | when nobody knows of a superpeer, that holds if and only if he is alone, or the relay has at most one client and nobody forwards or just two are there |
| HeardOnce.OneForwarderTimes | src/gui.rs:995-1218 | with one forwarder and any links and relay, how often anybody hears anybody's packet, the forwarder's own and one's own included |
| HeardOnce.InformedHostedTimes | src/gui.rs:793-845 | in a hosted room with everybody on its relay, roles known and only the host forwarding: three times |
| HeardOnce.UninformedHostedTimes | src/gui.rs:793-845 | and four times when the host's role is not known |
| HeardOnce.HostHeardTwice | src/gui.rs:793-845 | the host's own packets twice |
| RoomRuns.SettledOnceIff | src/gui.rs:1208-1713 | that condition holds at any settled moment of any run at which everybody was last told the roles |
| RoomRuns.UntoldOnceIff | src/irc_client.rs:302-326 | and the one for rooms that know no superpeer at any settled moment of any run in which nobody was told of one |
| LinkTrees.OnceIff | src/gui.rs:995-1218 | for any participants, links, forwarders and relay clients, so at any moment and whoever knows what: everybody hears everybody else exactly once and nobody himself if and only if every two have a link or the relay between them but not both and nobody with a link forwards, or no two are on the relay, the links are a tree, and whoever has two links forwards |
| LinkTrees.TreeTrails | src/gui.rs:1208-1218 | in such a tree there is exactly one way from anybody to anybody else |
| Flooding.ThreeHops | src/gui.rs:1208-1218 | for any links and relay, with at most two forwarders every packet dies within three hops |
| RoomRuns.ThreeHopsAlways | src/gui.rs:1208-1218 | so at any moment of any run at which at most two of those there were last told to forward |
| Flooding.FloodEnds | src/gui.rs:1208-1218 | when no walk has over three hops every run is finite, with exactly as many arrivals as there are walks |
| HeardOnce.InformedFloodEndsIff | src/gui.rs:1208-1218 | when everybody knows the roles a packet never dies if and only if there are three superpeers and the speaker is one, or there is a host, or the relay takes it to one; otherwise every run is finite |
| HeardOnce.UninformedFloodEndsIff | src/gui.rs:1208-1218 | when nobody knows of a superpeer it never dies if and only if three forward |
| Flooding.FloodNeverEnds | src/gui.rs:1208-1218 | a packet that reaches one of three or more forwarders that are all linked is under way in every reachable state |
| HeardOnce.TwoForwardersRepeat | src/gui.rs:1208-1218 | with any two linked and two forwarders, exactly which copies are heard: five ways from one other participant to another and two back to the speaker, each by a link and, where the first hop can take it, by the relay |
| Pow.LeadingZerosIsBound | src/pow.rs:55-66 | at least d leading zero bits is a big-endian value below 2^(bits - d) |
| Pow.LeadingZeroBits | src/pow.rs:55-66 | the loop counts leading zeros, and its byte counter overflows exactly on the all-zero hash |
| Pow.ZeroHashCount | src/pow.rs:187-194 | the all-zero hash has 256 zero bits, which its byte counter holds as 0 |
| Pow.DifficultyIsBound | src/pow.rs:70-76 | a positive difficulty is met exactly when the hash value is positive and below 2^(256 - d) |
| Pow.CandidateInjective | src/pow.rs:112-142 | different nonces give different nicks |
| Pow.HexIs | src/pow.rs:129 | a nonce prints as lower-case hexadecimal that reads back, most significant digit first, to the nonce: of the given width if that is enough, else longer without a leading zero |
| Pow.HexOnly | src/pow.rs:129 | and no other text is that |
| Pow.CandidateIff | src/pow.rs:129 | a nick is the one tried for a nonce exactly when it is the base, a '#' and such a text of width 4 |
| Pow.BaseNameOfCandidate | src/pow.rs:145-147 | stripping the suffix gives the base back exactly when the base holds no '#' |
| Pow.BaseNameIff | src/pow.rs:145-147 | the base name has no '#' and is the whole nick or what stands before a '#' |
| Pow.MineNick | src/pow.rs:112-142 | the least nonce below the limit that meets the requirement, and nothing exactly when there is none; its bits are the largest difficulty it passes; the 32-bit nonce is exact up to 2^32 attempts |
| Pow.MinedNickRegisters | src/pow.rs:70-76 | a mined nick passes every difficulty up to the one mined for, and the solution is unique |

## Left out

- RelayServer.ReaderHearsOthers: writing to a socket is not modelled; what a client's reader sees is its queue or any prefix of it.
- IrcServer.ServerState.Join: the list of names is a map from addresses to nicks, not text, because table order decides the order of the text.
- IrcServer.ServerState.RelayPrivmsg: which of several holders of a nick is found is left open, as table order leaves it open; the text of every line sent is modelled by its kind and contents only.
- IrcServer.ServerState.CheckHelloNick: the notice of a refusal is sent in the section itself; that the source takes the lock a second time for it is modelled in `lock_progress.dfy`. The decoding of key and signature before it is part of an abstract check that a signature verifies, and all its failures are one notice.
- IrcServer.ServerState.CheckHelloPow: as for the section before it, the second lock of a refusal is modelled in `lock_progress.dfy`.
- LockProgress.ServedIff: sections are taken to end once they have what they asked for; what they do inside is in `irc_server.dfy`.
- SignedLog.MessageLog.Append: appends come one after another; two at once could reach file and memory in different orders. A failed write is taken to leave the file as it was.
- SignedLog.FileReadsBack: the JSON library is an abstract writer and reader of which only reading back on one line is used.
- LogSync.SyncCompleteIff: the reply's way back is left out, because src/irc_client.rs:471 addresses it to the request's target; the result is about the peer's messages reaching the log.
- Canonical.TamperingFailsIff: signatures are abstract; the one assumption used is that a signature is valid for one text only.
- Fragments.EmitsOnlySentMessages: a sender's message ids are taken as distinct; they are the first 8 characters of random UUIDs.
- LineHandling.FragmentRelayedIff: ends at the server's relaying; the receiving IRC library's parser is not modelled.
- Delivery.DeliveredIff: the sender is one whose messages the server relays (`IrcServer.ServerState.RelayPrivmsg`), and the target is there. Of targets whose text after the first colon begins like a fragment only `DisguisedReceives` is shown. A line feed in a payload starts another command line; of those only private messages to the target are followed, and none of them brings the payload.
- Delivery.EmittedPayloadIff: no payload sent has a line feed, which would let it send fragments of other messages, and no target a colon.
- VoiceFraming.InputStream.Process: samples are opaque, and echo cancellation is any step from a state and a chunk to a state and a chunk of the same length; what the playback side does to that state in between is part of the step.
- RoomRuns.LinkWasAgreed: an event that can be heard can be heard at any time, more than once or never; the order in which one sender's messages arrive and the checks of verified keys only take runs away. Ice negotiation is one answer.
- RoomRuns.SettledOnceIff: between settled moments, and with roles known to some only, the links can be any that were agreed on; for these `LinkTrees.OnceIff` has a condition on the links and forwarders, not on what was told.
- RoomRuns.SettlesIff: an offer can be made whenever the caller has heard of the other and decides for the link; the program makes one when it hears of a join and after a connection failed.
- FileTransfer.HandsOverIff: an allocation of less than 2^63 bytes is taken to succeed; a panic in the handler is taken to end the task that reads the channel.
- Flooding.QuietHeardExactlyWalks: one packet at a time, while nobody comes, goes or changes role; on the relay every client is named by its own nick.
- Flooding.Participant.Hear: decoding and mixing are left out; forwarding does not depend on them.
- CAP, USER and PING: single replies without state.
- TLS, sockets, UPnP, WebRTC negotiation, audio devices, the Opus codec and mixing: calls into libraries.
- Ed25519, SHA-256 and UUIDs: functions about which only what a result names is assumed.
- Real time: expiry of fragments is a step that can happen at any moment, and clocks are arguments.
- Magic links, slash commands, configuration, role permissions and the user interface: one-branch facts and library formats.
- Timestamps have 64 bits in the results about canonical forms and are unbounded elsewhere, where only comparison, printing and the addition in `verify` are used. Lengths that the source holds in a `usize` are below 2^64 where they are parsed.
