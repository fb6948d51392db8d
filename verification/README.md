# A verified model of the lane-cove tunnel

The tunnel joins hosts by encrypted UDP. A node (`src/peer.c`) reads IPv4 packets from a TUN device, seals them for
the peer that the longest matching prefix names, and delivers, relays or drops what arrives. It keeps a table of
sessions, a table of handshakes it is waiting for, timers, and for every session a sliding window of sequence numbers.
The test framework in `rcunit/` brings a ring of links and a cache of live allocations built on it.

The project models the parts that are hard to get right and proves what holds of them for all inputs, all runs and all
reachable states.

## How it is built

| part | modules |
|---|---|
| words and bytes | `Options`, `Bits`, `Crypto` |
| replay window | `Replay` |
| handshake messages, packet frames | `Handshake`, `Framing` |
| prefixes and routing | `Prefixes`, `Routing` |
| node: tables, one step, the log of a run | `Tables`, `Steps`, `Trace` |
| node: what every step keeps | `Walks`, `Invariants`, `Runs`, `Cadence`, `Upkeep` |
| node: what every run satisfies | `LegalLogs`, `Guarantees` |
| several nodes on a lossy network | `Emissions`, `Network`, `HubSpoke` |
| two nodes, when everything arrives | `Transit`, `Connect` |
| runs that show why conditions are needed | `Counterexamples` |
| the event loop in place | `PeerNode` |
| the configuration file | `Config`, `ConfigDoc`, `Startup` |
| rcunit | `RcuList`, `PtrSlots`, `PtrCache` |

Four ideas carry the proofs.

* **Symbolic bytes.** A byte string is a sequence of atoms: a literal byte, or byte `i` of a cryptographic term. So the
  layouts, the lengths and the slices are those of the C code, while X25519, AES-256-GCM, HMAC-SHA256 and SHA-256 are
  constructors, and nothing has to be assumed about them.
* **A log as the reference.** The node is a state machine whose steps add events to a log. `Trace.View` is a second,
  much simpler automaton that reads only the log of one slot; `Trace.Legal` says in terms of it which event may happen
  next. `Guarantees.RunsAreLegal` proves that every run of the node writes a legal log, and `LegalLogs` derives from
  legality alone what holds across rekeys, replays and slots. A theorem about `LegalLog` is therefore a theorem about
  all runs.
* **The loop in place.** `PeerNode.EventLoop` is the C code with its tables, its searches, its in-place updates and the
  three buffers that packets go through. Every method is proved to compute the corresponding function of `Steps`, down
  to `Loop`, which computes `Steps.Run` on whatever fits the buffers. So the buffer bounds hold of the loop.
* **A network without invention.** `Network` runs any number of nodes. A datagram that was once sent may arrive never,
  once or many times, in any order.

Where the code and its documentation disagree the model follows the code: the window has 2048 bits although the comment
at src/common.h:58 says 1024, and the first sequence number sent is 0 (src/peer.c:447) although README.md:381 says 1.

## Results

* Over every sequence of calls, `check_replay` accepts exactly the numbers that were never accepted and are above the
  highest one seen or less than 2048 below it. The loop that shifts 32 words in place is a shift of the whole window.
  In every reachable state the node accepts by that rule what arrived since a session's latest handshake.
* Over every schedule of loss, duplication and reordering, the payloads that a node delivers under current keys map
  injectively to sends of the same payload under the same key and number. This holds if each key is installed once and
  at most 2^64 packets are sent under it. Under the key before the current one there is no such bound: a packet is
  delivered each time it arrives before that key's grace time ends, and there is a run that delivers one twice.
* Two session keys that a node installs in a run are equal if and only if it answered the same initiation twice and
  every refresh of its ephemeral key from the first answer up to the second failed, or they are the two ends of a
  handshake with itself. There is a run for each of the two. While no key is installed twice, no pair of key and number
  passes the replay check twice in any slot, and a packet's number is the count of those sent under its key.
* The branch for a full session table is unreachable.
* At most one handshake is pending for each peer in all reachable states, if and only if the handshake timeout is at
  most the reconnect interval or at most 10 seconds.
* In a network of a relay and spokes that know only the relay's key no packet crosses more than two links. That a relay
  never comes to have a session with itself follows from what a handshake message can name.
* Two nodes that have each other configured connect: if the initiation and the answer arrive, both hold a session under
  one key. The first packet that the initiator routes there is then delivered if and only if no session in an earlier
  slot of the responder was at the initiator's address, the source is allowed and the packet is not mistaken for a
  handshake message. There is a run that breaks the first condition and loses the packet.
* A sealed packet that arrives, under whatever key and with whatever number, is delivered once and unchanged if and only
  if all of these hold, and else nothing is delivered: it is not mistaken for a handshake message; a session is at its
  source address; the first such session has its key as the current one and the number is new to its window, or has it
  as the previous one within the grace time; the payload is not empty; and an IPv4 payload has a source that matches one
  of the session's routes, if it has any. It goes to another session, at once and under that one's key, number and
  address, if and only if that session is the first with the longest match for the destination; and else to the TUN
  device, and nothing is sent. A packet is mistaken exactly if its random IV starts with the eight bytes of the magic
  and the payload has 44 bytes, or 76 with a PSK.
* So a packet gets from one TUN device over a relay to another, under exactly those conditions at each of the two hops.
* In every reachable state a session is a function of the log: keys, routes, counters, window and all its times. A
  session is dropped only after the expiry without a datagram from its peer, counted from the handshake if there was
  none, and a keepalive is empty and due.
* A tick drops exactly the silent sessions, sends keepalives exactly on the quiet ones and tries exactly the peers that
  are due, judged by the state before it. The exception is a due peer whose key an earlier peer shares, if that one has
  just started to rekey their session.
* Both ends of a handshake derive the same key. It combines the secrets of the two ephemerals, of the client's static
  key with the server's ephemeral and of the client's ephemeral with the server's static key, and the four public keys;
  and equal keys force agreement on these and on the roles. Of all byte strings exactly the messages sealed for them are
  accepted by either end.
* The configuration machine accepts a document, with its keys in any order and repeated, if and only if it has at most
  64 peers with readable keys, endpoints and at most 16 readable prefixes each, and stores exactly its contents: every
  peer, and for every setting the last value given, a text cut to its buffer. With separate peers, the peer that a
  destination is routed to depends only on which peers are connected.
* The pointer cache, on its ring of tables, is a finite map for every sequence of allocations and frees, and has as many
  tables as its peak needs. When it is destroyed every table is freed once and not looked at again.

## Model

| member | source | states |
|---|---|---|
| `Replay.ShiftedBit` | src/common.h:66-74 | the word-by-word formula moves every bit of the 2048-bit window up by `diff`, for every `diff`, dropping what leaves at the top and filling with zeros |
| `Replay.ShiftInPlace` | src/common.h:66-74 | the descending in-place loop leaves the array equal to the shift of its old contents: no word is read after it was overwritten |
| `Replay.CheckReplayInPlace` | src/common.h:60-87 | the verdict, the new highest number and the new array contents are those of `CheckReplay` on the old ones |
| `Replay.CheckFollowsRule` | src/common.h:60-87 | if the bits are the accepted numbers of the window before a call, they are so after it, and the call accepts exactly a new number inside the window |
| `Replay.RunFollowsRule` | src/common.h:60-87 | from a zeroed window and after any calls, bit `k` is set exactly if `highest - k` was accepted |
| `Replay.AcceptsExactlyNewInWindow` | src/common.h:60-87 | after any calls the next number is accepted if and only if it was never accepted and is above the highest number or less than the window size below it |
| `Replay.NeverAcceptedAgain` | src/common.h:60-87 | a number once accepted is rejected by every later call, whatever came in between |
| `Crypto.SharedSecretCommutes` | src/common.c:219-234 | both sides of an X25519 exchange compute the same secret (section 6.1 of RFC 7748) |
| `Crypto.SharedSecretSeparates` | src/common.c:219-234 | two secrets that agree with the same peer bytes are the same secret |
| `Crypto.IdentityRoundTrip` | src/common.c:278-318 | a sealed identity opens to the sealed key under the same material and under no other |
| `Crypto.OpensExactly` | src/common.c:300-318 | a sealed identity opens to a public key if and only if it is the sealing of that key under that material |
| `Crypto.PacketRoundTrip` | src/common.c:28-79 | a sealed packet opens to its plaintext under its own key and under no other |
| `Crypto.OpenedWasSealed` | src/common.c:54-79 | whatever opens under a key is the sealing under it of what it opens to |
| `Handshake.MessageAccepted` | src/common.c:382-405 | a message passes the length, magic and HMAC checks exactly at receivers with the sender's PSK setting |
| `Handshake.OneSidedPskFails` | src/common.c:382-392 | no message passes both with and without a PSK: 88 against 120 bytes |
| `Handshake.RespondsExactlyToItsInitiators` | src/common.c:451-545 | an honest initiation is answered if and only if PSK setting and static key are the ones it was made for; the responder then learns the initiator's static key and ephemeral |
| `Handshake.HandshakeAgreement` | src/common.c:320-545 | for all key material, responding and receiving the reply both succeed and give both sides the same session key |
| `Handshake.EqualKeysForceAgreement` | src/common.c:248-265 | equal session keys of an initiator and a responder force equal ephemerals, equal static keys and opposite roles |
| `Handshake.ResponderKeyFields` | src/common.c:248-265 | for every message the responder's key hashes the three secrets of its ephemeral and static key with the client's keys, in order, then its own public keys in the server places and the client's in the client places |
| `Handshake.InitiatorKeyFields` | src/common.c:382-449 | for every message the initiator's key hashes its three secrets with the server's keys, in order, then its own public keys in the client places and the server's in the server places |
| `Handshake.HonestKey` | src/common.c:237-265 | both ends of an honest handshake hold a key made of the secrets of the two ephemerals, of client static and server ephemeral, and of client ephemeral and server static, and of the four public keys, in that order |
| `Handshake.HonestMessages` | src/common.c:320-545 | both messages byte for byte: magic, ephemeral, static key sealed under the hash of the secret of client ephemeral and server static, or of the two ephemerals, and the HMAC over these with a PSK |
| `Handshake.WellFormedIsMessage` | src/common.c:382-405 | what passes the length, magic and HMAC checks is exactly a message made of its own parts |
| `Handshake.RespondsExactly` | src/common.c:451-545 | of all byte strings exactly those are answered for a client that seal its key under the secret of the responder's static key and the ephemeral in them |
| `Handshake.AcceptsExactly` | src/common.c:382-449 | of all byte strings exactly those are accepted as a reply that seal the expected server's key under the secret of the initiator's ephemeral and the one in them |
| `Handshake.ResponderKeysEqual` | src/common.c:248-265 | two keys of one responder are equal if and only if its ephemeral, the client's ephemeral and the client's static key are |
| `Handshake.InitiatorKeysEqual` | src/common.c:248-265 | two keys of one initiator are equal if and only if its ephemeral, the server's ephemeral and the server's static key are |
| `Handshake.MixedKeysEqual` | src/common.c:248-265 | a key of one static key as initiator and one as responder are equal if and only if they are the two ends of a handshake with itself |
| `Handshake.MessageIsNoPacket` | src/common.c:54-79 | no key opens a handshake message as a data packet |
| `Handshake.PacketHasNoIdentity` | src/common.c:300-318 | a data packet of any length and IV carries no identity that a handshake receiver could open |
| `Framing.BigEndianRoundTrip` | src/peer.c:446-449 | the big-endian bytes of every number that fits read back as that number |
| `Framing.BigEndianByte` | src/peer.c:446-449 | byte `i` of the `n` bytes is the digit with the weight 256^(n - 1 - i) |
| `Framing.FrameLayout` | src/peer.c:443-450 | eight bytes of magic, eight of the number with the highest first, then the payload |
| `Framing.ParsesExactly` | src/peer.c:751-761 | a plaintext parses to a number and a payload if and only if it is their frame |
| `Framing.OpenedFrameWasSealed` | src/peer.c:736-761 | whatever opens to a frame under a key is the sealing of that frame under it |
| `Framing.FrameRoundTrip` | src/peer.c:443-460 | parsing a frame gives back the 64-bit number and the payload |
| `Framing.SealedFrameRoundTrip` | src/peer.c:443-460 | the receiver of a sealed frame recovers exactly number and payload, and only with the sealing key |
| `Framing.BuildFrame` | src/peer.c:443-460 | framing into the buffer gives the frame of the old payload, also when the payload already sits in that buffer behind the prefix; every write is in bounds |
| `Framing.EncryptInto` | src/common.c:28-52 | for every plaintext that fits the frame buffer the wire buffer holds exactly the sealed packet, and nothing beyond it changes; a failure changes nothing before the ciphertext |
| `Framing.DecryptInto` | src/common.c:54-79 | for every datagram up to 2092 bytes, whether it opens or not, exactly the ciphertext's length is written and within the frame buffer; it fails exactly when the packet does not open, and else the plaintext is there |
| `Framing.RelayInPlace` | src/peer.c:750-791 | a packet that is relayed through the one frame buffer leaves with its payload unchanged under the new key and number |
| `Prefixes.ParsedIsCanonical` | src/peer.c:139-157 | parsing fails exactly on a bad address or a length outside 0 to 32; what it stores has a contiguous mask, a masked network and covers the address |
| `Prefixes.MatchIsInterval` | src/peer.c:354-368 | for a canonical prefix the masked comparison is membership in [network, network + 2^(32 - len)) |
| `Prefixes.EqualLengthTie` | src/peer.c:354-368 | canonical prefixes of one length that share an address are equal |
| `Routing.HeaderFields` | src/peer.c:770-783 | a packet is IPv4 if and only if it has 20 bytes and version 4; its source is in bytes 12 to 15 and its destination in bytes 16 to 19, the highest first (section 3.1 of RFC 791) |
| `Routing.RouteLookupIsLongestMatch` | src/peer.c:354-368 | the answer is the first active session with a matching prefix of maximal length, and none exactly if no active session matches (section 5.1 of RFC 4632) |
| `Routing.LookupLeads` | src/peer.c:354-368 | the lookup answers with a slot if and only if no matching prefix of another active slot is longer, nor as long in an earlier slot |
| `Routing.RouteLookupIgnoresSlotOrder` | src/peer.c:354-368 | with canonical, distinct prefixes any permutation of the slots permutes the answer |
| `Tables.FindPeer` | src/peer.c:318-323 | the first configuration with that key, or none if no configuration has it |
| `Tables.FindByPub` | src/peer.c:334-339 | the first active session with that key, or none if there is no such session |
| `Tables.FindByAddr` | src/peer.c:325-332 | the first active session at that address, or none if there is no such session |
| `Tables.Alloc` | src/peer.c:342-352 | another slot than one with that key is never chosen, and none only if all 64 slots are active with other keys |
| `Tables.AllocChooses` | src/peer.c:342-352 | the slot with that key comes before the first one at that address, and that before the first free one |
| `Tables.FindPending` | src/peer.c:633-637 | the first active pending handshake whose server address it is |
| `Steps.TickKeeps` | src/peer.c:532-583 | what each round of the four loops of a tick keeps, the tick keeps |
| `Walks.DatagramKeeps` | src/peer.c:622-797 | what every event that a datagram can cause keeps, the whole handling of that datagram keeps |
| `Invariants.EventKeepsInv` | src/peer.c:377-796 | every event whose guard holds keeps all invariants: distinct configured keys, pending handshakes behind rekeying marks, slots equal to their view of the log, ephemerals numbered as the log says and shared by nothing but answers, attempt times, and a legal log |
| `Invariants.LookupIsOnRoute` | src/peer.c:354-368 | what the lookup finds in the table is the longest match among the slots that the log shows as live |
| `Runs.AllocNeverFails` | src/peer.c:342-352 | for a configured key a slot is always found, by pigeonhole over at most 64 configured keys |
| `Runs.TickKeepsInv` | src/peer.c:532-583 | a tick keeps all invariants, whatever resolves and whatever is sent |
| `Runs.ResponseKeepsInv` | src/peer.c:631-657 | an answer to a pending handshake, good or bad, keeps all invariants |
| `Runs.InboundKeepsInv` | src/peer.c:660-723 | an inbound handshake keeps all invariants, also when it is refused after the reply went out |
| `Runs.DataKeepsInv` | src/peer.c:726-796 | a data packet under the current, the previous or no key keeps all invariants |
| `Runs.StepKeepsInv` | src/peer.c:529-797 | every step keeps all invariants |
| `Runs.ReachableInv` | src/peer.c:498-797 | the invariants hold in every state that any run reaches |
| `Cadence.TickLeavesYoung` | src/peer.c:548-561 | after a tick every pending handshake is younger than the timeout |
| `Cadence.TickOnPending` | src/peer.c:548-561 | a working tick ends a pending handshake if and only if it was sent at least the timeout ago, and leaves a younger one as it was |
| `Cadence.ReachableSteady` | src/peer.c:532-561 | with a short enough timeout each peer has at most one handshake pending in every reachable state, and it was sent at the last attempt |
| `Cadence.TwoPending` | src/peer.c:532-561 | with a longer timeout two ticks put two handshakes for one peer into the table |
| `Cadence.OnePendingExactly` | src/peer.c:532-561 | at most one pending handshake for each peer in all reachable states if and only if the timeout is at most the reconnect interval or at most 10 seconds |
| `Upkeep.TickOnSession` | src/peer.c:563-582 | a working tick ends a session if and only if it has been silent longer than the expiry, takes one number for a keepalive if and only if the session stays and is due, and changes nothing else of it but the rekeying mark |
| `Upkeep.TickOnPeer` | src/peer.c:534-546 | a working tick tries a peer if and only if it has an endpoint, lacks a session or has one past four fifths of its time and not rekeying, and was not tried within the reconnect interval, judged before the tick, and no earlier peer with its key has started to rekey their session in this tick; else its target is unchanged. It sends an initiation to exactly those of them whose message goes out while an entry is free |
| `Upkeep.OwnKeyTriedWhenDue` | src/peer.c:534-546 | a peer whose key no earlier peer has is tried if and only if it has an endpoint, the last attempt is the reconnect interval ago, and there is no session with its key or one not rekeying whose age in seconds is at least four fifths of the rekeying time, rounded down; the target then has the new time and the resolved address, if there is one |
| `Upkeep.SharedKeyTriedOnce` | src/peer.c:534-546 | of two peers with one key and a session, both due, the second is not tried |
| `Guarantees.RunsAreLegal` | src/peer.c:498-797 | every run writes a legal log, so every theorem about legal logs holds of every run |
| `Guarantees.SessionTable` | src/peer.c:342-408 | in every reachable state active sessions have distinct configured keys with the routes of that configuration, and a slot can be found for every configured key |
| `Guarantees.RekeyingNeverStuck` | src/peer.c:534-561 | in every reachable state after a tick a session marked as rekeying has a pending handshake for its key that is younger than the timeout |
| `Guarantees.AttemptsSpaced` | src/peer.c:466-496 | attempts for one peer, also failed ones, are at least the reconnect interval apart over the whole run |
| `Guarantees.SentOnLongestMatch` | src/peer.c:602-619 | what is forwarded goes to a live slot with the longest match for its destination; a relayed packet never goes back to the slot it came from and is unchanged |
| `Guarantees.ReplayStateIsFold` | src/peer.c:736-766 | in every reachable state the window of an active slot is the fold of the replay check over exactly the numbers decrypted under its current key since its last installation |
| `Guarantees.AcceptedInRun` | src/peer.c:736-766 | in every reachable state an active slot accepts a number under its current key if and only if it was not accepted there since the latest installation and is above the highest number checked since then or less than 2048 below it |
| `Guarantees.TimesAreLatest` | src/peer.c:394-396 | in every reachable state the times of an active slot are those of its latest installation, of the last datagram from its peer since then, 0 if there was none, and of the last datagram that went out to it |
| `Guarantees.TieBreakNeverMatters` | src/peer.c:663-684 | in every state and for every datagram the new state does not depend on the comparison of the keys |
| `LegalLogs.ReplyEphSame` | src/peer.c:127-137 | between two positions of any log the ephemeral of the next reply stays the same if and only if no refresh succeeds between them |
| `LegalLogs.SameEphExactly` | src/peer.c:696-720 | two answers in a run have the same own ephemeral if and only if every refresh failed from the one right after the first answer up to the second answer |
| `LegalLogs.KeysEqualExactly` | src/peer.c:696-720 | two keys installed in a run are equal if and only if both were answers to the same client key and client ephemeral with no successful refresh from the first up to the second, or they are the two ends of a handshake with oneself |
| `LegalLogs.KeysInstalledOnce` | src/peer.c:127-137 | if no refresh fails and the own key is not configured as a peer, no session key is installed twice in a run |
| `LegalLogs.PairsPassOnce` | src/peer.c:736-766 | in a run that installs no key twice, no pair of key and number passes the current-key path twice, in any slots |
| `LegalLogs.NumberIsCount` | src/peer.c:447 | the number of a packet is the count of packets sent before it under its key, in whatever slot, modulo 2^64 |
| `LegalLogs.SentOnce` | src/peer.c:443-460 | two packets under one key have the same number if and only if a multiple of 2^64 packets lies between them, hence never while at most 2^64 are sent under it |
| `LegalLogs.DeliveredAtMostOnce` | src/peer.c:726-796 | two deliveries under one current key never have the same number |
| `LegalLogs.KeyLifetime` | src/peer.c:736-744 | a packet decrypts only under the latest key of its slot or the one before; the latter only within the grace time, only until a packet decrypts under the latest, and never across an expiry |
| `LegalLogs.CooldownRespected` | src/peer.c:686-720 | an inbound handshake never replaces the key of an active slot within the cooldown of that slot's last handshake, whether found by key or by address |
| `LegalLogs.UpkeepInTime` | src/peer.c:563-582 | a session expires only if its peer was not heard for longer than the expiry, counted from the handshake if not heard at all; a keepalive is empty and goes only where nothing went out for the keepalive interval |
| `LegalLogs.LiveSlotsDistinct` | src/peer.c:342-408 | live slots have different public keys at every point of a legal log |
| `LegalLogs.SpokeNeverRelays` | src/peer.c:780-794 | a node whose peers all have one key delivers everything to its TUN device |
| `LegalLogs.DeliveredSourceConfigured` | src/peer.c:767-796 | an IPv4 payload that is delivered or relayed has a source address allowed by a configuration with the slot's key |
| `Emissions.TickAdds` | src/peer.c:532-583 | a tick only appends to the log, and only events of its own kinds |
| `Emissions.DatagramAdds` | src/peer.c:624-796 | a datagram only appends to the log; it answers and installs only its source address, and an installed key is the one that the datagram names |
| `Network.NetStepKeepsInv` | src/peer.c:443-796 | a step of any node keeps all nodes healthy, every datagram traceable to a send and every check to a datagram |
| `Network.ReachableNetInv` | src/peer.c:443-796 | that holds in every state of the network, over every schedule |
| `Network.SentIsOnTheNetwork` | src/peer.c:443-723 | every initiation, reply and packet that a node sends is on the network from then on, for its receiver and with the right number of links, and nothing is taken away |
| `Network.DeliveredWasSent` | src/peer.c:726-796 | every delivered payload, under the current or the previous key, was sent by the node at its source with that key, number and payload |
| `Network.DeliveriesInject` | src/peer.c:443-796 | in every reachable state of the network the current-key deliveries of a node map injectively to sends of the same payload, and each of these sends is the only one of its sender with that key and number |
| `HubSpoke.NoSessionWithSelf` | src/peer.c:641-720 | a relay whose own key is not configured never installs a session with its own address |
| `HubSpoke.AtMostTwoLinks` | src/peer.c:602-796 | in every reachable state of a network of a relay and spokes, a packet has crossed two links only if the relay sent it on to somebody else, and never more |
| `Transit.MistakenExactly` | src/peer.c:631 | a sealed packet looks like a handshake message if and only if it has that size and its IV starts with the magic |
| `Transit.MistakenHappens` | src/peer.c:631 | there is such an IPv4 packet, of 44 bytes without a PSK and of 76 bytes with one |
| `Transit.HandshakeDeliversNothing` | src/peer.c:631-723 | a datagram that looks like a handshake message leaves the deliveries as they were, in every state |
| `Transit.PacketExactly` | src/peer.c:726-796 | in every state, all that a sealed packet under any key adds to the log if it is not mistaken: the time at the first session of its source address; the decryption and the check; and if key and number are admitted and the payload is proper, the delivery, to the other slot that leads for its destination followed by its send under that slot's address, key and number, or else to the TUN device and no send |
| `Transit.NoFrameExactly` | src/peer.c:726-755 | a datagram that opens to a frame under no key adds the time, at most a decryption, and nothing else |
| `Transit.SealedPacketExactly` | src/peer.c:622-796 | in every state a sealed packet under any key adds exactly one delivery, of its payload and to the place its destination leads to, if it is not mistaken and the first session at its source address admits key and number (current key with a number new to the window, or previous key within the grace time), the payload is not empty and an IPv4 source matches one of the session's routes, if any; in every other case it adds none |
| `Transit.TunExactly` | src/peer.c:602-619 | a packet from the TUN device is sent once, to the slot that leads for its destination under its address, key and number, and not at all if it is not IPv4 or no slot leads |
| `Transit.RelayGoesThrough` | src/peer.c:602-796 | what one node sends, a relay admits and leads on to another of its sessions leaves the relay for that session's address and is delivered there unchanged under exactly the conditions of any packet |
| `Transit.PacketGoesThrough` | src/peer.c:602-796 | what one node routes and sends is delivered unchanged at any other node under exactly those conditions |
| `Transit.PreviousKeyAdmitsAgain` | src/peer.c:739-762 | a packet that is delivered under the previous key is delivered again, the same way, when it arrives again, if and only if the key's grace time is not over |
| `Connect.TwoNodesConnect` | src/peer.c:466-720 | an initiation that arrives and an answer that arrives leave both nodes with a session under one key, each with the other's public key and address |
| `Connect.Answers` | src/peer.c:686-720 | an initiation from a configured client with the cooldowns over and room is answered, the ephemeral replaced if possible, and the slot holds a new session: key, address and routes, zeroed counters and window, its times, no mark, and the old key as previous one exactly if the slot was active |
| `Connect.InboundExactly` | src/peer.c:686-723 | for every inbound handshake message what is added to the log: nothing within the cooldown of the address or if it cannot be answered, else the reply, the refresh if the key was derived, and the session if the client is configured, its cooldown is over and there is room |
| `Connect.Completes` | src/peer.c:631-654 | a good answer frees the entry and installs such a new session for the peer |
| `Connect.BadAnswerEnds` | src/peer.c:638-654 | any other answer frees the entry and clears the mark of the session with the peer's key, and changes nothing else |
| `Connect.NewSessionLasts` | src/peer.c:563-582 | a new session stays through a tick if and only if its handshake is at most the expiry ago, and sends its first keepalive exactly from the keepalive interval on |
| `Connect.FirstPacketExactly` | src/peer.c:726-796 | at a responder that keeps the invariants and has installed no key twice, the first packet under a new key adds one delivery if and only if the new session is the first at that address, the source is allowed and the packet is not mistaken; otherwise it adds none |
| `Connect.FirstPacketAfterConnecting` | src/peer.c:466-796 | the same from the initiation to the delivery: the packet that the initiator routes to its new session comes out unchanged exactly under that condition |
| `Counterexamples.StaleEphemeralRepeatsKey` | src/peer.c:127-137 | a run in which no ephemeral key can be replaced, one initiation is received twice and a session key is installed twice |
| `Counterexamples.OwnPeerRepeatsKey` | src/peer.c:631-720 | a run of a node that is its own peer in which every refresh succeeds, its greeting comes back from another address and a session key is installed twice |
| `Counterexamples.PreviousKeyDeliversTwice` | src/peer.c:739-762 | a run in which a client reconnects and one packet under the replaced key is delivered twice, for every number and every payload that is deliverable at all |
| `Counterexamples.TwoSessionsAtOneAddress` | src/peer.c:325-352 | a run in which three handshakes of two peers leave two active sessions at one address, and then no packet under the later one's key is delivered |
| `PeerNode.EventLoop.FindPeerConfig` | src/peer.c:318-323 | the loop returns the index that `FindPeer` specifies |
| `PeerNode.EventLoop.FindSessionByAddr` | src/peer.c:325-332 | the loop returns the slot that `FindByAddr` specifies |
| `PeerNode.EventLoop.FindSessionByPub` | src/peer.c:334-339 | the loop returns the slot that `FindByPub` specifies |
| `PeerNode.EventLoop.AllocSession` | src/peer.c:342-352 | it returns the slot that `Alloc` specifies, and takes an unused slot into use only if that is the answer |
| `PeerNode.EventLoop.LookupRoute` | src/peer.c:354-368 | the two nested loops return the slot that `RouteLookup` specifies |
| `PeerNode.EventLoop.LookupRouteIn` | src/peer.c:359-365 | the inner loop ends with the session's longest match if that is longer than what was found before, and else with what was found before |
| `PeerNode.EventLoop.CheckAllowedSrc` | src/peer.c:370-375 | the loop answers whether the route list is empty or some route matches |
| `PeerNode.EventLoop.InitSlot` | src/peer.c:377-408 | the slot becomes the installed session: old key kept as previous exactly if the slot was active, counters and window reset |
| `PeerNode.EventLoop.ForwardToPeer` | src/peer.c:443-460 | the new state is `Forward` of the old one, the number advances also when sending fails, and the wire buffer holds the bytes that the log says were sent; all writes are in bounds, also for a payload that sits in the frame buffer |
| `PeerNode.EventLoop.InitiateHandshake` | src/peer.c:466-496 | the new state is `Initiate` of the old one, and the result says whether a message went out |
| `PeerNode.EventLoop.TickPeersLoop` | src/peer.c:534-546 | the loop over the peers computes `TickPeers` |
| `PeerNode.EventLoop.TickPendingLoop` | src/peer.c:548-561 | the loop over the pending handshakes computes `TickPending` |
| `PeerNode.EventLoop.TickExpiryLoop` | src/peer.c:563-574 | the loop that expires sessions computes `TickExpiry` |
| `PeerNode.EventLoop.TickKeepaliveLoop` | src/peer.c:576-582 | the loop that sends keepalives computes `TickKeepalive` |
| `PeerNode.EventLoop.DoTick` | src/peer.c:532-583 | the periodic part computes `TickStep` |
| `PeerNode.EventLoop.OnTunRead` | src/peer.c:602-619 | the bytes read from the TUN device are handled as `TunStep` says, within the buffers |
| `PeerNode.EventLoop.OnResponse` | src/peer.c:638-654 | an answer to a pending handshake is handled as `ResponseStep` says |
| `PeerNode.EventLoop.TieBreakLoop` | src/peer.c:663-684 | the loop computes `BreakTie` |
| `PeerNode.EventLoop.OnInbound` | src/peer.c:686-723 | an inbound handshake is handled as `InboundStep` says |
| `PeerNode.EventLoop.RefreshPrecomp` | src/peer.c:127-137 | a new ephemeral key takes the place of the old one if it could be generated, and else the old one stays |
| `PeerNode.EventLoop.Deliver` | src/peer.c:767-796 | the payload in the frame buffer is dropped, relayed from there or written to the TUN device as `DeliverStep` says |
| `PeerNode.EventLoop.Relay` | src/peer.c:780-794 | the delivery is logged and a payload for another peer is framed and sealed from where it is in the frame buffer |
| `PeerNode.EventLoop.OnData` | src/peer.c:726-796 | the bytes in the wire buffer are decrypted into the frame buffer under one key and then the other, and handled as `DataStep` says |
| `PeerNode.EventLoop.OnDatagram` | src/peer.c:622-797 | the bytes in the wire buffer are handled as `DatagramStep` says, and the tie-break never tells to skip them |
| `PeerNode.EventLoop.constructor` | src/peer.c:498-530 | the node starts with empty tables and the first responder ephemeral, which is an initial state of the machine |
| `PeerNode.Clip` | src/peer.c:604-624 | a packet is cut to the first 2048 bytes and a datagram to the first 2092, and nothing else of an input is lost |
| `PeerNode.EventLoop.Loop` | src/peer.c:529-798 | the loop over any list of happenings computes `Steps.Run` on what its buffers hold of them |
| `Config.LoadAppend` | src/peer.c:177-311 | reading a stream in two parts is reading it whole |
| `Config.Load` | src/peer.c:177-311 | for every event stream there are at most 64 peers with at most 16 canonical routes each, and the machine is inside a peer only if there is one |
| `Config.Machine.OnRoute` | src/peer.c:292-304 | a prefix is stored into the table in place as `AddRoute` says |
| `Config.Machine.Handle` | src/peer.c:184-311 | one round of the loop computes `LoadStep` in place, within the table |
| `Config.Machine.LoadAll` | src/peer.c:177-311 | the loop over any stream computes `Load` |
| `ConfigDoc.PeerLoad` | src/peer.c:226-306 | a peer's map, with its keys in any order and repeated, is accepted if and only if there is room, its keys and endpoints are readable and it has at most 16 prefixes, all readable; then exactly its entry is appended, with the last key and endpoint and all prefixes |
| `ConfigDoc.DocLoad` | src/peer.c:159-316 | a document, with its settings and peer lists in any order and repeated, is accepted if and only if it has at most 64 peers, all readable; the table then holds exactly them, in order |
| `ConfigDoc.SettingsExactly` | src/peer.c:200-220 | for every accepted document: a text or number setting is there if and only if some section gives it, with the text of the last one, cut to 15, 63 or 255 characters for the texts; `verbose` is there if and only if some section sets it to "true"; no other key is |
| `ConfigDoc.ErrorRefused` | src/peer.c:184-190 | a stream with a parser error before its end is refused |
| `ConfigDoc.EndIsTheEnd` | src/peer.c:306-309 | nothing behind the end of the stream is read |
| `Startup.ConfiguredPeers` | src/peer.c:226-306 | the peer table of an accepted document, peer by peer: the last key given or zeros, a prefix for every allowed address in order, and an endpoint if and only if one was given |
| `Startup.LoadedPeersCanonical` | src/peer.c:139-316 | every table that the loader can build is fit for the routing theorems |
| `Startup.RoutedToSamePeer` | src/peer.c:354-368 | on one configuration with separate peers, two session tables with the same peers connected route every destination to the same peer |
| `Startup.RoutingFollowsConfiguration` | src/peer.c:354-408 | that holds between any two states that any two runs reach from a loaded configuration |
| `RcuList.InitList` | rcunit/src/rcunit_list.c:20-25 | the link becomes a ring of itself; a null pointer is left alone |
| `RcuList.IsListEmpty` | rcunit/src/rcunit_list.c:27-33 | true exactly for a ring of the header alone |
| `RcuList.InsertList` | rcunit/src/rcunit_list.c:35-42 | the entry joins the end of the ring, and with a null pointer nothing changes |
| `RcuList.RemoveList` | rcunit/src/rcunit_list.c:44-51 | the ring without the entry is a ring in the same order; the entry keeps its own pointers |
| `RcuList.GetListSize` | rcunit/src/rcunit_list.c:53-65 | the number of entries, 0 for a null pointer |
| `RcuList.RemoveAll` | rcunit/src/rcunit_list.h:29-49 | removing and freeing while walking with a saved cursor visits every entry once and in order, frees it once, looks only at links that are not freed, ends, and leaves the ring empty |
| `PtrSlots.CountIsSize` | rcunit/src/rcunit_mtrace.c:327-341 | in a tidy cache the used slots are as many as the live pointers and their bytes sum up to theirs |
| `PtrSlots.CacheRefines` | rcunit/src/rcunit_mtrace.c:95-122 | recording a pointer refines the update of the map, with every refusal; a table is added exactly when all are full |
| `PtrSlots.UncacheRefines` | rcunit/src/rcunit_mtrace.c:236-259 | forgetting a pointer refines removal from the map, and an unknown pointer changes nothing |
| `PtrSlots.RunRefines` | rcunit/src/rcunit_mtrace.c:264-286 | every sequence of allocations and frees refines the same sequence on the map |
| `PtrSlots.CacheIsMap` | rcunit/src/rcunit_mtrace.c:264-341 | after every sequence the leak count and bytes are the map's size and sum, and there are max(1, ceil(peak / 32)) tables, or ceil(peak / 32) if the first one could not be allocated |
| `PtrSlots.CacheInIsCache` | rcunit/src/rcunit_mtrace.c:95-122 | recording table by table is recording in the sequence of all slots |
| `PtrSlots.UncacheInIsUncache` | rcunit/src/rcunit_mtrace.c:236-259 | forgetting table by table is forgetting in the sequence of all slots |
| `PtrCache.Cache.constructor` | rcunit/src/rcunit_mtrace.c:346-360 | the cache starts with one blank table, or with none if it could not be allocated |
| `PtrCache.Cache.FindFreeSlot` | rcunit/src/rcunit_mtrace.c:56-72 | the nested loops find the first free slot in ring order, or none exactly if all are used |
| `PtrCache.Cache.SearchPtr` | rcunit/src/rcunit_mtrace.c:77-90 | the nested loops find the first slot with the pointer, or none exactly if there is none |
| `PtrCache.Cache.CreateTable` | rcunit/src/rcunit_mtrace.c:32-51 | a blank table joins the end of the ring and nothing else changes |
| `PtrCache.Cache.CachePtr` | rcunit/src/rcunit_mtrace.c:95-122 | result and tables are those of recording table by table, in place; the links of the ring are those it had or new ones |
| `PtrCache.Cache.UncachePtr` | rcunit/src/rcunit_mtrace.c:236-259 | result and tables are those of forgetting table by table, in place, and the free counter wraps at the table size |
| `PtrCache.Cache.TraceAlloc` | rcunit/src/rcunit_mtrace.c:264-274 | the slots change as the allocation says, the counters count every call, and the links of the ring are those it had or new ones |
| `PtrCache.Cache.TraceFree` | rcunit/src/rcunit_mtrace.c:279-286 | the slots change as the free says, and the counter counts every call |
| `PtrCache.Cache.RunTrace` | rcunit/src/rcunit_mtrace.c:264-286 | any sequence of allocations and frees on the ring of tables computes the same sequence on the slots |
| `PtrCache.Cache.Results` | rcunit/src/rcunit_mtrace.c:327-341 | the loops count the used slots and their bytes, which in a tidy cache are the live pointers |
| `PtrCache.Cache.Destroy` | rcunit/src/rcunit_mtrace.c:365-377 | every table is unlinked and freed once, in order, and the ring is left empty |
| `PtrCache.TraceProgram` | rcunit/src/rcunit_mtrace.c:264-360 | from initialisation through any allocations and frees, the leaks reported are the pointers still live with their bytes, and there are as many tables as the peak needs |

## Left out

Nothing was executed; everything stated here is proved of the model.

What the model takes as input instead of computing it:

- The clock, DNS answers, random IVs and the success of foreign calls (encrypting, sending, key generation) are
  arguments of a step, and each step reads the clock once.
- Freshness of ephemeral keys is built in: every generated key is a new one. Failed generation is modelled.
- The comparison of two public keys in the tie-break is an argument, because symbolic keys have no order.
- What the C library makes of text (`inet_pton`, `atoi`, `strncpy`, `sscanf`, `getaddrinfo`) reaches the configuration
  machine through a reader with the results; only the buffer cuts are modelled.

What is simplified:

- X25519 never fails, so the rejection of low-order points is not modelled; secrecy and attackers are not considered.
- PeerNode.EventLoop.CheckAndDeliver: holds a session's window as a value; the in-place check is proved equal to it in
  `Replay.CheckReplayInPlace`.
- PeerNode.EventLoop.StartRekeying: sets the rekeying mark after a successful start; the code sets it before and clears
  it on failure, and nothing reads it in between.
- PeerNode.EventLoop.OnResponse: clears the rekeying mark also on a good answer; `session_init` clears it there in the
  same slot.
- Steps.NeedsHandshake: computes `rekey_after * 4 / 5` without overflow of a C `int`.
- PtrCache.Cache.TraceAlloc: its counters are unbounded numbers, as are the sizes that `PtrCache.Cache.Results` adds up.
- Handshake messages are values taken from the wire buffer; their own buffers are not modelled, only those of data
  packets.
- What the cipher leaves in a buffer when it fails is some content of the right length, about which nothing is known.
- Documents outside the layout of the configuration, such as nested maps, are covered by `Config.Load` only, which says
  what every event stream keeps.

What the repository does beyond the model:

- Sockets, epoll, the TUN device, signals, logging and key files.
- The hex conversions, which would add only easy round trips.
- Table compaction in rcunit, which is switched off in the source.
- The rcunit test runner, its exceptions, reports, queues, hash table and threads.
- The scripts, packaging and container files.
