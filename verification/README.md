# MolidoVPN core: a verified model

This project models the parts of MolidoVPN whose correctness depends on state kept over many steps, and proves what
they are for: codecs that undo each other, parsers that do not care how their input was cut, tables that agree with the
sockets they describe, caches that stay within their bounds, loops that keep their promises over whole runs.

How it is built. Code that changes things step by step is a class or a loop, with the source's fields and branches, and
is proved against a function of the old state. What that function computes is then said in other terms, for any input at
all or by the events of a run, and what the source promises is proved about it, over all inputs, or over all runs of a
step function (`Run`) that may interleave every event in any order. Random numbers, clocks, the network, scans, config
checks, text decoding and foreign sockets are inputs of each step and may be anything unless a contract says otherwise.
`dafny verify dfyconfig.toml` checks everything.

| module | part of the system |
|---|---|
| Bytes, Lists, Varint | bytes, lists without repetition, the variable-length integers of section 16 of RFC 9000 |
| Masque, CapsuleStream, CapsuleKinds | CONNECT-IP datagrams and capsules, and the incremental capsule parser |
| NetStack, NetStackProofs, NetStackTurns, NetStackRuns | the userspace TCP/UDP stack: connection tables, socket set, one-shot replies, byte streams |
| EdgeRelay, EdgeRelayProofs, EdgeReplies | the VLESS relay of the edge Worker: header, TCP forwarding, DNS framing, replies |
| ExitPacket, DnsQuery, DnsReader, DnsExact, Probe | the exit-address probe: checksums, the UDP packet, the DNS question and answer, and the probe as a whole |
| Utf8, Utf8Exact, Dechunk, DechunkSizes, DechunkProofs, DechunkPanics, DechunkTexts | chunked transfer decoding of API responses, on the text they are read as |
| ChunkedResponse, ResponseExact | the same on the bytes a server sends |
| Reconnect, ReconnectProofs, ReconnectTells | the WireGuard and two-hop reconnect loops |
| GatewayCache, Ladder, LadderExact | the gateway cache, the order of scan candidates |
| GeoWire, GeoTrim, GeoExact, GeoMeaning, GeoTrimProofs, GeoTrimExact | the geodata trimmer, judged by the independent geosite decoder |
| CatalogCache, CatalogCacheProofs, CatalogAnswers, CatalogStale | the catalog cache of the subscription Worker |
| SubLinks, LinkExact, Reports | the five subscription links, ranking by reports, the fingerprint memo |
| Scanner, TestPlan, ScanExact, Publish | the aggregator's choice of what to test, of what a config check accepts, and of what is published |

Where the code and what is said about it part ways, the model follows the code and states exactly when they agree:

- The relay reads the domain length of a header without checking that it is there. A frame that ends just before that
  byte, behind an addon of two or more bytes, makes it dial an empty name and forward the whole stream, header included.
  That cut and no other does so (`EdgeRelayProofs.TcpExact`, `UdpExact`), and every such request has it (`NameCutOff`).
- A valid header can be longer than 512 bytes, up to 533; a frame that leaves more than 512 with the header incomplete
  makes the relay ask to close although the request is good (`EdgeRelayProofs.LongHeaderCloses`, `LongHeaderCut`).
- `strip_datagram_context` takes one kind of bare packet for a prefixed one: a bare IPv4 packet with a zero header length
  whose rest looks like an IP packet (`Masque.StripKeepsPacket`, `BareIsStripped`).
- The DNS reader stops at an empty first TXT record even when a later one has text (`DnsReader.EmptyFirstTxtHides`,
  `HiddenText`).
- `build_query` clips labels over 63 bytes and `question_matches` does not, so such a name never recognises its own
  answer (`DnsQuery.EchoRecognised`). `Probe::whoami` cannot send one: the labels of its only name are short
  (`Probe.Whoami`, `Probe.Reply`).
- A category with two names is trimmed by its first and decoded by its last (`GeoTrimProofs.TwoNamesLoseMeaning`). In a
  file whose categories decode to different and non-empty names, the meaning is lost exactly when one of the two is wanted
  and the other is not (`GeoTrimExact.TrimExact`).
- A preferred country listed twice has its nodes reserved, and so tested, twice (`TestPlan.RepeatedCountry`). For distinct
  nodes and a limit that cuts no reserved node off, some node is tested twice exactly when a country listed twice is the
  country of a node that is dealt (`TestPlan.TestedTwice`).
- A page from a failed build is marked stale exactly for the requests that found that page in memory when they arrived,
  within its window; a request that comes later and joins such a build gets the same page unmarked
  (`CatalogStale.FailedBuildAnswers`, `UnmarkedStale`).
- A response of the source whose body breaks off while it is read makes a build fail with an error although a stale page
  is at hand, because that read stands outside the `try` (`CatalogStale.BrokenBody`); no other failure does
  (`CatalogStale.FailedBuildAnswers`).
- Capsules are dropped from well-formed streams: over QUIC all body reads at hand are pushed before one drain, and a burst
  of more than 256 KiB empties the buffer, however small its capsules and reads (`CapsuleStream.BurstIsLost`). While every
  burst leaves room under the cap for one capsule, nothing is lost (`CapsuleStream.AnyCutDeliversAll`).
- `dechunk` panics on some texts: exactly those in which, behind any number of chunks that it steps over, a size runs past
  the end of `usize`, ends inside a character, or ends two bytes short of a place inside one
  (`DechunkPanics.PanicsExactly`, `DechunkProofs.PanicsAt`).
- A server that cuts a text into chunks is read as it sent it if and only if it never cuts inside a character
  (`ResponseExact.ResponseExact`). Where its first cut inside a character leaves one or two bytes in front, `dechunk` panics
  (`ChunkedResponse.SplitCharacter`).
- A response whose chunks are texts of their own, broken off inside a character, does not yield its complete chunks alone
  when the character begins two or three bytes before the end of its chunk: two make `dechunk` panic, three let the
  replacement character complete the chunk. Broken off anywhere else it does (`ChunkedResponse.CutResponse`, `CutPanics`).
- The inner edge that served last is said to be tried first. It is only put in front when it is not among the candidates
  already; otherwise it stays where it is (`ReconnectTells.MimTells`).
- A v4 range shorter than /20, or a /31, contributes nothing to a full sweep (`Ladder.EnumerateHosts`).
- A connection accepted from a SYN loses its channel when it is established, because the pattern that looks for an
  opener takes the receiver first; its table entry is kept in the invariant, and no delivery is claimed for it.

## Model
| member | source | states |
|---|---|---|
| Varint.RoundTrip | android-app/core/aether/src/masque.rs:270-280 | every value below 2^62 is read back from its encoding, whatever follows, and exactly its `varint_len` bytes are consumed |
| Varint.DecodeCanonical | android-app/core/aether/src/masque.rs:270-280 | whatever is read is below 2^62, and the bytes are the encoding of the value exactly when they are of the shortest length |
| Varint.DecodeExact | android-app/core/aether/src/masque.rs:177-186 | any bytes at all: section 16 of RFC 9000, the length told by the two high bits of the first byte and the value big-endian in the others, and nothing while bytes are missing |
| Varint.DecodeLocal | android-app/core/aether/src/masque.rs:177-186 | bytes after the announced length never change what is read |
| Masque.DatagramRoundTrip | android-app/core/aether/src/masque.rs:52-89 | a datagram decodes to its packet for every stream with the same quarter id, and to nothing for any other |
| Masque.DatagramExact | android-app/core/aether/src/masque.rs:66-89 | any bytes at all: they are a packet for a stream if and only if they begin with its quarter id and context 0, each in a varint of any length; cut inside these they are too short, and otherwise not ours |
| Masque.StripExact | android-app/core/aether/src/masque.rs:119-148 | any payload at all: the IP packet behind context 0 in a varint of any length, or else the payload if it is one, or nothing |
| Masque.StripKeepsPacket | android-app/core/aether/src/masque.rs:119-148 | a packet prefixed by context 0 always survives; a bare one survives if and only if it does not read as prefixed, which IPv6 and IPv4 with a non-zero header length never do |
| Masque.BareIsStripped | android-app/core/aether/src/masque.rs:119-148 | the bytes 0x40 0x00 in front of any packet are such a bare packet, and are lost |
| Masque.ParseAddressAssign | android-app/core/aether/src/masque.rs:218-242 | the loop returns the address list the body stands for, or the error |
| Masque.AddressesRoundTrip | android-app/core/aether/src/masque.rs:218-242 | every list of well-formed addresses is read back from its serialisation |
| Masque.AddressesExact | android-app/core/aether/src/masque.rs:218-242 | a body is accepted with a list if and only if it spells that list: a request id, a version of 4 or 6, as many bytes and at most as many prefix bits as it has, one after the other |
| Masque.ParseRouteAdvertisement | android-app/core/aether/src/masque.rs:244-268 | the loop returns the route list the body stands for, or the error |
| Masque.RoutesExact | android-app/core/aether/src/masque.rs:244-268 | a body is accepted with a list if and only if it is the serialisation of that list and every route is well formed |
| CapsuleStream.CapsuleParser.constructor | android-app/core/aether/src/masque.rs:159-162 | a parser starts empty and within its cap |
| CapsuleStream.CapsuleParser.Push | android-app/core/aether/src/masque.rs:154-174 | the buffer grows by the data, or is emptied when it would pass 256 KiB, which it never does on any input |
| CapsuleStream.CapsuleParser.PushAll | android-app/core/aether/src/quic.rs:775-780 | the reads at hand are pushed one after the other before anything is drained |
| CapsuleStream.CapsuleParser.Next | android-app/core/aether/src/masque.rs:176-209 | one whole capsule leaves the buffer and is returned, its bytes gone even when its body is malformed; an incomplete one changes nothing; what is returned is what CapsuleKinds.MeansIt says |
| CapsuleStream.CapsuleParser.Drain | android-app/core/aether/src/quic.rs:795-822 | delivers the whole capsules at the front up to the first malformed one and keeps exactly the rest |
| CapsuleStream.CapsuleParser.Receive | android-app/core/aether/src/quic.rs:771-783 | pushing batch by batch, of one read or of many, and draining after each is the receive run the theorems below speak of |
| CapsuleStream.FrameLocal | android-app/core/aether/src/masque.rs:176-193 | a whole capsule is read the same whatever is buffered behind it |
| CapsuleKinds.FrameExact | android-app/core/aether/src/masque.rs:176-193 | any bytes at all: a whole capsule is read if and only if they begin with a kind, a length and as many bytes, kind and length each in a varint of any length |
| CapsuleKinds.MeansIt | android-app/core/aether/src/masque.rs:194-208 | of each kind exactly what a capsule is: 0 the packet that is its value, 1 the addresses and 3 the routes it spells, 2 a request, any other itself unread, and malformed exactly a 1 or 3 that spells no list |
| CapsuleKinds.Delivered | android-app/core/aether/src/masque.rs:176-209 | one encoded capsule of any kind in front of anything is delivered first, as what it means |
| CapsuleKinds.DatagramDelivered | android-app/core/aether/src/masque.rs:91-209 | a packet in a datagram capsule comes out whole |
| CapsuleKinds.AddressesDelivered | android-app/core/aether/src/masque.rs:201-242 | assigned addresses come out as they were serialised |
| CapsuleKinds.RoutesDelivered | android-app/core/aether/src/masque.rs:203-268 | routes come out as they were serialised |
| CapsuleStream.CapsuleRoundTrip | android-app/core/aether/src/masque.rs:91-101 | every encoded capsule is read back whole with any trailing bytes, consuming exactly its encoding |
| CapsuleStream.MalformedCostsItself | android-app/core/aether/src/masque.rs:191-208 | a malformed body costs its own capsule and not a byte of what follows |
| CapsuleStream.CutInvariance | android-app/core/aether/src/masque.rs:164-209 | for any byte stream, any cut into reads and any batches of reads that never meet the cap, what is delivered and what remains decode together to what the whole stream decodes to |
| CapsuleStream.DrainPrefix | android-app/core/aether/src/masque.rs:176-209 | draining a prefix of a well-formed stream delivers exactly its complete capsules and keeps less than the next one |
| CapsuleStream.AnyCutDeliversAll | android-app/core/aether/src/masque.rs:154-209 | when every capsule and the widest batch of reads fit the cap together, no cut ever triggers the discard and exactly the capsules sent are delivered, nothing left over |
| CapsuleKinds.PacketsDelivered | android-app/core/aether/src/masque.rs:91-209 | a stream of packets in datagram capsules, however cut into reads and batches that leave room for one capsule, delivers exactly its packets, in order |
| CapsuleStream.BurstIsLost | android-app/core/aether/src/quic.rs:775-780 | of every capsule of up to 128 KiB there is a number of copies that are all delivered when drained read by read, and of which none is when they come in one batch |
| NetStack.Stack.constructor | android-app/core/aether/src/netstack.rs:435-445 | a new stack is the boot state |
| NetStack.Stack.AllocPort | android-app/core/aether/src/netstack.rs:452-456 | hands out the current port and moves to the next of the range |
| NetStackProofs.PortsGoRound | android-app/core/aether/src/netstack.rs:452-456 | after any run from boot the next port is 49152 plus the number of ports handed out, modulo 15849 |
| NetStackProofs.PortsDiffer | android-app/core/aether/src/netstack.rs:452-456 | in any run, two ports fewer than 15849 allocations apart differ |
| NetStack.Stack.HandleCmd | android-app/core/aether/src/netstack.rs:631-698 | an open command makes exactly the step's entry, socket and id, or answers the error and changes no table |
| NetStack.Stack.HandleData | android-app/core/aether/src/netstack.rs:710-734 | app data is appended in order, a close is noted, a UDP close removes entry and socket together |
| NetStack.Stack.AcceptConnection | android-app/core/aether/src/netstack.rs:548-577 | a SYN in accept mode adds a listening entry without an opener |
| NetStack.Stack.Greet | android-app/core/aether/src/netstack.rs:749-788 | on the first sight of Established the opener gets its one reply |
| NetStack.Stack.Pump | android-app/core/aether/src/netstack.rs:803-822 | the accepted prefix of `pending` moves to the socket; a half-close reaches it only when nothing is pending |
| NetStack.Stack.Receive | android-app/core/aether/src/netstack.rs:824-854 | a slot is reserved before anything leaves the socket; what is delivered and what stays queued are given exactly |
| NetStack.Stack.CloseTcpSocket | android-app/core/aether/src/netstack.rs:820-863 | a close moves the phase as the transport does and records why |
| NetStack.Stack.WindDown | android-app/core/aether/src/netstack.rs:856-867 | the app going away or the peer closing closes the socket; an established entry found closed goes, socket and all |
| NetStack.Stack.Remove | android-app/core/aether/src/netstack.rs:798-799 | entry and socket go together and nothing else changes |
| NetStack.Stack.ServiceEntry | android-app/core/aether/src/netstack.rs:740-868 | one entry's whole turn is the turn the theorems below speak of |
| NetStack.Stack.ServiceTcp | android-app/core/aether/src/netstack.rs:736-871 | every entry present when the loop starts gets exactly one turn, in some order |
| NetStack.Stack.ServiceUdpEntry | android-app/core/aether/src/netstack.rs:905-940 | one UDP entry's turn: datagrams move to the app only into a reserved slot |
| NetStackProofs.TurnConserves | android-app/core/aether/src/netstack.rs:803-854 | over a turn, accepted bytes followed by pending ones stay everything handed in, delivered bytes followed by queued ones everything received, and a half-close happens only once all was accepted |
| NetStackTurns.TurnRemoves | android-app/core/aether/src/netstack.rs:740-868 | an entry goes in its turn if and only if it was never seen established and its socket is closed or in time-wait, or it was and its socket ends the turn closed; its opener is told the connection when it is first seen established, a refusal in the first of these cases, and nothing else; no other entry or socket changes |
| NetStackTurns.TurnLeavesBehind | android-app/core/aether/src/netstack.rs:740-868 | an entry that stays: min(takes, pending) bytes are sent when the socket can send and none otherwise, the half-close goes out exactly when none is left, the socket ends in the phase that this, the app and the peer call for, and the reasons of every close are recorded |
| NetStackTurns.DeliveredChunks | android-app/core/aether/src/netstack.rs:824-854 | each chunk delivered is the next run the socket hands out, and the loop reports a full channel exactly when it stopped for want of a slot |
| NetStackTurns.TurnPressed | android-app/core/aether/src/netstack.rs:824-854 | a turn reports back-pressure exactly when the app's channel had no slot left before 128 chunks |
| NetStackTurns.PassPressed | android-app/core/aether/src/netstack.rs:736-871 | a pass reports back-pressure exactly when one of its turns did |
| NetStackProofs.DeliveredConserves | android-app/core/aether/src/netstack.rs:824-854 | for any channel and any sizes of runs, delivered chunks and queued bytes together are what was queued before |
| NetStackProofs.DeliveredUntil | android-app/core/aether/src/netstack.rs:828-854 | the loop stops only when its budget, the channel or the socket is exhausted, and reports which |
| NetStackProofs.UdpDeliveredConserves | android-app/core/aether/src/netstack.rs:914-935 | no datagram is lost, repeated or reordered between socket and app |
| NetStackTurns.UdpDeliveredUntil | android-app/core/aether/src/netstack.rs:914-935 | as many datagrams move as the budget, the slots, the socket and the queue allow |
| NetStackProofs.StepInv | android-app/core/aether/src/netstack.rs:631-940 | every event keeps: sockets are exactly the tables' handles and none is shared; both byte streams of every live entry are conserved; every request is waiting or answered, never twice; ids in use are below the next one |
| NetStackProofs.ServicePass | android-app/core/aether/src/netstack.rs:736-871 | a whole pass of the service loop is a run of service events, one for each entry still there at its turn |
| NetStackProofs.PassKeeps | android-app/core/aether/src/netstack.rs:736-871 | a pass keeps the invariant and what the next pass requires |
| NetStackProofs.ReachableStates | android-app/core/aether/src/netstack.rs:471-940 | all of this holds in every state of every run from boot, and an established opener holds its connection |
| NetStackProofs.OnlyItsTurnRemoves | android-app/core/aether/src/netstack.rs:790-867 | nothing but its own turn in the service loop removes a TCP entry |
| NetStackProofs.RemovedOnlyAnswered | android-app/core/aether/src/netstack.rs:749-801 | an entry with an opener is gone only with exactly one reply given: the connection if it was seen established, else a refusal |
| NetStackProofs.StepIds | android-app/core/aether/src/netstack.rs:558-560 | an event adds at most one id, the next one |
| NetStackProofs.IdsNeverReused | android-app/core/aether/src/netstack.rs:647-649 | an id once given out and released never names a connection again in any run |
| NetStackRuns.EveryAnswer | android-app/core/aether/src/netstack.rs:631-868 | every answer of a run was given by one event of it, and is what that event calls for |
| NetStackRuns.RefusedFor | android-app/core/aether/src/netstack.rs:631-801 | from boot, a refusal was given by an open that failed, or by a turn that found the waiting connection closed or in time-wait |
| NetStackRuns.OpenedFor | android-app/core/aether/src/netstack.rs:675-788 | from boot, an opened was given by a bind, or by the turn that first saw the connection established |
| NetStackRuns.ConnectionHolds | android-app/core/aether/src/netstack.rs:631-871 | in every run, from its opening on, what the socket took followed by what waits is what the app sent, what the app got followed by what is queued is what arrived, and half-close, channel and slots are what the app made of them |
| NetStackRuns.DatagramsHold | android-app/core/aether/src/netstack.rs:675-940 | a UDP socket is there until it is closed, and until then has sent what it accepted and passes on what arrived, each in order |
| EdgeRelay.ParseHeader | cloudflare-edge/edge-worker.js:63-94 | the cursor loop computes the header the theorems speak of, the unchecked domain length included |
| EdgeRelay.EdgeSession.constructor | cloudflare-edge/edge-worker.js:99-105 | a session starts waiting for a header with nothing sent |
| EdgeRelay.EdgeSession.OnData | cloudflare-edge/edge-worker.js:107-131 | one frame is the step the runs are made of |
| EdgeRelay.EdgeSession.OnUdp | cloudflare-edge/edge-worker.js:134-157 | the loop takes every complete frame from the buffer, asks it and answers it, and stops when the client is gone |
| EdgeRelay.EdgeSession.OnReply | cloudflare-edge/edge-worker.js:212-230 | a chunk from the destination goes to the client while it is there |
| EdgeRelay.EdgeSession.Send | cloudflare-edge/edge-worker.js:152-155 | the response header goes out with a reply once and is then cleared |
| EdgeRelayProofs.HeaderRoundTrip | cloudflare-edge/edge-worker.js:63-94 | every valid request header is read back with exactly the bytes after it |
| EdgeRelayProofs.HeaderPrefix | cloudflare-edge/edge-worker.js:63-94 | a proper prefix of a header never parses, except the one that ends just before the domain length behind an addon of two or more bytes |
| EdgeReplies.HeaderExact | cloudflare-edge/edge-worker.js:63-94 | any bytes at all: a header is read from them if and only if they have the user's id, one of the two commands and one of the three address types in their places, and an address and 24 bytes in all, or end in front of a name's length |
| EdgeRelayProofs.TcpExact | cloudflare-edge/edge-worker.js:107-131 | for every valid TCP request, every cut into frames and any interleaved replies, the requested host is dialled and exactly the bytes after the header are forwarded, if and only if no frame ends at that one place |
| EdgeRelayProofs.LongHeaderCloses | cloudflare-edge/edge-worker.js:108-114 | while the client stays, a valid TCP request whose destination accepts, or DNS request whose queries are answered, is asked to close if and only if the cut does not defeat the parser and some frame leaves more than 512 bytes with the header incomplete, so never for a header of at most 513 |
| EdgeRelayProofs.QueriesAppend | cloudflare-edge/edge-worker.js:134-141 | unframing a concatenation is unframing the first part and then its unfinished rest with the second |
| EdgeRelayProofs.UdpExact | cloudflare-edge/edge-worker.js:107-157 | for every valid DNS request and every cut, the queries asked and still buffered are those framed in the bytes after the header, with the same single exception, and with every query answered none complete stays behind |
| EdgeRelayProofs.ResponseHeaderOnce | cloudflare-edge/edge-worker.js:115-230 | over every run, replies go out one by one in order, with version and zero in front of the first and only the first |
| EdgeReplies.DnsReplies | cloudflare-edge/edge-worker.js:134-157 | over every run of a DNS request, unframing what the client is sent gives exactly the answers it was there to hear, in order and with nothing over; with every query answered, exactly one for each query asked |
| EdgeReplies.AnsweringStops | cloudflare-edge/edge-worker.js:134-157 | of one frame every complete query is asked until one is not answered, which asks for a close, or is answered to nobody |
| EdgeReplies.TcpReplies | cloudflare-edge/edge-worker.js:212-230 | over every run of a TCP request, the client is sent exactly the chunks of the destination that come after the dial while it is there, in order |
| EdgeReplies.StrangerIsIgnored | cloudflare-edge/edge-worker.js:107-114 | bytes of which no frame leaves a header are kept and nothing is done with them; the relay asks to close exactly when a frame leaves more than 512 |
| EdgeReplies.UnservedCloses | cloudflare-edge/edge-worker.js:115-131 | a good request for another UDP port than 53, or for a destination that refuses, has nothing dialled, asked, forwarded or sent, and the relay asks to close |
| EdgeRelayProofs.NameCutOff | cloudflare-edge/edge-worker.js:63-131 | every request by name with two or more addon bytes has a cut on which an empty name is dialled and the header forwarded, or searched for queries |
| EdgeRelayProofs.LongHeaderCut | cloudflare-edge/edge-worker.js:108-114 | every header over 513 bytes has a cut on which the relay asks to close |
| EdgeRelayProofs.LongestHeader | cloudflare-edge/edge-worker.js:63-94 | a valid header has at most 533 bytes, and has 533 exactly with addon and name of 255 each |
| ExitPacket.OnesComplementSum | android-app/core/aether/src/exitip.rs:136-146 | adds all 16-bit words, an odd byte as a high half, without overflowing 32 bits |
| ExitPacket.Fold | android-app/core/aether/src/exitip.rs:148-153 | the complement of the sum with its carries folded in |
| ExitPacket.WordSumIs | android-app/core/aether/src/exitip.rs:136-146 | the sum is 256 times the bytes at even places plus those at odd ones, and a zero byte after an odd number of bytes changes nothing, as section 1 of RFC 1071 says |
| ExitPacket.ComplementChecks | android-app/core/aether/src/exitip.rs:194-200 | adding the complement of a folded sum, or all ones in place of zero, makes the total fold to all ones |
| ExitPacket.WordSumPatch | android-app/core/aether/src/exitip.rs:181-200 | filling in a zeroed checksum word adds exactly its value to the sum |
| ExitPacket.BuildHeader | android-app/core/aether/src/exitip.rs:171-182 | the 20-byte header has its fields in place and its sum checks |
| ExitPacket.PseudoSumIs | android-app/core/aether/src/exitip.rs:190-196 | the sum that checks is that of RFC 768: both addresses, a zero, protocol 17 and the length in front of the datagram |
| ExitPacket.BuildUdpIpv4 | android-app/core/aether/src/exitip.rs:160-233 | for all addresses, ports and payloads up to 65507 bytes both checksums check, the UDP one is never zero, `udp_payload` gives back exactly the payload, and rejects every proper prefix |
| ExitPacket.PayloadExact | android-app/core/aether/src/exitip.rs:207-233 | any bytes at all: a payload is read if and only if they are a first fragment of IPv4 and UDP from this address between these ports, whose length field covers the UDP header and exactly this payload |
| DnsQuery.BuildQuery | android-app/core/aether/src/exitip.rs:115-134 | header and question section, labels clipped at 63 bytes and empty ones skipped |
| DnsQuery.QuestionMatches | android-app/core/aether/src/exitip.rs:236-281 | the loop accepts exactly a response with this id and this one question |
| DnsQuery.EchoRecognised | android-app/core/aether/src/exitip.rs:115-281 | a response that repeats the question asked is recognised if and only if no label is longer than 63 bytes |
| DnsQuery.SpellsBetween | android-app/core/aether/src/exitip.rs:250-268 | the labels are accepted from one place to another if and only if what lies between spells them: length bytes exactly, letters in either case |
| DnsQuery.SameLetters | android-app/core/aether/src/exitip.rs:262-264 | two labels are the same when each byte is, or is the same ASCII letter in the other case |
| DnsQuery.RecognisedExactly | android-app/core/aether/src/exitip.rs:236-281 | a message is recognised if and only if it is a response with this id and one question, which spells this name and has this type and class |
| DnsReader.SkipName | android-app/core/aether/src/exitip.rs:284-299 | the loop finds the end of a possibly compressed name, never past the buffer |
| DnsReader.ReadStrings | android-app/core/aether/src/exitip.rs:332-343 | the joined character-strings of TXT data, or nothing when one runs over |
| DnsReader.FirstTxtRecord | android-app/core/aether/src/exitip.rs:306-352 | defined on every byte string, with every index in bounds, and equal to the reading below |
| DnsExact.NameExact | android-app/core/aether/src/exitip.rs:284-299 | any bytes at all: a name ends at a place if and only if what lies in front of it are labels of up to 191 bytes and then a zero or two bytes of a pointer |
| DnsExact.TextExact | android-app/core/aether/src/exitip.rs:306-352 | any bytes at all: a text is read if and only if the questions announced are there, then whole records up to a first TXT record among those announced, whose data is a row of character-strings that read as this text, and not as an empty one |
| DnsReader.ReadsFirstTxt | android-app/core/aether/src/exitip.rs:306-352 | for every encoded response, inline or pointer-ended names and anything after the answers, the text of the first TXT record is read |
| DnsReader.EmptyFirstTxtHides | android-app/core/aether/src/exitip.rs:331-348 | that is the first non-empty text if and only if the first TXT record is not an empty one in front of a record with text |
| DnsReader.HiddenText | android-app/core/aether/src/exitip.rs:331-348 | every response with an empty TXT record in front of one with text reads as nothing |
| Probe.Whoami | android-app/core/aether/src/exitip.rs:79-92 | for any three random numbers the packet of a new probe carries its own question, from a port from 20000 up to 59999 |
| Probe.ReplyAccepted | android-app/core/aether/src/exitip.rs:100-111 | a packet that brings an encoded response repeating the question is accepted, and read as the address in its first TXT record |
| Probe.Reply | android-app/core/aether/src/exitip.rs:100-111 | the reply packet built for such a response is matched and read, and none of its proper prefixes is either |
| Dechunk.Decode | android-app/core/aether/src/apifront.rs:221-249 | the loop ends, its cursor strictly advancing, and comes to the decoding the theorems speak of |
| DechunkProofs.SizeReadsBack | android-app/core/aether/src/apifront.rs:230-239 | any spelling of a size in hexadecimal, with blanks and extensions, is read as that size or as an overflow |
| DechunkSizes.SizeExact | android-app/core/aether/src/apifront.rs:230-239 | any line at all: it is read as a size if and only if, up to its first semicolon, it is white space, a plus sign or not, hexadecimal digits and white space, and their value is below 2^64 |
| DechunkSizes.NumeralExact | android-app/core/aether/src/apifront.rs:235-235 | a numeral's k-th digit from the right, in either case, is the k-th place of its value in base 16, and there are no further places |
| DechunkProofs.ChunksStep | android-app/core/aether/src/apifront.rs:221-249 | coded chunks yield exactly their data, and then whatever follows them is decoded |
| DechunkProofs.Inverts | android-app/core/aether/src/apifront.rs:221-249 | decoding undoes chunked coding for every list of non-empty chunks, extensions and trailers ignored |
| DechunkProofs.Truncated | android-app/core/aether/src/apifront.rs:221-249 | of a coded text cut at any place, exactly the chunks whose data arrived whole are returned, in order |
| DechunkTexts.TextExact | android-app/core/aether/src/apifront.rs:221-249 | any body at all that does not panic: the data of as many strides as there are, a line, as many bytes as it says and two more each, and then of data with less than two bytes behind it; the rest is no line, or a line with no size, zero, or more than is left |
| DechunkPanics.PanicsExactly | android-app/core/aether/src/apifront.rs:221-249 | a well-formed text panics if and only if it is some strides, each a line, as many bytes as the line says and any two more, and then a size n above zero in front of a text with n past the end of `usize`, or n or n + 2 inside a character |
| DechunkPanics.ResponsePanics | android-app/core/aether/src/apifront.rs:190-249 | every body that is decoded is such a text, whatever bytes the server sent |
| DechunkProofs.PanicsAt | android-app/core/aether/src/apifront.rs:222-246 | three texts that panic, one in each of these ways |
| Utf8.LossyCut | android-app/core/aether/src/apifront.rs:191-191 | a well-formed text cut anywhere is read up to the last whole character, with one replacement character for a begun one |
| Utf8.LossyAscii | android-app/core/aether/src/apifront.rs:191-191 | an ASCII byte stands for itself, and what is before and after it is converted apart |
| Utf8.LossyIsText | android-app/core/aether/src/apifront.rs:191-191 | whatever the bytes, what they are read as is a well-formed text |
| Utf8Exact.WellFormedExact | android-app/core/aether/src/apifront.rs:191-191 | the texts the model speaks of are exactly the encodings of sequences of Unicode scalar values |
| Utf8Exact.LossyExact | android-app/core/aether/src/apifront.rs:191-191 | any bytes at all: the longest front that begins an encoded character, or one byte if none does, is kept if it is a whole one and gives U+FFFD if not, and then the rest is read |
| ResponseExact.ResponseExact | android-app/core/aether/src/apifront.rs:190-249 | for every well-formed text and every way to cut it into non-empty chunks of bytes, the response is read as the text sent if and only if every chunk is a text of its own |
| ChunkedResponse.CutResponse | android-app/core/aether/src/apifront.rs:190-249 | such a response cut after any number of bytes yields its complete chunks and no more if and only if the cut is not inside a character that begins two or three bytes before the end of its chunk; what it yields there is given too |
| ChunkedResponse.CutPanics | android-app/core/aether/src/apifront.rs:190-249 | a response that breaks off one byte into a two-byte character panics |
| ChunkedResponse.SplitCharacter | android-app/core/aether/src/apifront.rs:190-249 | after chunks that are texts, a chunk that ends in an unfinished character panics when one or two bytes of it are there, and passes it as a replacement character when three are |
| Reconnect.RunWireguard | android-app/core/aether/src/main.rs:2226-2417 | for any clock that never runs back, any handshakes and any scans the loop, with its map of cooldowns and its counter, makes exactly the run the theorems below speak of, in which each round decides from the history alone |
| ReconnectProofs.WireguardKeeps | android-app/core/aether/src/main.rs:2226-2417 | over any number of rounds: no endpoint runs while one of its cooldowns lasts by the clock of its round, one is excluded right after its second run in a row and only then, and rounds come in order with at most one run in each |
| ReconnectProofs.NeverThrice | android-app/core/aether/src/main.rs:2234-2244 | no endpoint ever runs three times in a row |
| ReconnectProofs.RoundRuns | android-app/core/aether/src/main.rs:2246-2414 | a round runs an endpoint if and only if it has a choice, and has none only when its scan, told every endpoint still cooling down, finds nothing |
| ReconnectTells.WireguardTells | android-app/core/aether/src/main.rs:2226-2417 | every round, told by the rounds before it: an endpoint that ran twice in a row is excluded; then runs the known one in the first round, else the one from last time if it was not excluded and still answers, else what the scan finds when told exactly the endpoints whose cooldowns last |
| Reconnect.InnerCandidates | android-app/core/aether/src/main.rs:3021-3052 | the loop builds the list of cached and fixed addresses other than the outer hop's |
| ReconnectTells.OfferedEdges | android-app/core/aether/src/main.rs:3021-3052 | what it returns: port 443, addresses from the cached gateways or the ladder other than the outer hop's, each once, in the order of their first places in cached + ladder, nothing left out before something that is not, and as many as the count asked for, one at least, and the addresses allow |
| ReconnectTells.OneOffer | android-app/core/aether/src/main.rs:3021-3052 | only one list meets this |
| Reconnect.RunMim | android-app/core/aether/src/main.rs:3542-3650 | for any scans, gateways and sessions the loop, with its remembered edges and its counter, makes exactly the run the theorems below speak of, and reports when it gives up for want of candidates |
| Reconnect.NotAtExact | android-app/core/aether/src/main.rs:3362-3366 | the inner hops tried are exactly the candidates not at the outer address |
| ReconnectProofs.TwoHopKeeps | android-app/core/aether/src/main.rs:3542-3650 | over any run: a scan happens if and only if no outer edge stands or two outer failures came since the last scan or served session; each scan and session is the world's answer; a failed inner hop changes neither the outer edge nor its count; no inner hop is at the outer hop's address; and scans number at most one, or none with a cached edge, plus half the outer failures |
| ReconnectProofs.ServedAgain | android-app/core/aether/src/main.rs:3593-3647 | after a session that served, the next goes through the same outer edge and tries the same inner one |
| ReconnectTells.MimTells | android-app/core/aether/src/main.rs:3542-3650 | every round, told by the rounds before it: it scans exactly when there is no outer edge or two sessions failed on it since; it dials the offered edges in order, behind the edge of the last session that served when that is not among them; and the loop gives up exactly when no address but the outer one is known and no such edge is recalled |
| GatewayCache.StableSortSpec | android-app/core/aether/src/main.rs:3922-3922 | the sort is ordered by round trip, a permutation, and keeps ties in order, which determines it |
| GatewayCache.CacheShape | android-app/core/aether/src/main.rs:3906-3923 | after any history the cache is sorted, has one entry per address and port, at most twelve, all from the history |
| GatewayCache.FirstTwelve | android-app/core/aether/src/main.rs:3914-3923 | with no key measured twice it is the first twelve of a stable sort of everything ever inserted |
| GatewayCache.LatestOfEach | android-app/core/aether/src/main.rs:3914-3923 | with repeats, while at most twelve gateways were ever measured, it is the stable sort of the latest measurement of each |
| GatewayCache.CachedExact | android-app/core/aether/src/main.rs:3914-3923 | any cache: after an insertion it is the first twelve of the entries of other addresses or ports and this one last, sorted by round trip with ties in order |
| Ladder.BuildCandidates | android-app/core/aether/src/prober.rs:621-725 | the loops offer seeds, alternates and sweeps in order and queue each candidate the first time it comes |
| Ladder.QueueOrder | android-app/core/aether/src/prober.rs:621-725 | no address and port twice; first exactly the wanted seeds on the primary port, then exactly the wanted seeds on every other port, then exactly the other swept hosts on the primary port |
| LadderExact.QueueExact | android-app/core/aether/src/prober.rs:621-725 | the whole queue: the wanted seeds on the first port, or 443; each on every other port; then the hosts of the v4 ranges and of the v6 ranges, one of each a round; in this order, each candidate the first time it is offered |
| Ladder.QueueHead | android-app/core/aether/src/prober.rs:646-682 | with distinct seeds and ports, the first part has one candidate per seed, and the first two together one per seed and port, so no swept host comes before any of them |
| Ladder.SweepIsEven | android-app/core/aether/src/prober.rs:684-704 | for every n there is a point of the sweep by which exactly the first n hosts of every v4 range have had their turn |
| Ladder.EnumerateHosts | android-app/core/aether/src/prober.rs:735-751 | of an aligned range exactly its hosts are listed, once: all but the first and last address from /20 to /30, a /32 itself, none of a /31 or of anything shorter than /20 |
| Ladder.FullSweep | android-app/core/aether/src/prober.rs:684-704 | in full-subnet mode every host of every listed range, a /32 included, is in the queue on the primary port |
| Ladder.Prioritize | android-app/core/aether/src/prober.rs:174-191 | the two loops put the wanted known entries first and then every entry not there yet |
| Ladder.PrioritizeKeeps | android-app/core/aether/src/prober.rs:174-191 | nothing is lost or added, and nothing repeated exactly when no wanted entry was listed twice |
| GeoWire.ReadVarint | android-app/tools/trim-geodata.py:48-56 | the loop reads the base-128 number at the index and the index after it, or raises past the end |
| GeoExact.VarintExact | android-app/tools/trim-geodata.py:48-56 | any bytes at all: a number is read from their front if and only if they spell it there, seven bits a byte and the lowest first, and none if and only if every byte says that more follow |
| GeoWire.ReadField | android-app/tools/dump-geosite-category.py:39-50 | one field and the index after it, slices past the end cut short as Python does |
| GeoWire.Fields | android-app/tools/dump-geosite-category.py:36-50 | the generator run to its end: all fields, or the error |
| GeoExact.FieldsExact | android-app/tools/dump-geosite-category.py:36-50 | any bytes at all: they are read as a list of fields if and only if they are what is written of these one after the other, the last chunk cut short or not |
| GeoTrim.ReadEntry | android-app/tools/trim-geodata.py:63-74 | one entry, copied with its tag and length |
| GeoTrim.TopLevelEntries | android-app/tools/trim-geodata.py:59-75 | all entries, or how the run ends |
| GeoExact.EntriesExact | android-app/tools/trim-geodata.py:59-75 | any file at all: it is cut into the bytes of length-delimited fields 1, up to its end, to a tag that is no such field, or to a number without end, and the run ends accordingly |
| GeoTrim.EntryName | android-app/tools/trim-geodata.py:78-98 | the first field 1 of an entry, stepping over every other wire type it knows |
| GeoExact.NameExact | android-app/tools/trim-geodata.py:78-98 | any entry at all: the name is that of the first length-delimited field 1, numbers, chunks and fields of four and eight bytes in front of it being stepped over; at the end or another wire type there is none, and a number without end raises |
| GeoTrim.NameEntries | android-app/tools/trim-geodata.py:127-128 | every entry with its name, failing as a whole when one cannot be read |
| GeoTrim.Trim | android-app/tools/trim-geodata.py:124-138 | the run of the script for a set of wanted names |
| GeoTrim.ParseCategory | android-app/tools/dump-geosite-category.py:58-69 | name and domains of one category, the last name winning |
| GeoTrim.ParseGeosite | android-app/tools/dump-geosite-category.py:53-72 | the category map a file stands for, or the error |
| GeoMeaning.DomainExact | android-app/tools/dump-geosite-category.py:63-68 | the kind of a domain is its last field 1, its text its last field 2 |
| GeoMeaning.CategoryExact | android-app/tools/dump-geosite-category.py:58-69 | a category is read if and only if its fields and those of all its domains are; its name is its last field 1 and its domains are its fields 2, in order |
| GeoMeaning.MeaningExact | android-app/tools/dump-geosite-category.py:53-72 | a file is decoded if and only if its fields are read, no number stands in field 1 and every category is read; a name that is not empty then stands for the domains of the last category so named, and there are no other names |
| GeoTrimProofs.JoinAndReparse | android-app/tools/trim-geodata.py:59-137 | joining all raw entries gives back the file, and the kept ones parse back to themselves with their names |
| GeoTrimProofs.TrimTwice | android-app/tools/trim-geodata.py:124-137 | trimming by one set and then another is trimming by their intersection, an empty result included |
| GeoTrimProofs.SameTopLevel | android-app/tools/dump-geosite-category.py:36-55 | both scripts cut a file into the same entries |
| GeoTrimProofs.TrimPreservesMeaning | android-app/tools/trim-geodata.py:101-138 | for every file both can read, its entries named the same by both, the trimmed file decodes to the original map restricted to the wanted names, and nothing matched is reported exactly when that map is empty |
| GeoTrimProofs.OneNameAgrees | android-app/tools/trim-geodata.py:78-98 | an entry with at most one name is named the same by both |
| GeoTrimProofs.TwoNamesLoseMeaning | android-app/tools/dump-geosite-category.py:59-61 | a file whose entry has two names, kept under the first, decodes under the second |
| GeoTrimExact.TrimExact | android-app/tools/trim-geodata.py:101-138 | for every file both can read whose entries decode to different non-empty names, the trimmed file means the restriction to the wanted names if and only if every entry's two names are both wanted or both not |
| CatalogCache.CatalogStore.constructor | cloudflare/sub-worker.js:2025-2029 | the cache starts empty |
| CatalogCache.CatalogStore.Arrives | cloudflare/sub-worker.js:2055-2058 | a request is answered from a fresh page or remembers the stale one it saw |
| CatalogCache.CatalogStore.Misses | cloudflare/sub-worker.js:2065-2103 | a miss joins the build in flight for its key or starts the only one |
| CatalogCache.CatalogStore.Store | cloudflare/sub-worker.js:2088-2097 | the page replaces its predecessor, is counted exactly, and the oldest go while a bound is exceeded |
| CatalogCache.CatalogStore.Completes | cloudflare/sub-worker.js:2068-2101 | a finished build settles as CatalogAnswers.BuildStep says |
| CatalogCache.CatalogStore.Forgets | cloudflare/sub-worker.js:2101-2101 | the key leaves the in-flight table |
| CatalogCache.CatalogStore.PutLands | cloudflare/sub-worker.js:2098-2098 | the put of a page, by this isolate or another, reaches the edge cache at some later time |
| CatalogCache.CatalogStore.Serves | cloudflare/sub-worker.js:2061-2114 | a request is answered from the edge cache or from its build |
| CatalogCache.EvictedLongest | cloudflare/sub-worker.js:2093-2097 | eviction ends and keeps the longest run of newest entries that meets both bounds |
| CatalogCache.StoredBounds | cloudflare/sub-worker.js:2087-2097 | after a store both bounds hold, keys stay distinct and the page just stored is there |
| CatalogCacheProofs.StepInv | cloudflare/sub-worker.js:2049-2115 | every event, in any interleaving, keeps accounting, single flight and the windows of all pages held |
| CatalogCacheProofs.CatalogSafe | cloudflare/sub-worker.js:2049-2115 | in every reachable state, with pages built and put by other isolates at any time: exact character count, at most 12 entries and 2,000,000 characters, at most one running build per key, every 200 answer a page built for its key within its window, from the edge cache within 300 seconds of landing there, and no request answered twice |
| CatalogAnswers.BuildStep | cloudflare/sub-worker.js:2065-2103 | a build starts with the key, the stale page and the time of its request, changes only by completing, and then for good: on the page of a 200, else on its stale page, else on the error or the status and body that came, and on an error when the body broke off |
| CatalogAnswers.ResultFrom | cloudflare/sub-worker.js:2068-2101 | in any run, a build that has settled was completed by one event, and settled so for it |
| CatalogAnswers.ResumeTells | cloudflare/sub-worker.js:2068-2114 | in any run, a request that resumes is answered by the event that completed its build: a 200 with that body and its page, a failure or other status with the stale page marked if it is the one the request saw, or with that error or status and body |
| CatalogAnswers.GoodBuildAnswers | cloudflare/sub-worker.js:2086-2114 | after a 200 every request that arrived before that page had outlived its time is logged with status 200, this body and page, and unmarked |
| CatalogAnswers.MemoIsNewest | cloudflare/sub-worker.js:2087-2097 | in any run, memory holds for a key the page put there last, or none |
| CatalogAnswers.ArrivalTells | cloudflare/sub-worker.js:2055-2058 | a request is answered at once exactly when memory holds a page younger than 5 minutes, and otherwise takes along the one it holds up to 30 minutes |
| CatalogAnswers.EdgeHolds | cloudflare/sub-worker.js:2061-2098 | in any run, the edge cache holds for a key the copy that landed last |
| CatalogAnswers.LookupTells | cloudflare/sub-worker.js:2061-2103 | a request that finds a copy there is answered with it, unmarked; another waits for the build in flight for its key, or starts one |
| CatalogStale.Arrival | cloudflare/sub-worker.js:2055-2058 | every request of a run has a place where it arrived, and the stale page it carries is what memory held for its key then, if within the window |
| CatalogStale.FailedBuildAnswers | cloudflare/sub-worker.js:2069-2112 | a build with a stale page never answers with an error unless a response came whose body could not be read, and the stale page is marked if and only if memory held it when the request arrived, no older than the stale window allows |
| CatalogStale.UnmarkedStale | cloudflare/sub-worker.js:2069-2112 | a run in which one stale page of a failed build goes out marked to the request that started it and unmarked to one that joined |
| CatalogStale.BrokenBody | cloudflare/sub-worker.js:2069-2077 | a run in which a stale page is held and two requests are answered with an error, because the body of the response breaks off |
| SubLinks.BuildPool | cloudflare/sub-worker.js:984-1003 | CDN lines and pool have no line in common or twice, cover both lists, and the pool is split by transport |
| SubLinks.Deal | cloudflare/sub-worker.js:1011-1015 | the loop over all ranked lines fills the buckets described below |
| SubLinks.BucketAt | cloudflare/sub-worker.js:1011-1015 | the j-th line of bucket b is ranked line 5j+b, up to eighty |
| SubLinks.DealtOnce | cloudflare/sub-worker.js:1011-1016 | the buckets are pairwise disjoint and together exactly the first 400 ranked lines |
| SubLinks.OneShareEach | cloudflare/sub-worker.js:1017-1018 | every CDN line is in the share of exactly one link |
| SubLinks.TopUp | cloudflare/sub-worker.js:1019-1020 | the loop takes other links' CDN lines from the front until there are fifty or none are left |
| SubLinks.LinkSize | cloudflare/sub-worker.js:1016-1023 | a link repeats no line, offers only its bucket and CDN lines, and has between the lesser of 50 and all of them, and 100 |
| SubLinks.SubRoute | cloudflare/sub-worker.js:969-1023 | for any two source lists, ranking and failure reports, the answer for link n is well formed: refused outside 1 to 5, unavailable only without CDN lines and with fewer than n others, else a link of the size above; and it is the answer told below |
| LinkExact.AnswerExact | cloudflare/sub-worker.js:969-1023 | the whole answer for any link: CDN lines and others each once where they first appear, others with strong transports first, ranked; of both every fifth from the link on, the others up to 80; other links' CDN lines until there are 50; ranked again, without failed lines if 50 are left, and the first 100 |
| Reports.FingerprintMemo.constructor | cloudflare/sub-worker.js:757-758 | the memo starts empty and sound |
| Reports.FingerprintMemo.Begin | cloudflare/sub-worker.js:735-738 | a hit is the digest of its core |
| Reports.FingerprintMemo.Finish | cloudflare/sub-worker.js:741-752 | a digest that came back is remembered once, however many were under way for its core, and the memo stays sound |
| Reports.FingerprintMemo.Evict | cloudflare/sub-worker.js:748-752 | the oldest go until 4096 entries and 1,000,000 characters hold |
| Reports.EvictedSuffix | cloudflare/sub-worker.js:748-752 | the shortest prefix that makes the rest fit is dropped, never the newest entry |
| Reports.RememberedSound | cloudflare/sub-worker.js:741-752 | a core just stored is still there and every entry is the digest of its core |
| Reports.RememberedExact | cloudflare/sub-worker.js:741-752 | any memo: a core of up to 4096 characters is put last unless it is there, and then the fewest oldest go that leave no more than 4096 entries and 1,000,000 characters; a longer one changes nothing |
| Reports.RunSound | cloudflare/sub-worker.js:735-755 | after any run of completed digests the memo is sound |
| Reports.AnySort | cloudflare/sub-worker.js:771-774 | whatever sort leaves the numbered lines in the order of the comparison gives the model's ranking |
| Reports.RankReorders | cloudflare/sub-worker.js:761-775 | ranking loses and repeats nothing |
| Reports.RankTiers | cloudflare/sub-worker.js:760-775 | what worked comes first by smoothed rate; what has no report and what only failed follow, each in its own order |
| Reports.RankExact | cloudflare/sub-worker.js:760-775 | the whole ranking: every line once; what worked before what has no report before what only failed; of two that worked the higher smoothed rate first, the fractions compared crosswise; otherwise in the order they came |
| Reports.NoReports | cloudflare/sub-worker.js:762-762 | without reports the ranking is the list as it came, as the early return says |
| Scanner.Group | aggregator/scanner.py:196-201 | the loop keeps at most three nodes a server and queues them by source in order of appearance |
| Scanner.Deal | aggregator/scanner.py:202-204 | the double loop takes the i-th of every queue in turn |
| Scanner.Diversify | aggregator/scanner.py:193-205 | the whole function, proved against its specification |
| Scanner.DiversifyKeeps | aggregator/scanner.py:193-205 | the result is a permutation of the nodes that pass the cap, and no server appears more than three times |
| ScanExact.DiversifyExact | aggregator/scanner.py:193-205 | the whole result: of the nodes with fewer than three of their server before them, the first of every source in the order in which the sources first appear, then the second of every source that has one, and so on to the last |
| ScanExact.SourcePart | aggregator/scanner.py:196-201 | the nodes of a source are exactly those that name it, in order |
| Scanner.Fair | aggregator/scanner.py:202-205 | in every prefix two sources are at most one apart, unless the one behind has no more |
| TestPlan.PickCandidates | aggregator/scanner.py:249-268 | the loops build the test list the theorems speak of |
| ScanExact.PlanExact | aggregator/scanner.py:249-268 | the whole test list: nodes of preferred countries, diversified, dealt one of each listed country a round and cut at the limit; then of what is left, diversified, the first never seen working and the first seen, as many as budget and supply allow and half the budget of either kind if there are as many |
| ScanExact.CountryPart | aggregator/scanner.py:251-255 | the nodes dealt for a country are exactly those with this hint, in order |
| TestPlan.ReservedFills | aggregator/scanner.py:251-259 | unless a country of theirs is listed twice, as many nodes are reserved as there are preferred ones after diversifying, up to the limit |
| TestPlan.PlanFillsBudget | aggregator/scanner.py:249-268 | unless a country of theirs is listed twice, distinct nodes give a list with the reserved ones and as many others as budget and supply allow, all from the input and none twice |
| TestPlan.UnseenGetHalf | aggregator/scanner.py:256-268 | for any input, preferred nodes lead; after them at least half the budget, or all there are, goes to nodes never seen working |
| TestPlan.TestedTwice | aggregator/scanner.py:249-268 | for distinct nodes and a limit that cuts no preferred one off, no node is in the test list twice if and only if no country listed twice is that of a dealt node |
| TestPlan.RepeatedCountry | aggregator/scanner.py:249-268 | a node whose country is listed twice is the whole test list, twice over |
| TestPlan.ValidSubset | aggregator/scanner.py:289-303 | for any check, what is kept is the batch less some nodes, in order, made of parts that were each accepted; for a check that judges nodes one by one and blames only faulty ones, exactly the good nodes are kept |
| Publish.ChoosePublished | aggregator/scanner.py:399-413 | the quota loop with its counter and the two selections build the list the theorems below speak of |
| Publish.PublishedExact | aggregator/scanner.py:401-413 | the whole list: nodes of preferred countries with fewer of their country before them than there are places; then the first new nodes besides these, a share of the limit; then the first of what is left, up to the limit |
| Publish.QuotaExact | aggregator/scanner.py:401-407 | of a preferred country exactly the first nodes in order of latency are kept, as many as it has places; of any other none |
| Publish.NewGetTheirShare | aggregator/scanner.py:408-412 | the places for new nodes, a share of the limit and no more than the quota leaves, are filled with new nodes as far as there are any |
| Publish.PublishedSize | aggregator/scanner.py:401-414 | no node is published twice, and as many are as limit and supply allow; only the guaranteed places go past the limit, and then nothing else is published |
| Publish.FillIsFastest | aggregator/scanner.py:401-413 | no node left out is faster than one that fills the list up, and no new one faster than one of the new places |

## Left out

Assumptions a theorem states as a requirement: the clock never runs back, and the edge cache honours max-age=300 from
the time a page lands and holds only pages that some isolate built (CatalogCacheProofs); a scan never returns an
endpoint it was told to leave out (ReconnectProofs); a session that serves names an inner edge it was given
(ReconnectProofs.ServedAgain); a new socket handle is not in use and a one-shot channel is new (NetStack); a config check looks at each node on its own
(the last clause of TestPlan.ValidSubset).

- ExitPacket.BuildUdpIpv4: payloads above 65507 bytes, whose length field would be truncated, are not covered.
- Dechunk.Decode: usize has 64 bits, as on the 64-bit builds; the status line and headers of `parse_response` are not modelled.
- ChunkedResponse.CutResponse: the body is converted apart from the head in front of it, which ends in ASCII and so changes nothing (Utf8.LossyAscii); every chunk is a text of its own, and for one that is not, ChunkedResponse.SplitCharacter says what happens.
- EdgeRelayProofs.TcpExact: the destination accepts the connection, possibly through the proxy retry of `openTcp`, which is not modelled; a connection closed by the client ends the run.
- GeoTrim.ParseGeosite: domain types are numbers, not their names, and the order of the decoder's dictionary is not kept.
- Reconnect.RunWireguard: pinned and imported peers, which ignore cooldowns, and what a run saves to disk are left out; the loop is followed for any finite number of rounds.
- GatewayCache.CacheShape: reading and writing the cache file, and the address-family filter of `cached_masque_gateways`, are left out.
- Ladder.BuildCandidates: parsing of addresses and ranges, and the random samples of `sample_cidr_v4` and `sample_cidr_v6`, are inputs; a sum of addresses wraps at 32 bits.
- NetStack.Stack.HandleCmd: address updates, and the packets that `flush_tx` passes on or drops, are left out; delivery after the peer has closed is not claimed, since the code closes at once.
- CatalogCache.CatalogStore.Serves: conditional and HEAD responses, the etag, and the path patterns of `catalogKey` are left out.
- SubLinks.SubRoute: a line stands for its share link without the name; fetching, the line filter, branding and the merging of the owner's configs are left out.
- Publish.ChoosePublished: the order, names and files of what `publish` writes, and its short list, are left out; latencies are real numbers.
- `ownerOrder`, `mergeOwner` and floating-point scoring: single expressions or floating point.
- Share-link parsing, database queries, the admin page, registration, JNI, logging, TLS and QUIC: plumbing or foreign code.
