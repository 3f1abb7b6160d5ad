# A verified model of game-proxy's user-space network stack

`gotun2socks` reads IP packets from a tun device, terminates TCP and UDP in user space and carries the
bytes to a SOCKS, HTTP or direct connection; `kcp` ciphers the stream between two proxies. This project
models the parts of it that compute something, in Dafny, and proves what they keep.

- **Packets.** `InternetChecksum`, `IPv4`, `TcpSegment`, `UdpDatagram`, `PackTcp`: headers are written right
  to left into a pooled buffer, over the pseudo-header that the checksum has just consumed. The classes
  update their fields and the buffer in place, and are proved against byte-level functions; the theorems
  say that parsing inverts packing, exactly when, and that checksums verify at the receiver.
- **Fragments.** `Fragments` cuts a UDP response, `Reassembly` is the reader's fragment table. The theorem
  that connects them runs through the wire format and through any interleaving with other datagrams.
- **The TCP endpoint.** `TcpTrack` is the state machine of `tcpConnTrack` over values: one step for every
  arm of the `select` in `run`, for the exit at its head, and for what other goroutines do to it.
  `TcpConnTrack` is the class whose methods perform those steps on fields; its `Run` reaches exactly the
  state that `TcpTrack.Exec` describes, and states the main theorems on its own fields. `TcpRuns`,
  `TcpEffects`, `TcpDelivery`, `TcpFin`, `TcpWindow`, `TcpWire` and `Ownership` prove theorems over all runs: every
  finite sequence of enabled arms from a fresh connection.
- **Windows.** `Windows` takes the two flow-control windows apart into the single loads, stores and swaps
  that three goroutines interleave.
- **Smaller codecs.** `ServerName` and `HttpHost` (the host names that the TCP parser looks for), `SocksCodec`,
  `SocksAddr`, `DnsCache`, `XorCipher`, `Substitution`.

What the outside decides is a parameter or an event: the bytes and packets that arrive, how dialing ends,
which arm of a `select` is taken, when timers fire, the clock, the IP identification, what a pool hands
out, what a buffer holds behind a packet, and the library's functions between texts and IP addresses
(`AddressText.Lawful` is all that is known of them). Go's fixed-width arithmetic is written out (`% 2^32`,
`% 2^16`, bytes that lose their high bits). The buffer size MTU is a parameter of the fragment theorems;
elsewhere it is the source's 15000.

## Findings

Where the code does less than its comments, its names or a standard promise, the model follows the code and
a theorem states the exact condition.

- With MTU 15000 the offset field of every fragmented response is wrong: `(MTU - 20) / 8` is not exact
  (`Fragments.OffsetsAreContiguous`, `Fragments.OffsetsAreWrongAt15000`). The reader here ignores offsets, so
  its own reassembly works for fragments in order; others are put together in the order in which they arrive
  (`Reassembly.ArrivalOrder`, `Reassembly.ReorderedResponse`).
- The fragment table is keyed by identification only and keeps finished entries: a reused identification
  delivers the old datagram in front of the new one (`Reassembly.ReassemblyRoundTrip`, `Reassembly.ReusedId`).
- TCP options are padded by the remainder itself, so a total of 1 or 3 modulo 4, or of more than 40,
  makes an unreadable segment (`TcpSegment.HeaderRoundTrip`, `PackTcp.PackRoundTrip`).
- A received segment can make the TCP parser panic, and nothing recovers (`TcpSegment.ParserCrashes`): to port
  443, when a server name cannot be sliced out of its hello (`TcpSegment.CutNameCrashes`); to port 80, when the
  first Host line does not end, or ends the payload (`TcpSegment.HostLineCrashes`); to any port, when the option
  list ends in one octet of a kind that has a length. The IPv4 parser panics on missing and on impossible option
  lengths (`IPv4.OptionsPanicIff`).
- `run` says that it enables the socks arms only in ESTABLISHED but never disables them: after the peer's FIN
  the socks side can send data or a second FIN (`TcpFin.FinIsLastIffGuarded`, `TcpFin.TwoFins`).
- A relay that the socks side refuses is skipped, but the FIN on the same packet is still consumed: two FINs of
  one peer can be consumed and the stream be lost (`TcpDelivery.TwoFinsConsumed`). The stream ends as it should
  if and only if no pass refuses the data of a packet whose FIN it consumes (`TcpDelivery.FinEndsStream`).
- The comment on `stateClosed` promises a RST when connecting fails. A dial error sends nothing and loses the
  packet object (`TcpRuns.RefusalIsSilent`, `Ownership.OneOwner`). The branch that would send a reset,
  tcp.go:447-451, cannot be taken: the connection has been dereferenced before it, a dial without error returns
  one, and `connectState` is only assigned once the connection has opened.
- The acknowledgement timer compares wrapping counters with `<`: it stays silent while the unacknowledged
  part straddles a multiple of 2^32 (`TcpRuns.DelayedAck`), which does happen (`TcpRuns.SilentTimer`).
- The receive window can shrink for good, in two ways: when the writer gives back between the handler's load
  and its store, and when it finishes a packet that the handler has queued but not yet taken off
  (`Windows.LostUpdateLoses`, `Windows.EarlyWriterLoses`). It is full again at rest if and only if what stale
  loads and clipping have added and lost cancels out (`Windows.WindowLedger`).
- Two-byte lengths in a ClientHello lose their high byte: the headers of an extension block are searched only up
  to its length modulo 256. The body of an extension may lie behind that, because an upper slice bound is checked
  against the capacity and not the length (`ServerName.HostnameIsFirstServerName`, `ServerName.LongBlock`).
- SOCKS domain names of 255 bytes panic the reader, longer ones are misread, a UDP request never reports an
  unreadable host, and the refusal of an IPv6 request has no address in it (`SocksCodec.CommRoundTrip`,
  `SocksCodec.UDPRoundTrip`, `SocksCodec.ParseUDPErrors`, `SocksCodec.FailureReply`).
- The text of a shadowsocks address is not always read as that address: a domain that spells an IP address becomes
  that address, one with a bracket is lost or loses a pair of brackets, and an IPv4 address under the IPv6 type
  changes its type (`SocksAddr.TextRoundTrip`).
- Growth restarts the XOR keystream, so two objects with one key may disagree from the 16386th byte on
  (`XorCipher.ObjectsDisagree`); they always agree if and only if the key has a single character in use
  (`XorCipher.ObjectsAgreeIff`). A short write in `pipe` loses the rest of the chunk (`Substitution.CopyChunk`).
- The DNS cache ignores the class of a question (`DnsCache.KeyIsNameAndType`).

## Model

| member | source | states |
|---|---|---|
| InternetChecksum.Checksum | gotun2socks/packet/common.go:21-39 | the nested loops and the carry fold compute the one's complement of the end-around-carry residue of the sum of all 16-bit words, the sum being a uint32 |
| InternetChecksum.CarryKeepsFold | gotun2socks/packet/common.go:35-37 | one carry fold keeps the sum modulo 65535 and whether it is zero, and makes it smaller: the fold loop terminates with the right residue |
| InternetChecksum.SumBound | gotun2socks/packet/common.go:22-34 | a field adds less than 2^16 for every word begun, so the uint32 cannot overflow at datagram sizes |
| InternetChecksum.SumOfTwo | gotun2socks/packet/common.go:29-32 | only the last field may have odd length: after an even one, splitting the data into fields does not matter |
| InternetChecksum.SumIsNumber | gotun2socks/packet/common.go:22-30 | the sum of the words of a field is, modulo 65535, the big-endian number that the field is |
| InternetChecksum.PaddedOnTheRight | gotun2socks/packet/common.go:31-33 | a last odd byte counts as if a zero byte followed it |
| InternetChecksum.OfComplements | gotun2socks/packet/common.go:35-38 | the checksum makes the sum a multiple of 65535, and is 0xffff only for a sum of 0 |
| InternetChecksum.SelfVerifying | gotun2socks/packet/ip4.go:241-244 | zeroing the checksum field, summing and filling in makes the header sum to zero at any receiver (RFC 1071) |
| InternetChecksum.SelfVerifyingInside | gotun2socks/packet/tcp.go:221-224 | the same for a header between a pseudo-header and a payload of any parity |
| IPv4.IPv4.ParseIPv4 | gotun2socks/packet/ip4.go:99-156 | stores the fixed fields before checking anything, also those it reads behind a short packet; fails or panics exactly for bad lengths or a bad option list; the payload is everything after the header, not cut at the length field |
| IPv4.ParserOutcome | gotun2socks/packet/ip4.go:99-156 | in terms of the bytes of any packet in any buffer, exactly when the parser panics and exactly when it accepts |
| IPv4.OptionsPanicIff | gotun2socks/packet/ip4.go:129-154 | the option loop panics if and only if whole options are followed by a kind without its length, or by a length below 2 or beyond the buffer |
| IPv4.IPv4.PseudoHeader | gotun2socks/packet/ip4.go:158-168 | writes the pseudo-header of RFC 793 section 3.1 into exactly 12 bytes and nothing else, or refuses |
| IPv4.ReceiverChecks | gotun2socks/packet/ip4.go:158-168 | a segment or datagram verifies if and only if the words of both addresses, the protocol number, its length and its own words add up to a multiple of 65535 |
| IPv4.IPv4.Serialize | gotun2socks/packet/ip4.go:202-246 | caches the header length, and writes the header for the announced data length, with its checksum, into the slice and nothing around it, or refuses a slice of another size |
| IPv4.HeaderLayout | gotun2socks/packet/ip4.go:202-246 | every field stands where RFC 791 section 3.1 has it, and the words of the header add up to a multiple of 65535 |
| IPv4.HeaderRoundTrip | gotun2socks/packet/ip4.go:202-246 | a serialized header parses back to every field, leaves the rest as payload, and verifies |
| IPv4.PacketParses | gotun2socks/packet/ip4.go:99-156 | a built packet announces its own length and carries exactly its data |
| TcpSegment.TCP.ParseTCP | gotun2socks/packet/tcp.go:61-142 | accepts exactly the segments with a valid data offset and option list in which no host lookup panics, and stores every header field of them; panics where the lookup or the option loop does |
| TcpSegment.TCP.ParseOptions | gotun2socks/packet/tcp.go:113-138 | the option loop: an end-of-list octet does not end it, a bad length fails it, a missing length octet panics |
| TcpSegment.TCP.HeaderLength | gotun2socks/packet/tcp.go:144-161 | caches length, padding and data offset; the padding is the remainder modulo 4 itself |
| TcpSegment.TCP.Serialize | gotun2socks/packet/tcp.go:195-226 | writes ports, counters, flags, options, padding and a checksum over a region that contains the header being written |
| TcpSegment.HeaderLayout | gotun2socks/packet/tcp.go:163-226 | every field and flag stands where RFC 793 section 3.1 has it, and the data offset is the length of what was written |
| TcpSegment.OptionLayout | gotun2socks/packet/tcp.go:207-218 | an option is its kind alone, or kind, length and data |
| TcpSegment.WalkInverts | gotun2socks/packet/tcp.go:207-218 | walking written options, and zero padding behind them, gives the options back and an end-of-list for each zero |
| TcpSegment.WalkedWasEncoded | gotun2socks/packet/tcp.go:113-138 | conversely, every option list that is walked is byte for byte the encoding of the options found |
| TcpSegment.ParserCrashes | gotun2socks/packet/tcp.go:79-138 | parsing panics if and only if the data offset is valid and: a payload to port 443 is a hello, complete up to its extensions, with a first server_name extension or a first host name that goes beyond the buffer or an entry that is cut off, or a payload to port 80 has a first Host line without an end before its last two bytes, or the option area is a list of whole options and then one octet of kind 2 or more |
| TcpSegment.HostLineCrashes | gotun2socks/packet/tcp.go:103-109 | every readable segment to port 80 whose payload ends with its Host line is a panic |
| TcpSegment.CutNameCrashes | gotun2socks/packet/tcp.go:96-101 | so is every one to port 443 with a hello whose first server_name extension has one or two bytes |
| TcpSegment.NoHelloParses | gotun2socks/packet/tcp.go:96-101 | a SYN, a bare acknowledgement, and every segment to another port than 80 without a handshake record in front is parsed as its header says |
| TcpSegment.CutHelloParses | gotun2socks/packet/tcp.go:96-101 | so is every one with a hello that is cut off before its extensions that count are complete |
| TcpSegment.HeaderRoundTrip | gotun2socks/packet/tcp.go:61-226 | reading the header inverts serializing it: for every header, the payload comes back if and only if the options take at most 40 bytes and leave remainder 0 or 2; the whole header if and only if they also need no padding and no one-byte option carries data |
| TcpSegment.FlagsComeBack | gotun2socks/packet/tcp.go:163-193 | all nine flags come back from the two bytes they are packed into |
| TcpSegment.SegmentRoundTrip | gotun2socks/packet/tcp.go:61-226 | parsing inverts serializing under the same conditions, if and only if in addition no host lookup over the payload panics, whatever the buffer holds behind it; a readable segment in which one does is a panic |
| UdpDatagram.UDP.ParseUDP | gotun2socks/packet/udp.go:38-54 | parses every datagram of at least 8 bytes, ignoring its length field |
| UdpDatagram.UDP.Serialize | gotun2socks/packet/udp.go:56-69 | length and checksum count the full payload, also when only part of it follows in this packet |
| UdpDatagram.HeaderLayout | gotun2socks/packet/udp.go:56-69 | every field stands where RFC 768 has it |
| UdpDatagram.LengthWraps | gotun2socks/packet/udp.go:62 | the length field is 8 and the payload length modulo 65536 |
| UdpDatagram.DatagramRoundTrip | gotun2socks/packet/udp.go:38-69 | ports, length, checksum and payload come back |
| PackTcp.PackTCP | gotun2socks/tun2socks/tcp.go:196-219 | every slice is in bounds, and the wire image is a function of headers and payload alone: nothing of the pooled buffer is left in it |
| PackTcp.PackSegment | gotun2socks/tun2socks/tcp.go:204-213 | payload, pseudo-header and TCP header from right to left, with the checksum over all three |
| PackTcp.SegmentVerifies | gotun2socks/tun2socks/tcp.go:212-213 | for any options and any payload, the words of both addresses, the number 6, the length of the segment and its own words add up to a multiple of 65535: the receiver accepts it |
| PackTcp.PackRoundTrip | gotun2socks/tun2socks/tcp.go:196-219 | `ParseIPv4` then `ParseTCP` invert `packTCP` on every header and payload that fit a packet: the payload if and only if the options are representable and no host lookup over it panics, the header if and only if they also need no padding and no one-byte option carries data; the IP length is the wire length and the IP header verifies |
| Fragments.GenFragments | gotun2socks/tun2socks/ip.go:52-93 | the loop over `data` and `offset` produces the wires of the fragments of the rest of a datagram |
| Fragments.ResponsePacket | gotun2socks/tun2socks/udp.go:97-149 | one packet, or a first fragment and the generated ones, with the UDP checksum over the whole payload |
| Fragments.ResponseHeaders | gotun2socks/tun2socks/udp.go:97-121 | every packet of a response, whole or cut, says byte for byte IPv4 without options, UDP, 64 hops, from the remote to the local address with this identification and its own length, and verifies |
| Fragments.ResponseIsPlaced | gotun2socks/tun2socks/udp.go:123-148 | the pieces concatenate to the datagram, none is empty, all but the last fill the MTU and have MF set, only the last has it clear, and offsets grow by `(MTU - 20) / 8` |
| Fragments.OffsetsFit | gotun2socks/tun2socks/ip.go:65-73 | no offset needs more than 13 bits |
| Fragments.OffsetsAreContiguous | gotun2socks/tun2socks/ip.go:70 | every offset is the number of 8-byte units before it (RFC 791 section 3.2) if and only if 8 divides MTU - 20 |
| Fragments.OffsetsAreWrongAt15000 | gotun2socks/tun2socks/tun2socks.go:15 | with the source's MTU the second fragment of every fragmented response is 4 bytes off |
| Fragments.DatagramRoundTrip | gotun2socks/tun2socks/udp.go:131-136 | the datagram of a response parses back to the payload, and the words of both addresses, the number 17, its length and its own words add up to a multiple of 65535 |
| Reassembly.Reader.ProcFragment | gotun2socks/tun2socks/ip.go:19-50 | opens an entry for a first fragment, drops a last one without entry, otherwise appends whatever comes and reparses; entries stay |
| Reassembly.FragmentBits | gotun2socks/packet/ip4.go:100-110 | more fragments is the bit of weight 32 in byte 6 of a packet, the offset the thirteen bits behind it, the identification bytes 4 and 5 |
| Reassembly.Reader.Receive | gotun2socks/tun2socks/tun2socks.go:217-232 | one turn of the reader up to the protocol dispatch, on packets of any length: short ones are dropped, or panic below 10 bytes |
| Reassembly.NonInterference | gotun2socks/tun2socks/ip.go:20 | what happens to the packets of one identification does not depend on packets of others, however interleaved |
| Reassembly.ReassemblyRoundTrip | gotun2socks/tun2socks/ip.go:19-93 | feeding all packets of a response in order, among others, delivers nothing but at the end, and then what was left over under the identification followed by the datagram sent: that datagram alone if and only if it was not fragmented, its identification is fresh, or the entry left over is empty; a fragmented one leaves all of it in the table |
| Reassembly.ReusedId | gotun2socks/tun2socks/ip.go:19-50 | of two fragmented responses under one identification, the second is delivered behind the first |
| Reassembly.ArrivalOrder | gotun2socks/tun2socks/ip.go:19-50 | for any packets in any order, the reader on wire bytes does what collecting payloads in order of arrival does: offsets are never looked at |
| Reassembly.ReorderedResponse | gotun2socks/tun2socks/ip.go:19-50 | fragments of a response reordered, repeated or lost deliver, with the last one, what was left over under the identification and the payloads that came up to it in order of arrival; nothing if it comes first and nothing was left over |
| Reassembly.OwnTrace | gotun2socks/tun2socks/ip.go:52-93 | the wires of any response are a trace that these theorems speak of: all of them have its identification |
| TcpConnTrack.TcpConnTrack.constructor | gotun2socks/tun2socks/tcp.go:945-988 | a new connection is CLOSED with full windows and nothing sent or queued |
| TcpConnTrack.TcpConnTrack.RelayPayload | gotun2socks/tun2socks/tcp.go:281-299 | queues the packet, advances the counter and shrinks the window at 0, or leaves everything when the socks side has closed |
| TcpConnTrack.TcpConnTrack.Send | gotun2socks/tun2socks/tcp.go:301-307 | remembers the acknowledgement it carries |
| TcpConnTrack.TcpConnTrack.SynAck | gotun2socks/tun2socks/tcp.go:309-334 | a SYN/ACK with a maximum segment size option takes one sequence number |
| TcpConnTrack.TcpConnTrack.FinAck | gotun2socks/tun2socks/tcp.go:336-359 | a FIN takes one sequence number |
| TcpConnTrack.TcpConnTrack.Ack | gotun2socks/tun2socks/tcp.go:361-381 | an acknowledgement takes none |
| TcpConnTrack.TcpConnTrack.Payload | gotun2socks/tun2socks/tcp.go:383-407 | a data segment takes the length of its data |
| TcpConnTrack.TcpConnTrack.StateClosed | gotun2socks/tun2socks/tcp.go:411-461 | the two ways dialing ends: lost packet and nothing sent, or SYN/ACK and SYN_RCVD |
| TcpConnTrack.TcpConnTrack.StateSynRcvd | gotun2socks/tun2socks/tcp.go:668-699 | resets a segment that does not fit, ends on a fitting RST, opens on a fitting ACK and relays its payload |
| TcpConnTrack.TcpConnTrack.StateEstablished | gotun2socks/tun2socks/tcp.go:701-734 | acknowledges an unexpected sequence number again, ends on RST, relays payload, answers a FIN with its own |
| TcpConnTrack.TcpConnTrack.StateFinWait1 | gotun2socks/tun2socks/tcp.go:736-765 | ends the loop whatever arrives, and acknowledges a FIN in sequence |
| TcpConnTrack.TcpConnTrack.StateFinWait2 | gotun2socks/tun2socks/tcp.go:767-785 | likewise, and the FIN must acknowledge, too |
| TcpConnTrack.TcpConnTrack.StateClosing | gotun2socks/tun2socks/tcp.go:787-803 | waits for a fitting ACK |
| TcpConnTrack.TcpConnTrack.StateLastAck | gotun2socks/tun2socks/tcp.go:805-818 | waits for the acknowledgement of the FIN |
| TcpConnTrack.TcpConnTrack.UpdateSendWindow | gotun2socks/tun2socks/tcp.go:829-835 | the advertised window replaces the send window |
| TcpConnTrack.TcpConnTrack.Processed | gotun2socks/tun2socks/tcp.go:580-586 | a written packet gives its length back to the window, at most up to the full one |
| TcpConnTrack.TcpConnTrack.InputArm | gotun2socks/tun2socks/tcp.go:872-907 | the input arm closes `quitBySelf` once when the handler ends the loop |
| TcpConnTrack.TcpConnTrack.Pass | gotun2socks/tun2socks/tcp.go:844-942 | one pass of the loop, whichever arm it takes, is one step of the state machine |
| TcpConnTrack.TcpConnTrack.Run | gotun2socks/tun2socks/tcp.go:837-943 | the loop over any enabled sequence of arms and outside steps reaches the state of the run that the theorems below are about; on the fields of the class: what is on `toTunCh` tiles sequence space and carries the bytes taken, a running loop is in one of five states, an ended one leaves a closed quit channel, closed once |
| TcpRuns.EmitKeeps | gotun2socks/tun2socks/tcp.go:301-407 | every sending operation extends the tiling of sequence space and acknowledges everything accepted |
| TcpRuns.HandleKeeps | gotun2socks/tun2socks/tcp.go:879-894 | every handler keeps the books of the connection and moves its state forward, or ends the loop |
| TcpRuns.RunKeeps | gotun2socks/tun2socks/tcp.go:837-943 | the invariant holds at every point of every run |
| TcpRuns.Reachable | gotun2socks/tun2socks/tcp.go:820-943 | only CLOSED, SYN_RCVD, ESTABLISHED, LAST_ACK and FIN_WAIT_1 are reached by a running loop, past CLOSED there is a socks connection to close, `quitBySelf` is closed at most once, and an ended loop has left a closed quit channel for `newPacket` |
| TcpRuns.StatesGoForward | gotun2socks/tun2socks/tcp.go:411-818 | in every run these states are passed in that order |
| TcpRuns.Edges | gotun2socks/tun2socks/tcp.go:837-943 | at every point of every run, exactly which event ends the loop and exactly where the state moves otherwise, and that a segment out of sequence leaves everything accepted and queued as it was |
| TcpEffects.RunEffects | gotun2socks/tun2socks/tcp.go:281-943 | at every point of every run and for every event: whether it puts something on the channel to the tun writer and exactly what, with the acknowledgement of all that has been accepted and the window that is left; which data and which FIN it accepts; both windows; and the flags and quit channels of the loop |
| TcpEffects.FinIsAcknowledged | gotun2socks/tun2socks/tcp.go:726-757 | in every run a step that consumes a FIN sends exactly one segment, an acknowledgement of that FIN and of everything before it |
| TcpEffects.Arms | gotun2socks/tun2socks/tcp.go:844-942 | at every point of every run exactly which events can come: the timer and the socks side from ESTABLISHED on and never before, input as long as the loop runs |
| TcpEffects.RunSignals | gotun2socks/tun2socks/tcp.go:860-942 | while the loop of any run goes on, it has been destroyed exactly if somebody has done so, and the other quit channel is closed exactly if somebody has closed it |
| TcpEffects.UnreachedHandlers | gotun2socks/tun2socks/tcp.go:767-803 | the handlers of the states that no run reaches send, accept, release and end as they are written |
| TcpRuns.FinWait1HandlesOnePacket | gotun2socks/tun2socks/tcp.go:736-765 | after one packet in FIN_WAIT_1 the loop has ended and takes no other |
| TcpRuns.SegmentsTile | gotun2socks/tun2socks/tcp.go:301-407 | in every run segment k starts at 1 plus the sequence space of all earlier ones modulo 2^32, exactly the first is a SYN, all are addressed to the local end, and the payloads concatenate to the bytes taken from `fromSocksCh` in order |
| TcpRuns.PeerReassembles | gotun2socks/tun2socks/tcp.go:383-407 | a receiver that takes only the segment it expects next takes every segment of every run, and has exactly the bytes read from the socks side |
| TcpRuns.RefusalIsSilent | gotun2socks/tun2socks/tcp.go:409-461 | a run writes packets if and only if dialing has succeeded: a connection that fails is never answered with the RST that the comment at tcp.go:409 promises |
| TcpRuns.DelayedAck | gotun2socks/tun2socks/tcp.go:909-913 | in every run `lastAck` is a past total of what was accepted; the timer arm acknowledges if and only if it is behind the present one in the same lap of the counter, and closes the gap |
| TcpRuns.SilentTimer | gotun2socks/tun2socks/tcp.go:909-913 | a run in which the timer may fire with four unacknowledged bytes across the end of the counter, and says nothing |
| TcpDelivery.InOrderExactlyOnce | gotun2socks/tun2socks/tcp.go:272-299 | in every run over repeated, reordered and re-cut slices of one stream shorter than 2^32 bytes, the first of them on the SYN or not, the bytes queued for the proxy are a prefix of it, the recorded initial number is the one of the stream, and `rcvNxtSeq` is ISN + 1 + their number + the FINs consumed |
| TcpDelivery.FinEndsStream | gotun2socks/tun2socks/tcp.go:701-765 | in every such run with FINs where the stream ends: at most one FIN is consumed, and unless that happened in FIN_WAIT_1 the whole stream has then been queued, if and only if no pass in ESTABLISHED consumes a FIN and refuses the data on the same packet |
| TcpDelivery.TwoFinsConsumed | gotun2socks/tun2socks/tcp.go:717-733 | a run over a stream of two bytes in which that happens: two FINs are consumed and nothing is queued |
| TcpDelivery.QueuedIfNext | gotun2socks/tun2socks/tcp.go:701-726 | a slice is queued, whole, if and only if it starts at the first byte not yet queued; otherwise the reply asks for that byte again |
| TcpFin.StepCloses | gotun2socks/tun2socks/tcp.go:915-921 | a step inside the guard keeps every FIN last; one outside it puts sequence space behind a FIN |
| TcpFin.FinIsLastIffGuarded | gotun2socks/tun2socks/tcp.go:847-921 | a run sends nothing that takes sequence space after a FIN if and only if every socks arm is taken in ESTABLISHED |
| TcpFin.TwoFins | gotun2socks/tun2socks/tcp.go:919-921 | for any ends and any initial number there is a run in which the socks side closes after the peer and sequence space follows a FIN |
| TcpWindow.ReceiveWindow | gotun2socks/tun2socks/tcp.go:281-299 | with undivided updates the window stays in 0..65535, so headers advertise it untruncated, and together with what is queued or being written it is never less than 65535, and exactly that when the peer keeps within it |
| TcpWire.EmittedSurvives | gotun2socks/tun2socks/tcp.go:309-407 | every segment of every run fits its buffer and is parsed back as it was sent, under an IPv4 header with its length, 64 hops and protocol 6, and the words of the header, and those of the segment with addresses, 6 and length, add up to multiples of 65535 |
| TcpWire.ResetSurvives | gotun2socks/tun2socks/tcp.go:221-257 | so does the reset for any segment, which swaps addresses and ports, has the flags RST and ACK, no data and the full window, starts at the acknowledged number and acknowledges what follows |
| Windows.SendWindowBound | gotun2socks/tun2socks/tcp.go:606-649 | under every interleaving of load, read, swap and store, passes that read nothing among them, the bytes read off the events since the last store of W are at most W and one straddling chunk of at most MTU - 40, and the window stays in 0..65535 |
| Windows.SendLedger | gotun2socks/tun2socks/tcp.go:634-640 | under every interleaving, window plus bytes sent is what was advertised plus the chunk not yet swapped plus the drifts of the swaps since; between two passes the window is what was advertised less what was sent if and only if these cancel out |
| Windows.WindowFollowsBytes | gotun2socks/tun2socks/tcp.go:634-640 | in a run in which no swap comes after a store that its load has not seen, the window between two passes is exactly what was advertised less what was sent |
| Windows.WindowCanBeUsed | gotun2socks/tun2socks/tcp.go:606-642 | at every such point a pass can send n bytes if and only if n is positive and at most the window and a buffer, and takes exactly n off the window |
| Windows.ChunkStraddles | gotun2socks/tun2socks/tcp.go:829-835 | the straddling chunk is needed: it can follow a window of 0 |
| Windows.ReceiveWindowFits | gotun2socks/tun2socks/tcp.go:287-293 | under every interleaving the receive window stays in 0..65535 |
| Windows.WindowLedger | gotun2socks/tun2socks/tcp.go:284-293 | under every interleaving, window plus outstanding bytes is 65535 plus what the handler has yet to take off plus the drifts of all stores; at rest the window is full if and only if the drifts sum to 0 |
| Windows.ExactIffBalanced | gotun2socks/tun2socks/tcp.go:580-586 | the books are exact at every point of a run if and only if in every store clipping makes up for the stale load |
| Windows.NothingIsLost | gotun2socks/tun2socks/tcp.go:580-586 | if no update is disturbed, window and outstanding bytes cover 65535, and the window is full again when all is written |
| Windows.LostUpdateLoses | gotun2socks/tun2socks/tcp.go:581-586 | a run in which the writer's update falls inside the handler's loses window for good |
| Windows.EarlyWriterLoses | gotun2socks/tun2socks/tcp.go:284-293 | so does one in which the writer finishes a packet before the handler takes it off |
| Ownership.HandleReleases | gotun2socks/tun2socks/tcp.go:872-897 | a handler asks for release exactly if it has neither handed the packet on nor failed to dial; the queue to the socks writer grows by that packet or not at all |
| Ownership.StepAccounts | gotun2socks/tun2socks/tcp.go:148-161 | every step moves packet objects without duplicating or forgetting one |
| Ownership.OneOwner | gotun2socks/tun2socks/tcp.go:588 | in every run each packet object is in exactly one of pool, socks queue, tun queue or lost, the objects on the socks queue carry exactly the packets relayed and unwritten, in order, the tun writer writes everything put on its channel once and in order, and losses are counted one by one: failed dials and packets after the end |
| Ownership.PoolHandsOut | gotun2socks/tun2socks/tcp.go:148-161 | of the objects made, exactly those in the pool can be handed out again, never one that is queued or lost |
| Ownership.MissedIff | gotun2socks/tun2socks/tcp.go:820-827 | in every run a packet can come too late if and only if a quit channel has been closed |
| ServerName.GetExtensionBlock | gotun2socks/packet/tls.go:103-142 | the three hops over session id, ciphers and compression methods stay in bounds |
| ServerName.GetSNBlock | gotun2socks/packet/tls.go:71-100 | the extension loop terminates, computes the walk, and slices up to the capacity |
| ServerName.GetSNIBlock | gotun2socks/packet/tls.go:49-68 | the name loop terminates, computes the walk, and panics exactly where it does |
| ServerName.GetHostnameTls | gotun2socks/packet/tls.go:27-45 | the three in sequence on any received bytes: host, error or panic |
| ServerName.HostnameIff | gotun2socks/packet/tls.go:27-142 | in terms of the bytes of any payload in any buffer: a panic if and only if the first server name of a complete hello cannot be sliced out, a host if and only if it is the one found there, and an error otherwise |
| ServerName.CutHello | gotun2socks/packet/tls.go:71-82 | a hello that is cut off before its extensions that count are complete is an error |
| ServerName.BlockIsCut | gotun2socks/packet/tls.go:78-82 | only the first part of an extension block, as long as the low byte of its length says, is searched for headers, in memory that goes on |
| ServerName.WalkFinds | gotun2socks/packet/tls.go:84-95 | in any list of extensions cut anywhere the first server_name is found, with all of its body, if and only if the cut leaves its header |
| ServerName.HostnameIsFirstServerName | gotun2socks/packet/tls.go:27-142 | for every ClientHello with short ciphers and extension bodies: no server_name extension, an error; otherwise its host if and only if the header of the extension ends within the low byte of the block length, and an error if not |
| ServerName.CutNamePanics | gotun2socks/packet/tls.go:49-68 | for every such ClientHello whose first server_name extension has a body of one or two bytes: a panic if its header is reached, an error otherwise |
| ServerName.LongBlock | gotun2socks/packet/tls.go:71-95 | in a block of 260 bytes the host is found in front of padding, its body behind the low byte of the length, and missed behind the same padding |
| HttpHost.FindStringInData | gotun2socks/packet/http.go:91-108 | both loops find the first occurrence, but for one that ends the data |
| HttpHost.Literals | gotun2socks/packet/http.go:16-21 | what is looked for is "Host: ", and then CR and LF |
| HttpHost.GetHostnamePlainHttp | gotun2socks/packet/http.go:8-24 | the rest of the first Host line, an error, or the panic of slicing up to -1 |
| HttpHost.PanicsIffUnended | gotun2socks/packet/http.go:21-23 | a panic if and only if there is a first "Host: " with something behind it and no line end after it before the last two bytes |
| HttpHost.HostLine | gotun2socks/packet/http.go:8-24 | in every request with a Host line the name is found if and only if something follows the line, and a request that ends with it is a panic |
| SocksCodec.Reader.ReadSocksDomainHost | gotun2socks/gosocks/basic.go:168-181 | the slice bound is byte arithmetic: length 255 panics |
| SocksCodec.Reader.ReadSocksComm | gotun2socks/gosocks/basic.go:235-263 | reads header, host and port, with every early return |
| SocksCodec.WriteSocksComm | gotun2socks/gosocks/basic.go:265-286 | packs any text under any type into a 512-byte buffer, and panics when the host does not fit |
| SocksCodec.MessageLayout | gotun2socks/gosocks/basic.go:207-286 | every message written is RFC 1928 byte for byte: 5, flag, 0, type, the address or the counted name, the port |
| SocksCodec.WriteOutcome | gotun2socks/gosocks/basic.go:207-286 | writing fails exactly for unknown types and for texts that are no address under an address type, and panics exactly for names of more than 505 bytes |
| SocksCodec.ReadOutcome | gotun2socks/gosocks/basic.go:168-263 | reading succeeds exactly if version and type are known and all bytes are there, and panics exactly for a name of 255 bytes |
| SocksCodec.ParseUDPRequest | gotun2socks/gosocks/basic.go:324-349 | the data is what the reader has left over |
| SocksCodec.DatagramRead | gotun2socks/gosocks/basic.go:324-349 | every field read, byte for byte; what is not there is an empty host, a zero port and no data |
| SocksCodec.DatagramLayout | gotun2socks/gosocks/basic.go:351-363 | every request packed is RFC 1928 section 7 byte for byte, without its host if that cannot be packed |
| SocksCodec.HostRoundTrip | gotun2socks/gosocks/basic.go:183-233 | a packed host is read back from the front of any stream if and only if it is codable |
| SocksCodec.CommRoundTrip | gotun2socks/gosocks/basic.go:235-286 | `readSocksComm` inverts `writeSocksComm` field for field if and only if the host is the own text of an IPv4 address, of any address under the IPv6 type, or under the domain type a text of at most 254 bytes |
| SocksCodec.ReadWasWritten | gotun2socks/gosocks/basic.go:235-286 | conversely, everything `readSocksComm` accepts is what `writeSocksComm` writes for the result, but for the reserved byte |
| SocksCodec.UDPRoundTrip | gotun2socks/gosocks/basic.go:324-363 | `ParseUDPRequest` inverts `PackUDPRequest` if and only if the host is codable and the datagram longer than 8 bytes, or the type is unknown and the host empty |
| SocksCodec.ParseUDPErrors | gotun2socks/gosocks/basic.go:335-345 | an error is reported for short datagrams and nothing else |
| SocksCodec.FailureReply | gotun2socks/gosocks/basic.go:311-317 | the general failure reply can be read if and only if the request was not for an IPv6 host |
| SocksCodec.FailureBytes | gotun2socks/gosocks/basic.go:311-317 | the reply byte for byte: ten bytes, or six for an IPv6 request |
| SocksAddr.EncodeRoundTrip | shadowsocks/socks.go:106-169 | every host and port has a form, unless the host is no address and longer than 255 bytes, and that is split whole off any stream and gives back the port and the host, addresses in their own text |
| SocksAddr.AddressLayout | shadowsocks/socks.go:141-169 | every form is RFC 1928 section 5 byte for byte |
| AddressText.MappedLayout | gotun2socks/gosocks/basic.go:144-154 | an IPv4 address in sixteen bytes is ten zeros, two times 255 and its four bytes |
| SocksAddr.TextRoundTrip | shadowsocks/socks.go:54-169 | `ParseAddr` inverts `String` byte for byte if and only if the address is not an IPv4 one under the IPv6 type, and not a domain that has a bracket or is the text of an address |
| SocksAddr.JoinSplits | shadowsocks/socks.go:69-137 | of a host joined with a port, splitting gives both back if and only if the host has no brackets; a pair around it is lost if there is no colon inside, and any other bracket is an error |
| SocksAddr.PrefixFree | shadowsocks/socks.go:106-132 | no address is a proper prefix of another |
| SocksAddr.ReadAddr | shadowsocks/socks.go:72-98 | reading from a stream succeeds exactly when splitting does, with the same bytes, and consumes no others |
| DnsCache.DnsCache.Query | gotun2socks/tun2socks/udp.go:440-463 | answers from the entry of name and type, deletes it if it has expired, and leaves the query's Id in it otherwise |
| DnsCache.DnsCache.Store | gotun2socks/tun2socks/udp.go:465-484 | keeps successful responses with a question and an answer, until the first answer's time to live is over |
| DnsCache.KeyIsNameAndType | gotun2socks/tun2socks/udp.go:428-432 | the key determines name and type, and depends on nothing else |
| DnsCache.CacheRefinesHistory | gotun2socks/tun2socks/udp.go:440-484 | with a clock that does not run backwards, every query is answered with the newest qualifying response of the history, with its own Id, if and only if that has not expired; deletions never change an answer |
| DnsCache.NewestDecides | gotun2socks/tun2socks/udp.go:440-484 | with such a clock: a query is answered with the newest success stored for its name and type, in its own Id, if and only if its first time to live, in seconds from when it was stored, is not over; without one it is not answered |
| DnsCache.EntryStays | gotun2socks/tun2socks/udp.go:457-462 | a stored response stays in the cache until one asks for it too late or a newer one is stored, and carries the Id of the last one who asked |
| XorCipher.XORCipher.UpdateMaxLen | kcp/cipher/oor.go:29-36 | growth appends the pattern from its beginning |
| XorCipher.XORCipher.Encrypt | kcp/cipher/oor.go:38-45 | grows if needed and combines the buffer in place with position and keystream; `Decrypt` is the same |
| XorCipher.NewXORCipher | kcp/cipher/oor.go:18-27 | fails exactly for keys under four characters |
| XorCipher.AppendOnly | kcp/cipher/oor.go:29-36 | no history changes a character of the keystream |
| XorCipher.KeystreamIs | kcp/cipher/oor.go:29-68 | after any history the keystream is the used characters of the key over and over, started afresh at 8192 characters and for every message longer than that and all before it |
| XorCipher.FirstBytes | kcp/cipher/oor.go:38-45 | after any history, byte i of a message, below 8192, is combined with i modulo 255 and character i modulo the key length less 1 |
| XorCipher.HexDecodes | kcp/cipher/oor.go:23 | the key is used in two hexadecimal digits for each of its bytes |
| XorCipher.DecryptInverts | kcp/cipher/oor.go:38-54 | an object decrypts what it has encrypted, whatever it was given before and since |
| XorCipher.ObjectsAgree | kcp/cipher/oor.go:57-68 | two objects with one key agree on all messages of at most 16385 bytes, whatever their histories |
| XorCipher.ObjectsDisagree | kcp/cipher/oor.go:29-36 | at 16386 bytes a fresh object and one that has grown by 8193 agree if and only if two characters of the key are equal |
| XorCipher.ObjectsAgreeIff | kcp/cipher/oor.go:18-68 | all objects with a key agree on all messages, whatever their histories, if and only if all characters of the key that are used are equal |
| Substitution.Cipher.constructor | kcp/cipher/little/cipher.go:27-37 | fills the decoding table: the last index wins, and a value that the table does not have decodes to 0 |
| Substitution.Substitute | kcp/cipher/little/cipher.go:11-24 | substitutes in place |
| Substitution.Pigeonhole | kcp/cipher/little/cipher.go:29-32 | a table without repetitions takes every value |
| Substitution.TwoSidedInverse | kcp/cipher/little/cipher.go:27-37 | the table built is an inverse, on either side, if and only if the given one has no repetitions |
| Substitution.StreamRoundTrip | kcp/service/conn.go:146-213 | encrypting under one chunking and decrypting under any other gives the stream back, when writes are complete |
| Substitution.CopyChunk | kcp/service/conn.go:146-213 | what one pass of any of the four loops writes is the whole chunk, encrypted or decrypted, if and only if the first write is complete |

## Left out

- Sockets, dialing, the tun device, goroutine scheduling, timers and real time: events and parameters stand for them.
- Liveness: the socks reader's wait for the send window, and whether an arm that is enabled is ever taken.
- The connection table: a single connection is modelled, not its replacement under the same id, nor the reset sent for packets of no connection.
- The send window in `TcpTrack` is only stored; how the socks reader lowers it is in `Windows`.
- Interleavings inside a handler, apart from the two windows: handlers are single steps, so `stateEstablished` reading the FIN flag of a packet it has already handed over is not an issue here.
- `toSocksCh` and `fromSocksCh` are unbounded; their capacity of 1500 only delays the loop.
- IPv4.IPv4.ParseIPv4: does not keep the options, nor the padding behind them.
- IPv4.IPv4.Serialize: headers without options only, since no caller builds any; a cached header length is then 20.
- TcpSegment.TCP.ParseTCP: does not keep `Padding` and `Hostname`, into which the host found is stored, for plain HTTP trimmed of spaces.
- TCP options carry at most 253 bytes of data, since their length octet is a byte.
- Slices of a parsed packet are values: that they alias the reader's buffer until `copyTCPPacket` is not captured.
- A computed UDP checksum of 0 is sent as 0, which RFC 768 reads as none; the model does as the code does.
- Reassembly.NonInterference: a packet on which the parser panics ends the program; in a trace it counts as dropped.
- Reassembly of packets shorter than a fixed IPv4 header is in `Receive` only; traces have none.
- How `net.ParseIP` and `IP.String` read and write texts, apart from `AddressText.Lawful`.
- The buffered reader that `readSocksComm` puts over a connection: what it takes beyond the message is lost with it, and the results here are about the message alone.
- DNS wire format: messages arrive unpacked. That cached messages are shared with the goroutine that answers is not modelled.
- XorCipher.XORCipher.Encrypt: does not model the lock, which two goroutines may pass between check and growth; `After` covers any sequence of growths.
- Proxy selection, user ids, the HTTP CONNECT exchange, host patching for plain HTTP, AES, kcp, base64, and the handshake of `shadowsocks/socks.go`.
