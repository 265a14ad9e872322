# Protocols and drivers of the device tree, modelled in Dafny

This project models four pieces of the device tree and proves what they keep over all inputs and
all runs:

- **The DHCP client** (`Checksum`, `DhcpMessage`, `DhcpWire`, `DhcpLease`, `DhcpBounds`, `DhcpPadding`,
  `DhcpProtocol`, `DhcpAnswers`, `DhcpLapse`, `DhcpTransactions`, `DhcpClient`, `Netlink`).
  Messages are built and read in a record laid out as the compiler does it. The client is a class whose
  methods update its fields; each is proved against a function of `DhcpProtocol`. What can be observed
  of a run is a log of events, and the rules of the protocol, `Allowed`, say which event may follow
  which log: polling never happens in Init, the last message sent is the one the state waits for an
  answer to, an answer is taken only for the transaction last begun, the messages of a visit are 4, 8, 16,
  32 and 64 seconds apart, five of them in Requesting or Rebinding, timers expire before the state moves
  on. Every run keeps these rules. `DhcpBounds` decides for every message whether reading it stays inside,
  `DhcpPadding` when it is read as RFC 2132 reads it, `DhcpLapse` how soon a lease that nobody renews is given
  up, `DhcpTransactions` that an answer belongs to one message, `DhcpAnswers` what each answer leads
  to and that Bound means a configured interface, `DhcpWire` every byte that is sent.
- **The serial tablet driver** (`SerialFraming`, `SerialPackets`, `SerialReports`, `SerialDriver`, `TabletState`).
  Framing finds the next whole packet from any place in a stream, however the reads are split; the packets decode as a
  bijection; the driver feeds the parser with exactly the packets of the stream.
- **The USB tablet driver** (`UsbTablet`, `UsbFields`, `UsbReplays`, `TabletState`). Reports are buffered and replayed into a channel
  chosen by serial number; the set of tools of a channel stays consistent over all runs, the serial numbers
  of the channels over exactly those whose reports are safe.
- **The slot switcher** (`Replacement`, `SlotSwitch`, `SlotGlue`). In-place replacement, when it leaves
  nothing behind, when it can be undone, and on exactly which files the four passes switch the slot.

`Bytes` has machine integers and the two byte orders.

The environment is a parameter. Clock readings, random adjustments, what a poll brings and how the
interface answers are a script that a run takes; an exhausted script of polls is a timeout. A serial
line is the bytes a tablet sends and a list of moods that decide how many of them a read gets, or that
it fails. A reading of the clock is below 2^62 milliseconds.

## What the code does that its standards or a reader may not expect

The model follows the code. Each of these is visible in a lemma or a definition:

- Pad is read as an option with a length, unlike RFC 2132 section 3.1: an ack that begins with a Pad has
  no type (`PaddedAck`). The walks agree with the RFC if, and in the sense of the lemmas only if, they meet
  no Pad without a second Pad behind it (`FindsAsRfcIff`, `LeaseAsRfcIff`).
- The length check of the client's option walk compares the index plus the length, without the two bytes
  of code and length, with the size, so that an option can overhang the message by a byte that the client
  uses (`LeaseTimeFromBehind`, `LeaseReadInsideIff`). getOption does not check lengths at all, and an
  address can overhang by three bytes (`ServerIdFromBehind`, `AddressReadInsideIff`). The message memory has
  four bytes of padding behind the options, so both are defined on every message. The client receives into a
  zeroed record, so what it reads there is zero unless the message fills the record.
- Offers and acks store the lease time in host order, and the client reads network order (`AckIsUnderstood`).
  In a lease of the repository's own server the client's default T2 then comes before T1
  (`OwnLeaseTimers`), because seven times the lease no longer fits 32 bits (`DefaultTimers`).
- A UDP checksum that comes out as zero is sent as zero (`UdpFieldMeetsRfc768`).
- In Bound the time left to T1 is cut to 32 bits, so that a client that finds a positive multiple of 2^32
  milliseconds does not wait (`BoundSpinsIff`).
- When Rebinding gives up, the network is not halted (`StartingOver`).
- When one of two tools of a channel leaves, proximity stays zero (`DepartureLeavesHighest`).
- Leaving proximity zeroes the declared ranges too (`LeavingLosesRanges`, `LastDepartureZeroes`).
- A report that names two serial numbers, the last of them 0, can put one number into both channels
  (`TwoChannelsOneSerial`). One that is cut short by an event of an unknown kind can leave a channel out
  of proximity with its number (`CutShortKeepsSerial`, `CutShortFromStart`), and is replayed again from its
  first event (`AgainIff`, `PenComesTwice`). `UniqueIff` says exactly when
  numbers stay unique and absent out of proximity.
- In a boot loader file in which "androidboot.slot_suffix=" begins with the slot letter of "kernel" or
  "initrd", or of itself when switching from a, a slot letter is missed or changed that is none
  (`SetBootSlotSwitchesIff`, `SharedWithKernel`).

## Model

| member | source | states |
|---|---|---|
| Checksum.AddChecksum | dhcp_recovery/common/socket.cpp:34-51 | the two loops compute, in 32 bits, the incoming sum plus the little-endian words of the buffer, an odd last byte included, folded to 16 bits; the fold ends |
| Checksum.ByteOrderIndependence | dhcp_recovery/common/socket.cpp:34-51 | for every buffer, odd sizes included, the folded little-endian sum with its bytes exchanged is the big-endian one's complement sum (RFC 1071 section 2(B)) |
| Checksum.OverflowBound | dhcp_recovery/common/socket.cpp:34-43 | no sum of up to n words on top of any folded checksum overflows 32 bits if and only if n is at most 65536 |
| Checksum.AddedIsOnesSum | dhcp_recovery/common/socket.cpp:34-51 | within that bound a call adds the RFC 1071 sum of the buffer to the running one's complement sum |
| Checksum.AddedComposes | dhcp_recovery/common/socket.cpp:34-57 | chaining calls over pieces of which the first is even-sized is one call over the concatenation |
| Checksum.AddedZero | dhcp_recovery/common/socket.cpp:34-51 | the folded sum is zero exactly for all-zero input |
| Checksum.FinishedChecksumIsComplement | dhcp_recovery/common/socket.cpp:59-62 | the finished checksum, as it is stored, is in network order the complement of the RFC 1071 sum |
| Checksum.FinishedChecksumVerifies | dhcp_recovery/common/socket.cpp:183-186 | writing the finished checksum over the zeroed field makes the sum of the whole 0xFFFF for data that is not all zero |
| Checksum.SendRawUdp | dhcp_recovery/common/socket.cpp:166-200 | every field of both headers stands at its place in RFC 791 and RFC 768, addresses and ports included; both checksums are the complement of the sums these define and verify at a receiver, and the UDP checksum is that of RFC 768 if and only if the sum is not 0xFFFF; the receiving side takes the datagram exactly on the destination port |
| Checksum.SentIsAccepted | dhcp_recovery/common/socket.cpp:281-293 | what is laid out so passes the checks of receiveRawUdp if and only if its destination port is the expected one |
| Checksum.UdpChainComposes | dhcp_recovery/common/socket.cpp:193-199 | the six chained calls sum pseudo-header, header and payload as one piece, for payloads of any parity |
| Checksum.UdpFieldMeetsRfc768 | dhcp_recovery/common/socket.cpp:193-200 | the field that is stored is the one RFC 768 asks for if and only if the sum is not 0xFFFF, because a computed zero is sent as zero; SendRawUdp promises the same of the bytes it writes |
| Checksum.ZeroUdpChecksumArises | dhcp_recovery/common/socket.cpp:200 | for every pair of addresses and ports a two-byte message exists for which it is not |
| DhcpMessage.FirstIsFirst | dhcp_recovery/common/message.cpp:285-303 | the reference First is, by positions, the data of the first option with the code |
| DhcpMessage.FindsFirst | dhcp_recovery/common/message.cpp:285-303 | on an option area that holds a list closed by End, the walk finds exactly place, length and data of the first option with the code, inside the message, or nothing if there is none |
| DhcpMessage.LaidOnce | dhcp_recovery/common/message.cpp:285-303 | an option area holds at most one list of options |
| DhcpMessage.EncodingIsLaid | dhcp_recovery/common/message.cpp:266-283 | code, length and data of each option in turn, closed by End, is such an area (RFC 2132 section 2) |
| DhcpMessage.BuiltIsWellFormed | dhcp_recovery/common/message.cpp:167-198 | a built message passes the validity check of its operation and carries its transaction id and address, and its option area holds its options |
| DhcpMessage.OptionRoundTrip | dhcp_recovery/common/message.cpp:266-303 | any options that were appended and closed are read back: data and length of the first with the code, or nothing |
| DhcpMessage.ReadersOfBuilt | dhcp_recovery/common/message.cpp:209-234 | type, server id and requested address of a built message are those of its first options of the right length, or zero |
| DhcpMessage.RequestIsUnderstood | dhcp_recovery/common/message.cpp:65-79 | a server reads out of a request the type, the transaction id, the requested address and the server that the client put in |
| DhcpMessage.DnsListIsWhole | dhcp_recovery/common/message.cpp:102-104 | the list of name servers is sent whole if and only if it has at most 63 |
| DhcpMessage.Message.Empty | dhcp_recovery/common/message.cpp:39-42 | an empty message is all zero |
| DhcpMessage.Message.FromData | dhcp_recovery/common/message.cpp:44-52 | data that fits is copied; data that does not leaves the empty message, size and record zero |
| DhcpMessage.Message.New | dhcp_recovery/common/message.cpp:236-264 | the start of every message: fixed fields, cookie and message type, under the next transaction id, which wraps at 32 bits |
| DhcpMessage.Message.AddOption | dhcp_recovery/common/message.cpp:266-275 | one option more, the header and the options before it as they were |
| DhcpMessage.Message.AddItems | dhcp_recovery/common/include/message.h:109-121 | the same for the template that writes item by item |
| DhcpMessage.Message.EndOptions | dhcp_recovery/common/message.cpp:277-283 | the message is closed by End |
| DhcpMessage.Message.Discover | dhcp_recovery/common/message.cpp:54-63 | exactly the header and options of a discover, within the capacity |
| DhcpMessage.Message.Request | dhcp_recovery/common/message.cpp:65-79 | exactly the header and options of a request, within the capacity |
| DhcpMessage.Message.Offer | dhcp_recovery/common/message.cpp:81-109 | the header taken over from the discover and the options of a lease, within the capacity for any list of name servers |
| DhcpMessage.Message.Ack | dhcp_recovery/common/message.cpp:111-138 | the same for an ack |
| DhcpMessage.Message.Nack | dhcp_recovery/common/message.cpp:140-153 | the header taken over and the two options of a nack |
| DhcpMessage.Message.GetOption | dhcp_recovery/common/message.cpp:285-303 | the loop is the walk FindOption, on every message, well-formed or not |
| DhcpMessage.Message.Type | dhcp_recovery/common/message.cpp:209-216 | the one byte of the first message type option, or 0 |
| DhcpMessage.Message.ServerId | dhcp_recovery/common/message.cpp:218-225 | the four bytes of the first server id option, or 0.0.0.0 |
| DhcpMessage.Message.RequestedIp | dhcp_recovery/common/message.cpp:227-234 | the same for the requested address |
| DhcpMessage.Message.IsValidDhcpMessage | dhcp_recovery/common/message.cpp:167-198 | true exactly for a message with room for the cookie, the expected operation, Ethernet addresses and the cookie |
| DhcpWire.DiscoverOnTheWire | dhcp_recovery/common/message.cpp:54-63 | every byte of a discover by its place and number: operation 1, the id highest byte first, broadcast, the hardware address, zeros, cookie, type 1 and the eight parameters asked for |
| DhcpWire.RequestOnTheWire | dhcp_recovery/common/message.cpp:65-79 | the same for a request, with the requested address under code 50 and the server under 54 |
| DhcpWire.LeaseOnTheWire | dhcp_recovery/common/message.cpp:81-138 | the same for offers and acks: operation 2, id, flags, relay and hardware address of the message answered, the offered address, server, lease time with its lowest byte first, mask, gateway and name servers by their codes |
| DhcpWire.NackOnTheWire | dhcp_recovery/common/message.cpp:140-153 | the same for a nak |
| DhcpLease.WalkCollects | dhcp_recovery/client/dhcpclient.cpp:314-395 | on a well-formed option area the client steps through exactly the options that getOption steps through, rejects nothing and looks at nothing outside |
| DhcpLease.LastIsLast | dhcp_recovery/client/dhcpclient.cpp:314-395 | the reference Last is, by positions, the last option with the code and a length in the bounds |
| DhcpLease.LastOptionWins | dhcp_recovery/client/dhcpclient.cpp:329-391 | every field of the lease is that of the last option of an acceptable length, or keeps its value |
| DhcpLease.OnlyTheMessageIsRead | dhcp_recovery/client/dhcpclient.cpp:314-395 | what lies in memory behind a well-formed message influences neither walk; for all other messages the exact conditions are DhcpBounds.LeaseReadInsideIff and DhcpBounds.AddressReadInsideIff |
| DhcpLease.WalksAgree | dhcp_recovery/client/dhcpclient.cpp:387-391 | the two walks give the same server id when it occurs once with the right length, though one takes the first and the other the last |
| DhcpLease.AckIsUnderstood | dhcp_recovery/client/dhcpclient.cpp:302-397 | the client accepts an ack of the server's builder and reads back what was put in, but for the lease time, stored in host order and read in network order: 600 becomes 1476526080 |
| DhcpLease.Timer.ExpireSeconds | dhcp_recovery/client/timer.cpp:31-33 | the expiry is the reading plus the seconds in milliseconds, with no overflow of 64 bits for any 32-bit number of seconds |
| DhcpLease.DefaultTimers | dhcp_recovery/client/dhcpclient.cpp:402-406 | the default T2 is seven eighths of the lease exactly up to 613566756 seconds, and T1 is not after T2 if and only if the lease is no longer than that |
| DhcpLease.OfferIsUnderstood | dhcp_recovery/common/message.cpp:81-109 | the client accepts an offer of the server's builder and reads the transaction, the offered address and the server |
| DhcpLease.OwnLeaseTimers | dhcp_recovery/client/dhcpclient.cpp:402-406 | for the lease time so read T2 comes before T1: 218218496 and 738263040 seconds |
| DhcpBounds.LeaseReadInsideIff | dhcp_recovery/client/dhcpclient.cpp:316-328 | for every message, well-formed or not: the lease read depends on nothing behind the message if and only if no option whose last byte the client uses overhangs it by one byte |
| DhcpBounds.WellFormedStaysInside | dhcp_recovery/client/dhcpclient.cpp:316-328 | a well-formed option area never does |
| DhcpBounds.LeaseTimeFromBehind | dhcp_recovery/client/dhcpclient.cpp:322-333 | a valid ack with a lease time short of its last byte: the client's walk accepts it, and the lease time is that of the byte behind the message |
| DhcpBounds.LeaseTimeReachesClient | dhcp_recovery/client/dhcpclient.cpp:254-264 | a client that waits for an ack of that transaction takes its lease time and its T1 from that byte |
| DhcpBounds.FindReadsInside | dhcp_recovery/common/message.cpp:285-303 | getOption itself looks at nothing behind the message, on any message |
| DhcpBounds.TypeReadsInside | dhcp_recovery/common/message.cpp:209-216 | nor does type |
| DhcpBounds.AddressReadInsideIff | dhcp_recovery/common/message.cpp:218-234 | the address that serverId or requestedIp reads depends on nothing behind the message if and only if its option does not overhang, which it can by up to three bytes |
| DhcpBounds.ServerIdFromBehind | dhcp_recovery/common/message.cpp:218-225 | a valid offer with a server id short of three bytes, which are read from behind the message |
| DhcpBounds.ServerIdReachesClient | dhcp_recovery/client/dhcpclient.cpp:241-252 | a client that looks for offers then asks the server of that address |
| DhcpPadding.RfcReadsPadded | dhcp_recovery/common/message.cpp:285-303 | the readers that follow RFC 2132 section 3.1, against which the code is measured, find the first option with the code and collect all options of an area with Pads anywhere before and between them |
| DhcpPadding.FindsAsRfc | dhcp_recovery/common/message.cpp:285-303 | getOption finds what the RFC finds if it meets no Pad without a second Pad behind it before the option |
| DhcpPadding.MissedBehindPad | dhcp_recovery/common/message.cpp:285-303 | an option directly behind the first such Pad is found by the RFC and not there by getOption |
| DhcpPadding.FindsAsRfcIff | dhcp_recovery/common/message.cpp:285-303 | getOption agrees with the RFC on all messages that begin alike up to the first such Pad if and only if there is none |
| DhcpPadding.LeaseAsRfc | dhcp_recovery/client/dhcpclient.cpp:314-395 | the client collects the lease that the RFC collects if its walk meets no such Pad before End |
| DhcpPadding.LeaseAsRfcIff | dhcp_recovery/client/dhcpclient.cpp:314-395 | it agrees with the RFC on all messages that begin alike up to the first such Pad if and only if there is none |
| DhcpPadding.NoPadsNoneOdd | dhcp_recovery/common/message.cpp:285-303 | a well-formed option area without Pads has no such Pad for either walk |
| DhcpPadding.PaddedAck | dhcp_recovery/client/dhcpclient.cpp:254-264 | a valid reply with the option area cookie, 0, 53, 1, 5, 255: by the RFC an ack, by the code a message without a type, which a waiting client lets go by |
| DhcpProtocol.RunsObey | dhcp_recovery/client/dhcpclient.cpp:103-187 | safety over every run: whatever is received, whatever fails, however timeouts are adjusted, everything observed is allowed after what was observed before, by the rules Allowed |
| DhcpProtocol.RunObeys | dhcp_recovery/client/dhcpclient.cpp:103-187 | the same from every state that is consistent with a log, and the state stays consistent with it |
| DhcpProtocol.TurnObeys | dhcp_recovery/client/dhcpclient.cpp:103-187 | one turn keeps consistency and the rules |
| DhcpProtocol.ActObeys | dhcp_recovery/client/dhcpclient.cpp:103-183 | the switch keeps the rules and leaves a state in which a wait may begin: never in Init, with the right message sent last, and in every state but Bound with the base timeout doubled for each message of the visit up to 64 seconds |
| DhcpProtocol.BoundWaits | dhcp_recovery/client/dhcpclient.cpp:134-152 | in Bound the wait is not adjusted and no longer than the time left to T1 when it was read, although that is cut to 32 bits |
| DhcpProtocol.GivesUp | dhcp_recovery/client/dhcpclient.cpp:122-133 | at the maximal timeout exactly five requests have been sent in the visit and 119 to 129 seconds waited |
| DhcpProtocol.HandleObeys | dhcp_recovery/client/dhcpclient.cpp:237-282 | whatever arrives, an offer, ack or nak is taken only in its states and for the last transaction, and what follows it keeps the rules |
| DhcpProtocol.WaitObeys | dhcp_recovery/client/dhcpclient.cpp:221-299 | a wait keeps the rules across any mix of messages and errors |
| DhcpProtocol.AllowedAt | dhcp_recovery/client/dhcpclient.cpp:103-187 | in a log that keeps the rules each event was allowed by the summary of those before it |
| DhcpProtocol.RequestHasCause | dhcp_recovery/client/dhcpclient.cpp:521-527 | every request asks for the address of the offer last taken, of its server or of anyone, and that offer answered the discover then last sent |
| DhcpProtocol.BoundHasCause | dhcp_recovery/client/dhcpclient.cpp:254-264 | Bound is entered only by an ack of the last request's transaction, which asked for the address of an offer that answered the last discover before it |
| DhcpProtocol.AckIsConfigured | dhcp_recovery/client/dhcpclient.cpp:408-461 | in every log that keeps the rules an ack is taken only right behind a configuration that succeeded: timers, interface up, MTU if any, address, and the gateway if it is set at all |
| DhcpProtocol.TimersExpireFirst | dhcp_recovery/client/dhcpclient.cpp:134-164 | Bound is left for Renewing only once T1 has expired, Renewing for Rebinding only once T2 has, on the timers last set, for every lease length |
| DhcpProtocol.StartingOver | dhcp_recovery/client/dhcpclient.cpp:122-180 | without a nak the client starts over only from Requesting or Rebinding, after exactly five requests and 119 to 129 seconds of waiting in that visit, and has not halted the network |
| DhcpProtocol.UnansweredWait | dhcp_recovery/client/dhcpclient.cpp:221-299 | messages that do not end a wait, of other transactions, of other types, acks that cannot be configured, change at most the lease and its timers |
| DhcpProtocol.UnansweredTurn | dhcp_recovery/client/dhcpclient.cpp:122-180 | a turn of a visit in which no message ends the wait sends one request and waits the doubled base, adjusted by at most a second |
| DhcpProtocol.UnansweredVisitEnds | dhcp_recovery/client/dhcpclient.cpp:122-180 | liveness: a visit in which no message ends a wait, whatever other messages arrive, ends in Init after the remaining ones of five requests |
| DhcpLapse.QuietTurn | dhcp_recovery/client/dhcpclient.cpp:134-180 | a turn that ends no wait and sets no timers takes a client with a lease no step back, and once both timers have expired one step on towards Init |
| DhcpLapse.LeaseLapses | dhcp_recovery/client/dhcpclient.cpp:134-180 | progress: a client whose lease nobody renews is in Init within eight turns of the first from which on both timers have expired, whatever the clock did before and does in between |
| DhcpLapse.HolderTurn | dhcp_recovery/client/dhcpclient.cpp:134-180 | with a clock that advances by what the polls take each such turn uses up a piece of the client's budget |
| DhcpLapse.LeaseLapsesInTime | dhcp_recovery/client/dhcpclient.cpp:134-180 | with such a clock it is in Init after at most one turn for every begun 2^32 milliseconds to T1, one for every begun three seconds to T2, and eight |
| DhcpLapse.BoundSpinsIff | dhcp_recovery/client/dhcpclient.cpp:145-151 | a turn in Bound before T1 goes by without a wait if and only if the time left is a multiple of 2^32 milliseconds, none included |
| DhcpTransactions.RunNumbers | dhcp_recovery/common/message.cpp:236-264 | over every run the messages take the transaction ids one after the other, modulo 2^32 |
| DhcpTransactions.FreshIds | dhcp_recovery/common/message.cpp:236-264 | in a run of at most 2^32 messages no two have the same transaction id |
| DhcpTransactions.IdsComeRound | dhcp_recovery/common/message.cpp:236-264 | and the bound is tight: 2^32 messages later the id is the same |
| DhcpTransactions.AnswersOneMessage | dhcp_recovery/client/dhcpclient.cpp:237-282 | in such a run every offer, ack or nak that is taken has the id of exactly one message, the last one sent before it |
| DhcpProtocol.WaitTakesItsTime | dhcp_recovery/client/dhcpclient.cpp:221-299 | a wait that no message ends takes at least its timeout, and exactly that if and only if no poll overshoots |
| DhcpProtocol.AnsweredInTime | dhcp_recovery/client/dhcpclient.cpp:221-299 | a wait that a message ends takes at most its timeout and the length of one poll |
| DhcpProtocol.ExchangeBinds | dhcp_recovery/client/dhcpclient.cpp:113-264 | an exchange with the server's own builders binds: from Selecting, an offer for the discover sent and an ack for the request sent lead in two turns to Bound with the server's lease, address and timers |
| DhcpProtocol.RenewingIsSkipped | dhcp_recovery/client/dhcpclient.cpp:134-164 | with T2 before T1, as in every lease of that server, the client passes through Renewing to Rebinding without a request |
| DhcpAnswers.EndsWaitIff | dhcp_recovery/client/dhcpclient.cpp:237-282 | a poll ends the wait if and only if it brings a valid reply of the last transaction, by the bytes of its header, that is an offer to a client that looks for one, a nak to a client with a request out, or an ack to it whose lease is accepted and configured: up, address, and gateway unless left alone, all succeed |
| DhcpAnswers.OfferActedOn | dhcp_recovery/client/dhcpclient.cpp:241-252 | an offer leads to Requesting for its address from the server of its option 54 |
| DhcpAnswers.NakActedOn | dhcp_recovery/client/dhcpclient.cpp:270-274 | a nak halts the network and starts over, with exactly that in the log |
| DhcpAnswers.OthersGoBy | dhcp_recovery/client/dhcpclient.cpp:237-282 | whatever else arrives changes nothing, but for the lease and timers of an ack that could not be configured |
| DhcpAnswers.NackIsUnderstood | dhcp_recovery/common/message.cpp:140-153 | the client reads type, transaction and server out of a nak of the server's builder |
| DhcpAnswers.AskingTurn | dhcp_recovery/client/dhcpclient.cpp:122-180 | a turn in Requesting, Renewing or Rebinding that asks sends one request, polls, and does what the first poll brings if that ends the wait |
| DhcpAnswers.NakTurn | dhcp_recovery/client/dhcpclient.cpp:122-274 | a request refused by the server's own nak: the turn ends in Init, and its log is request, poll, nak, halt, move |
| DhcpAnswers.LeaseByCode | dhcp_recovery/client/dhcpclient.cpp:314-395 | the lease read out of a well-formed message, every field by the number of its option and the bytes of the last acceptable one |
| DhcpAnswers.AckActedOn | dhcp_recovery/client/dhcpclient.cpp:396-461 | a well-formed ack binds if and only if it grants some time and the calls succeed; the timers are the server's or half and seven eighths of the lease, in milliseconds, and the calls are made in order with the address and the lease's mask, MTU and gateway |
| DhcpAnswers.AckReads | dhcp_recovery/client/dhcpclient.cpp:302-401 | any ack, well-formed or not, leaves in the lease what was read up to the first overlong option, and sets no timer if there was one or no time was granted |
| DhcpAnswers.AckTurnBinds | dhcp_recovery/client/dhcpclient.cpp:122-264 | a request that is granted, the first one or one that renews or rebinds, ends its turn in Bound with that lease |
| DhcpAnswers.BindsFromStart | dhcp_recovery/client/dhcpclient.cpp:103-264 | from construction an exchange with the server's own builders leads to Bound in three turns |
| DhcpAnswers.RunRoutes | dhcp_recovery/client/dhcpclient.cpp:451-460 | over every run an ack is taken right behind setting the gateway, or behind setting the address if the client leaves the gateway alone |
| DhcpAnswers.BoundIsConfigured | dhcp_recovery/client/dhcpclient.cpp:254-264 | over every run from construction Bound is entered only with the interface up, its address set, and its gateway set unless the client leaves that alone |
| DhcpClient.RunNewClient | dhcp_recovery/client/dhcpclient.cpp:53-187 | a client from its construction on: its log is that of the model's run and keeps the rules |
| DhcpClient.DhcpClient.constructor | dhcp_recovery/client/dhcpclient.cpp:53-60 | the initial state |
| DhcpClient.DhcpClient.Run | dhcp_recovery/client/dhcpclient.cpp:103-187 | the loop of run does to the fields and the log what Run says |
| DhcpClient.DhcpClient.TakeAction | dhcp_recovery/client/dhcpclient.cpp:107-183 | the switch over the states does what Act says |
| DhcpClient.DhcpClient.WaitAndReceive | dhcp_recovery/client/dhcpclient.cpp:210-221 | no wait without a timeout, otherwise one of the chosen length |
| DhcpClient.DhcpClient.PollSocket | dhcp_recovery/client/dhcpclient.cpp:222-299 | the polling loop does what Wait says and takes the time that Wait says: consumed and remaining time stay the initial timeout |
| DhcpClient.DhcpClient.HandlePoll | dhcp_recovery/client/dhcpclient.cpp:237-287 | one readiness of the socket does what Handle says |
| DhcpClient.DhcpClient.ReceiveDhcpMessage | dhcp_recovery/client/dhcpclient.cpp:476-486 | true exactly for a valid reply with the transaction id of the last message sent |
| DhcpClient.DhcpClient.ConfigureDhcp | dhcp_recovery/client/dhcpclient.cpp:302-463 | success, the new lease and the timers are those of Configure, on every path |
| DhcpClient.DhcpClient.WalkOptions | dhcp_recovery/client/dhcpclient.cpp:314-395 | the option loop is the walk Walk, on every message, well-formed or not |
| DhcpClient.DhcpClient.StoreOption | dhcp_recovery/client/dhcpclient.cpp:329-393 | the switch over the codes changes the fields as Take says |
| DhcpClient.DhcpClient.CalculateTimeoutMillis | dhcp_recovery/client/dhcpclient.cpp:488-498 | the adjusted timeout, with the underflow branch and 32-bit wrap-around |
| DhcpClient.DhcpClient.IncreaseTimeout | dhcp_recovery/client/dhcpclient.cpp:500-511 | 4000 at first, then doubled up to 64000 |
| DhcpClient.DhcpClient.SetNextState | dhcp_recovery/client/dhcpclient.cpp:513-519 | the state, no timeout, adjusted again |
| DhcpClient.DhcpClient.SendDhcpRequest | dhcp_recovery/client/dhcpclient.cpp:521-527 | what is sent is a request for the address last offered, under a fresh transaction id, and it becomes the last message |
| DhcpClient.DhcpClient.SendDhcpDiscover | dhcp_recovery/client/dhcpclient.cpp:529-533 | what is sent is a discover under a fresh transaction id, and it becomes the last message |
| Netlink.Request.AddRouterAttribute | dhcp_recovery/client/netlink.h:5-22 | the attribute is appended to those written before, the length in the message grows by the aligned length, and no byte but the length and the attribute's own changes |
| Netlink.ReadRecovers | dhcp_recovery/client/netlink.h:5-22 | walking a written list by its aligned lengths gives back exactly that list |
| Netlink.Request.ReadBack | dhcp_recovery/client/netlink.h:5-22 | after any writes a receiver reads the exact sequence of attributes, and the length in the message is a multiple of four |
| Netlink.Request.constructor | dhcp_recovery/client/interface.cpp:116-127 | the request zeroed, with the length of its fixed part, type and flags |
| Netlink.AddressRequest | dhcp_recovery/client/interface.cpp:109-133 | the address request takes 48 of 280 bytes, each by its place: type, flags, zeros, prefix length as the count of ones in the netmask, interface, and the address twice and the broadcast address as attributes that a receiver reads back |
| Netlink.PrefixLengthOfMask | dhcp_recovery/client/interface.cpp:125-126 | for the mask of n leading ones the prefix length is n |
| Netlink.BroadcastIsInNetwork | dhcp_recovery/client/interface.cpp:29-37 | the broadcast address has the network bits of the address and ones everywhere else |
| Netlink.RouteRequest | dhcp_recovery/client/router.cpp:46-68 | the route request takes 44 of 284 bytes, each by its place, with gateway and interface as attributes that a receiver reads back |
| Replacement.FindFirst | bootctrl/x86_boot_control.cpp:15-20 | find gives the first occurrence at or after the position, or none if there is none |
| Replacement.ScanIsReplaced | bootctrl/x86_boot_control.cpp:16-21 | editing in place and searching on behind the inserted text is left-to-right, non-overlapping replacement of the original |
| Replacement.ReplacingRejoins | bootctrl/x86_boot_control.cpp:13-22 | every text is cut at its leftmost matches into pieces that are rejoined by the new text; the length changes by the difference for each match |
| Replacement.CutDetermines | bootctrl/x86_boot_control.cpp:13-22 | that cut alone determines the result |
| Replacement.PiecesDetermined | bootctrl/x86_boot_control.cpp:13-22 | two texts that differ in the last character and the two joins determine the pieces |
| Replacement.OnlyMatchEndsChange | bootctrl/x86_boot_control.cpp:48-52 | between two texts that differ in the last character only last characters of matches change, and the length stays |
| Replacement.NothingLeft | bootctrl/x86_boot_control.cpp:48-52 | then, if the new text is border-free, no occurrence of the old text is left anywhere |
| Replacement.NothingLeftIff | bootctrl/x86_boot_control.cpp:48-52 | a pass leaves nothing of the old text in any file if and only if the new text is border-free |
| Replacement.ReplacingBackIff | bootctrl/x86_boot_control.cpp:48-52 | the opposite pass restores the text if and only if its pieces between the leftmost matches of the old text, rejoined, are cut by the leftmost matches of the new text into the same pieces; so it restores every text without the new text, and for a border-free old text no other |
| SlotSwitch.BootConfig.FindAndReplace | bootctrl/x86_boot_control.cpp:13-22 | the loop over the position computes that replacement, for any non-empty text to find, and ends |
| SlotSwitch.BootConfig.SetBootSlot | bootctrl/x86_boot_control.cpp:24-65 | the four passes one after the other; nothing without an old suffix |
| SlotSwitch.PassSwitches | bootctrl/x86_boot_control.cpp:48-52 | on a file in which no text is glued to the suffix of another, a pass changes exactly the slot letters of its text |
| SlotSwitch.SlotsStay | bootctrl/x86_boot_control.cpp:48-52 | switching moves no slot position of any text |
| SlotSwitch.PassesSwitch | bootctrl/x86_boot_control.cpp:48-52 | on such a file the passes together change exactly the slot letters of all texts |
| SlotSwitch.OrderDoesNotMatter | bootctrl/x86_boot_control.cpp:26-52 | on such a file the passes can be made in any order, and repeated |
| SlotSwitch.NoOldSlotLeft | bootctrl/x86_boot_control.cpp:48-52 | on such a file no text keeps the old slot letter |
| SlotSwitch.SwitchBackIff | bootctrl/x86_boot_control.cpp:48-52 | on such a file switching back restores it if and only if no text had the new letter |
| SlotSwitch.SetBootSlotIsSwitch | bootctrl/x86_boot_control.cpp:26-52 | all of that for the four texts and the slots a and b, either way; for other files see SlotGlue.SetBootSlotSwitchesIff, SlotGlue.NoOldLetterIff and SlotGlue.SwitchedBackIff |
| SlotSwitch.SlotSuffixText | bootctrl/x86_boot_control.cpp:26 | the third text with _a has a border and with _b none, so on files of any kind switching to b leaves no _a and switching to a can leave a _b |
| SlotSwitch.OrderMattersWhenGlued | bootctrl/x86_boot_control.cpp:48-52 | for every word and text of which the text begins with the slot letter, a file with the text glued to the word's suffix: the order of the two passes decides the last letter |
| SlotSwitch.OrderMatters | bootctrl/x86_boot_control.cpp:48-52 | kernel_androidboot.slot_suffix=_a is such a file |
| SlotGlue.PassSwitchesIff | bootctrl/x86_boot_control.cpp:48-52 | on any file one pass changes every slot letter of its text and nothing else if and only if no two occurrences of the text with the old letter overlap |
| SlotGlue.SuffixPassIff | bootctrl/x86_boot_control.cpp:48-52 | whatever the passes before it changed, the pass for androidboot.slot_suffix= treats every slot letter of the original file right if and only if the first letter of none of its occurrences was changed or is itself such a slot letter |
| SlotGlue.SetBootSlotSwitchesIff | bootctrl/x86_boot_control.cpp:26-52 | on any file SetBootSlot changes every slot letter of the four texts and nothing else if and only if nowhere the old letter is at once the slot letter of kernel or initrd and the place where androidboot.slot_suffix=, its first letter aside, begins with the old letter behind it, nor, for the old letter a, the slot letter of that same text |
| SlotGlue.LettersByText | bootctrl/x86_boot_control.cpp:26-52 | on such a file exactly the letters behind kernel_, initrd_, androidboot.slot_suffix=_ and SLOT=_ change |
| SlotGlue.SharedWithKernel | bootctrl/x86_boot_control.cpp:26-52 | kernel_androidboot.slot_suffix=_a is a file on which it does not |
| SlotGlue.NoOldLetterIff | bootctrl/x86_boot_control.cpp:26-52 | on any file without such a shared letter switching to slot b leaves no old letter, and switching to slot a leaves none if and only if no slot letter b stands where androidboot.slot_suffix=, its first letter aside, begins with the letter b behind it |
| SlotGlue.SwitchedBackIff | bootctrl/x86_boot_control.cpp:26-52 | on any file without a shared letter before and after switching, switching back restores it if and only if, from slot a, no slot letter a stands where androidboot.slot_suffix= so begins, and no letter that was the new one before stands in a slot of the switched file |
| SlotGlue.LateBehindSlot | bootctrl/x86_boot_control.cpp:26-52 | SLOT=_androidboot.slot_suffix=_a has such a letter |
| SerialFraming.ReadIsNextFrame | wacom/wacserial.c:1544-1580 | however the line splits its bytes, a completed read returns exactly the bytes of one packet length from the first high bit on, consumes nothing behind them, and counts an error if and only if it discarded something |
| SerialFraming.OneErrorPerDelivery | wacom/wacserial.c:1551-1571 | what is thrown away of one delivery counts as one error, however many bytes it is, and every delivery counts for itself |
| SerialFraming.SplittingDoesNotMatter | wacom/wacserial.c:1544-1580 | two lines with the same bytes give the same packet and leave the same bytes |
| SerialFraming.CutAnywhere | wacom/wacserial.c:1544-1572 | wherever a stream of well-formed packets is entered, what is left is the rest of a packet, whole packets, and the beginning of one |
| SerialFraming.ReadSynchronises | wacom/wacserial.c:1544-1580 | self-synchronization: from any such place a completed read returns the next whole packet and ends on a packet boundary |
| SerialFraming.OnlyWholePackets | wacom/wacserial.c:1517-1612 | over every session, with quiet spells and failures in the middle of packets, completed reads return whole packets of the stream in their order, and none fails the synchronization check |
| SerialFraming.NothingIsLost | wacom/wacserial.c:1517-1612 | when all reads complete they return the packets one by one, the error count is back at 0, and the tablet is reset at most once, for errors of before |
| SerialFraming.CycleCounts | wacom/wacserial.c:1534-1612 | a packet out of step adds an error, one in step takes all away, and a read after more than three resets the tablet once |
| SerialFraming.OutOfStepResets | wacom/wacserial.c:1534-1612 | five packets in a row out of step reset the tablet |
| SerialFraming.CompletesIff | wacom/wacserial.c:1544-1580 | on a line that answers often enough, however few bytes at a time, a read completes if and only if a packet length of bytes is there from the first high bit on |
| SerialFraming.PatientSession | wacom/wacserial.c:1517-1612 | on such a line, from any place in a stream, n reads return its next n packets, and the error count is 0 |
| SerialFraming.ErrorsDoNotMatter | wacom/wacserial.c:1544-1580 | what is read and left does not depend on the errors counted |
| SerialFraming.HeadOfPacket | wacom/wacserial.c:1544-1572 | a completed read leaves its packet's first byte in front of the buffer, and one that got no byte leaves there what was there |
| SerialFraming.SerialTablet.ReadRaw | wacom/wacserial.c:1517-1581 | buffer too small, reset, packet, timeout and failure: result, error count and line are those of ReadPacket, and the byte that is left first in the buffer is HeadAfter |
| SerialFraming.SerialTablet.Fill | wacom/wacserial.c:1544-1580 | the loop gathers as Gather says, with a first byte in the buffer that has its high bit |
| SerialFraming.SerialTablet.Take | wacom/wacserial.c:1551-1571 | looking for the high bit from the start of the buffer and moving the rest down drops exactly the leading low bytes of a first delivery, and nothing of a later one |
| SerialFraming.SerialTablet.CheckSync | wacom/wacserial.c:1591-1612 | true exactly for a packet whose first byte alone has its high bit, and of a packet without bytes for such a first byte in the buffer; the error count is reset or incremented; what follows is SerialDriver.SerialDriver.ParseData |
| SerialPackets.PenIsUnderstood | wacom/wacserial.c:949-976 | every x, y, pressure or wheel and tilt of the protocol's width is read back from its packet |
| SerialPackets.PenPacketIsEncoded | wacom/wacserial.c:949-976 | every packet in step is the encoding of what is read from it: fields and payload bits determine each other |
| SerialPackets.PenReported | wacom/wacserial.c:949-987 | a pen packet passes the check, and parsing it sets the seven fields to what was encoded and nothing else: of the buttons bit 5 exactly if the pressure is above 10, bits 6 and 7 exactly if bits 1 and 2 of the head are set, and no other |
| SerialPackets.ToolReported | wacom/wacserial.c:883-938 | the announcement of a tool passes the check, and parsing it sets id, serial number as a signed word, kind and proximity and nothing else |
| SerialPackets.MouseReported | wacom/wacserial.c:989-1036 | a mouse packet passes the check, and parsing it gives position, throttle with its sign, wheel of a 2D mouse and each of the five buttons by its bit of the last byte, which depends on the tool, and nothing else |
| SerialPackets.RotationsDiffer | wacom/wacserial.c:1048-1053 | two raw angles below a full turn give the same rotation if and only if they are the same or the two at the seam, 0 and 1799 |
| SerialPackets.VisitKeepsTool | wacom/wacserial.c:949-1058 | until a tool is announced or leaves, tool, id, serial number, proximity and ranges stay through any run of packets |
| SerialPackets.ToolIsUnderstood | wacom/wacserial.c:883-938 | tool id and serial number are read back from their packet |
| SerialPackets.ValuesStayInRange | wacom/wacserial.c:816-830 | through any run of protocol V packets pressure, tilt, wheel, throttle and rotation stay in the ranges declared at initialization, the position in 16 bits |
| SerialPackets.LeavingLosesRanges | wacom/wacserial.c:941-947 | the ranges in the state hold until a tool leaves proximity and are all zero from then on |
| SerialPackets.IVIsUnderstood | wacom/wacserial.c:1115-1154 | every position and pressure of protocol IV is read back from its packet, whatever the flags and switches |
| SerialPackets.ToolIsLatched | wacom/wacserial.c:1099-1163 | through a whole visit from out of proximity the tool is a mouse once one was seen, and until then what the eraser bit of the first packet says; the second side switch is reported for a pen only |
| SerialPackets.ToolStep | wacom/wacserial.c:1112-1160 | what one packet in proximity does to tool and side switches |
| SerialPackets.ValuesStayInRangeIV | wacom/wacserial.c:786-807 | through any run of protocol IV packets pressure and tilt stay in the ranges declared for the ROM version, the position in 16 bits |
| SerialReports.HeadsByNumber | wacom/wacserial.c:884-1039 | which first bytes make which kind of packet, all of them by number |
| SerialReports.ToolsById | wacom/wacserial.c:896-931 | which tool ids name which tool, by number |
| SerialReports.AnnouncedAs | wacom/wacserial.c:883-938 | an announcement sets id, tool by number, serial number as the 32-bit word in two's complement, and proximity, and nothing else |
| SerialReports.LeftBehind | wacom/wacserial.c:940-947 | a tool that leaves takes the whole state with it |
| SerialReports.AirbrushReported | wacom/wacserial.c:949-987 | the second packet of an airbrush sets position, tilts and wheel, no pressure and no button |
| SerialReports.TurnReported | wacom/wacserial.c:1038-1058 | the second packet of a 4D mouse sets position and angle, negative up to a half turn and counted back from 1799 beyond it |
| SerialReports.IVReported | wacom/wacserial.c:1099-1163 | a packet of protocol IV as a whole: position and pressure as encoded, tool and buttons bit by bit for mouse, pen and eraser, all gone out of proximity |
| SerialReports.TiltReported | wacom/wacserial.c:1071-1097 | nine bytes set the two tilts besides, seven do not |
| SerialDriver.StatusIff | wacom/wacserial.c:1583-1620 | a packet is answered by 0 if and only if it is in step and the protocol knows it, by length and kind; one out of step only counts an error, one in step takes the errors away, and an unknown one leaves the parser as it was |
| SerialDriver.NothingIsRefused | wacom/wacserial.c:1592-1620 | after a read that returned 0 the parser refuses, and the byte first in the buffer decides whether an error is counted or all are taken away |
| SerialPackets.SerialParser.ParseWacomV | wacom/wacserial.c:869-1062 | the parser in bit operations does what ParseV says in arithmetic, on all kinds of packets and for wrong lengths |
| SerialPackets.SerialParser.ParseToolIn | wacom/wacserial.c:881-938 | tool id, serial number as a signed word, tool, proximity |
| SerialPackets.SerialParser.ParsePen | wacom/wacserial.c:949-987 | pen and second airbrush packets |
| SerialPackets.SerialParser.ParseMouse | wacom/wacserial.c:989-1036 | mouse packets: the five mouse buttons replaced and the others kept, throttle with its sign, wheel of a 2D mouse |
| SerialPackets.SerialParser.ParseSecondMouse | wacom/wacserial.c:1038-1058 | second 4D mouse packets: 11 bits to an angle between -899 and 899 |
| SerialPackets.SerialParser.ParseWacomIV13 | wacom/wacserial.c:1099-1163 | the parser in bit operations does what ParseIV13 says in arithmetic |
| SerialPackets.SerialParser.ParseWacomIV14 | wacom/wacserial.c:1064-1097 | the same for ParseIV14, which adds tilt for nine bytes |
| SerialDriver.DriveIsSession | wacom/wacserial.c:1583-1620 | checking and parsing what was read does not disturb the reading: packets and line are those of the framing alone, and if no read returns 0 the error counts too |
| SerialDriver.ParserSeesAll | wacom/wacserial.c:1583-1620 | when all packets read are in step, the parser is in the state that exactly those packets leave |
| SerialDriver.DriverFollowsStream | wacom/wacserial.c:1517-1620 | from any place in a stream of packets, whatever the line does, the packets read are packets of the stream in order, and the parser, of protocol V or IV, is where FeedV or FeedIV of them leads |
| SerialDriver.DriverReadsOn | wacom/wacserial.c:1517-1620 | when all reads complete the parser, of any protocol, has been fed exactly the next packets of the stream, and the error count is 0 |
| SerialDriver.DriverReadsAll | wacom/wacserial.c:1517-1620 | on a line that answers often enough it has, after as many turns as packets |
| SerialDriver.SerialDriver.ParseData | wacom/wacserial.c:1583-1620 | the check, and the dispatch to the parser only for a packet in step; status, error count and parser state are those of ParsePacket, and of ParseNothing for a packet without bytes |
| SerialDriver.SerialDriver.Loop | wacom/wacom-input.c:205-211 | reading and parsing n times does what DriveOn says, the parse of the stale buffer after a read that returned 0 included |
| UsbTablet.EventKeepsTools | wacom/wacusb.c:788-881 | for every event: tool type none exactly if no tool is in proximity, otherwise one of those that are; only tools in the set; proximity only while it is not empty |
| UsbTablet.RunKeepsTools | wacom/wacusb.c:788-1026 | over every run of any events every channel keeps that |
| UsbTablet.DepartureLeavesHighest | wacom/wacusb.c:846-876 | when one tool of several leaves, the tool type is the highest left, the others stay, and proximity is zero nevertheless |
| UsbTablet.ProximityStaysIff | wacom/wacusb.c:788-881 | where proximity was 1 exactly while tools were present, that holds after an event if and only if it is not a departure that leaves other tools |
| UsbTablet.LastDepartureZeroes | wacom/wacusb.c:846-864 | when the last leaves, or any of a tablet without serial numbers, the channel is zeroed with its ranges |
| UsbTablet.ButtonEvent | wacom/wacusb.c:819-827 | a button event sets or clears its button and changes nothing else |
| UsbFields.ReplayAxes | wacom/wacusb.c:883-903 | a replay leaves in each of the nine axes, named by code and field, the value of the last event with its code since all tools last left, else what was there, or zero if they left |
| UsbFields.ReplayWheel | wacom/wacusb.c:905-917 | the same for the relative wheel |
| UsbFields.ReportAxes | wacom/wacusb.c:1002-1021 | what a report leaves in them; the relative wheel is that of this report alone |
| UsbFields.ButtonsByCode | wacom/wacusb.c:791-799 | which codes are which of the first eight buttons, by number |
| UsbFields.PadButtons | wacom/wacusb.c:809-815 | other codes are buttons from 8 on by their first place among the pad keys, or none |
| UsbFields.ReplayButtons | wacom/wacusb.c:788-827 | a replay leaves a button down if and only if the last event for it since all tools last left pressed it, or it was down before and they have not left |
| UsbFields.ToolsByCode | wacom/wacusb.c:800-808 | which codes are which tool, by number |
| UsbFields.ArrivalStep | wacom/wacusb.c:829-844 | a tool that arrives becomes the tool type and joins the others, with proximity unless it was there, and nothing else changes |
| UsbFields.TypeStays | wacom/wacusb.c:788-917 | nothing but arrivals and departures changes tool type, tools, proximity and ranges |
| UsbFields.ResultsByCase | wacom/wacusb.c:928-1025 | what a call returns: -1 for a full buffer or no channel, the kind of the first unknown event of a report, else 0 |
| UsbFields.DroppedOnFailure | wacom/wacusb.c:930-1000 | a full buffer and a report without a channel drop what was buffered and change no channel |
| UsbTablet.FeedKeepsBooks | wacom/wacusb.c:928-1025 | on every path the buffer stays within 32, the serial number kept is that of the last buffered MSC_SERIAL or 0, and the buffer grows by one or is emptied |
| UsbTablet.EmptiedWithin | wacom/wacusb.c:928-1025 | at most 32 calls pass before one empties the buffer |
| UsbTablet.OneSerialIsCoherent | wacom/wacusb.c:779-786 | reports with at most one distinct serial number and SYN_REPORT values of 0 are coherent |
| UsbTablet.SerialAfter | wacom/wacusb.c:779-786 | after a replay a channel holds no serial number, or that stored last, or its own if none was stored |
| UsbTablet.ReportKeepsSerials | wacom/wacusb.c:961-1025 | a completed coherent report keeps serial numbers unique and absent out of proximity, and changes no other channel |
| UsbTablet.FeedKeepsSerials | wacom/wacusb.c:919-1025 | every call keeps that when the report it completes is coherent; a full buffer and a report without a channel are covered, an event of an unknown kind is not coherent and is decided by ReportSafeIff |
| UsbTablet.SerialsStayUnique | wacom/wacusb.c:919-1025 | over every run of coherent reports no two channels hold the same serial number and a channel out of proximity holds none; the exact condition is UniqueIff |
| UsbTablet.FromTheStart | wacom/wacusb.c:919-1025 | from initialization on, for any events: serial numbers are unique, and absent out of proximity, after every call if and only if every completed report is safe; coherent reports are |
| UsbTablet.RoutedBack | wacom/wacusb.c:964-975 | a tool whose serial number a channel holds is routed to that channel, and the others are untouched |
| UsbTablet.TwoChannelsOneSerial | wacom/wacusb.c:779-1025 | a run with one incoherent report after which both channels hold the same serial number |
| UsbTablet.ReplayHolds | wacom/wacusb.c:779-881 | the serial number that a replay leaves is the one stored last since the channel was last cleared, by a MSC or SYN event out of proximity or the departure of the last tool, or the channel's own |
| UsbTablet.ReplayPresence | wacom/wacusb.c:788-881 | which tools a replay leaves, and whether in proximity, follows from the comings and goings of tools alone |
| UsbTablet.ReportSafeIff | wacom/wacusb.c:961-1025 | for every report, cut short by an unknown event or not: serial numbers stay unique and absent out of proximity if and only if it leaves none in its channel, or one that no other channel holds, with the channel in proximity if it was cut short |
| UsbTablet.StoredSuffices | wacom/wacusb.c:961-1025 | a complete report of known events keeps them unique if no other channel holds what it stores last |
| UsbTablet.StoredDecides | wacom/wacusb.c:961-1025 | without departures and with the channel in proximity that condition is exact: unique if and only if nothing was stored or no other channel holds it |
| UsbTablet.UniqueIff | wacom/wacusb.c:919-1025 | over every run of any events serial numbers are unique after every call if and only if every completed report is safe |
| UsbTablet.CutShortKeepsSerial | wacom/wacusb.c:1002-1021 | a report that takes a tool away and is cut short by an event of an unknown kind leaves a channel out of proximity with its serial number |
| UsbTablet.CutShortFromStart | wacom/wacusb.c:919-1025 | such a run from initialization |
| UsbReplays.Leftover | wacom/wacusb.c:1002-1024 | a call leaves all or nothing in the buffer, and after a report all if and only if it found a channel and was cut short |
| UsbReplays.OnceIfKnown | wacom/wacusb.c:919-1025 | over every run of known events each event is replayed at most once |
| UsbReplays.AgainIff | wacom/wacusb.c:919-1025 | an end of a report right behind another replays an event again if and only if the first was cut short behind it |
| UsbReplays.PenComesTwice | wacom/wacusb.c:919-1025 | a run from initialization in which the coming of a pen is replayed twice |
| UsbTablet.UsbDriver.ParseKEY | wacom/wacusb.c:788-881 | the switch, the bit operations and the search for the next tool do what OnKey says |
| UsbTablet.UsbDriver.LeaveProximity | wacom/wacusb.c:846-877 | the departure of a tool, with the loop over the tools left |
| UsbTablet.UsbDriver.ParseMSC | wacom/wacusb.c:779-786 | the serial number stored, or dropped out of proximity |
| UsbTablet.UsbDriver.ParseABS | wacom/wacusb.c:883-903 | the field of the axis, or nothing |
| UsbTablet.UsbDriver.ParseREL | wacom/wacusb.c:905-917 | the wheel, or nothing |
| UsbTablet.UsbDriver.SelectChannel | wacom/wacusb.c:961-1000 | the two searches give the channel with the serial number, else the first without a tool, else none |
| UsbTablet.UsbDriver.ReplayEvents | wacom/wacusb.c:1002-1021 | the replay loop, which stops at the first event of an unknown kind |
| UsbTablet.UsbDriver.ParseData | wacom/wacusb.c:919-1026 | one call does to buffer, channels and result what Feed says, on every path |

## Left out

- Sockets, ioctl, netlink transport, ppoll and select, tty setup, property reads and writes, logging: they are results in the scripts, or nothing.
- `DhcpClient::init`, and `Interface` and `Router` but for the two netlink requests. The numbers of kernel headers are not part of the repository.
- The DHCP server: only the builders of its messages are modelled.
- Signals: blocking them while not polling has no counterpart.
- Memory that a constructor leaves uninitialized is zero in the model: `mRequestAddress`, `mServerAddress` and `mDhcpInfo` of a new client, and what lies behind the data of a message made from data.
- The properties that the client sets for gateway and name servers; whether setting the MTU succeeds, which the client ignores.
- The file in `SetBootSlot`: reading, writing and the properties are left out, the content is a string.
- The dialogue of the serial driver: identification, requests, initialization strings, speed. A reset is counted and does not touch the line.
- Protocol IV before ROM version 1.3 and the tablet PC protocol: they repeat the same decoding with fewer fields.
- The copy of the state that the parsers hand to their caller.
- USB model identification and the discovery of pad keys: the table of pad keys is a parameter of at most 24 codes. Reading events from the device, and the size check of an event, are left out.
- The main loop of wacom-input, tablet mode, the recovery user interface, scripts and makefiles.
- SlotSwitch.SetBootSlotIsSwitch: claims its four parts for files in which no text is glued to the suffix of another; on other files the switch is decided by `SlotGlue.SetBootSlotSwitchesIff`, and old letters and switching back by `SlotGlue.NoOldLetterIff` and `SlotGlue.SwitchedBackIff` where both passes switch.
- UsbTablet.SerialsStayUnique: assumes that completed reports are coherent, a condition on the report alone; it is false without (`TwoChannelsOneSerial`), and the exact condition, which looks at the channels too, is `UsbTablet.UniqueIff`.
- DhcpLapse.LeaseLapses: assumes that no ack sets the timers and then fails to be configured, because that puts the end of the lease off; the same holds for LeaseLapsesInTime.
- DhcpLapse.LeaseLapsesInTime: assumes that no turn in Bound finds a positive multiple of 2^32 milliseconds left, because it does not wait then, and the number of such turns within a millisecond has no bound (`BoundSpinsIff`).
- UsbTablet.UsbDriver.ParseData: models the driver as built with the Linux input subsystem and with SYN_REPORT as the end of a report, and not the older kernels that end a report with MSC_SERIAL.
- SerialFraming.OnlyWholePackets: assumes a stream of well-formed packets; what a read makes of any other bytes is `ReadIsNextFrame`.
- Checksum.SendRawUdp: assumes a total length below 65536, the range of the length fields.
