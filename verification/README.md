# Proofs about the UNIX network programming code

These Dafny files model the parts of the repository where the logic, rather than the
system calls, is hard, and prove what those parts are for. System calls are arbitrary: a
read may return any piece of what is there, a datagram may be lost, repeated or late,
select may report any of the descriptors it was asked about, and threads, children,
signals and the kernel take their steps in any order.

`dafny verify dfyconfig.toml` checks everything.

## What is modelled

- **Addresses as text** (`Fields`, `Inet4`, `Inet6`, `Inet6Text`, `Inet6Canon`, `Inet6Print`). The
  parsers and printers of `libfree` are loops over characters, bytes and words. Each is proved equal to a
  definition of the text it reads or writes, given by splitting and joining fields. The main
  results: parsing what `inet_ntop6` prints gives the address back, for all addresses, and of
  all texts for an address it is the one canonical text, described on the bytes; the texts `inet_pton6` accepts are exactly those built
  from groups, a double colon and a dotted quad, each read in one way only, and which of them
  are outside the grammar it promises; `::` stands for the missing zeros and the shift by hand
  puts them in place; `inet_aton` agrees with `inet_pton4` on all that the latter accepts.
- **Requests over UDP** (`Rtt`, `DgSendRecv`, `DgProtocol`, `DgCalls`, `DgEstimates`). The estimator and
  `dg_send_recv` are classes proved equal to functions. `DgProtocol` is the steps of a client,
  a network that loses, repeats and reorders, and a server that echoes: over every run of at
  most 2^32 requests no stale reply is returned and every sample is the time since the
  transmission that was answered. `DgCalls` connects the two: in every run each call does what
  `dg_send_recv` does with the events it saw, so the method itself returns no stale reply.
  `DgEstimates` says how long every transmission of a run waits, from the samples before it.
- **The non-blocking copy** (`StrCli`). The loop is a method over its two buffers that records
  every system call, and is proved equal to a function over the rounds. The record shows
  conservation both ways, when the FIN is sent, when bytes are left unshown, and how the loop
  ends.
- **The address list of getaddrinfo** (`AddrInfo`, `AddrInfoList`). `ga_port` walks a linked
  list while inserting into it. The list in the heap is proved to change as a function on
  sequences says, and that function, called for k socket types, to give k entries for each
  address in the promised order. When memory runs out, it is said what list is left.
- **Shared queues** (`SigioRing`, `Prefork`, `ThreadPool`, `BoundedBuffer`). State machines over
  the steps of the main loop, handler, children and threads, for any number of children and
  workers. An invariant is kept by every step and gives the safety of every run. The server
  driven by SIGIO starts with a bound socket, which may hold datagrams already.
- **The Internet checksum** (`Checksum`), against one's complement addition.
- **Reading lines** (`Readline`), the buffered form against the loop over the stream and against
  the form that reads one byte at a time.
- **Two select loops** (`WebFetch`, `SelectServer`), with their counters, sets and tables.

A state machine has a function `Step`, a predicate `Enabled` that says when a step is
possible, and a function `Run` from a list of steps to the state reached, if all of them were
possible. A theorem "over every run" is about all such lists.

Conventions: strings are the characters before the NUL; a result passed back through an
argument is a returned value, with `None` where the function reports failure; floating
point numbers are reals; `uint32_t` and `uint16_t` arithmetic wraps; memory that may run
out is a `budget` of allocations.

## Where code and comments differ

- `inet_pton6` does not ignore `::` in a full address: everything after it becomes zero
  (`Inet6Text.FullAddressColon` gives the exact condition, `Inet6Text.ZeroedAddress` an
  example). It also accepts one colon at the end. These two are the only texts it accepts
  that are not in section 2.2 of RFC 1884 (`Inet6Text.OutsideGrammarIff`), if that section is
  read generously: `::` for a single group and any leading zeros. Read to the letter, `::`
  stands for multiple groups and numbers have at most four hexadecimal or three decimal
  digits; then the texts that break these two rules are the only others
  (`Inet6Text.BeyondLetterIff`).
- `inet_ntop4` does not count the NUL, as `inet_ntop6` does: it writes one byte more than the
  buffer has exactly when the text fills the buffer (`Inet4.Ntop4`, with `Inet4.OneTooMany` as
  an example).
- `str_cli` ends when the server has closed although bytes from the server may still wait for
  standard output: exactly when the last select asked about standard output
  (`StrCli.AllShownIff`, with `StrCli.UnshownRun` as an example).
- `readline` returns one more than the bytes stored exactly when the line does not end
  within the room given (`Readline.ReturnIsLengthIff`, with `Readline.CutLine` as an example).
- The server driven by SIGIO can sleep with datagrams unread: exactly when all that came were
  there before FIOASYNC (`SigioRing.SleepsWhenDoneIff`, with `SigioRing.StrandedRun` as an
  example). And a signal between FIOASYNC and FIONBIO finds the socket still blocking, so its
  handler never returns (`SigioRing.CapturedForever`, with `SigioRing.CapturedRun`).
  `SigioRing.StrandedIff` says that nothing else stops it.
- The last counter of the SIGIO histogram is never used, since a handler that fills the ring
  ends the program (`SigioRing.HistogramAddsUp`).
- `in_cksum` is right if and only if the plain sum of the words fits in 32 bits
  (`Checksum.CorrectIff`, with `Checksum.LostCarry` as an example).
- "Too many clients" cannot happen in the select server with descriptors that fit an fd_set
  (`SelectServer.SlotFree`).
- In the one-byte `Readline` the branch for an interrupted call is never reached, because
  `Recv` ends the program on every error. So the program ends exactly when the call meets an
  error or one of the reads it makes is interrupted, where the buffered form goes on
  (`Readline.ReadLineByBytes`, with `Readline.InterruptedCall` as an example).

## Model

| member | source | states |
|---|---|---|
| Fields.SplitJoin | unpv13e - Copy/libfree/inet_pton.c:96-122 | splitting the joined fields at the separator gives the fields back, if none contains it |
| Fields.JoinSplit | unpv13e - Copy/libfree/inet_pton.c:96-122 | joining the split of any text gives the text back |
| Fields.NumeralValue | unpv13e - Copy/libfree/inet_ntop.c:100-100 | the printed numeral is nonempty, has only digits of its base, and reads as the number printed |
| Fields.NumeralIff | unpv13e - Copy/libfree/inet_ntop.c:100-100 | a text is the one printed for a number if and only if it is in small letters, has no zero in front, and has that value |
| Fields.ValueIsPlaces | unpv13e - Copy/libfree/inet_pton.c:162-175 | the value read is each digit times its place, the first digit the most significant |
| Fields.DigitTable | unpv13e - Copy/libfree/inet_pton.c:145-146 | letters mean the same in either case |
| Fields.OtherDigit | unpv13e - Copy/libfree/inet_pton.c:145-146 | there are no other digits than the ten figures and six letters |
| Inet4.Pton4 | unpv13e - Copy/libfree/inet_pton.c:86-125 | accepts exactly four dot-separated nonempty groups of digits of value at most 255, of any length, and returns their values; on rejection nothing is stored |
| Inet4.QuadIff | unpv13e - Copy/libfree/inet_pton.c:86-125 | a text is accepted, and for which address, if and only if it is four nonempty groups of figures with those values joined by dots |
| Inet4.Ntop4 | unpv13e - Copy/libfree/inet_ntop.c:91-107 | prints the dotted quad, and fails exactly when the text without its NUL is longer than the buffer; so the NUL falls behind the buffer if and only if the text is as long as the buffer |
| Inet4.OneTooMany | unpv13e - Copy/libfree/inet_ntop.c:101-105 | `1.2.3.4` is put into a buffer of seven bytes |
| Inet4.QuadTextIff | unpv13e - Copy/libfree/inet_ntop.c:91-107 | of all the texts accepted for an address the one without needless zeros is printed |
| Inet4.QuadRoundTrip | unpv13e - Copy/libfree/inet_ntop.c:91-107 | parsing the printed text gives the address back, for every address |
| Inet4.QuadTextFits | unpv13e - Copy/libfree/inet_ntop.c:97-98 | the text has at most 15 characters |
| Inet4.Aton | unpv13e - Copy/libfree/inet_aton.c:22-75 | accepts one to four groups of digits, also empty ones, whose values modulo 2^64 are at most 255, and pads missing groups with zeros on the right |
| Inet4.DottedIff | unpv13e - Copy/libfree/inet_aton.c:22-75 | a text is accepted, and for which address, if and only if it is one to four groups of figures joined by dots whose values modulo 2^64 are the first bytes, the others being zero |
| Inet4.Normalize | unpv13e - Copy/libfree/inet_aton.c:64-72 | shifting the groups read into place is padding them with zero bytes |
| Inet4.QuadIsDotted | unpv13e - Copy/libfree/inet_aton.c:22-75 | on every string that inet_pton4 accepts, inet_aton gives the same address |
| Inet6.Pton6 | unpv13e - Copy/libfree/inet_pton.c:140-224 | returns the address the text denotes, or rejects it: fields between colons, at most one empty one, an embedded dotted quad at the end, sixteen bytes in all |
| Inet6.Pton6Body | unpv13e - Copy/libfree/inet_pton.c:159-204 | the character loop reads the fields one by one as the definition does |
| Inet6.Finish | unpv13e - Copy/libfree/inet_pton.c:205-223 | expands the double colon and accepts only a complete address |
| Inet6.ShiftTail | unpv13e - Copy/libfree/inet_pton.c:205-218 | the shift by hand, with source and destination overlapping, inserts the missing zero bytes at the colon |
| Inet6.GroupIff | unpv13e - Copy/libfree/inet_pton.c:162-175 | a group is any number of hexadecimal digits of either case with a value below 2^16 |
| Inet6.GroupBytesAt | unpv13e - Copy/libfree/inet_pton.c:184-187 | each group becomes two bytes, the high one first |
| Inet6Text.Denotes | unpv13e - Copy/libfree/inet_pton.c:140-224 | for every text built from groups, a double colon anywhere or none, and a last piece that may be a dotted quad or empty, the address it stands for, or that it has the wrong size |
| Inet6Text.Reads | unpv13e - Copy/libfree/inet_pton.c:140-224 | and every accepted text is built that way, so those are exactly the accepted texts and their addresses |
| Inet6Text.OneReading | unpv13e - Copy/libfree/inet_pton.c:159-204 | no text can be built in two ways |
| Inet6Text.DoubleIff | unpv13e - Copy/libfree/inet_pton.c:176-186 | a text has two colons side by side exactly when it was built with a double colon |
| Inet6Text.Elision | unpv13e - Copy/libfree/inet_pton.c:162-220 | an accepted text with `::` is the bytes before it, the missing zeros and the bytes after it; when none is missing, the bytes before it and zeros |
| Inet6Text.FullAddressColon | unpv13e - Copy/libfree/inet_pton.c:134-134 | `::` put anywhere into a full address, also in front, at the end or before a dotted quad, is accepted and zeroes all that follows, so it is ignored if and only if all that follows was zero |
| Inet6Text.ZeroedAddress | unpv13e - Copy/libfree/inet_pton.c:205-218 | `::1:2:3:4:5:6:7:8` is accepted as all zeros |
| Inet6Text.TrailingColon | unpv13e - Copy/libfree/inet_pton.c:199-204 | one colon after a last group changes nothing |
| Inet6Text.GrammarAccepted | unpv13e - Copy/libfree/inet_pton.c:127-138 | every text of section 2.2 of RFC 1884, read generously, is accepted and means what that section says |
| Inet6Text.OutsideGrammarIff | unpv13e - Copy/libfree/inet_pton.c:127-138 | an accepted text is outside that grammar, read generously (`::` for one group or more, any leading zeros), if and only if it ends in one colon or has `::` with all sixteen bytes |
| Inet6Text.BeyondLetterIff | unpv13e - Copy/libfree/inet_pton.c:127-138 | read to the letter, an accepted text is outside it if and only if it ends in one colon, has `::` for less than two groups, or has a number of more digits than it may need |
| Inet6.WalkAllGroups | unpv13e - Copy/libfree/inet_pton.c:162-204 | hexadecimal groups alone contribute their two bytes each, in order |
| Inet6Print.ToWords | unpv13e - Copy/libfree/inet_ntop.c:138-140 | the words are the pairs of bytes, high byte first |
| Inet6Print.FindRun | unpv13e - Copy/libfree/inet_ntop.c:141-162 | the run found is the leftmost longest run of zero words of at least two, and none is found exactly when there is no such run |
| Inet6Print.OneBestRun | unpv13e - Copy/libfree/inet_ntop.c:141-162 | the address determines that run |
| Inet6Canon.OneCanonical | unpv13e - Copy/libfree/inet_ntop.c:133-193 | an address has at most one canonical text: numbers without zeros in front, `::` for the first longest run of at least two zero pairs of bytes, a dotted quad just for an embedded IPv4 address |
| Inet6Canon.DotIff | unpv13e - Copy/libfree/inet_ntop.c:179-186 | the text has a dot if and only if twelve bytes are zero and the next two are not, or ten are zero and the next two all ones; then it ends in the dotted quad of the last four |
| Inet6Print.PrintedCanonical | unpv13e - Copy/libfree/inet_ntop.c:133-193 | what is printed is the canonical text |
| Inet6Print.Mapped | unpv13e - Copy/libfree/inet_ntop.c:179-186 | ten zero bytes, two of all ones and 1.2.3.4 are printed as `::ffff:1.2.3.4` |
| Inet6Print.TextRoundTrip | unpv13e - Copy/libfree/inet_ntop.c:164-193 | whatever run of zeros is elided, and with an embedded dotted quad or without, parsing the text gives the address back |
| Inet6Print.TextFits | unpv13e - Copy/libfree/inet_ntop.c:138-193 | the text has at most 39 characters |
| Inet6Print.Ntop6 | unpv13e - Copy/libfree/inet_ntop.c:115-204 | prints that canonical text, which parses back to the address and has a dotted quad just for an embedded IPv4 address, and fails exactly when text and NUL do not fit, so nothing falls behind the buffer; 40 bytes always do |
| Rtt.MinMaxNearest | unpv13e - Copy/lib/rtt.c:12-20 | of all timeouts between 2 and 60 the one chosen is the nearest to the one calculated, and the only one so near |
| Rtt.RttInfo.RttInit | unpv13e - Copy/lib/rtt.c:22-35 | the estimators start within their bounds and the first timeout is 3 seconds |
| Rtt.RttInfo.RttStop | unpv13e - Copy/lib/rtt.c:80-102 | after any sample the timeout is between 2 and 60, and whatever bounded the samples before still bounds the estimators if it bounds this one |
| Rtt.GivesUpAfter | unpv13e - Copy/lib/rtt.c:56-119 | k timeouts of a packet multiply its timer by 2^k and leave the estimates alone, and they give up if and only if k is more than MAXNREXMT |
| Rtt.StopBounded | unpv13e - Copy/lib/rtt.c:80-102 | a sample keeps the smoothed time between 0 and the largest sample and the deviation between 0 and the larger of 0.75 and that sample, and the timeout between 2 and 60 |
| Rtt.Elapsed | unpv13e - Copy/lib/rtt.c:45-54 | the wrapped difference of two timestamps is the time between them in milliseconds, exact below 2^32 |
| Rtt.SinceInit | unpv13e - Copy/lib/rtt.c:45-54 | timestamps count milliseconds from the second in which the estimators were reset |
| Rtt.AlarmRange | unpv13e - Copy/lib/rtt.c:62-67 | a timeout between 2 and 480 seconds gives an alarm of 2 to 480 whole seconds |
| Rtt.AlarmNearest | unpv13e - Copy/lib/rtt.c:62-67 | the alarm is the whole second nearest to the timeout, of two the later |
| DgSendRecv.Endpoint.SendRecv | unpv13e - Copy/rtt/dg_send_recv.c:26-92 | the call ends at the first datagram with its own sequence number, with that datagram's data, or at the fourth alarm if that comes first, and waits otherwise; it transmits once and again for every other alarm, always with the same sequence number; the state kept between calls is that of the function over events |
| DgSendRecv.HowItEnds | unpv13e - Copy/rtt/dg_send_recv.c:60-92 | the same for that function, from any state of a call |
| DgProtocol.RunKeeps | unpv13e - Copy/rtt/dg_send_recv.c:18-93 | every step of client, network, server and clock keeps the protocol invariant |
| DgProtocol.NeverStale | unpv13e - Copy/rtt/dg_send_recv.c:32-92 | over every run of at most 2^32 requests, a successful call returns the data of its own request, cut only where the server's 4088 bytes or the caller's buffer end |
| DgProtocol.SampleIsElapsed | unpv13e - Copy/rtt/dg_send_recv.c:60-90 | every sample is the time since the transmission that was answered, whichever retransmission that was and also after a give-up, if less than 2^32 milliseconds passed |
| DgProtocol.AcceptedIff | unpv13e - Copy/rtt/dg_send_recv.c:81-86 | a reply ends the call if and only if its request and the current one agree modulo 2^32 |
| DgProtocol.Schedule | unpv13e - Copy/lib/rtt.c:111-119 | the k-th retransmission uses 2^k times the timeout of the first transmission, which was between 2 and 60, with an alarm of 2 to 480 seconds |
| DgProtocol.AtMostFour | unpv13e - Copy/rtt/dg_send_recv.c:68-79 | a request is transmitted at most four times |
| DgProtocol.Estimates | unpv13e - Copy/lib/rtt.c:22-102 | after every run the estimators are bounded by the largest sample since they were reset, and the next request starts with a timeout between 2 and 60 and no retransmissions |
| DgCalls.Simulates | unpv13e - Copy/rtt/dg_send_recv.c:18-93 | in every run of the protocol each call that has ended began with the state the one before left, and its state, outcome and headers on the wire are those of the call on the events it saw |
| DgCalls.CallNeverStale | unpv13e - Copy/rtt/dg_send_recv.c:32-92 | over every run of at most 2^32 requests, what a call returns is the data of its own request, cut only so |
| DgCalls.Replay | unpv13e - Copy/rtt/dg_send_recv.c:26-92 | the method called with the events of the calls of any such run ends in the client's state and returns no stale reply |
| DgEstimates.Learns | unpv13e - Copy/lib/rtt.c:80-102 | in every run the smoothed time and the deviation are the samples since the last give-up, weighted 1/8 and 1/4 as they came, the timeout after an answered call is the smoothed time and four deviations within 2 and 60, and just a call that is given up makes all that forgotten |
| DgEstimates.WaitsLearned | unpv13e - Copy/rtt/dg_send_recv.c:26-79 | every transmission of every run waits 2^k times what the samples before its request say |
| DgEstimates.AfterEight | unpv13e - Copy/lib/rtt.c:93-101 | after a first sample of eight seconds the smoothed time is 1, the deviation 2.5625 and the timeout 11.25 |
| StrCli.OkAt | unpv13e - Copy/nonblock/strclinonb.c:27-123 | every call in an orderly record was in order when it was made: select asks about input until its end and about the socket while there is room, and about writing exactly when something waits; reads offer all the room; writes offer all that waits and take bytes read before, in order; the FIN follows the end of input with all of it written |
| StrCli.FinIsLast | unpv13e - Copy/nonblock/strclinonb.c:47-53 | after the FIN there is no second one, nothing is written to the socket and standard input is not read; all that was typed was sent before |
| StrCli.Copier.AskSelect | unpv13e - Copy/nonblock/strclinonb.c:27-39 | select asks about just what the buffers allow, and never about nothing |
| StrCli.Copier.FromStdin | unpv13e - Copy/nonblock/strclinonb.c:42-62 | reads with room, stores the bytes behind those waiting, and sends the FIN at the end if none wait |
| StrCli.Copier.FromSocket | unpv13e - Copy/nonblock/strclinonb.c:64-86 | reads with room and stores the bytes behind those waiting |
| StrCli.Copier.ToStdout | unpv13e - Copy/nonblock/strclinonb.c:89-103 | offers all the bytes that wait, and takes from them as many as were written |
| StrCli.Copier.ToSocket | unpv13e - Copy/nonblock/strclinonb.c:105-122 | the same for the socket, with the FIN when the last one is written after the end of input |
| StrCli.Copier.Turn | unpv13e - Copy/nonblock/strclinonb.c:27-123 | a round does what the function on values says: it asks select about just what the buffers allow, and then reads or writes everything that was reported, or for which bytes have just been read, and nothing else; the invariant of buffers and record is kept |
| StrCli.StrCli | unpv13e - Copy/nonblock/strclinonb.c:22-124 | after any rounds: the result is that of the function over the rounds, every call was in order, bytes read are bytes written plus bytes buffered in both directions, the FIN was sent if and only if input has ended and nothing waits, the loop ended as the last call says, and when the server's FIN ends the loop everything received was shown if and only if the last select did not ask about standard output |
| StrCli.EndsIff | unpv13e - Copy/nonblock/strclinonb.c:42-122 | the loop ends with an error if and only if the last call made failed with something other than EWOULDBLOCK, and normally or too early if and only if it read the end of the connection, as input had ended or not; a call that would block never ends it |
| StrCli.AllShownIff | unpv13e - Copy/nonblock/strclinonb.c:69-76 | that last condition, for the function and all rounds, whether the loop returns or the server went too early |
| StrCli.UnshownRun | unpv13e - Copy/nonblock/strclinonb.c:69-76 | two rounds after which the loop returns with a byte received and not shown |
| AddrInfo.PortGroups | unpv13e - Copy/libgai/ga_port.c:30-65 | one more call for a new socket type adds one entry behind the first of every address |
| AddrInfo.Expansion | unpv13e - Copy/libgai/ga_port.c:8-28 | calls for any k different nonzero socket types leave, for each address in turn, one entry for each call with its own port |
| AddrInfo.Placed | unpv13e - Copy/libgai/ga_port.c:8-28 | there are k times n entries, and the one for address i and the m-th place of its group is at i*k+m |
| AddrInfo.AnyType | unpv13e - Copy/libgai/ga_serv.c:8-57 | with no socket type asked for, every address gets an entry for each protocol the service is offered on, and the call fails exactly when there is none or no address has a port |
| AddrInfo.NumericOrder | unpv13e - Copy/libgai/ga_serv.c:16-31 | for a port number the order is first address for streams, first address for datagrams, second address for streams, and so on, all with that port |
| AddrInfo.OneType | unpv13e - Copy/libgai/ga_serv.c:8-57 | with one asked for, the entries get its port if the service is offered for it, and the call fails exactly when it is not or no address has a port |
| AddrInfo.NameForAny | unpv13e - Copy/libgai/ga_serv.c:34-57 | for a name and no socket type each address has an entry for streams with the tcp port if there is one, and one for datagrams with the udp port if there is one, streams first; the result is 0 if and only if there is a port and an Internet address |
| AddrInfo.NumberForAny | unpv13e - Copy/libgai/ga_serv.c:16-31 | for a number and no socket type each address has an entry for streams and one for datagrams with that port |
| AddrInfo.ForOneType | unpv13e - Copy/libgai/ga_serv.c:16-57 | for one socket type each address keeps its entry and gets the number, or the port the name has for that protocol; the result is 0 if and only if there is one and an Internet address |
| AddrInfo.Structs | unpv13e - Copy/libgai/ga_aistruct.c:18-22 | entries marked for cloning without a socket type are the list those results start from |
| AddrInfoList.GaClone | unpv13e - Copy/libgai/ga_clone.c:8-30 | the copy is a new node with a new socket address, linked behind its source and not marked for cloning; it is in the list also when the second allocation fails |
| AddrInfoList.CloneIn | unpv13e - Copy/libgai/ga_clone.c:8-30 | in a list, exactly one entry is inserted behind its source and every other one stays as it was; when memory runs out the list is as it was, or has that entry without its socket address, and can still be walked |
| AddrInfoList.AssignIn | unpv13e - Copy/libgai/ga_port.c:45-62 | setting type and port changes that entry and no other, so a clone's port never changes its source |
| AddrInfoList.Visit | unpv13e - Copy/libgai/ga_port.c:36-63 | one turn of the walk puts in the place of an entry what the function on values makes of it; when memory runs out it leaves what CloneIn leaves |
| AddrInfoList.GaPort | unpv13e - Copy/libgai/ga_port.c:30-65 | the walk ends although the list grows under it, visits each original entry once, leaves the list the function on values says, and returns how many ports it set; or -1, only when memory ran out, with the entries before some place done, those from it untouched, and at most one more without a socket address |
| AddrInfoList.GaAistruct | unpv13e - Copy/libgai/ga_aistruct.c:8-72 | appends one new entry at the tail with the address, family, protocol and socket type given and port 0, marked for cloning exactly when no socket type was asked for; when memory runs out the entry is missing or has no socket address |
| AddrInfoList.GaServ | unpv13e - Copy/libgai/ga_serv.c:8-57 | the list after the calls of ga_port for a service, and the result: no memory, with the list that some one of those calls was cut short with, nothing found for any type, nothing found for that type, or success |
| SigioRing.RunKeeps | unpv13e - Copy/sigio/dgecho01.c:43-108 | every step of set-up, main loop, handler, signal delivery and arrival keeps the invariant, from a bound socket with any datagrams in it; nqueue-- is two steps, between which no handler runs |
| SigioRing.SentIsOldest | unpv13e - Copy/sigio/dgecho01.c:64-65 | sendto sends the first 4096 bytes of the oldest datagram not yet echoed, to the client it came from |
| SigioRing.EchoedInOrder | unpv13e - Copy/sigio/dgecho01.c:43-108 | datagrams are echoed in order of arrival, each at most once, with their first 4096 bytes and to the client they came from |
| SigioRing.RingIndex | unpv13e - Copy/sigio/dgecho01.c:67-72 | iput is iget plus nqueue modulo QSIZE, less one between the advance of iget and nqueue-- |
| SigioRing.NeverOverwritten | unpv13e - Copy/sigio/dgecho01.c:62-65 | no step changes the slot that is being sent |
| SigioRing.HistogramAddsUp | unpv13e - Copy/sigio/dgecho01.c:101-107 | the weighted sum of cntread is what handlers that returned have read, with nread and a datagram just read for the one running, and its last entry stays 0 |
| SigioRing.NeverFull | unpv13e - Copy/sigio/dgecho01.c:86-87 | outside the handler the ring always has room |
| SigioRing.OverflowIff | unpv13e - Copy/sigio/dgecho01.c:86-87 | the program ends if and only if a handler tests the ring when QSIZE datagrams have been read whose slots the main loop has not given back |
| SigioRing.SleepsWhenDoneIff | unpv13e - Copy/sigio/dgecho01.c:43-59 | when the main loop sleeps with no signal pending, everything that arrived has been echoed if and only if some datagram came after FIOASYNC or none before |
| SigioRing.StrandedIff | unpv13e - Copy/sigio/dgecho01.c:43-108 | while a datagram waits to be echoed, the main loop, the handler or a pending signal can go on, if and only if it is neither of two cases: the loop sleeps and all datagrams came before FIOASYNC, or a handler started before FIONBIO waits in recvfrom |
| SigioRing.CapturedForever | unpv13e - Copy/sigio/dgecho01.c:48-49 | once a handler has started between FIOASYNC and FIONBIO, nothing is echoed in any run that follows |
| SigioRing.StrandedRun | unpv13e - Copy/sigio/udpserv01.c:16-18 | a run in which a datagram arrives after bind and before FIOASYNC, and nothing can go on |
| SigioRing.CapturedRun | unpv13e - Copy/sigio/dgecho01.c:48-49 | a run in which a signal comes between FIOASYNC and FIONBIO, and nothing can go on |
| Prefork.RunKeeps | unpv13e - Copy/server/serv05.c:43-81 | every step of parent and children keeps the invariant, for any number of children |
| Prefork.NavailCounts | unpv13e - Copy/server/serv05.c:54-62 | navail is the number of children with status 0, and "no available children" is never reached |
| Prefork.BusyExactlyOne | unpv13e - Copy/server/child05.c:33-53 | a busy child has exactly one of a descriptor in flight, a connection in progress and a ready byte in flight; child_count is what it was given |
| Prefork.ExactlyOneChild | unpv13e - Copy/server/serv05.c:50-65 | each accepted connection was given to exactly one child, which serves those it was given once each and in order |
| Prefork.GoesToIdle | unpv13e - Copy/server/serv05.c:54-64 | a connection goes to the first child with status 0, which is waiting and has nothing in its pipe |
| Prefork.RoundServesAll | unpv13e - Copy/server/serv05.c:66-80 | no read of a pipe blocks, and a round ends, also by the count of select, only when every pipe reported has been read |
| Prefork.ScanNeeded | unpv13e - Copy/server/serv05.c:69-80 | the scan of the pipes goes on only while one that was reported has not been read |
| Prefork.Conserved | unpv13e - Copy/server/serv05.c:50-65 | every client that connected waits or has been passed on, once |
| Prefork.NeverStuck | unpv13e - Copy/server/serv05.c:43-81 | while a client waits or a child is busy, the parent or a child can go on |
| ThreadPool.RunKeeps | unpv13e - Copy/server/serv08.c:38-50 | every step of the main thread and any number of workers keeps the invariant, with wakeups nobody asked for |
| ThreadPool.InAcceptOrder | unpv13e - Copy/server/pthread08.c:20-28 | descriptors leave the ring in the order they were accepted |
| ThreadPool.ExactlyOneWorker | unpv13e - Copy/server/pthread08.c:20-32 | each connection taken is had by exactly one worker: what a worker has served and is serving are those given to it, once each and in order, its descriptor is the one accepted, and its count is their number, one less between taking and counting |
| ThreadPool.DifferentConnections | unpv13e - Copy/server/pthread08.c:20-32 | two workers never have the same connection |
| ThreadPool.EmptyIff | unpv13e - Copy/server/pthread08.c:22-23 | iget equals iput if and only if nothing waits |
| ThreadPool.OverflowIff | unpv13e - Copy/server/serv08.c:43-47 | the program gives up if and only if a connection is put while MAXNCLI-1 wait |
| ThreadPool.OneHolder | unpv13e - Copy/server/pthread08.c:21-27 | at most one thread is between lock and unlock |
| ThreadPool.SleepsIff | unpv13e - Copy/server/pthread08.c:22-24 | a worker that looks goes to sleep if and only if no connection waits, and otherwise takes one |
| ThreadPool.ServesUnlocked | unpv13e - Copy/server/pthread08.c:27-31 | a worker that serves or sleeps does not hold the lock |
| ThreadPool.NeverAllAsleep | unpv13e - Copy/server/pthread08.c:22-23 | no connection waits while every worker sleeps, except the one about to be signalled |
| ThreadPool.EnoughLookers | unpv13e - Copy/server/serv08.c:48-49 | while any worker sleeps there is, for each waiting connection, a worker that will look before it sleeps or serves |
| ThreadPool.NeverStuck | unpv13e - Copy/server/pthread08.c:20-28 | while a connection waits, some thread can go on without a new connection or a wakeup nobody asked for |
| BoundedBuffer.RunKeeps | unpv13e - Copy/threads/example03.c:62-104 | every step of producer and consumer keeps the invariant, with wakeups nobody asked for |
| BoundedBuffer.InOrder | unpv13e - Copy/threads/example03.c:62-104 | the values come out as 0, 1, 2 and so on, each once, with at most BUFFSIZE on their way |
| BoundedBuffer.NeverBothAsleep | unpv13e - Copy/threads/example03.c:67-101 | producer and consumer never both sleep |
| BoundedBuffer.SleepsIff | unpv13e - Copy/threads/example03.c:67-90 | the producer goes to sleep if and only if ten values are on their way, the consumer if and only if none is |
| BoundedBuffer.OneHolder | unpv13e - Copy/threads/example03.c:65-101 | the two are never between lock and unlock at the same time |
| BoundedBuffer.NeverStuck | unpv13e - Copy/threads/example03.c:106-129 | one of them can always go on until both have returned, and then all the values have been moved |
| Checksum.InCksum | unpv13e - Copy/libfree/in_cksum.c:3-32 | the complement of the 16-bit representative of the sum kept in 32 bits |
| Checksum.TwoFolds | unpv13e - Copy/libfree/in_cksum.c:27-30 | two folds of any 32-bit sum give its representative, so two suffice |
| Checksum.OnesSumIsRep | unpv13e - Copy/libfree/in_cksum.c:11-19 | adding with end-around carry word by word gives the representative of the plain sum |
| Checksum.OddIsPadded | unpv13e - Copy/libfree/in_cksum.c:21-25 | an odd last byte counts as if a zero byte followed it |
| Checksum.Rfc1071Example | unpv13e - Copy/libfree/in_cksum.c:11-19 | the example of section 3 of RFC 1071 has the sum given there |
| Checksum.CorrectIff | unpv13e - Copy/libfree/in_cksum.c:16-31 | for every length an int can hold, in_cksum is the complement of the one's complement sum if and only if the plain sum fits in 32 bits |
| Checksum.LostCarry | unpv13e - Copy/libfree/in_cksum.c:16-31 | 65538 words of all ones are too many: the value in_cksum gives for them is not the complement of their sum |
| Checksum.Fits | unpv13e - Copy/libfree/in_cksum.c:16-31 | it always does for up to 65537 words |
| Checksum.StoredChecks | unpv13e - Copy/libfree/in_cksum.c:16-31 | a checksum stored in a zeroed field makes the check over the whole buffer give 0 |
| Checksum.OrderIndependent | unpv13e - Copy/libfree/in_cksum.c:16-31 | swapping the bytes of every word swaps those of the result, so hosts of either order store the same two bytes, and so does in_cksum on both as long as no carry is lost |
| Checksum.FillHeader | unpv13e - Copy/udpcksum/udpwrite.c:35-48 | the header fields are filled in and the user data stays |
| Checksum.HeaderFields | unpv13e - Copy/udpcksum/udpwrite.c:36-48 | protocol, both lengths, addresses and ports stand at their places |
| Checksum.UdpWrite | unpv13e - Copy/udpcksum/udpwrite.c:28-56 | the header fields stand at their places and the user data stays, the checksum is stored where it was zero, all ones in place of zero, and the field stays zero if checksums are off |
| Checksum.UdpChecks | unpv13e - Copy/udpcksum/udpwrite.c:49-56 | what is sent passes the receiver's check and never looks like a datagram without a checksum |
| Readline.Kernel.Read | unpv13e - Copy/lib/readline.c:14-19 | a read delivers some of the next bytes, the end, an error, or, exactly when it is its turn, an interruption |
| Readline.Reader.Refill | unpv13e - Copy/lib/readline.c:12-21 | an interrupted read is repeated, and then the buffer holds the next bytes of the stream |
| Readline.Reader.MyRead | unpv13e - Copy/lib/readline.c:8-26 | the next byte of the stream, its end or an error, however the bytes came |
| Readline.Reader.ReadLine | unpv13e - Copy/lib/readline.c:28-49 | line, value and remaining stream are those of the loop over the stream, for all ways the bytes are delivered and interrupted |
| Readline.Reader.ReadLineBuf | unpv13e - Copy/lib/readline.c:51-57 | the rest of the buffer, which with what the kernel holds is all that is unread |
| Readline.ReadLineByBytes | 20251106-SocketC/src/wraplib.c:33-55 | the same line, value and rest, unless the program ends, which it does if and only if the call meets an error or one of the reads it makes is interrupted |
| Readline.ReadLines | unpv13e - Copy/lib/readline.c:28-49 | call after call, the buffered form gives the lines of the loop over the stream |
| Readline.ReadLinesByBytes | 20251106-SocketC/src/wraplib.c:33-55 | and so does the one-byte form, up to the first call that meets an error or has one of its reads interrupted; the program ends if and only if there is such a call |
| Readline.InterruptedCall | 20251106-SocketC/src/wraplib.c:33-55 | one interrupted read: the one-byte form ends the program and the buffered one returns the line |
| Readline.LineConserves | unpv13e - Copy/lib/readline.c:34-48 | what a call stores, the error it meets and what it leaves are the stream |
| Readline.CallsConserve | unpv13e - Copy/lib/readline.c:28-57 | the same over any number of calls |
| Readline.NextEnds | unpv13e - Copy/lib/readline.c:35-48 | a newline is only ever stored last, and a call without one ends for want of room, at the end of the stream, or at an error |
| Readline.ReturnIsLengthIff | unpv13e - Copy/lib/readline.c:35-48 | for every stream and length: the value returned is one more than the bytes stored if and only if neither a newline nor the end nor an error comes within the room, -1 if and only if an error comes first, and the number of bytes stored otherwise |
| Readline.CutLine | unpv13e - Copy/lib/readline.c:35-48 | three bytes of a longer line are stored and 4 is returned |
| WebFetch.Fetcher.constructor | unpv13e - Copy/nonblock/web.c:20-34 | the invariant holds at first, with at most MAXFILES files |
| WebFetch.Fetcher.WriteGetCmd | unpv13e - Copy/nonblock/write_get_cmd.c:4-18 | the file is being read and its descriptor is in rset and within maxfd |
| WebFetch.Fetcher.StartConnect | unpv13e - Copy/nonblock/start_connect.c:4-31 | one untouched file gets a descriptor of its own and is connecting or, if connect was done at once and the request written, reading; any error ends the program; and the sets hold just the live descriptors |
| WebFetch.Fetcher.StartConnections | unpv13e - Copy/nonblock/web.c:38-48 | connections are started, for the files in order, until the limit or the files are reached, and nothing else changes |
| WebFetch.Fetcher.FindFile | unpv13e - Copy/nonblock/web.c:40-44 | the first untouched file is found; "nothing found" is never reached |
| WebFetch.Fetcher.Serve | unpv13e - Copy/nonblock/web.c:54-84 | a connecting file that was reported is reading, one being read that was reported readable is done at its end, and nothing else happens; the program ends if and only if a call for it fails; and the invariant holds: nlefttoconn counts untouched files, nconn live ones up to maxnconn, nlefttoread both, rset and wset exactly the live and connecting descriptors |
| WebFetch.Fetcher.ServeAll | unpv13e - Copy/nonblock/web.c:54-84 | the same for every file; then no reported connection is still in progress, and just those files are done that were, or that were being read and came to their end |
| WebFetch.Fetcher.Run | unpv13e - Copy/nonblock/web.c:37-85 | over any number of rounds the invariant holds, no file goes back to an earlier stage, nlefttoread is 0 if and only if all files are done, and, with files to fetch, select waits on nothing if and only if maxnconn is not positive |
| SelectServer.Server.constructor | unpv13e - Copy/tcpcliserv/tcpservselect01.c:26-31 | the table is empty and allset is the listening descriptor |
| SelectServer.SlotFree | unpv13e - Copy/tcpcliserv/tcpservselect01.c:48-55 | while all descriptors are below FD_SETSIZE a slot is free, so "too many clients" is never reached |
| SelectServer.Server.NewClient | unpv13e - Copy/tcpcliserv/tcpservselect01.c:39-60 | the new descriptor goes into the first free slot, and there is none exactly when the program ends, which needs a descriptor of FD_SETSIZE or more |
| SelectServer.Server.ServeOne | unpv13e - Copy/tcpcliserv/tcpservselect01.c:70-76 | a client that closed leaves the table and allset, others stay |
| SelectServer.Server.ServeClients | unpv13e - Copy/tcpcliserv/tcpservselect01.c:66-81 | every reported client is served exactly once although the loop stops when nready is used up, and only those that closed leave the table |
| SelectServer.Server.Round | unpv13e - Copy/tcpcliserv/tcpservselect01.c:35-82 | a round keeps allset equal to the listening descriptor and the occupied slots, with different descriptors within maxi and maxfd, serves each reported client once, puts a new one into the first free slot, empties just the slots of reported clients that closed, and ends the program exactly when a connection finds the table full, which needs a descriptor of FD_SETSIZE or more |
| SelectServer.Server.Run | unpv13e - Copy/tcpcliserv/tcpservselect01.c:35-82 | over any number of rounds the table is in order at every turn of the loop, and the program ends only with the table full and a descriptor of FD_SETSIZE or more |

## Left out

- Sockets, signals, fork, threads and standard input and output beyond what each call may return; error printing; option parsing; name service.
- Real time: an alarm may go off at any moment after a transmission, and `sigsetjmp` is the step it causes.
- Rounding of floating point numbers in `rtt.c`.
- In-place update of the variables shared by threads, children and the signal handler: `SigioRing`, `Prefork`, `ThreadPool` and `BoundedBuffer` are steps on values, so aliasing there is not modelled.
- Children of the preforked server that terminate, and connections that vanish between select and accept.
- Liveness beyond the absence of deadlock: that a thread which can go on does.
- The other `libgai` files, canonical names, and addresses of the local domain in `ga_aistruct`; the digits of a numeric port.
- The home page fetched first by `web.c`.
- The limit FD_SETSIZE on descriptors in `web.c` and in the select server: a set may hold any descriptor, although FD_SET must not be given one so large.
- The IP header that `udp_write` fills in after the checksum.
- `readlinebuf` after an error, which returns -1 and an old address.
- Checksum.InCksum: takes the buffer as a value, because it only reads it.
- Other versions of these programs (`threads/web03.c`, `nonblock/tcpservselect03.c`, `icmpd`, `server/readline.c`), and the rest of the repository.
