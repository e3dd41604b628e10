# Verification of RPSTIR's rpki-rtr server, codecs and URI chaser

A Dafny model of the parts of RPSTIR that keep state or do delicate arithmetic, with
proofs of what they promise. `dafny verify dfyconfig.toml` checks the whole project.

**The rpki-rtr daemon** (`RtrServer`, `RtrServerInvariant`, `RtrServerTheorems`,
`RtrServerClosing`). Connection threads and database workers are one state machine: any
number of connections, any number of workers, a shared request queue, a bag of half-answered
requests with its lock, one response queue and one semaphore per connection, and the counting
semaphore the workers sleep on. A push on a queue and the sem_post after it are separate
steps, and so are a worker's readings of the cancel flag and of the queue size of a bag entry.
The invariant holds the two counting inequalities behind the workers' semaphore and the single
ownership of requests; the theorems are about every run.

A finding: a connection that has drained its responses can be gone while a worker still has to
post to its semaphore, because the control thread's posts for a readable socket let the drain
run ahead. `RtrServerClosing.ClosedTooEarly` is such a run. `ClosedExactly` states when nothing
refers to a closed connection, by an account of the connection's semaphore that balances in
every state of every run (`RunBalanced`), and `QuietDrainIsSafe` what a maintainer can arrange.

**The rtr database** (`RtrTables`, `RtrUpdate`, `RtrUpdateTheorems`, `RtrUpdateProgram`). The SQL
statements are functions on the contents of `rtr_full`, `rtr_incremental` and `rtr_update`;
an update run is a sequence of atomic statements that can be cut short between any two.
`RtrUpdateProgram` is the program itself, a class that changes the tables, proved to take
only steps of that machine. `RtrNumbering` is about the serial numbers it gives.
`RtrSerialQuery` and `RtrResetQuery` put the two queries of the server, one SELECT a step,
between the statements of updates (`RtrOrder` is the order and the paging of their rows). All
runs start from empty tables.

Two findings. A serial number that is given on the command line a second time can mislead a
router that has the data of its first use: `RtrReuseExample.ReusedNumberMisleads`.
`RtrSerialQuery.DeliversExactly` states when the serial query is exact all the same: if and
only if no row was made again with the number at which the query was, or the last one for the
data that the router had by then. Before the query begins, that is whether the router's number
still stands for the router's data (`EarlyReuseDelivers`). One kind of reuse is assumed away
there: that a row is made again while the query is reading its delta. While the updates number
their rows themselves no number is used twice before 2^32 rows (`RtrNumbering.AutomaticIsNew`),
and then the query is exact (`RtrSerialQuery.SerialQueryDelivers`). The reset query never looks again at the row it chose,
so "End of Data means that all data was sent" is false for it: for every number of rows in a
response and all data that fills one, `RtrResetExample.TwoUpdatesTruncate` is a run in which
two updates overlap one reset query and the rest of the data is silently missing.
`RtrResetQuery.ResetCompleteExactly` states, in terms of the order of the steps and the number
of rows, when a response is complete, and `ResetCompleteWithOneUpdate` that it always is when
at most one update run overlaps the query. `RtrUpdateRuns` has the update runs that these
examples are made of.

**Serial Notify** (`RtrNotify`). The connection thread's loop as a class; `MainLoop` states what
a turn sends, and `Serve` the rate limit, the order of PDUs and the growth of serial numbers
over every sequence of turns. Only the readings of the clock within one turn have to be in
order. `RtrProtocol` has what this module and `RtrServer` share.

**Codecs.** `Pdu` and `PduStream`: the nine PDU types both ways, and the cutting of the input
into PDUs for every way the socket cuts the stream. `AddressBits` and `AddressRange`: address
blocks of RFC 3779 for addresses of any length. `AsnTable`: the flat table of a DER string.
`OfChain`: the linked chain behind SEQUENCE OF. `CasnInteger`: INTEGER. `Calendar` and
`UtcTime`: UTCTime against the Gregorian calendar; the reader's leap years are not those of
that calendar (`FirstRejected`, `CountsUpTo2100`). `NetworkBytes`, `Counting`, `Sequences` and
`Options` are shared helpers.

**The URI chaser** (`ChaserSegments`, `ChaserPath`, `ChaserNormal`, `ChaserSubsume`). The
in-place passes over a path are related to operations on its segments, ".." to a stack. On
some paths the passes read beyond the end of their string: `Overruns` says on which, and the
methods tell it by a result. The list of URIs is struck out and compacted in place. Full
minimality of that list is false (`NotMinimal`); `KeptUnderExactly` gives the exact condition.

## Model

| member | source | states |
|---|---|---|
| RtrServerInvariant.RunInv | bin/rpki-rtr/db.c:227-445 | in every reachable state, with any number of threads: tokens, unscanned workers and owed posts cover the serviceable bag entries, and with the workers that scanned in vain also the request queue; every outstanding request has exactly one owner; the lock and each connection's history are consistent |
| RtrServerTheorems.NoLostWakeUp | bin/rpki-rtr/db.c:315-445 | if all workers sleep, the semaphore is zero and no post is owed, then the request queue is empty and every bag entry is uncancelled with a full response queue |
| RtrServerTheorems.NoForgottenRequest | bin/rpki-rtr/connection.c:498-576 | in such a state every request still to be answered has a full buffer for its connection to read |
| RtrServerTheorems.ExactlyOnePlace | bin/rpki-rtr/db.c:161-334 | a responding connection's request is in exactly one of queue, bag and workers' service, or finished with exactly one unread final response, behind all others |
| RtrServerTheorems.OneFinalResponseEach | bin/rpki-rtr/db.c:161-334 | each request gets exactly one final response, none before it is answered, and no response of the request follows it |
| RtrServerTheorems.BackPressure | bin/rpki-rtr/db.c:339-396 | at most 3 unread responses while uncancelled and 4 at all, although size check and push are steps of different threads |
| RtrServerTheorems.QueriesInOrder | bin/rpki-rtr/connection.c:507-576 | a ready connection at the head of its loop has both queues empty; accepted queries are submitted in arrival order with at most one outstanding |
| RtrServerTheorems.NoErrorBranch | bin/rpki-rtr/connection.c:514-521 | the branch for a non-empty response queue is never taken |
| RtrServerClosing.RunBalanced | bin/rpki-rtr/connection_control.c:262-284 | in every state of every run, a connection's tokens, the one in its hands, those spent without a response and the posts still owed by workers are the posts for its socket and its unread responses |
| RtrServerClosing.ClosedExactly | bin/rpki-rtr/connection.c:874-942 | once cleanup has drained to the final response, queue, bag and service do not refer to the request, and no worker will post to it if and only if the posts for the socket and the responses taken are no more than the tokens taken and left |
| RtrServerClosing.UnreferencedForGood | bin/rpki-rtr/connection.c:874-942 | then nothing refers to it ever after |
| RtrServerClosing.QuietDrainIsSafe | bin/rpki-rtr/connection.c:890-924 | that is so if the posts for the socket and the responses taken were no more than the tokens taken when the drain began and no more posts for the socket come |
| RtrServerClosing.ClosedTooEarly | bin/rpki-rtr/db.c:161-178 | a run that ends with the connection closed and a worker between its push of the final response and its post |
| RtrTables.ReplayInjective | lib/db/prep-stmt.c:85-96 | two routers that end with the same data after the same changes began with the same data |
| RtrTables.ReplayDiff | lib/db/prep-stmt.c:85-96 | replaying the difference of two snapshots, in any order of its rows, leads from the first to the second with every announcement new and every withdrawal present |
| RtrUpdate.DeleteOldUpdateIsSuffix | lib/db/prep-stmt.c:118-122 | removing old rows removes an initial segment of the path, and the rest is a path |
| RtrUpdate.StepKeepsOk | bin/rpki-rtr/rtr-update.c:107-245 | every statement, every start and every crash keeps the invariant of tables and program |
| RtrUpdate.RunOk | bin/rpki-rtr/rtr-update.c:107-245 | the invariant holds at every statement boundary of every sequence of runs, each cut short anywhere |
| RtrUpdateTheorems.CrashSafe | bin/rpki-rtr/rtr-update.c:107-245 | at every boundary: a row with has_full has its whole snapshot, a row with a predecessor exactly its delta, and the latest row has its full data |
| RtrUpdateTheorems.PathEvolves | bin/rpki-rtr/rtr-update.c:195-245 | the rows form one simple path under prev_serial_num, and a step leaves it, extends it by one row or removes an initial segment |
| RtrUpdateTheorems.LinkReplays | lib/db/prep-stmt.c:85-96 | the delta of a row replays its predecessor's snapshot to its own |
| RtrUpdateTheorems.EveryChainDelivers | bin/rpki-rtr/rtr-update.c:131-245 | for any two surviving serial numbers, the incremental rows between them lead from the older snapshot to the newer, every change valid at its turn |
| RtrUpdateProgram.Database.GetLatest | lib/db/clients/rtr.c:182-249 | returns a row whose create_time is the greatest, or none if there are no rows |
| RtrUpdateProgram.Database.Open | bin/rpki-rtr/rtr-update.c:85-129 | the latest row's number or a random one, and the number on the command line or the next one, with wrap-around to zero |
| RtrUpdateProgram.Database.Prepare | bin/rpki-rtr/rtr-update.c:107-153 | incomplete data is gone, the data of rows is as it was, and the program goes on if and only if it is the first run or the serial numbers are good |
| RtrUpdateProgram.Database.Copy | bin/rpki-rtr/rtr-update.c:155-168 | the new number has exactly the ROAs in rtr_full and exactly the changes in rtr_incremental; no row changes |
| RtrUpdateProgram.Database.Publish | bin/rpki-rtr/rtr-update.c:170-222 | afterwards the newest serial number stands for exactly the copied ROAs, whether a row was inserted or not needed |
| RtrUpdateProgram.Database.CleanUp | bin/rpki-rtr/rtr-update.c:224-245 | the clean-up keeps what the newest serial number stands for |
| RtrUpdateProgram.Database.Update | bin/rpki-rtr/rtr-update.c:85-245 | the whole program takes only steps of the machine, wherever it dies; it finishes if and only if it does not die and there is no row yet or the serial numbers are good, and then the newest serial number stands for the valid ROAs |
| RtrOrder.PageAdvances | lib/db/prep-stmt.c:30-44 | the rows behind a key are the page followed by the rows behind its last row |
| RtrOrder.ShortPageIsLast | lib/db/clients/rtr.c:732-897 | a page that is not full is the last |
| RtrNumbering.AutomaticIsNew | bin/rpki-rtr/rtr-update.c:85-129 | in every sequence of runs without numbers from the command line, fewer than 2^32 rows inserted, an update never makes a row with a number used before |
| RtrNumbering.SnapFixed | bin/rpki-rtr/rtr-update.c:85-129 | so what a serial number stands for never changes |
| RtrNumbering.RunNumbersLast | bin/rpki-rtr/rtr-update.c:85-245 | both for the runs of the update machine itself |
| RtrSerialQuery.DeliversExactly | lib/db/clients/rtr.c:579-1027 | if a serial query ends with End of Data for t, replaying its rows leads exactly from the data the router once got to the data of t, whatever updates did between its SELECTs, if and only if no row was made again with the number at which the query was, or the last one for what the router had after the rows sent by then |
| RtrSerialQuery.EarlyReuseDelivers | lib/db/clients/rtr.c:579-1027 | if that happened only before the query began, it is exact if and only if the router's number still stood for the router's data when it began |
| RtrSerialQuery.NewNumbersDeliver | lib/db/clients/rtr.c:579-1027 | so it is exact in every run in which no number was used twice |
| RtrSerialQuery.SerialQueryDelivers | lib/db/clients/rtr.c:579-1027 | the same for every run with automatic numbers and fewer than 2^32 rows |
| RtrReuseExample.ReusedNumberMisleads | bin/rpki-rtr/rtr-update.c:115-153 | a run in which a number from the command line is used a second time and a serial query ends with End of Data for it while the router keeps the old data |
| RtrResetQuery.NewNumbersComplete | lib/db/clients/rtr.c:1100-1328 | when no number was used twice: a reset response that ends with End of Data is complete if and only if every clean-up that deletes its data after the query chose it comes when the pages read so far hold all its rows |
| RtrResetQuery.ResetCompleteExactly | lib/db/clients/rtr.c:1100-1328 | the same for every run with automatic numbers and fewer than 2^32 rows |
| RtrResetQuery.ResetCompleteWithOneUpdate | bin/rpki-rtr/rtr-update.c:224-245 | it is complete whenever at most one update run is alive during the query |
| RtrResetExample.TwoUpdatesTruncate | lib/db/clients/rtr.c:1100-1328 | for every number of rows in a response and all data that fills one, a run from empty tables in which two updates overlap a reset query whose response then lacks rows |
| RtrNotify.GreaterIsAhead | lib/rpki-rtr/pdu.c:12-26 | serial_number_greater is section 3.2 of RFC 1982: less than half the circle ahead, never both ways, undefined exactly for opposite numbers |
| RtrNotify.Connection.constructor | bin/rpki-rtr/connection.c:104-153 | the connection starts ready with the global cache state and its first check a minute later |
| RtrNotify.Connection.SendNotify | bin/rpki-rtr/connection.c:341-362 | one Notify with the held session and serial; the next check is a minute later |
| RtrNotify.Connection.CheckGlobalCacheState | bin/rpki-rtr/connection.c:813-828 | notifies if and only if newer data is available, and when the next check is; another session ends the thread |
| RtrNotify.Connection.SendOfResponse | bin/rpki-rtr/connection.c:740-775 | an End of Data updates the held serial without a Notify, or ends the thread if the session differs |
| RtrNotify.Connection.HandleQuery | bin/rpki-rtr/connection.c:626-666 | a query of another session gets Cache Reset; otherwise it waits or becomes the request |
| RtrNotify.Connection.SendResponse | bin/rpki-rtr/connection.c:718-783 | exactly the PDUs before an End of Data of another session are sent, in order |
| RtrNotify.Connection.Resume | bin/rpki-rtr/connection.c:785-804 | waiting queries are answered with Cache Reset until one becomes the request; the rest keep waiting |
| RtrNotify.Connection.HandleResponse | bin/rpki-rtr/connection.c:718-810 | all of that for one response: what is sent, whether the thread ends, the new mode, the queries still waiting and the number of requests |
| RtrNotify.Connection.HandleInput | bin/rpki-rtr/connection.c:964-981 | exactly the answer to the input is sent, and the thread ends if and only if the input ends it |
| RtrNotify.Connection.MainLoop | bin/rpki-rtr/connection.c:964-988 | a turn sends exactly the answer to its input, then a Notify if and only if the thread is alive, ready and due and there is newer data of the same session than what the router can know of |
| RtrNotify.Serve | bin/rpki-rtr/connection.c:1010-1030 | over every run: Notifies at least 60 seconds apart, none between two PDUs of one response, each with a serial greater than the one held before, one session |
| RtrNotify.NotifiesIncrease | bin/rpki-rtr/connection.c:688-715 | while all serials lie within half the circle, any later Notify carries a greater serial than any earlier one |
| AddressRange.CvtAsn | lib/rpki/conversion.c:4-27 | the limits are filled with the lowest and the highest address that start with the bit strings |
| AddressRange.WriteRtrimBitstring | lib/rpki-object/certificate.c:267-303 | the bit string is the address without its longest run of the trimmed bit, padded with zeroes |
| AddressRange.CommonPrefix | lib/rpki-object/certificate.c:350-367 | the length of the common prefix in bits |
| AddressRange.IsPrefix | lib/rpki-object/certificate.c:369-410 | true if and only if behind the common prefix low is all zeroes and high all ones |
| AddressRange.BlockExactly | lib/rpki-object/certificate.c:369-410 | that is so if and only if the range is all addresses that share some number of leading bits |
| AddressRange.MakeIPAddrOrRange | lib/rpki-object/certificate.c:305-445 | fails if and only if low is above high; otherwise decodes to exactly low and high, is a prefix if and only if some prefix stands for the range, and trims a range as far as possible |
| AddressRange.RoundTrip | lib/rpki/conversion.c:4-27 | cvt_asn after make_IPAddrOrRange gives back low and high, in limits of any sufficient length |
| Pdu.ExtractUint | lib/rpki-rtr/pdu.c:31-46 | the loop computes the number in network byte order |
| Pdu.ParseExtends | lib/rpki-rtr/pdu.c:48-273 | a verdict other than TRUNCATED is the verdict on every longer input |
| Pdu.TruncatedIsShort | lib/rpki-rtr/pdu.c:48-273 | once the header is there, TRUNCATED means fewer bytes than its length field says |
| Pdu.ParseOfEncode | lib/rpki-rtr/pdu.c:48-355 | parsing a dumped well-formed PDU of any of the nine types, whatever follows it, gives the PDU back with its verdict |
| Pdu.EncodeOfParse | lib/rpki-rtr/pdu.c:48-355 | dumping a GOOD or WARNING parse gives back exactly the bytes of its length field |
| PduStream.DumpPdu | lib/rpki-rtr/pdu.c:276-355 | writes exactly the encoding and nothing else, or returns -1 if and only if the buffer is too short |
| PduStream.Receiver.ReadBlock | bin/rpki-rtr/connection.c:366-413 | reads exactly the count, or stops because of the verdict on what was read or because the peer closed |
| PduStream.Receiver.ReadAndParsePdu | bin/rpki-rtr/connection.c:451-496 | the outcome is the verdict on the whole stream however it is cut, a PDU is consumed to its last byte and not beyond, the buffer is never left, and the thread never reads past a PDU |
| PduStream.Send | bin/rpki-rtr/connection.c:160-198 | the stream is the encodings one after the other, up to the first PDU that does not fit the buffer, which ends the thread |
| PduStream.Receive | bin/rpki-rtr/connection.c:964-975 | a stream of encodings is read as exactly those PDUs |
| PduStream.Transfer | bin/rpki-rtr/connection.c:451-496 | what one side sends the other side reads, in order, for every way the stream is cut, up to the first PDU too large to send |
| OfChain.Of.NumItems | lib/casn/casn.c:671-682 | the number of members |
| OfChain.Of.Member | lib/casn/casn.c:614-647 | the node of the member at an index, null if there is none |
| OfChain.Of.NextOf | lib/casn/casn.c:650-668 | the node of the next member, null behind the last and for the blank that ends the chain |
| OfChain.Of.Inject | lib/casn/casn.c:529-611 | a blank member is inserted at the index and its node returned, unless the maximum forbids it; the chain, lastp and num_items stay consistent |
| OfChain.Of.Eject | lib/casn/casn.c:425-494 | the member at the index is deleted if there is one, and nothing else changes |
| OfChain.Of.EjectAll | lib/casn/casn.c:497-513 | the list is empty afterwards |
| OfChain.Run | lib/casn/casn.c:425-682 | over every run of injections and ejections on a fresh list, walking the chain with member_casn and next_of reads the same sequence as inserting and deleting in a sequence |
| AsnTable.AsnTyp | lib/casn/asn.c:91-104 | skips exactly the identifier, of one byte or more |
| AsnTable.AsnSet | lib/casn/asn.c:70-89 | reads the definite length of an item, short or long form |
| AsnTable.Preorder | lib/casn/asn.c:141-180 | in the bytes, a header is followed by the next header in preorder, behind the contents if the item is primitive |
| AsnTable.CountSubAsns | lib/casn/asn.c:141-180 | the flat loop counts exactly the items of the tree and ends at its end |
| AsnTable.DecodeAsn | lib/casn/asn.c:182-270 | the recursion fills one row an item, with start, length and depth, consumes all bytes, sets the end marker at the top level and touches nothing else |
| AsnTable.MakeAsnTable | lib/casn/asn.c:112-285 | on the encoding of any item tree the table is its preorder listing, the count leaves room for it and for the end marker, and all input is consumed |
| CasnInteger.Size | lib/casn/casn_num.c:201-205 | the least number of bytes that holds the value |
| CasnInteger.MinimalExactly | lib/casn/casn.c:2432-2434 | the redundancy check fires if and only if one byte less would hold the value |
| CasnInteger.WriteCasnNum | lib/casn/casn_num.c:190-220 | the shortest two's complement form of the value, which the redundancy check accepts |
| CasnInteger.ReadCasnNumMax | lib/casn/casn_num.c:82-145 | the two's complement value of at most 8 bytes of an INTEGER; for an ENUMERATED or a BOOLEAN the unsigned value, with a sign only when all 8 bytes are there |
| CasnInteger.RoundTrip | lib/casn/casn_num.c:82-220 | reading what was written gives the value back for every long |
| UtcTime.PutNum | lib/casn/casn_time.c:323-335 | writes the last decimal digits in place |
| UtcTime.GetNum | lib/casn/casn_time.c:113-136 | reads decimal digits, or -1 for another character or a number beyond an int |
| UtcTime.Cycle | lib/casn/casn_time.c:366-378 | the 1461-day cycle: year and day of the year of every day number |
| UtcTime.WriteDate | lib/casn/casn_time.c:365-390 | for every day number, the date with that number in the calendar in which every fourth year is a leap year |
| UtcTime.WriteUtcTime | lib/casn/casn_time.c:337-415 | the text shows the one Gregorian date of the time and the time of day for every second before 2050, and -1 from then on |
| UtcTime.ReadDate | lib/casn/casn_time.c:175-197 | accepts exactly the valid dates of every year except February 29 in three of four centuries counted from 1970, and computes their day number in the calendar in which every fourth year is a leap year; -1 for all others and without eight digits |
| UtcTime.CountsUpTo2100 | lib/casn/casn_time.c:175-183 | the day number of a valid date is the Gregorian one if and only if the date is before March 2100 |
| UtcTime.FirstRejected | lib/casn/casn_time.c:184-194 | 2072-02-29 is valid and rejected, and every valid date before it is accepted |
| UtcTime.GentimeToUlong | lib/casn/casn_time.c:154-232 | for every text: the time of its date, its hours, minutes and optional seconds, less its time zone; failure if a field is missing or out of range, if anything else follows, or before 1970 |
| UtcTime.ReadUtcTime | lib/casn/casn_time.c:272-321 | the same for UTCTime with the century of section 4.1.2.5.1 of RFC 5280, up to the size of the buffer |
| UtcTime.TextReads | lib/casn/casn_time.c:154-321 | the text of a time on its date is read as that time |
| UtcTime.RoundTrip | lib/casn/casn_time.c:272-415 | reading what was written gives the time back for every second before 2050 |
| ChaserPath.RoundKeepsResolved | bin/rpki/chaser.c:115-162 | removing the leftmost ".." with the directory before it does not change the stack evaluation, an empty authority counting as one with the segment behind it |
| ChaserPath.RemoveDotDot | bin/rpki/chaser.c:97-171 | for every string: it reads beyond the string if and only if the stack-evaluated path has fewer than two characters; otherwise -2 if and only if ".." would take the authority off the stack, and else the evaluated path and whether it changed |
| ChaserPath.SqueezeCollapses | bin/rpki/chaser.c:208-241 | the collapsing pass drops exactly the empty and "." segments and keeps a trailing slash |
| ChaserPath.Collapse | bin/rpki/chaser.c:208-241 | for every string: it reads beyond the string if and only if it is empty or ends with "/."; otherwise the in-place pass writes the collapsed string, and reports two dots in a row if and only if they are left |
| ChaserPath.CheckUriChars | bin/rpki/chaser.c:182-254 | for every string: it reads beyond the string if and only if all characters are allowed and the path is empty, ends with "/." or is left with fewer than two characters by ".."; otherwise -2 if and only if a character is not allowed or ".." underflows, and else the evaluated segments and whether anything changed |
| ChaserPath.CheckTrailingSlash | bin/rpki/chaser.c:305-370 | a module alone ends with a slash, a longer path does not; failure without authority or module or for lack of room |
| ChaserNormal.Normalise | bin/rpki/chaser.c:182-370 | for every string: unless they read beyond it, which is decided as before, both passes compute the normal form of the path, or drop it exactly when there is none |
| ChaserSegments.NormalTwice | bin/rpki/chaser.c:182-370 | the normal form of segments is its own normal form |
| ChaserNormal.Idempotent | bin/rpki/chaser.c:182-370 | normalising is idempotent on strings |
| ChaserNormal.NormalNeverOverruns | bin/rpki/chaser.c:182-370 | normalising a normalised path never reads beyond it |
| ChaserSubsume.RemoveSubsumed | bin/rpki/chaser.c:881-895 | the loop leaves exactly the kept URIs in their places |
| ChaserSubsume.EveryUriCovered | bin/rpki/chaser.c:43-62 | every URI is subsumed by a kept one |
| ChaserSubsume.KeptIncrease | bin/rpki/chaser.c:881-895 | kept URIs are strictly increasing |
| ChaserSubsume.NothingUnderSlash | bin/rpki/chaser.c:43-62 | nothing kept lies under a kept URI that ends with a slash |
| ChaserSubsume.KeptUnderExactly | bin/rpki/chaser.c:881-895 | something under a kept URI is kept if and only if, in the sorted list, a URI that starts with it but is not under it stands before one that is |
| ChaserSubsume.NotMinimal | bin/rpki/chaser.c:881-895 | a/b, a/b-c and a/b/d all survive |
| ChaserSubsume.Compact | bin/rpki/chaser.c:897-920 | the two-index loop ends with exactly the non-null entries in order, their count, and nulls behind |
| ChaserSubsume.Subsume | bin/rpki/chaser.c:878-922 | the printed list covers every URI, is drawn from them, strictly increasing, and holds nothing under an entry that ends with a slash |

## Left out

- Sockets, select, pthread cancellation, signals, logging, and failure of malloc, locks, queues or semaphores; a thread can end at the points where the source ends it.
- Wake-ups of connection threads: a connection may spend a response's token on its socket, so no such claim is made.
- RtrServerInvariant.RunInv: a query that cannot be started is a query whose first response is final.
- Two updates at the same time, and a clock for which create_time does not increase strictly from row to row.
- RtrServerClosing.ClosedExactly: when the control thread frees the semaphore of a thread that has ended.
- RtrSerialQuery.DeliversExactly: an update that makes a row again, with a number from the command line, while the query is reading that row's delta; a response can then mix the rows of two deltas.
- The Cache Response and End of Data PDUs themselves, the session id and the prefix text of the rows in the two queries; the rows are modelled.
- parse_pdu is a function of the bytes; the fields it leaves behind when it fails are not modelled. Sums of lengths are unbounded, as they are in a 64-bit size_t.
- PduStream.Receiver.ReadBlock: a read or recv that fails is repeated by the source and does not appear.
- RtrNotify.Serve: all PDUs of a response are handed over at once, and a failed write, which ends the thread, does not appear.
- fill_pdu_* and pdu_sprint: the first copy their arguments into a structure, the second formats one for the log.
- PduStream.DumpPdu: a PDU whose length field disagrees with its body, for which the source copies memory of the structure as it lies.
- The address family switch of make_IPAddrOrRange: addresses have any length instead of 4 or 16 bytes.
- increment_iprange, decrement_iprange, overlap and diff_ipaddr.
- OfChain.Of.Inject: an index beyond the count, which the source does not check, is excluded; node payload is one abstract value; the checks of flags and types are not modelled.
- OfChain.Of.Eject: a negative index, which the source does not check either, is excluded.
- AsnTable.MakeAsnTable: strings that are not the encoding of one item, items of indefinite length, and lengths beyond an int; the same for AsnSet, CountSubAsns and DecodeAsn.
- The schema-driven encoder and decoder of casn.c, object identifiers, casn_real.c and casn_dump.c.
- CasnInteger.ReadCasnNumMax: the default of an item that is not filled.
- UtcTime.WriteUtcTime: times before 1970, and GeneralizedTime.
- ChaserPath.CheckUriChars: what the source does once it has read beyond its string, which depends on the memory behind it.
- ChaserPath.CheckTrailingSlash: assumes that empty segments have been collapsed, as its comment asks.
- Sorting in the chaser is qsort; the URIs are taken as sorted.
- The splitting of the database's URI lists at semicolons, the scheme check, and the queries of the chaser.
- query.c, garbage.c, rcli.c, configlib and the tools for signing certificates.
