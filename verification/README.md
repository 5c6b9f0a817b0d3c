# Verified model of mruby-ktls

The library agrees TLS 1.3 keys through OpenSSL without touching a socket and then tells the kernel, for each
direction, which key to use and from which record sequence to go on. Nothing in OpenSSL says how many records
were already protected under the application keys, so `src/ktls.c` recovers that number from the octets that
cross its two calls `feed` and `take`. One record counted too few and the kernel uses a nonce twice; one too
many and the connection is dead. This project models `src/ktls.c` in Dafny 4.11 and proves that the number is
right, together with what else the library promises.

| file | what it holds |
|---|---|
| `Bytes.dfy` | octets, C's `int` cut, big-endian numbers |
| `Records.dfy` | the whole-stream parse of TLS records, counting, and the incremental `Scanner` proved to agree with it |
| `KeyLog.dfy` | key-log lines: printing, parsing, and the hexadecimal loop |
| `KeyChain.dfy` | secrets, updates, the Linux blob and what the kernel reads out of it; the slot object |
| `Exchange.dfy` | one exchange as a value: the two streams, and what each call makes of it |
| `ExchangeObject.dfy` | the exchange as the mutable object, each method proved to do what `Exchange.dfy` says |
| `ExchangeLaws.dfy` | one exchange under any calls and any OpenSSL: conservation, boundaries, blobs, release |
| `Duplex.dfy` | a server and a client on two wires, with OpenSSL's rules, the caller's rules and the two kernels |
| `DuplexBytes.dfy`, `DuplexKeys.dfy`, `DuplexNonces.dfy` | the invariants of that system, action by action |
| `Handover.dfy` | the main results over every reachable world |
| `Rehearsal.dfy` | whole runs: a handshake with a ticket, a handover with an update and a release, a blob asked for inside a record, a flight too long to count |
| `Alpn.dfy`, `Names.dfy`, `Keys.dfy` | protocol lists, name matching, and the keys object with its contexts |
| `FileSearch.dfy` | the streaming search through a fixed buffer |
| `RecordLimit.dfy` | the counting loop that keeps an AES-GCM key below its limit |

## How the parts fit

The scanner of the object sees pieces; the value in `Exchange.dfy` keeps the two whole streams, and every count
is stated on those. `Scanner.Valid` says that the fields are what the parse of everything seen so far says, so a
proof about streams is a proof about the object.

`Duplex.dfy` puts two such exchanges on two first-in first-out wires. A run is any sequence of actions of either
side: take and deliver any number of octets, step, backlog, key-log lines, updates, asking for a blob,
installing it, kernel records, release. OpenSSL is an environment that appends whole records, reads a
prefix of what waits (perhaps ending inside a record) but not past the peer's Finished, writes nothing between a
server's Finished and reading the client's, and ends a client's handshake by writing its Finished after
reading the server's. After its handshake either side may write further records. The caller takes every blob once,
stops writing through OpenSSL before the sending blob and stops the backlog before the receiving one. From this
`DuplexBytes.ServersFinishedWasTaken` derives the argument the source makes in a comment: when a server is done, what it
sent is exactly its stream up to its own Finished.

The expansion of section 7.1 of RFC 8446 is an arbitrary function of secret, label and length that returns as many
octets as it is asked for. What BIO_pending says of an absent buffer, 0 or -1, is a parameter, and every result,
those about released exchanges included, holds for both.

The ledger of a direction counts under epochs, one for each update; `Handover.BlobHoldsTheEpochsKey` ties an epoch to the
key and iv the kernel reads out of the blob it is given.

## Where the code does less than one might think

Each of these is proved with the exact condition, and with a concrete input where one is needed.

- `ktls_record_sequence` does not look at `overflowed`. Its answer is exact if and only if at most 64 records, those
  of the handshake included, passed in that direction, or none of those that passed lies past the boundary
  (`ExchangeLaws.SequenceExactIff`). In legal runs a client that writes more than 62 records after its Finished, and
  the server that reads them, both say 62 (`Rehearsal.ALongFlight`). `ktls_crypto_info` refuses after an overflow, so no blob is ever wrong.
- `ktls_crypto_info` does not look at an unfinished record. The receiving kernel starts on the record its blob numbers
  if and only if everything fed was read and stops between records (`Handover.KernelMeetsTheNextRecordIff`); a run
  reaches a world in which a blob is given in the middle of one (`Rehearsal.ABlobInTheMiddleOfARecord`).
- `feed` passes its length to `BIO_write` as an `int` but counts it in full. The account stays straight exactly for
  lengths below 2^31 and for those that come out negative and are refused (`ExchangeLaws.FeedConservesIff`).
- Releasing an exchange changes no answer exactly when nothing is owed and no whole record waits unread
  (`ExchangeLaws.ReleaseChangesNothingIff`).
- `ktls_exchange_alpn` reports the negotiated name only up to 32 octets, although the configuration takes names of
  up to 255 (`ExchangeLaws.AlpnReportedIff`).
- The documentation says `*.` matches exactly one label. The code also matches an empty one: `*.example.com`
  answers for `.example.com` (`Names.OneLabelIff`, `Names.EmptyLabelMatches`).
- A refused ALPN list may already have overwritten the front of the list in force. The old list survives exactly when
  the names written so far agree with it as far as both go (`Keys.KtlsKeys.SetAlpn`, `Alpn.RefusalKeepsIff`,
  `Alpn.ARefusalThatDamages`); a certificate added after that follows the others exactly when it survived
  (`Keys.KtlsKeys.AddCertificate`). The next accepted list repairs every context (`Keys.KtlsKeys.Configure`).
- After such a refusal the callback's walk through the buffer may meet an entry that ends behind its 256 octets. It
  stays inside if and only if, from where the names written end, a walk through the rest of the old list does
  (`Keys.KtlsKeys.SetAlpn`, `Keys.WalkLeft`); `Keys.ARefusalThatOverruns` is a refused list after which it does not. The
  callback then compares with octets behind the buffer exactly when it found no choice before that entry and a
  name on offer has its length (`Keys.KtlsKeys.AlpnPick`). All contexts go on answering alike (`Keys.KtlsKeys.Answer`).
- The header says that a step answering READING may still owe octets. READING is answered only when none are owed
  (`ExchangeLaws.StepAnswersIff`, `Handover.DoneMeansReady`).
- `ktls_record_limit` is described as half of 2^24.5; it is 2^23, the next power of two below that half
  (`RecordLimit.LimitIsBelowHalf`).
- The counting loop keeps an AES-GCM key below 2^24.5 records exactly as long as no single send makes more than
  15337895 records, about 250 gigabytes (`RecordLimit.CountingIsSafeIff`).

## Model

| member | source | states |
|---|---|---|
| Records.Scanner.Scan | src/ktls.c:715-745 | after any piece the fields are what the parse of all octets seen so far says: position, first 64 record ends, overflow, and the unfinished record |
| Records.Scanner.ScanHeader | src/ktls.c:718-733 | octets of a header, as many as it lacks at most, keep that; a record with an empty body ends with its header |
| Records.Scanner.ScanBody | src/ktls.c:735-743 | octets of a body keep that; the record ends with the last of them |
| Records.Scanner.Between | src/ktls.c:748-755 | the loop gives the number of recorded ends in (after, upto] |
| Records.ChunkIndependence | src/ktls.c:715-745 | one stream leaves one mark on a scanner, however it was cut |
| Records.ParsingUndoesFraming | src/ktls.c:715-745 | records put together from any headers and any bodies below 2^16 octets, length most significant octet first, parse to exactly the sums of their lengths |
| Records.PartAddsNothing | src/ktls.c:718-738 | part of one more record adds no end and is what is carried over |
| Records.FramingUndoesParsing | src/ktls.c:715-745 | every stream that stops between records was put together so, from as many records as it has ends |
| Records.FramedMark | src/ktls.c:715-745 | after such records the scanner holds the first 64 of those sums, and overflowed exactly with more |
| Records.EndsAppend | src/ktls.c:715-745 | later octets change no record that was whole before them |
| Records.CountIsCardinality | src/ktls.c:747-755 | the count is the number of records that end in (after, upto] |
| Records.CountAdds | src/ktls.c:747-755 | counts over adjoining stretches add up |
| Records.CountSaturates | src/ktls.c:747-755 | raising the upper bound past the octets seen changes nothing |
| Records.CountLooksBackOnly | src/ktls.c:1073-1076 | a count up to some offset needs only the octets before it |
| Records.CappedCountExactIff | src/ktls.c:730-755 | the 64 slots give the true count of a stretch exactly when at most 64 records end up to its upper bound or none ends in it |
| Records.BoundaryIffWhole | src/ktls.c:715-745 | whatever follows, a stretch ends where a record does exactly when the scanner would carry nothing over |
| KeyLog.Unhex | src/ktls.c:764-776 | the loop writes the octets spelled, stops at the first malformed pair or when there is no room, and touches nothing behind them |
| KeyLog.PairSpells | src/ktls.c:768-771 | two hexadecimal digits, small or capital, spell sixteen times the first and the second |
| KeyLog.StoreUpTo | src/ktls.c:764-776 | a word that a blank or the end of the line follows becomes the secret; one that anything else follows leaves the old length |
| KeyLog.LabelsNameTheSlots | src/ktls.c:783-797 | the two labels by their text, and 64 octets as the longest secret |
| KeyLog.ParsingUndoesPrinting | src/ktls.c:778-802 | a printed line is for its label's slot and stores exactly the secret printed, or for more than 64 octets leaves the old length |
| KeyLog.OtherLabelsIgnored | src/ktls.c:790-798 | a line under any other label is for neither slot |
| KeyChain.LineStored | src/ktls.c:781-802 | a printed line changes its own slot's secret and nothing else |
| KeyChain.LinesCommute | src/ktls.c:781-802 | the client's and the server's line may come in either order |
| KeyChain.KeySlot.Take | src/ktls.c:799-801 | the slot's buffer after a line, with the length moved only when all of it was good |
| KeyChain.KeySlot.Fill | src/ktls.c:911-954 | key and iv derived from the slot's secret and laid out in the cleared union; refused without a secret |
| KeyChain.KeySlot.Turn | src/ktls.c:1118-1124 | next secret in place, mark set, blob derived again |
| KeyChain.KeySlot.PutSequence | src/ktls.c:1080-1089 | the 8 octets of the sequence, most significant first, and nothing else changed |
| KeyChain.KernelReadsBack | src/ktls.c:937-951 | the kernel reads back TLS 1.3 and the cipher by its number, the sequence, for every 64-bit number, the 16 or 32 octets of key, and salt and iv as the one iv of 12 octets |
| KeyChain.SequenceRewritten | src/ktls.c:1085-1089 | writing a second sequence leaves no trace of the first |
| KeyChain.TurnHolds | src/ktls.c:1107-1125 | an update takes a slot from m to m+1 expansions of the original secret, blob included |
| KeyChain.Expansions | src/ktls.c:1107-1121 | after m updates the secret is the last of m+1, each the one before expanded under "traffic upd" to its own length |
| KeyChain.BlobDetermined | src/ktls.c:1066-1090 | a slot after m updates gives one blob for a sequence and no other |
| ExchangeObject.KtlsExchange.constructor | src/ktls.c:804-831 | a fresh exchange |
| ExchangeObject.KtlsExchange.Feed | src/ktls.c:861-872 | buffer, scanner and total after a feed, and its refusals |
| ExchangeObject.KtlsExchange.Take | src/ktls.c:874-881 | what is handed out, what stays pending, and the scanner |
| ExchangeObject.KtlsExchange.DeriveBoth | src/ktls.c:967-979 | both blobs, ours first, and each way it fails |
| ExchangeObject.KtlsExchange.Settle | src/ktls.c:996-1020 | the two boundaries from offsets, by role, and the name kept |
| ExchangeObject.KtlsExchange.Step | src/ktls.c:981-1028 | the whole new state and the answer, for every outcome of the handshake call |
| ExchangeObject.KtlsExchange.Backlog | src/ktls.c:1042-1048 | nothing before the end or after the release, else what OpenSSL moves |
| ExchangeObject.KtlsExchange.KeyLine | src/ktls.c:781-802 | the callback's effect on the two slots |
| ExchangeObject.KtlsExchange.RecordSequence | src/ktls.c:1096-1105 | the count over the whole streams, with the 64-record cap and 0 after an update |
| ExchangeObject.KtlsExchange.CryptoInfo | src/ktls.c:1053-1091 | the blob with that count in it, and each refusal |
| ExchangeObject.KtlsExchange.NextKey | src/ktls.c:1113-1125 | one slot turned, the rest untouched |
| ExchangeObject.KtlsExchange.Release | src/ktls.c:833-840 | the buffers gone, everything else kept |
| ExchangeLaws.RunConserves | src/ktls.c:861-881 | over every run up to the release, octet by octet: written is taken plus pending, fed is read plus pending, and the boundaries lie inside |
| ExchangeLaws.FeedConservesIff | src/ktls.c:865-870 | a feed keeps that exactly when its length is below 2^31 or comes out negative as an int |
| ExchangeLaws.AFeedThatDoesNotFit | src/ktls.c:865-870 | 2^32 octets are counted and none is buffered |
| ExchangeLaws.SettledOnce | src/ktls.c:984-1021 | once done, an exchange stays done with the same boundaries, role, suite and name, whatever is called |
| ExchangeLaws.AlpnReportedIff | src/ktls.c:1013-1019 | the name kept is the negotiated one exactly up to 32 octets |
| ExchangeLaws.StepAnswersIff | src/ktls.c:981-1028 | each of the four answers of a step, and the end of the handshake, exactly; Complete without a suite or a secret fails |
| ExchangeLaws.FeedFailsIff | src/ktls.c:861-872 | a feed fails exactly when released or with a length that is negative as an int, and then changes nothing |
| ExchangeLaws.TakeIsGreedy | src/ktls.c:874-881 | a take hands out all that is there up to its capacity, from the front |
| ExchangeLaws.LineReachesItsSlot | src/ktls.c:781-802 | a printed line reaches its slot whenever it comes and changes nothing else |
| ExchangeLaws.BlobGivenIff | src/ktls.c:1053-1064 | there is a blob exactly when done, with nothing owed and at most 64 records either way |
| ExchangeLaws.UpdateExpands | src/ktls.c:1113-1125 | an update expands its direction's secret under "traffic upd", restarts the sequence, leaves the other direction alone, and answers 0 when there was a secret |
| ExchangeLaws.SequenceExactIff | src/ktls.c:1096-1105 | for a done exchange not updated, record_sequence is the true number exactly when at most 64 records passed in all or none of them past the boundary, and never too large |
| ExchangeLaws.BlobSaysTheSequence | src/ktls.c:1071-1105 | whenever there is a blob the kernel reads record_sequence's answer out of it |
| ExchangeLaws.AskingLeavesTheRest | src/ktls.c:1050-1091 | asking changes only the sequence field of one slot, and no later sequence |
| ExchangeLaws.AskingTwice | src/ktls.c:1050-1091 | asking again gives the same octets |
| ExchangeLaws.ReleaseChangesNothingIff | src/ktls.c:833-840 | releasing changes no answer, for either direction, exactly when nothing is owed and no whole record waits |
| ExchangeLaws.ReleasedEvolvesAlike | include/ktls.h:169-181 | from then on, through any updates and blobs, the released exchange answers like the one that was kept |
| ExchangeLaws.ReleaseAfterARun | include/ktls.h:169-181 | both, for the exchange any run up to the release leads to, as long as every feed fitted |
| DuplexBytes.ServersFinishedWasTaken | src/ktls.c:996-1003 | the causal argument: a server that has the client's Finished to read has had exactly its stream up to its own Finished taken |
| DuplexBytes.CompletingSetsTheBoundaries | src/ktls.c:995-1006 | the step that ends a handshake sets both boundaries to the two Finished records, in either role |
| DuplexBytes.ActionKeeps | src/ktls.c:861-1048 | every action keeps all octets in order on buffers and wires and the boundaries where they belong |
| DuplexKeys.ActionKeeps | src/ktls.c:911-1125 | every action keeps each slot at the session's secret turned as often as it was updated |
| DuplexNonces.SendingSequence | src/ktls.c:1073 | without overflow and not updated, the sending sequence is the number of application records written that were taken; all of them when nothing is pending |
| DuplexNonces.ReceivingSequence | src/ktls.c:1075-1076 | without overflow and not updated, the receiving sequence is the number of the peer's application records read whole; after the release, of those fed |
| DuplexNonces.InstalledNext | src/ktls.c:1067-1090 | the number a blob gives the kernel: the count under the first key, 0 under every later one |
| DuplexNonces.ActorKeeps | src/ktls.c:981-1125 | every action keeps all uses of a direction distinct and before where the kernel stands |
| Handover.BoundariesAreTheFinisheds | src/ktls.c:996-1006 | in every reachable world a side that is done has its boundaries just past its own and the peer's Finished |
| Handover.NoOctetIsLost | src/ktls.c:861-881 | in every reachable world what one side wrote is, in order, what the other was fed, what is on the wire and what is pending |
| Handover.SequencesAgree | src/ktls.c:1093-1105 | in every reachable world, released sides included: both handshakes over, neither slot updated and the sender's scanner not overflowed, the receiver's sequence is at most the sender's, and equal once everything taken was delivered and read |
| Handover.SequencesAreTheCounts | src/ktls.c:1093-1105 | in every reachable world, released or with output pending: for a direction not updated and not overflowed, the sending sequence is the number of application records written and taken, the receiving one of those read, or fed before the release |
| Handover.KernelMeetsTheNextRecordIff | src/ktls.c:1053-1064 | for a receiving direction not updated and not overflowed, the kernel starts on the record the blob numbers exactly when nothing is unread and what was fed stops between records |
| Handover.BlobHoldsTheEpochsKey | src/ktls.c:911-954 | in every reachable world the kernel takes a blob, whenever there is one, for TLS 1.3 and the agreed cipher, and reads key and iv of the secret the slot holds, that of the epoch |
| Handover.EpochSecrets | src/ktls.c:1107-1121 | that secret is reached from the session's, the sender's own, by one expansion under "traffic upd" for each update |
| Handover.UpdateChangesTheKey | src/ktls.c:1113-1125 | in every reachable world the blob after one more update has key and iv of the held secret's expansion, and sequence 0 |
| Handover.BlobsAgree | test/ktls.rb:73-109 | in every reachable world in which both sides answer, updated equally often and, before any update, with nothing on its way or unread, the blob one side sends with is the one the other receives with, octet for octet, released or not |
| Handover.DoneMeansReady | src/ktls.c:981-1028 | in every reachable world each of the four answers of a step, exactly; Done leaves the boundaries at the two Finisheds, everything written taken, and both blobs there unless a scanner overflowed |
| Handover.ReleaseInAWorld | include/ktls.h:169-181 | a live side of any reachable world answers the same without its SSL exactly when nothing waits, then and after any updates and blobs |
| Handover.NoNonceTwice | README.md:218-226 | in every reachable world no (epoch, sequence) pair of a direction was used for two records, by OpenSSL and the kernel together |
| Handover.KernelGoesOnAtK | src/ktls.c:1050-1091 | at the handover OpenSSL has used exactly 0..k-1 and the kernel is told k, at most 64; a later key starts at 0 and was never used; the blob holds the key of that epoch |
| Rehearsal.AWholeHandshake | test/ktls.rb:80-86 | a whole handshake with one ticket is a legal run and ends with the sequences 1 and 0 and with Done at both sides |
| Rehearsal.AWholeHandover | include/ktls.h:169-181 | a legal run goes on through both installs, a kernel record, an update with its install, another record and the release; the nonces used are (0,0), (0,1), (1,0), and blobs are still answered |
| Rehearsal.ABlobInTheMiddleOfARecord | src/ktls.c:1053-1064 | a legal run ends with a receiving blob answered while the octets fed stop three octets into a record |
| Rehearsal.ALongFlight | src/ktls.c:730-731 | a legal run for any client records with any bodies after the handshake: both ends say how many, or 62 if it is more, and give a blob exactly up to 62 |
| Rehearsal.ARecordOf300Octets | src/ktls.c:727-743 | a legal run with one such record: it ends 305 octets behind the handshake's |
| Alpn.DecodeEncode | src/ktls.c:568-581 | decoding an encoded list gives back exactly that list |
| Alpn.EncodeDecode | src/ktls.c:568-581 | what decodes at all is the encoding of what it decodes to |
| Alpn.ChoiceIsOptimal | src/ktls.c:414-434 | the choice is our earliest name among the peer's, and there is none exactly when the lists are disjoint |
| Alpn.AcceptedIff | src/ktls.c:571-580 | a list is written whole exactly when every name has 1 to 255 octets and the encoding fits 256 |
| Alpn.RefusalKeepsIff | src/ktls.c:571-580 | a refused list leaves the old one exactly when the names written so far agree with it |
| Alpn.ARefusalThatDamages | src/ktls.c:571-580 | a concrete refused list that does not |
| Keys.KtlsKeys.SetCiphers | src/ktls.c:457-476 | from any state: accepted, every context has the list; refused, nothing changed; no protocols are touched |
| Keys.KtlsKeys.WriteList | src/ktls.c:570-580 | the encoding in the buffer, up to the first name that is refused |
| Keys.KtlsKeys.SetAlpn | src/ktls.c:568-602 | from any state: accepted, every context has the list and the callback, and the buffer holds it; refused, every setting stays, the buffer is given exactly, and a walk through it stays inside exactly when it does behind the names written |
| Keys.KtlsKeys.Follow | src/ktls.c:436-455 | a new context offers what the others offer exactly when the buffer holds the list they were given |
| Keys.KtlsKeys.AddCertificate | src/ktls.c:518-566 | from any state: the name added last, its context following the suites, and the protocols exactly when the buffer is intact; every refusal, that of a name differing from an added one in letter case only among them |
| Keys.KtlsKeys.Configure | include/ktls.h:77-79 | after any calls, accepted or refused, the settings are those of the last accepted call of each kind, every context has the suites and the callback, and the protocols too unless the last list of them was refused |
| Keys.KtlsKeys.AlpnPick | src/ktls.c:414-434 | on any buffer: the earliest offered one of the names met, as a stretch inside the peer's list; without one, octets behind the buffer are compared exactly when an entry ends there and a name on offer has its length |
| Keys.PicksMeans | src/ktls.c:414-434 | the two nested loops come to exactly that |
| Keys.WalkPast | src/ktls.c:421-431 | a walk that enters a well-formed list comes out behind it |
| Keys.WalkLeft | src/ktls.c:571-580 | after a refused list a walk stays inside exactly when it does behind the names written, which the two lists decide |
| Keys.ARefusalThatOverruns | src/ktls.c:571-580 | an accepted list of 255 letters and a refused one after which it does not |
| Keys.VisitsItsNames | src/ktls.c:419-431 | in an intact buffer the walk stays inside and the names met are the accepted list |
| Keys.KtlsKeys.FindIn | src/ktls.c:423-430 | the inner loop tries one entry against the peer's names in order |
| Keys.SeekFinds | src/ktls.c:423-430 | an entry inside the buffer is found exactly when the peer offered it, where the peer's list has it; one that ends behind it is compared exactly when its length is on offer |
| Keys.KtlsKeys.Answer | src/ktls.c:436-455 | every context, default or named, gives that same answer, whatever the buffer holds, and the best choice from an intact one |
| Keys.KtlsKeys.NamePick | src/ktls.c:501-516 | the first added name that matches picks the context, else the default |
| Keys.LastOfEachKind | include/ktls.h:77-79 | after any accepted calls in any order the settings are those of the last call of each kind |
| Names.WildcardMeaning | src/ktls.c:478-490 | a pattern "*." and a suffix matches exactly the names with one dot-free label in front of that suffix, letter case aside |
| Names.PlainMeaning | src/ktls.c:489 | any other pattern matches exactly itself, letter case aside |
| Names.SameIff | src/ktls.c:487-489 | letter case aside means: character by character equal, or a capital letter of ASCII and its small one |
| Names.OneLabelIff | include/ktls.h:73-75 | the documented rule, one label that is not empty, is what matches and does not begin with a dot |
| Names.EmptyLabelMatches | src/ktls.c:484-488 | a name that matches with an empty label |
| Names.PairOfOneKind | src/ktls.c:527-532 | of two added names that match one name exactly one is a wildcard |
| Names.AtMostTwoMatch | src/ktls.c:527-532 | at most two added names match any name |
| Names.AddingKeepsMatches | src/ktls.c:507-514 | adding a name never changes the answer for a name that had one |
| Names.AnswerIgnoresCase | src/ktls.c:478-490 | names that differ in the case of ASCII letters only get one answer |
| FileSearch.FileNames | src/ktls.c:222-246 | found exactly when the name fits the buffer and occurs in what was read, and in the whole file if no read failed, however the reads cut it |
| FileSearch.SearchBuffer | src/ktls.c:235-239 | found exactly when it occurs in the filled part of the buffer |
| FileSearch.OccursInWindow | src/ktls.c:241-242 | a new occurrence lies in the carried tail and the new octets |
| RecordLimit.RunStaysBelow | README.md:177-188 | over any number of sends and keys no key gets more than what came before, the limit less one, and one send |
| RecordLimit.PiecesAreEnough | README.md:177-188 | a send counts as the least number of 16384-octet records that hold it |
| RecordLimit.CountingIsSafeIff | src/ktls.c:1127-1135 | that is below 2^24.5 exactly up to 15337895 records in one send |
| RecordLimit.CountingFromTheHandover | README.md:177-188 | that bound holds from the number a reachable world's blob gives the kernel |
| RecordLimit.LimitIsBelowHalf | src/ktls.c:1127-1135 | the limit is the power of two next below half of 2^24.5 |
| RecordLimit.TwoGigabytesAreSafe | README.md:164-168 | sends of up to 2^31 octets are safe |

## Left out

- KeyLog.Unhex: does not model what `sscanf` accepts beyond hexadecimal digits (blanks, signs, a 0x prefix), nor a line that ends after half a pair; both count as malformed here, and OpenSSL prints neither.
- ExchangeObject.KtlsExchange.Feed: does not model `BIO_write` failing for lack of memory.
- ExchangeObject.KtlsExchange.DeriveBoth: does not model the expansion itself failing; a missing suite and a missing secret are modelled.
- ExchangeObject.KtlsExchange.Settle: does not keep the printable name of the suite (src/ktls.c:1008-1012), which the suite determines.
- ExchangeObject.KtlsExchange.Step: does not keep that name either, and states the runs in which the expansion succeeds.
- KeyChain.KeySlot.Fill: states the runs in which the expansion succeeds; a missing secret is modelled.
- KeyChain.KeySlot.Turn: states the runs in which the expansion succeeds.
- Keys.KtlsKeys.AlpnPick: what a comparison with octets behind the buffer comes to is not modelled, only when there is one.
- ExchangeObject.KtlsExchange.NextKey: states the runs in which the expansion succeeds.
- ExchangeObject.KtlsExchange.Backlog: does not model the plaintext that SSL_read hands out, only what is read from and written to the buffers.
- FileSearch.FileNames: asks for a name that is not empty; the one caller passes a constant. A file that cannot be opened is not modelled.
- Byte totals (`offset`, `rx_fed`, `ends`) are unbounded numbers here, and 64-bit subtraction is modelled where the buffers are absent; results that need it assume fewer than 2^64 - 1 octets.
- BIO_pending's return type: a memory buffer stops growing below 2^31 octets, so the number is taken as exact.
- The two-element arrays of the exchange are two slot objects, one per secret; the blob is the Linux union on a little-endian machine, with the layout of `linux/tls.h`, which is not part of this model.
- OpenSSL's rules in `Duplex.dfy` exclude early data, a server that writes application data before the client's Finished, and a KeyUpdate before the handover; the library calls nothing that would cause the first two.
- Octets the kernel sends do not reach a peer that still uses the library; only their nonces are modelled.
- OpenSSL's own work (handshake messages, certificates, PEM, key derivation) is an environment; whether a certificate is usable and a suite list acceptable are inputs.
- Kernel calls and probing, module loading, sysctl, `ktls_offload` and the FreeBSD and stub branches: plumbing without a property of this kind.
- Error texts, cleansing of memory, allocation failure, `ktls_exchange_cipher`, and the record type table: settled by reading them.
- The Ruby and C++ wrappers and the examples: one call deep.
- Liveness of the handshake and secrecy: they rest on OpenSSL and on cryptography.
