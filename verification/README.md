# Verified models of a DuckDB fork with column sketches

This project models the hard cores of the repository in Dafny and proves what they promise. Each
group of files covers one component. Code that changes state step by step is modelled by methods,
classes and arrays, and each method is proved against a function or a predicate about which the
interesting properties are then proved; protocols between threads are step systems whose runs are
all interleavings.

| files | component |
|---|---|
| six files `S3*` | the S3 multipart upload: one writer, detached upload threads, slots, the final flush |
| `IpDigits`, `Ipv4`, four files `Ipv6*`, `IpAddress`, `IpCase`, `Inet` | IP addresses: parsers, printers, storage and arithmetic |
| `HttpReader` | the buffered HTTP range reader |
| `JsonPath`, `JsonPathText`, `JsonWalk` | the JSON path language: tokenizer, validator, the two evaluators |
| `JsonRanges`, `JsonStream` | the shared JSON file handle: ranges for concurrent readers, and the replay cache |
| `Gregorian`, `IcuTime`, `IcuOrder`, `TimeBucket` | interval addition and time buckets |
| `LikeGlob`, `LikeSplits`, `PathMatch`, `PathSplit`, `Listing`, `GlobListing` | glob matching and paginated listing |
| `ColumnSketch`, six files `Sketch*` | column sketches, the fork's own index |
| `Basics` | what several of them share |

What is foreign is an explicit assumption of the model. The HTTP server answers a range request
inside the file with its bytes and fails any other. A PUT of a part either stores the bytes and
returns an etag or fails with an exception that its thread catches. A handle gets no write after its
first flush, as the comment at extension/httpfs/s3fs.cpp:501-503 demands, and its part size is not
zero. The calendar is the proleptic Gregorian one in a zone of fixed offset, and its millisecond
count is exact. The listing has the glob of components as a parameter; results that need to know
what it does with components without wildcards say so, and `LikeFun::Glob`, which is modelled, is
proved to do it. `std::sort` and `std::lower_bound` do what their names say. A vector mask is the
set of its lanes.

## What the models say

**S3 upload.** A state holds the handle's fields, the writer's program counter, the upload threads
and a history. Every write that another thread could see is a step of its own, and wake-ups may be
spurious. What the calls ask for is told by the actions of a run alone. In every state of every run,
until an upload fails, the bytes copied are those given to the sequential calls of Write, up to the
ones that a running call still has, and each part of them is in exactly one place with exactly its
bytes. The completion request is sent at most once, its parts in order are the bytes given, and each
was uploaded once. When Close or FileSync has returned it has been sent exactly if no upload failed,
and bytes were given or FileSync was called. Close and FileSync throw exactly if an upload failed;
after that no call ever sends the request, and at most one more part is handed to a thread. Without
a failed upload Write throws exactly if it has bytes and is out of sequence, before it copies any of
them. The slot counter is the number of slots out and stays within the limit. Inside a call some
step other than a spurious wake-up is always enabled exactly if at least one thread is allowed, and
the number of such steps until the call returns is bounded by the work it starts with and by the
number of spurious wake-ups. A writer rethrows a null exception exactly if it looks while the thread
that set the error flag has not stored its exception, which can happen in FlushBuffer and not after
the final flush. A thread can still have to signal on the handle after Close has returned.

**IP addresses.** The texts that the scanners accept are characterised by grammars, in both
directions. Besides the forms of section 2.2 of RFC 4291 the IPv6 scanner accepts a single colon
before the first and after the last group, and "::" after eight groups; it rejects a mask after six
groups and a dotted quad. It writes past its array of eight groups exactly on seven groups followed
by a dotted quad. The printer compresses the longest run of at least two zero groups, the leftmost
on ties, as section 4.2 of RFC 5952 asks. It prints a dotted quad exactly for three families of
addresses; the exception that is meant for ::1 takes the quad from addresses such as ::1.2.0.1. A
text in any case is read like its lower-case form, and digit strings are the printed forms of their
values with leading zeros. Every address of either kind is read back from its printed form. The
128-bit subtraction under the INET arithmetic misses an underflow in exactly one family of operands,
which the arithmetic never reaches; adding and subtracting a number again gives the address back
except for 255.255.255.255 and for the least number.

**HTTP reader.** In all three modes every sequence of reads and seeks returns what a plain file with
a cursor returns. A read makes at most one request, and none if the window holds its range.

**JSON paths.** A path is read as a list of tokens exactly if it spells them: plain keys up to the
next dot or bracket, quoted keys with escapes, indexes from either end in all their forms,
wildcards. The token lists of valid paths are exactly the lists of writable tokens; the quoted key
"*" is not one, because it reads as the wildcard. Reading runs past the end of a path exactly if its
last token is an index of 19 digits that nothing closes. On a validated path both evaluators compute
what the token list means and never fail one of their assertions. The wildcard walk returns the
values at exactly the places that match, in document order.

**JSON files.** Over every interleaving of atomic accesses the ranges handed out are those asked
for, consecutive and disjoint, and in the end cover the file, and exactly one reader reports the
file done, after the last read. After sampling with any sizes and a reset, reading with any sizes
starts at the first byte. A reset of a stream that cannot seek loses exactly the bytes read after
those that were sampled.

**Time.** Adding days and microseconds is exact through the truncating divisions and the chunked
hours. An interval without a negative part adds its months first, any other its months last, and
months keep the day of the month or give the last one. Since microseconds are carried before months
are added, adding the parts one after another can give another result; when is stated exactly for
both orders. The lengths of the months are those of the calendar with its leap years. A time bucket
holds its timestamp for all widths, except for day buckets with an origin between two milliseconds,
in a case that is stated exactly, where the next bucket is returned. For months the start of the
month of the timestamp or of the origin is made of milliseconds without a check, and overflows
exactly if 64 bits do not hold it; if the product then wraps around, the least timestamp gets a
bucket in the year 294246. In all other cases what is returned is monotone and idempotent. When a
step that is checked leaves the range of timestamps is stated exactly for each width. The two
assertions of the day case can fail; when is stated exactly.

**Glob listing.** A component matches a pattern exactly if it can be divided among the stars,
question marks, characters and brackets of the pattern; a bracket holds the characters and ranges
that it lists, or the others. The matcher of paths finds a match exactly if the key can be split
among the pattern's elements. The listing loop visits each directory once and finds each file once,
whatever the pages are. Starting below the directory part before the first wildcard, the glob
returns the matching files below that part and no others. If the pattern matches anything at all,
that is all matching files of every tree exactly if the part has no "?".

**Column sketches.** Codes keep the order of values, and two values have different codes exactly if
an endpoint lies between them. The endpoints divide the sorted column evenly. Scans that look at the
values of rows with the constant's code are exact. The scan that skips that look, because the column
has few distinct values, is exact for all constants only if endpoints separate the values; what that
means is stated for both directions. The scalar "greater than" scan, which no filter calls, is wrong
for constants above the column when all 256 codes are in use. Inclusive comparisons are wrong when
their constant wraps around, and on signed columns the signs must agree. The verdict "always true"
is right whenever it is given, and "always false" exactly if no row is missed and the constant does
not wrap. The AND of comparisons keeps the rows that all scans select; when it reads past a mask and
when it stops early is stated exactly. If an equality comes first it also takes the mask that the
vector came with, so that on a fresh vector no row is left. Filters on several columns are merged in
the same way; when that reads past a mask is stated exactly, too.

## Model

| member | source | states |
|---|---|---|
| S3Upload.PartIndexIsQuotient | extension/httpfs/s3fs.cpp:952 | the part index found by repeated subtraction is the quotient that Write computes |
| S3Invariants.PositionIsOpen | extension/httpfs/s3fs.cpp:944-961 | at every turn of the write loop the part under the file position was never taken out of the map, its buffer is filled up to the position, and every other buffer is being uploaded |
| S3Invariants.NothingSkipped | extension/httpfs/s3fs.cpp:464-476 | without an upload error FlushBuffer never skips the buffer it is called for |
| S3Invariants.RequestIsComplete | extension/httpfs/s3fs.cpp:525-541 | when the final flush has passed, the etags are exactly those of parts 0 to n-1, and the request lists the parts of the whole file in order |
| S3Invariants.StepKeeps | extension/httpfs/s3fs.cpp:404-523 | every step of the writer or of an upload thread keeps the whole invariant |
| S3Invariants.InitInv | extension/httpfs/s3fs.cpp:903-921 | a fresh handle satisfies the invariant |
| S3Runs.RunInv | extension/httpfs/s3fs.cpp:404-557 | the invariant holds in every state of every run, for every interleaving |
| S3Calls.StepFaithful | extension/httpfs/s3fs.cpp:404-557 | every step serves what the actions so far ask for: the bytes copied and still to copy are those given, the error flag is set exactly if a PUT failed, the flush that runs is the one called |
| S3Calls.CountedIsWritten | extension/httpfs/s3fs.cpp:366-368 | when the final flush has waited for all threads, no part was counted exactly if nothing was written |
| S3Runs.WrittenIsGiven | extension/httpfs/s3fs.cpp:943-970 | in every run, until an upload fails, the bytes copied are a prefix of those given to the sequential calls of Write, and all of them outside of Write |
| S3Runs.CompletedObjectIsFile | extension/httpfs/s3fs.cpp:415-557 | in every state of every run at most one completion request was sent; its parts joined in order are the bytes given to the sequential calls of Write, and exactly its parts were uploaded, each once |
| S3Runs.FlushCompletes | extension/httpfs/s3fs.cpp:362-370 | when calls have returned and Close or FileSync was among them, the completion request has been sent exactly if no upload failed, and bytes were given or FileSync was called |
| S3Runs.FailureIsReported | extension/httpfs/s3fs.cpp:504-523 | a call of Close or FileSync ends with an exception exactly if some PUT has failed, during the call or before it |
| S3Runs.WriteIsSequential | extension/httpfs/s3fs.cpp:943-949 | without a failed PUT a call of Write ends with an exception exactly if it has bytes and does not start where the bytes given before it end, and has then copied none of them |
| S3Runs.FailureStopsUploads | extension/httpfs/s3fs.cpp:473-498 | after a failed PUT at most one more part is handed to a thread, the one for which FlushBuffer had already looked for an error |
| S3Runs.EveryPartInOnePlace | extension/httpfs/s3fs.cpp:937-970 | until an upload fails the bytes copied are a prefix of those given to Write, all of them between calls, and each part of them is in exactly one of open buffer, flush in progress, upload in flight and uploaded, with exactly its bytes, and no other part is anywhere |
| S3Runs.SlotsAreCounted | extension/httpfs/s3fs.cpp:484-495 | in every state of every run the slot counter is the number of slots taken and not released, and within the limit |
| S3Runs.FailureIsFinal | extension/httpfs/s3fs.cpp:362-370 | once an upload has failed in a run, no state of the run, before or after, has a completion request, whatever calls follow |
| S3Runs.CountersFit | extension/httpfs/s3fs.cpp:564-594 | part numbers stay below 65535, and the part counter and the slot counter at most 65535, in every run |
| S3Runs.SleeperHasWork | extension/httpfs/s3fs.cpp:404-413 | whenever the writer sleeps for a slot or for the final flush, some upload thread can step |
| S3Runs.NoDeadlock | extension/httpfs/s3fs.cpp:484-523 | with at least one thread allowed, inside a call some step that is no spurious wake-up is enabled in every state of every run |
| S3Runs.ThreadStepsRunOut | extension/httpfs/s3fs.cpp:404-461 | every step of an upload thread strictly decreases the work the threads have left |
| S3Progress.StepWorks | extension/httpfs/s3fs.cpp:404-557 | every step of the writer or a thread other than a call or a spurious wake-up strictly decreases the work left, and a spurious wake-up adds one |
| S3Progress.CallsEnd | extension/httpfs/s3fs.cpp:404-557 | in every run, between calls, the steps that are no spurious wake-ups are at most the work left at the start and the number of spurious wake-ups |
| S3Progress.CallWork | extension/httpfs/s3fs.cpp:937-970 | a call starts with work in proportion to the bytes it is given or the buffers it flushes, besides that of the threads |
| S3Runs.NoThreadsDeadlock | extension/httpfs/s3fs.cpp:486-492 | with a thread limit of zero, a writer asleep for a slot can only be woken spuriously |
| S3Reach.ReachAsleep | extension/httpfs/s3fs.cpp:486-492 | with a thread limit of zero, for every part size, a run puts the writer to sleep for a slot |
| S3Reach.DeadlockFree | extension/httpfs/s3fs.cpp:484-523 | in all reachable states inside a call some step that is no spurious wake-up is enabled, exactly if at least one thread is allowed |
| S3Reach.NullIsFlagged | extension/httpfs/include/s3fs.hpp:171-175 | in every reachable state the writer rethrows a null exception exactly if it is at the check of FlushBuffer while a thread has exchanged the error flag and not stored its exception; never after the final flush |
| S3Reach.ReachNull | extension/httpfs/s3fs.cpp:437-443 | a run of a file of two parts that rethrows a null exception |
| S3Reach.SignalAfterClose | extension/httpfs/s3fs.cpp:404-413 | a run in which Close has returned and a thread still has to signal |
| S3Reach.OnlySignals | extension/httpfs/s3fs.cpp:404-413 | once the completion request is sent, threads change nothing but what they have to signal |
| Ipv4.ParseIsGrammar | extension/inet/ipaddress.cpp:45-102 | a text is accepted as the numbers and mask t exactly if t is valid and the text is its rendering and, after a mask, an ignored rest |
| Ipv4.TryParse | extension/inet/ipaddress.cpp:45-102 | the parser returns the 32-bit address and mask that the scanned text denotes, or the scanner's error |
| Ipv4.ToString | extension/inet/ipaddress.cpp:297-311 | the printed text is the rendering of the four bytes and of the mask unless it is 32 |
| Ipv4.RoundTrip | extension/inet/ipaddress.cpp:297-311 | every address with a mask of 0 to 32 is read back from its printed text |
| Ipv6.ParseSound | extension/inet/ipaddress.cpp:147-234 | an accepted text is the rendering of the valid tree it is accepted as |
| Ipv6.ParseComplete | extension/inet/ipaddress.cpp:147-234 | the rendering of every valid tree is accepted as that tree |
| Ipv6.ParseIsGrammar | extension/inet/ipaddress.cpp:147-234 | a text is accepted as a tree exactly if the tree is valid and the text is its rendering |
| Ipv6.OverrunIsNineGroups | extension/inet/ipaddress.cpp:165-190 | the scanner writes past the eight groups exactly on an address that has seven groups and then a dotted quad |
| Ipv6.OverrunExample | extension/inet/ipaddress.cpp:165-190 | the text 1:2:3:4:5:6:7:1.2.3.4 is written past the array |
| Ipv6Value.OrAdds | extension/inet/ipaddress.cpp:260-264 | or-ing bits below a multiple of a power of two adds them |
| Ipv6Value.OrGroup | extension/inet/ipaddress.cpp:139-145 | or-ing a group, shifted to its place, into its half sets that group and leaves the other half alone |
| Ipv6Parser.Assemble | extension/inet/ipaddress.cpp:236-267 | the two halves are the positional value of the groups before "::", zeros, and the groups after it; "::" between eight groups is rejected |
| Ipv6Parser.ParseQuibble | extension/inet/ipaddress.cpp:128-133 | up to four digits give their hexadecimal value, within 16 bits |
| IpDigits.DigitsAre | src/include/duckdb/common/string_util.hpp:42-53 | the sixteen digits are worth 0 to 15, in either case |
| IpDigits.OnlyDigits | src/include/duckdb/common/string_util.hpp:42-53 | there are no other digits |
| IpDigits.HexTextIs | extension/inet/ipaddress.cpp:128-133 | a string of hexadecimal digits is, in lower case, the printed form of its value after leading zeros |
| IpDigits.DecTextIs | extension/inet/ipaddress.cpp:60-66 | a string of decimal digits is the printed form of its value after leading zeros |
| Ipv6Parser.ParseQuad | extension/inet/ipaddress.cpp:165-189 | a dotted quad becomes its two groups, or the error, or the write past the array, as the scanner says |
| Ipv6Parser.ParseGroup | extension/inet/ipaddress.cpp:191-231 | a group, a colon, "::" or a mask moves position, array and double-colon index as the scanner says |
| Ipv6Parser.ParseTurn | extension/inet/ipaddress.cpp:156-232 | one turn of the loop does what one step of the scanner does |
| Ipv6Parser.TryParse | extension/inet/ipaddress.cpp:147-268 | the parser accepts, rejects or overruns as the grammar says, with halves that are the groups of the tree |
| Ipv6Printer.BestRunUnique | extension/inet/ipaddress.cpp:331-344 | the longest run of at least two zero groups, leftmost on ties, is unique |
| Ipv6Printer.Unpack | extension/inet/ipaddress.cpp:313-356 | the loop unpacks the groups and finds that run, or none |
| Ipv6Printer.CanonicalMeans | extension/inet/ipaddress.cpp:358-399 | the printed tree is one the parser accepts, and it denotes the groups and the mask, with at most one "::" |
| Ipv6Printer.QuadIsPrinted | extension/inet/ipaddress.cpp:379-389 | the last two groups are printed as a dotted quad exactly for ::ffff:0:0/96, for ::ffff:0:0:0/96, and for the addresses of ::/96 from 65536 on whose last group is not 1 |
| Ipv6Printer.ToString | extension/inet/ipaddress.cpp:313-399 | the printed text is the rendering of that tree for the best run, in all three dotted forms |
| Ipv6Printer.GroupsMakeAddress | extension/inet/ipaddress.cpp:322-330 | the groups unpacked from two halves make up the two halves |
| Ipv6Printer.RoundTrip | extension/inet/ipaddress.cpp:313-399 | every 128-bit address with a mask of 0 to 128 is read back from its printed text |
| IpAddress.TryParse | extension/inet/ipaddress.cpp:270-295 | the parser for either kind returns what the text is read as |
| IpAddress.ReadIs | extension/inet/ipaddress.cpp:270-295 | the first character that is no hexadecimal digit decides the kind, or which of two errors is given |
| IpCase.LowParse | extension/inet/ipaddress.cpp:128-133 | the lower-case form of a text has the same structure, with its groups in lower case |
| IpCase.CaseIsIgnored | extension/inet/ipaddress.cpp:270-295 | a text and its lower-case form are read as the same kind, address and mask, or fail with the same error |
| IpAddress.ReadV6 | extension/inet/ipaddress.cpp:270-295 | a text is accepted as IPv6 exactly if it is the rendering of a valid IPv6 tree |
| IpAddress.ReadV4 | extension/inet/ipaddress.cpp:270-295 | a text is accepted as IPv4 exactly if it is the rendering of valid numbers and mask, and an ignored rest |
| IpAddress.ToString | extension/inet/ipaddress.cpp:401-411 | prints the text of its kind |
| IpAddress.RoundTrip | extension/inet/ipaddress.cpp:270-411 | kind, address and mask are read back from the printed form of every address in range |
| IpAddress.PrintsInjective | extension/inet/ipaddress.cpp:401-411 | different addresses print differently |
| Inet.TryAddExact | src/common/types/uhugeint.cpp:307-317 | two-word addition is exact and reports an overflow exactly when there is one |
| Inet.TrySubtractExact | src/common/types/uhugeint.cpp:319-325 | two-word subtraction is exact when it does not underflow, and misses an underflow exactly when the subtrahend's upper word is all ones and the lower words borrow |
| Inet.TrySubtractMissesUnderflow | src/common/types/uhugeint.cpp:319-325 | zero minus the greatest number is reported to fit |
| Inet.CompatRoundTrip | extension/inet/inet_functions.cpp:20-41 | storing and loading an address are inverse to each other, for both kinds |
| Inet.StoredOrder | extension/inet/inet_functions.cpp:32-41 | IPv6 addresses are ordered by their signed stored numbers as by their values |
| Inet.AddIsSum | extension/inet/inet_functions.cpp:115-143 | adding succeeds exactly if the number is zero or the sum is in range, which for IPv4 ends below 255.255.255.255, and then gives the sum with kind and mask kept |
| Inet.AddThenSubtract | extension/inet/inet_functions.cpp:115-155 | after an addition that succeeds, subtracting gives the address back exactly if the number is zero, or is not the least one and the address is not 255.255.255.255 |
| Inet.BroadcastLost | extension/inet/inet_functions.cpp:115-155 | from 255.255.255.255, adding -1 succeeds and subtracting -1 does not give it back |
| HttpReader.Handle.ReadAt | extension/httpfs/httpfs.cpp:443-513 | a read succeeds exactly if it is empty or in the file, returns the file's bytes, leaves the offset at its end and keeps the window equal to the file; at most one request, none if empty, cached or within the window |
| HttpReader.Handle.ReadLoop | extension/httpfs/httpfs.cpp:478-512 | the refill loop ends, fills the buffer with the file's bytes and makes at most one request |
| HttpReader.Handle.Fetch | extension/httpfs/httpfs.cpp:493-511 | bytes beyond the window are fetched past it if they are more than it takes, else the window is loaded with them |
| HttpReader.Handle.Reposition | extension/httpfs/httpfs.cpp:468-477 | the window is reused from the location on exactly if it holds it |
| HttpReader.Handle.Read | extension/httpfs/httpfs.cpp:515-521 | a sequential read returns as many bytes as asked for and left, and fails only past the end |
| HttpReader.Handle.Seek | extension/httpfs/httpfs.cpp:564-567 | moves the offset and nothing else |
| HttpReader.Replay | extension/httpfs/httpfs.cpp:443-567 | any sequence of reads and seeks, in any mode, returns what a plain file with a cursor returns |
| JsonPath.ReadString | extension/json/json_common.cpp:58-87 | the quoted key with its escapes removed, built in a buffer that never overflows |
| JsonPath.ReadInteger | extension/json/json_common.cpp:98-123 | up to 19 digits, without wrap-around |
| JsonPath.ReadKey | extension/json/json_common.cpp:125-143 | the key token at a position and its length |
| JsonPath.ReadArrayIndex | extension/json/json_common.cpp:145-183 | the index token at a position, from either end or a wildcard, and where it ends |
| JsonPath.ValidatePath | extension/json/json_common.cpp:185-222 | reports whether the path lexes, whether it has a wildcard, an error, or a position past the end |
| JsonPathText.PlainEndIs | extension/json/json_common.cpp:87-94 | a plain key ends at the first dot, the first opening bracket or the end of the path |
| JsonPathText.SpellingLexes | extension/json/json_common.cpp:58-183 | every spelling of a token, plain or quoted key, index with or without "-" or "#-", "[#]" or wildcard, is read as the token that it denotes |
| JsonPathText.TokenSpelled | extension/json/json_common.cpp:58-183 | every token that is read is read from one of these spellings |
| JsonPathText.LexIsGrammar | extension/json/json_common.cpp:185-222 | a path is read as a list of tokens exactly if it is a spelling of them, one after another |
| JsonPathText.RenderLexes | extension/json/json_common.cpp:185-222 | the text of every list of writable tokens is read back as the list |
| JsonPathText.PathsAreWritable | extension/json/json_common.cpp:185-222 | the token lists of valid paths are exactly the lists of tokens with a non-empty key other than "*" or an index below 10^19 |
| JsonPathText.OverrunIsOpenIndex | extension/json/json_common.cpp:98-123 | reading passes the end exactly if the last token is an index of 19 digits, up to the end, that nothing closes |
| JsonPathText.OverrunExample | extension/json/json_common.cpp:98-123 | a path that ends in an open index of 19 digits is read past its end |
| JsonPathText.NumberClosed | extension/json/json_common.cpp:175-181 | an index is followed by a bracket unless it has 19 digits |
| JsonWalk.NextToken | extension/json/json_common.cpp:228-265 | on a valid path the conditions that the evaluators assert hold at every token, and the default case is never reached |
| JsonWalk.GetPath | extension/json/json_common.cpp:224-267 | on a valid path gives the value the token list leads to, or nothing |
| JsonWalk.WalkPath | extension/json/json_common.cpp:269-328 | on a valid path appends what the walk over the token list finds |
| JsonWalk.RegularWalk | extension/json/json_common.cpp:269-328 | without wildcards the walk finds the single value or nothing |
| JsonWalk.FromBack | extension/json/json_common.cpp:256-259 | an index n of at least 1 from the back selects element length minus n if n is at most the length and nothing otherwise, despite 64-bit wrap-around |
| JsonWalk.PlacesMatch | extension/json/json_common.cpp:269-328 | the places the walk passes through are exactly those that match, token by token |
| JsonWalk.PlacesOrdered | extension/json/json_common.cpp:281-313 | the places come in document order, none twice |
| JsonWalk.WalkFindsPlaces | extension/json/json_common.cpp:269-328 | the walk returns the values at those places, in that order |
| JsonPathText.Extract | extension/json/json_common.cpp:185-336 | for every path text the validator accepts, the evaluator that its verdict asks for returns the values at exactly the places that match the path, in document order; at most one without wildcards |
| JsonRanges.StepKeeps | extension/json/buffered_json_reader.cpp:71-120 | every atomic access of every reader keeps the invariant |
| JsonRanges.RangesCoverFile | extension/json/buffered_json_reader.cpp:71-87 | in every state of every run the ranges handed out are disjoint and join to the file up to the position, and to the whole file once the last was requested |
| JsonRanges.RangesAreAsked | extension/json/buffered_json_reader.cpp:77-79 | in every run the ranges are those that the readers ask for, one after the other, cut off at the end of the file |
| JsonRanges.ActualWithinRequested | extension/json/buffered_json_reader.cpp:112-115 | reads done never exceed reads requested, so that no reader throws; at most one more read than bytes is requested |
| JsonRanges.DoneIsLast | extension/json/buffered_json_reader.cpp:117-119 | the file is reported done at most once, and only when every requested read is done and no other will be |
| JsonRanges.DoneIsReported | extension/json/buffered_json_reader.cpp:112-120 | once the last read was requested and all readers are back, the file has been reported done |
| JsonRanges.NoDeadlock | extension/json/buffered_json_reader.cpp:71-120 | in every state of every run some reader can step, and a reader that is not waiting for the lock always can |
| JsonStream.JsonFileHandle.ReadInternal | extension/json/buffered_json_reader.cpp:157-168 | reads as much as asked for or left, whatever the chunks the stream gives |
| JsonStream.JsonFileHandle.ReadFromCache | extension/json/buffered_json_reader.cpp:170-194 | copies the cached bytes from a position on, over all buffers |
| JsonStream.JsonFileHandle.Read | extension/json/buffered_json_reader.cpp:122-155 | the first bytes of what is left in cache and stream, as many as asked for or left, which leaves the others; done exactly when there are none |
| JsonStream.JsonFileHandle.Reset | extension/json/buffered_json_reader.cpp:32-41 | in every state: a file starts again at its first byte; a stream delivers its cache and then what it has not given yet, which loses exactly the bytes it gave after the cached ones |
| JsonStream.ReadMany | extension/json/buffered_json_reader.cpp:122-155 | any sequence of read sizes delivers what is left without a gap or a repetition |
| JsonStream.SampleThenReplay | extension/json/buffered_json_reader.cpp:32-194 | sampling with any sizes, a reset and reading with any sizes deliver the stream from its first byte, twice |
| IcuTime.CalendarAddHour | extension/icu/icu-dateadd.cpp:35-53 | adding hours in chunks of 32 bits adds all of them |
| IcuTime.UnitsAddUp | extension/icu/icu-dateadd.cpp:85-95 | the truncated milliseconds, seconds, minutes and hours of an interval add up to it |
| IcuTime.Add | extension/icu/icu-dateadd.cpp:56-118 | the sum of timestamp and interval as specified, or nothing if a range check fails |
| IcuTime.AddIsLinear | extension/icu/icu-dateadd.cpp:56-118 | an interval of days and microseconds is added exactly, for either sign; success is stated by the range checks |
| IcuTime.AddThenSubtract | extension/icu/icu-dateadd.cpp:125-129 | microseconds added and subtracted again give the timestamp back when no range check fails |
| IcuTime.SetTime | extension/icu/icu-datefunc.cpp:121-137 | milliseconds rounded down go to the calendar, and the rest is returned |
| IcuTime.GetTime | extension/icu/icu-datefunc.cpp:89-119 | the calendar's time in microseconds exactly if it is in range |
| IcuTime.DateRange | extension/icu/icu-datefunc.cpp:105-110 | the range check accepts exactly the timestamps from the start of day -106751991 on that are below the greatest 64-bit number, which stands for infinity |
| IcuOrder.MonthsKeepDay | extension/icu/icu-dateadd.cpp:104-109 | adding months moves the month by them and keeps the time and the day of the month, or gives the last day of a shorter month |
| IcuOrder.MonthsFirst | extension/icu/icu-dateadd.cpp:106-115 | an interval without a negative part is its days and microseconds after its months, exactly unless the microseconds carry into a next day that the months do not keep next |
| IcuOrder.TimeFirst | extension/icu/icu-dateadd.cpp:97-105 | an interval with a negative part is its months after its days and microseconds, exactly unless one borrow is too few and the months do not keep the day next |
| IcuOrder.CarryExample | extension/icu/icu-dateadd.cpp:64-72 | a month and a microsecond after the last microsecond of 30 January 1970 is 28 February, but 1 March when the two are added one after the other |
| IcuOrder.BorrowExample | extension/icu/icu-dateadd.cpp:64-72 | a month on and 999 microseconds back from the first microsecond of 31 January 1969 is 27 February, but 28 February in two steps |
| IcuOrder.MonthDifferenceIs | extension/icu/icu-timebucket.cpp:109 | the difference of two instants in months is the greatest number of months, towards zero, that does not pass the second |
| Gregorian.MonthLength | extension/icu/icu-timebucket.cpp:96-120 | the twelve lengths of the months, with the leap years |
| Gregorian.EpochIs | extension/icu/icu-timebucket.cpp:96-120 | days are counted from 1 January 1970 |
| TimeBucket.Classify | extension/icu/icu-timebucket.cpp:41-62 | a width is of microseconds, days or months exactly if it has only that part, and positive; which mixed widths give which error |
| TimeBucket.TruncatedFloor | extension/icu/icu-timebucket.cpp:68-72 | C division with a step back below zero is rounding down |
| TimeBucket.MicrosBucket | extension/icu/icu-timebucket.cpp:64-75 | the bucket is aligned to the origin and holds the timestamp; success is stated by the range checks |
| TimeBucket.DaysBucket | extension/icu/icu-timebucket.cpp:77-94 | the bucket is aligned to the origin, and it holds the timestamp exactly if the two roundings do not slip; success is stated by the range checks |
| TimeBucket.DaysFromIs | extension/icu/icu-timebucket.cpp:81-91 | the day count and the step back give the bucket of the timestamp exactly if they do not slip |
| TimeBucket.WholeMillisecondOrigin | extension/icu/icu-timebucket.cpp:77-94 | with an origin in whole milliseconds they never slip and the bucket is the floor |
| TimeBucket.DaysBucketSlips | extension/icu/icu-timebucket.cpp:77-94 | a timestamp, an origin and a width for which, in every zone, no step leaves the range and the bucket returned starts after the timestamp |
| TimeBucket.SlippedIsNext | extension/icu/icu-timebucket.cpp:77-94 | a bucket that slips is the one after the bucket of the timestamp |
| TimeBucket.GuessExceedsAfterOrigin | extension/icu/icu-timebucket.cpp:87-88 | exactly when the first guess exceeds a timestamp at or after the origin, against the assertion |
| TimeBucket.GuessExample | extension/icu/icu-timebucket.cpp:87-88 | a timestamp after its origin for which that assertion fails |
| TimeBucket.StepBackNotBelow | extension/icu/icu-timebucket.cpp:87-91 | the bucket is not below the timestamp, against the second assertion, exactly if it slips or the timestamp starts a bucket |
| TimeBucket.StepBackExample | extension/icu/icu-timebucket.cpp:87-91 | a timestamp for which the step back is taken and the second assertion fails |
| TimeBucket.MonthsBucket | extension/icu/icu-timebucket.cpp:96-120 | a product overflows exactly if the start of the month of the timestamp or of the origin is not in 64 bits; otherwise the bucket is the start of a month, a multiple of the width away from the origin's month, and holds the timestamp, and success is stated by the range checks |
| TimeBucket.OverflowIsEarly | extension/icu/icu-datefunc.cpp:79-87 | only timestamps within 31 days of the least number of 64 bits are in a month whose start overflows |
| TimeBucket.WrappedBucket | extension/icu/icu-timebucket.cpp:101-119 | if the product for the timestamp wraps around and the later checks pass, the bucket is that of the wrapped start of the month, and is not above the timestamp exactly if that is the bucket of the timestamp |
| TimeBucket.LeastTimestamp | extension/icu/icu-timebucket.cpp:101-119 | the least timestamp overflows in buckets of one month with the default origin, and if the product wraps, the bucket is in the year 294246 |
| TimeBucket.TimeBucketFrom | extension/icu/icu-timebucket.cpp:281-301 | null exactly for an infinite origin, the width error exactly for a bad width, an infinite timestamp itself, overflow exactly as for months, out of range exactly if a checked step leaves the range, and otherwise the bucket of the timestamp unless day rounding slips |
| TimeBucket.TimeBucketDefault | extension/icu/icu-timebucket.cpp:179-194 | with the default origins the bucket holds its timestamp for every valid width, except for months whose start overflows and where a checked step leaves the range |
| TimeBucket.BucketMonotone | extension/icu/icu-timebucket.cpp:64-120 | later timestamps have no earlier buckets, and where buckets are returned for both, the later one's is no earlier, even where day buckets slip |
| TimeBucket.BucketIdempotent | extension/icu/icu-timebucket.cpp:64-120 | the start of a bucket is in that bucket, and a bucket that is returned is returned for itself, without overflow and in range, even where day buckets slip |
| PathMatch.MatchesIsSplits | extension/httpfs/s3fs.cpp:972-995 | a match exists exactly if the key splits so that each plain element globs one component, an inner "**" takes any number and a final one at least one |
| PathMatch.Match | extension/httpfs/s3fs.cpp:972-995 | the recursive matcher ends and returns whether there is a match |
| LikeGlob.Glob | src/function/scalar/string/like.cpp:231-366 | the loops and the recursion end and return whether the string matches the pattern |
| LikeGlob.ParseBracket | src/function/scalar/string/like.cpp:296-366 | whether a bracket is closed and holds the character, and where it ends |
| LikeSplits.StarSkips | src/function/scalar/string/like.cpp:240-258 | an asterisk with something else after it matches exactly if what follows the asterisks matches from some later character on |
| LikeSplits.BracketIs | src/function/scalar/string/like.cpp:296-366 | a bracket accepts exactly the characters that it lists or has in a range of signed bytes, and with "!" exactly the others, and ends where it is closed |
| LikeSplits.GlobIsSplits | src/function/scalar/string/like.cpp:231-366 | a string matches a pattern exactly if the pattern is a list of asterisks, question marks, characters, escaped characters and closed brackets among which the string can be divided |
| GlobListing.LikeIsPlain | src/function/scalar/string/like.cpp:231-293 | in components without wildcards "?" stands for one character and all others for themselves, for all strings and components |
| PathSplit.SplitPath | src/common/string_util.cpp:273-295 | the parts between slashes that are not empty, or the path itself |
| PathSplit.SplitJoined | src/common/string_util.cpp:273-295 | splitting a path of names gives the names back |
| PathSplit.SharedPath | extension/httpfs/hffs.cpp:215-231 | finds whether there is a wildcard and, if so, the last slash before the first one, or the start if there is none |
| Listing.ListAll | extension/httpfs/hffs.cpp:240-258 | the listing loop ends, visits each directory and finds each file as often as the tree holds it, for all trees and pages |
| Listing.LookupKeepsFiles | extension/httpfs/hffs.cpp:237-241 | a file below a directory is found as often from there as from the root |
| GlobListing.MatchIsShared | extension/httpfs/hffs.cpp:215-231 | a file that matches lies below the directory part before the first wildcard, if that part has no "?"; for a glob by which components without wildcards and "?" match themselves only |
| GlobListing.SharedIsExact | extension/httpfs/hffs.cpp:215-231 | if a pattern matches anything, all its matches lie below that part exactly if it has no "?"; for a glob by which, in components without wildcards, "?" stands for one character and all others for themselves |
| GlobListing.SharedLosesNothing | extension/httpfs/hffs.cpp:215-258 | without "?" in that part each path is returned as often as it should be; in general it is not exactly if it matches, is in the tree and is not below the part; for a glob as in `MatchIsShared` |
| GlobListing.QuestionMarkLoses | extension/httpfs/hffs.cpp:215-258 | a tree of one file and a pattern that matches the file and does not return it |
| GlobListing.LikeLoses | extension/httpfs/hffs.cpp:215-258 | with the glob of the source that file is lost |
| GlobListing.GlobFiles | extension/httpfs/hffs.cpp:212-274 | for every pattern and every glob of components, each path is returned as often as the tree holds a file there, if it matches and is below that part, and not at all otherwise; the cases without wildcard and without start directory exactly |
| ColumnSketch.SortIs | src/include/duckdb/storage/statistics/column_sketch.hpp:70-71 | the sample is the sorted column |
| ColumnSketch.LowerBound | src/include/duckdb/storage/statistics/column_sketch.hpp:94-95 | the code is the number of endpoints below the value |
| ColumnSketch.CodesKeepOrder | src/include/duckdb/storage/statistics/column_sketch.hpp:89-97 | codes keep the order of values, and different codes decide it |
| ColumnSketch.CodesApart | src/include/duckdb/storage/statistics/column_sketch.hpp:89-97 | a value has a smaller code than another exactly if an endpoint is at least the first and below the second |
| ColumnSketch.SketchIsValid | src/include/duckdb/storage/statistics/column_sketch.hpp:69-97 | the quantile endpoints are sorted values of the column, the last is its greatest, and every value has the code of one byte that they give |
| ColumnSketch.QuantilesAreEven | src/include/duckdb/storage/statistics/column_sketch.hpp:82-86 | consecutive endpoints are n/k places apart in the sorted column, rounded down or up |
| ColumnSketch.CodeIsRank | src/include/duckdb/storage/statistics/column_sketch.hpp:89-97 | the code of a value is j exactly if the first place of the value in the sorted column is after endpoint j-1 and not after endpoint j |
| ColumnSketch.Build | src/include/duckdb/storage/statistics/column_sketch.hpp:55-97 | the constructor builds that sketch, and is undefined on an empty column |
| SketchScan.PicksExact | src/include/duckdb/storage/statistics/column_sketch.hpp:110-116 | with a constant up to the greatest value, selection by code and value is the comparison |
| SketchScan.LessCpu | src/include/duckdb/storage/statistics/column_sketch.hpp:99-119 | returns exactly the rows below the constant, for every constant |
| SketchScan.GreaterCpu | src/include/duckdb/storage/statistics/column_sketch.hpp:349-361 | returns exactly the rows above the constant, exactly unless the constant is above the column, all 256 codes are in use and not all values have the first |
| SketchVector.CheckBase | src/include/duckdb/storage/statistics/column_sketch.hpp:210-220 | keeps the lanes with an equal code whose value qualifies |
| SketchVector.Scatter | src/include/duckdb/storage/statistics/column_sketch.hpp:223-227 | writes the rows of a block's mask in order |
| SketchVector.Evaluate | src/include/duckdb/storage/statistics/column_sketch.hpp:146-245 | the rows and the mask words of the vectorised scan, for both directions |
| SketchVector.ExactUnlessMissed | src/include/duckdb/storage/statistics/column_sketch.hpp:192-228 | the scan is exact for a constant exactly unless it misses a row of a full block that qualifies and has the constant's code |
| SketchVector.CheckedIsExact | src/include/duckdb/storage/statistics/column_sketch.hpp:204-228 | a scan that looks at the values of equal codes is exact for every constant |
| SketchVector.UncheckedIsExact | src/include/duckdb/storage/statistics/column_sketch.hpp:76-78 | a scan that skips that look is exact for all constants exactly if every value in the full blocks is an endpoint, or for "greater" is the least value or follows an endpoint |
| SketchFilter.Check | src/storage/statistics/numeric_stats.cpp:228-316 | "always true" and "always false" are given exactly if the scan selects all rows or none; "always true" is right, "always false" is right exactly if no row is missed and the constant does not wrap, and then both are given whenever they are right |
| SketchFilter.ComparisonExact | src/storage/statistics/numeric_stats.cpp:254-309 | with an exact scan an ordering comparison selects the right rows exactly if its constant does not wrap around |
| SketchFilter.SignedOrder | src/storage/statistics/numeric_stats.cpp:234-236 | an ordering of the unsigned casts of two signed numbers is right exactly if their signs agree |
| SketchFilter.SignedExact | src/storage/statistics/numeric_stats.cpp:234-236 | with an exact scan an ordering comparison selects the right rows of a signed column exactly if all signs agree with the constant's or, where the cast constant wraps, if all differ from it |
| SketchAnd.BitmaskToSelection | src/include/duckdb/common/types/selection_vector.hpp:207-219 | the rows of the set bits, in order |
| SketchAnd.And | src/planner/filter/conjunction_filter.cpp:83-124 | for comparisons of all kinds and any selection of the vector: a mask is read past its end exactly if some scan leaves a shorter mask than was merged first and every earlier scan selects a row; the AND stops early exactly if some scan selects no row and none up to it leaves a shorter mask; otherwise it keeps, in order, the rows that all scans select, within the mask of the vector if an equality is first, and the verdict is "always true" exactly if all scans select all rows |
| SketchAnd.AndExact | src/planner/filter/conjunction_filter.cpp:83-124 | with exact scans the rows kept are those that satisfy all orderings and, if an equality is first, are in the mask of the vector |
| SketchAnd.EqualityFirstKeepsNone | src/planner/filter/conjunction_filter.cpp:98-121 | on a vector without a mask an AND that starts with an equality keeps no row and reads past no mask |
| SketchCases.SmallColumn | src/include/duckdb/storage/statistics/column_sketch.hpp:69-87 | on a column of at most 256 rows "less" is exact for all constants, and "greater" exactly if every value in a full block is the least or the successor of another value |
| SketchCases.AlwaysFalseWrong | src/storage/statistics/numeric_stats.cpp:266-279 | a built column and a constant for which the scan is not exact and "always false" is given though rows satisfy the comparison |
| SketchCases.TensStop | src/planner/filter/conjunction_filter.cpp:111-113 | on that column an AND stops at its first comparison although a later mask is shorter |
| SketchCases.TensPast | src/planner/filter/conjunction_filter.cpp:104-106 | on that column an AND reads past the mask of its second comparison |
| SketchColumns.MergeColumns | src/storage/table/row_group.cpp:578-605 | a mask is read past its end exactly if that of some column is shorter than the first; otherwise the rows are those that all masks have, in order, or the selection of the only column |
| SketchColumns.TwoColumns | src/storage/table/row_group.cpp:583-592 | with one comparison on each of two columns that happens exactly if the rows fill whole words, the first constant is within the range of its column and all rows satisfy the second |
| SketchColumns.TwoColumnsExact | src/storage/table/row_group.cpp:583-605 | with exact scans the rows that both masks have are those that satisfy both comparisons |
| SketchColumns.EqualityColumnShort | src/storage/table/row_group.cpp:583-592 | after a column with a mask, a column without one, as an equality leaves it on a fresh vector, is read past its end |
| SketchColumns.TensColumns | src/storage/table/row_group.cpp:583-592 | two built columns and comparisons for which a mask is read past its end |
| SketchCases.CountingWrong | src/include/duckdb/storage/statistics/column_sketch.hpp:349-361 | a built column of 256 values on which the scalar scan finds rows above a constant that is above all of them |

## Left out

- Request signing, secrets, settings, retries and the HTTP client: foreign code and I/O.
- Full-file download (extension/httpfs/httpfs.cpp:274-328): its retries depend on the server.
- Time zones with daylight saving and non-Gregorian calendars: the behaviour is ICU's.
- The double that ICU keeps milliseconds in loses odd values above 2^53; the model's count is exact.
- A part or a range that the server sends incompletely: a request succeeds or fails as a whole, and what a failed one leaves in the buffer is not stated.
- `UrlEncode`, `UrlDecode`, `ParseKey`, `ParseListResult`, `HFUrlParse` and `GetHFUrl`: only easy properties, or tied to a server's text.
- `ReadAtPosition` on streams that cannot seek: readers of such streams use `Read`.
- The OR of filters, null filters and struct filters on sketches: the OR stops at its first child that may be true.
- The selection that rows get where an equality is the only filter: it stays what it was, and later filters decide.
- `evaluate_lessthan_orequal_avx512`, `evaluate_greaterthan_orequal_avx512`, the AVX2 scans, `evaluate_equal` and `evaluate_between`: nothing calls them.
- The server's answer to the completion request (extension/httpfs/s3fs.cpp:543-557): the request is taken to be answered; another exception of Close or FileSync comes from there.
- A PUT that fails with a status other than 200 throws an exception that is no `IOException`, which ends the process (extension/httpfs/s3fs.cpp:427-437); the runs of the model are the runs up to then.
- Text encodings: the characters of strings are bytes.
- Deleted rows, updates and the choice between zone maps and sketches in the row group scan.
- S3Runs.CountersFit: assumes that a file has at most 65535 parts, because the index of a part is narrowed to 16 bits.
- JsonWalk.WalkFindsPlaces: assumes arrays of fewer than 2^62 elements.
- GlobListing.GlobFiles: assumes that no directory on the way to the start has two children of one name, and that the names of files are not empty and have no slash.
