# Verified model of the QuestDB ingestion client

This project models the client library that serialises rows into the InfluxDB
line protocol and sends them to QuestDB, together with the algorithms of the
test runner that is shipped with it in full. `dafny verify dfyconfig.toml`
checks everything.

## What is modelled

**The row buffer** (`questdb-rs/src/ingress/mod.rs`). `BufferModel` gives each
public call of `Buffer` as a function on the buffer's fields, with the checks in
the order of the code. `BufferObject.Buffer` is the class that updates the same
fields in place, over the growable octet vector of `OutputVec`, whose fresh
memory is unspecified until it is written; every method is proved to compute the
function, and the object's invariant is that its fields are what the calls it has
seen make of a new buffer (`CallLog`). `RowHistory` says what the calls mean: the
rows that were finished, the row being written, and the rewind point among them.
`Rows` prints such rows and `RowParser` reads text back, written independently of
the printer: it tells a lone `t` from digits and `t`, a `0x..i` from digits and
`i`, and looks ahead for an unescaped `=` where a space may open the columns or
the timestamp.
`BufferRuns` proves the results over every run of calls, accepted and refused:
reading the output gives back the rows, the incrementally kept state is what
reading the output again would compute, the output is valid UTF-8 (section 4 of
RFC 3629) and rewinding is exact. `CallOutcomes` says what every call returns.
`WriteAndRead` starts from the other end: any rows the documentation allows can be
written, and are what a reader finds.
`CallOrder` proves that the bitmask accepts exactly the documented sequences of
calls. `Framing` counts rows with nothing but the rule that a backslash escapes
the next octet. `Names` models the validation of names.

Names and timestamps are generic in the source: any type that converts will do,
and the conversion may fail. The calls therefore take the *result* of a
conversion. Strings are octet sequences that are valid UTF-8, as `&str` is.

**The sender** (`mod.rs`, `http.rs`). `SenderModel` is one flush of the TCP sender,
with an arbitrary outcome for the write. `FlushLog` says what a sequence of
flushes delivers and which of them breaks the connection, and proves that the
wire is exactly that. `SenderRuns` is the state machine of one sender and any
number of buffers, over any run of calls and flushes. `HttpRetry` is the retry
loop against an arbitrary sequence of outcomes and jitters, a clock that does not
go back, and sleeps that last at least as long as asked. `SenderObject.Sender` is
the object that uses both; its invariant is that its connection is what the
flushes it was asked for made of a new one.

**The configuration** (`mod.rs`, `conf.rs`). `Config` models the builder, its
write-once settings and the loop of `from_conf`. Builder methods take and return
the builder by value, so it is a datatype; the loop chooses its next key
arbitrarily, as iterating over a hash map does, and its contract does not mention
an order. It is stated a second time in terms of the string alone: which strings
are accepted, and what each field of the builder then holds. `ConfigNumbers` has
the numbers. The library's compile-time features and the set of readable files
are parameters.

**Timestamps and keys** (`timestamp.rs`, `mod.rs`). `Timestamps` has the i64
conversions, with division rounding toward zero. `PublicKey` has the padding of
the coordinates of a public key.

**The test runner** (`cpp_test/doctest.h`). `Wildcard` is the glob matcher,
`FilterTokens` the splitting of comma-separated options, `SmallString` the string
class with its inline buffer and the memory its heap fields share with it, and
`StringRuns` any run of operations and constructions in a pool of such strings.
`SubcaseTree`, `SubcaseRuns` and `SubcaseObject` are the protocol that runs a test
body again and again until every path of subcases has been executed, and
`SubcaseLoops` is about bodies in which a subcase is met again.

## Where the code does not keep a promise

- A refused row call leaves the buffer unchanged, except `column_ts` whose
  argument fails to convert: the key has been written by then and stays without a
  value. `BufferModel.RefusedCallChangesNothing` gives the exact condition,
  `BufferModel.RefusedColumnTsWitness` the input, and
  `BufferModel.BuiltInTimestampsAreAtomic` shows that the library's own timestamp
  types never meet it. The row tree has a `Missing` value for this, so the round
  trip covers it too.
- Table names may not end in a dot, but the check compares a character index with
  a length in octets, so it works for ASCII names only (`Names.NewTableName`,
  `Names.TrailingDotWitness`).
- The state is determined by the output except right after an unchecked, empty
  table name, which writes no octet (`BufferRuns.StateIsReread`,
  `BufferRuns.EmptyTableWitness`).
- Splitting a joined list of filters drops its empty entries
  (`FilterTokens.SplitInvertsJoin`, `FilterTokens.EmptyEntryWitness`).
- A run of a test body indexes the stack of subcases out of range exactly if some
  part of the body that is met after the leaf opens a subcase below the end of the
  leaf path (`SubcaseRuns.RunOverruns`). `SubcaseRuns.RunOverrunsExactly` proves
  both directions for one run of any body, from any bookkeeping, and
  `SubcaseLoops.LoopOverrunsExactly` for any number of rounds. It takes a sibling
  with the signature of a subcase on the leaf path, which is entered again: often
  harmless (`SubcaseRuns.ReentryWitness`), but out of range where it opens a
  subcase below the end of the leaf path (`SubcaseRuns.RepeatedSiblingWitness`).
  As long as what is met again has the same contents as before, as in a loop
  around subcases, no round ever gets there (`SubcaseLoops.LoopStaysInRange`).
- With repeated siblings the runner's loop need not end, even when they have the
  same contents and every round is in range: a loop that is gone through twice,
  around two subcases with one of their own each, keeps it going back and forth
  (`SubcaseLoops.EndlessWitness`). For any body and any bookkeeping the loop ends
  if and only if it does not come back to the goal and the records of an earlier
  round; the paths that can be built from the body bound the number of rounds in
  which that shows (`SubcaseLoops.LoopEndsExactly`). It always ends with distinct
  siblings (`SubcaseObject.ContextState.RunTestCase`), and where all subcases are
  leaves, however often they are met (`SubcaseLoops.RepeatedLeavesEnd`).

## Model

| member | source | states |
|---|---|---|
| Utf8.ScannerIsGrammar | questdb-rs/src/ingress/mod.rs:259 | The one-pass scanner used as the `String` invariant accepts exactly the octet strings of the grammar in section 4 of RFC 3629 |
| Utf8.BoundaryCutsValidText | questdb-rs/src/ingress/mod.rs:643 | In valid text, `is_char_boundary` positions are exactly those where cutting leaves valid text |
| Escaping.EscapeLength | questdb-rs/src/ingress/mod.rs:259-274 | The octets counted in the first pass are exactly the extra room the escaped text needs |
| Escaping.ReadEscaped | questdb-rs/src/ingress/mod.rs:295-309 | Reading up to the first unescaped delimiter and dropping escapes returns any text that was escaped, in both quoting modes |
| Escaping.EscapeInjective | questdb-rs/src/ingress/mod.rs:295-309 | Different texts are never written alike |
| Escaping.EscapeScans | questdb-rs/src/ingress/mod.rs:254-293 | Escaping raw octets does not change what a UTF-8 scanner sees, from any scanner state |
| Escaping.BareTextIsCopied | questdb-rs/src/ingress/mod.rs:295-297 | A name or symbol is written as it is exactly if it has none of the six special octets |
| Escaping.QuotedTextIsCopied | questdb-rs/src/ingress/mod.rs:299-301 | A string is written as it is, between quotes, exactly if it has none of the four special octets |
| OutputVec.CountToEscape | questdb-rs/src/ingress/mod.rs:260-265 | The counting loop counts the octets that need an escape |
| OutputVec.WriteByteAt | questdb-rs/src/ingress/mod.rs:278-288 | One round of the fill writes the octet, after a backslash if needed, in bounds and right behind what was filled before |
| OutputVec.FillFrom | questdb-rs/src/ingress/mod.rs:276-289 | The indexed fill of the exposed memory leaves no octet unspecified: it holds the escaped text |
| OutputVec.FillEscaped | questdb-rs/src/ingress/mod.rs:269-290 | The copy branch and the fill branch both append the escaped text |
| OutputVec.WriteEscaped | questdb-rs/src/ingress/mod.rs:254-293 | The escaper appends quote, escaped text and quote to the old output and changes nothing else |
| OutputVec.ByteVec.Truncate | questdb-rs/src/ingress/mod.rs:643 | Truncation cuts at a character boundary, and beyond the end does nothing |
| Numerals.DecimalNat | questdb-rs/src/ingress/mod.rs:899-901 | Printed integers have no leading zeros |
| Numerals.DecimalRoundTrip | questdb-rs/src/ingress/mod.rs:899-901 | Reading a printed integer returns it |
| Numerals.HexRoundTrip | questdb-rs/src/ingress/mod.rs:1073 | Reading printed lower-case hex digits returns the octets |
| Timestamps.MicrosToNanos | questdb-rs/src/ingress/timestamp.rs:208-222 | Succeeds exactly when the product fits 64 bits, and converting back is the identity |
| Timestamps.NanosToMicros | questdb-rs/src/ingress/timestamp.rs:224-228 | Loses less than a microsecond, toward zero, on both sides of the epoch |
| Timestamps.NanosToMicrosMonotone | questdb-rs/src/ingress/timestamp.rs:224-228 | Keeps the order |
| Timestamps.SysTimeUnitsAgree | questdb-rs/src/ingress/timestamp.rs:10-32 | A system time in micros is its nanos converted, whenever these fit, before and after the epoch |
| Timestamps.SysTimeIsNear | questdb-rs/src/ingress/timestamp.rs:10-32 | A converted system time is its instant in nanos, and less than a microsecond from it in micros, toward the epoch, on the right side of it |
| Rows.PrintIsValidUtf8 | questdb-rs/src/ingress/mod.rs:724-1178 | Any finished rows and any unfinished row print to valid UTF-8 |
| Rows.ValuesInAscii | questdb-rs/src/ingress/mod.rs:855-1076 | The ASCII codes that each type of value shows in |
| Rows.FieldsInAscii | questdb-rs/src/ingress/mod.rs:790-825 | Commas before symbols, a space before the first column, commas before the others, `=` behind the name |
| Rows.RowInAscii | questdb-rs/src/ingress/mod.rs:1136-1138 | A space before the timestamp and a newline at the end |
| RowParser.ClassifyPrinted | questdb-rs/src/ingress/mod.rs:855-1076 | Each unquoted value is printed so that it cannot be taken for another value or another type |
| RowParser.LookaheadAtColumns | questdb-rs/src/ingress/mod.rs:815-822 | Where columns were written the lookahead sees the `=` of the first key |
| RowParser.LookaheadAtStamp | questdb-rs/src/ingress/mod.rs:1135-1138 | Where a timestamp or nothing was written it sees none |
| RowParser.ReadPrintedLine | questdb-rs/src/ingress/mod.rs:724-1141 | One printed line, with or without a timestamp, reads back as itself |
| RowParser.ReadPrintedRows | questdb-rs/src/ingress/mod.rs:724-1178 | Any printed rows followed by any unfinished row read back as themselves |
| Framing.RowIsOneLine | questdb-rs/src/ingress/mod.rs:1138 | A row holds one unescaped line terminator, its last octet |
| Framing.TerminatorsAreRows | questdb-rs/src/ingress/mod.rs:1119-1178 | Counting unescaped newlines counts the finished rows, and no carriage return stands without an escape |
| CallOrder.SentenceIsAccepted | questdb-rs/src/ingress/mod.rs:412-419 | The machine accepts every documented sequence of calls and ends in the case that belongs to it |
| CallOrder.AcceptedIsSentence | questdb-rs/src/ingress/mod.rs:412-419 | Every accepted sequence of calls is a documented one, which the lemma constructs |
| CallOrder.MachineAcceptsRowLanguage | questdb-rs/src/ingress/mod.rs:492-504 | The bitmask machine accepts exactly the documented row language |
| BufferModel.RefusedCallChangesNothing | questdb-rs/src/ingress/mod.rs:1050-1063 | A refused call leaves output, state and marker as they were if and only if it is not a `column_ts` whose key was accepted and whose argument failed to convert |
| BufferModel.RefusedColumnTsWitness | questdb-rs/src/ingress/mod.rs:1057-1058 | A concrete call that leaves a key without a value |
| BufferModel.BuiltInTimestampsAreAtomic | questdb-rs/src/ingress/timestamp.rs:257-267 | With the library's own timestamp types a refused `column_ts` changes nothing |
| RowHistory.AllowsIsPermits | questdb-rs/src/ingress/mod.rs:672-683 | In every represented state the bitmask allows what the documentation allows |
| RowHistory.TableIsRecorded | questdb-rs/src/ingress/mod.rs:724-744 | `table` records a started row, keeps `first_table` and `transactional` right, and is accepted exactly between rows with a name that fits |
| RowHistory.SymbolIsRecorded | questdb-rs/src/ingress/mod.rs:790-805 | `symbol` records name and value in order, and is accepted exactly before any column |
| RowHistory.PlainColumnIsRecorded | questdb-rs/src/ingress/mod.rs:855-1000 | A column call records name and typed value, and is accepted exactly inside a row |
| RowHistory.TimeColumnIsRecorded | questdb-rs/src/ingress/mod.rs:1050-1065 | `column_ts` records micros, or a missing value when its argument fails |
| RowHistory.FinishIsRecorded | questdb-rs/src/ingress/mod.rs:1136-1141 | Ending a row moves it to the finished rows with its timestamp and counts it |
| RowHistory.RewindIsRecorded | questdb-rs/src/ingress/mod.rs:641-652 | Rewinding keeps exactly the rows finished when the marker was set |
| RowHistory.CallIsRecorded | questdb-rs/src/ingress/mod.rs:552-1178 | Every call, accepted or refused, keeps all fields equal to the functions of the history that define them |
| RowHistory.CallIsJudged | questdb-rs/src/ingress/mod.rs:672-1178 | A call succeeds exactly when the documented rules accept it |
| BufferRuns.RoundTrip | questdb-rs/src/ingress/mod.rs:724-1178 | After any run of calls, reading the output returns exactly the rows written and the unfinished one |
| BufferRuns.StateIsReread | questdb-rs/src/ingress/mod.rs:433-457 | Row count, first table, `transactional` and the call order state are what reading the output computes, with the one exception stated exactly |
| BufferRuns.EmptyTableWitness | questdb-rs/src/ingress/mod.rs:736-744 | The exception happens: after an unchecked, empty table name the output is empty and the state is not that of a new buffer |
| BufferRuns.RowCountIsTerminators | questdb-rs/src/ingress/mod.rs:1139-1140 | The row count is the number of unescaped terminators in the output, also after rewinds and clears |
| BufferRuns.NoBareReturns | questdb-rs/src/ingress/mod.rs:295-301 | In every reachable state each carriage return in the output is escaped |
| BufferRuns.TransactionalIsOneTable | questdb-rs/src/ingress/mod.rs:736-742 | `transactional` holds exactly when all started rows name one table |
| BufferRuns.OrderIsDocumented | questdb-rs/src/ingress/mod.rs:492-504 | In every reachable state exactly the documented calls are accepted |
| BufferRuns.OutputIsValidUtf8 | questdb-rs/src/ingress/mod.rs:259-292 | In every reachable state the output is valid UTF-8 and the marker is a character boundary inside it |
| BufferRuns.RewindIsExact | questdb-rs/src/ingress/mod.rs:622-668 | After a marker is set, any run that leaves it alone keeps the marked output, and rewinding restores output and state with no marker left |
| BufferRuns.RunOnlyAppends | questdb-rs/src/ingress/mod.rs:724-1178 | Runs that leave the marker alone only append |
| BufferRuns.FlushableIsRows | questdb-rs/src/ingress/mod.rs:418 | A reachable buffer that may be flushed holds one or more finished rows and nothing else |
| CallOutcomes.OutcomeIsDocumented | questdb-rs/src/ingress/mod.rs:672-1178 | After any calls the next one returns exactly the documented outcome, with conversion, length and order checked in that sequence and the error of each; timestamps of `at` are accepted from the epoch up to 9223372036854775 micros |
| CallOutcomes.StampIsChecked | questdb-rs/src/ingress/timestamp.rs:268-277 | A timestamp can designate a row exactly if it is not negative and its nanoseconds fit 64 bits |
| WriteAndRead.RowIsRecorded | questdb-rs/src/ingress/mod.rs:724-1178 | The calls for one allowed row are all accepted and record that row |
| WriteAndRead.RowReadsAs | questdb-rs/src/ingress/timestamp.rs:257-277 | The recorded row has every column moment in whole micros and its designated timestamp in nanos, 1000 for each micro |
| WriteAndRead.WriteThenRead | questdb-rs/src/ingress/mod.rs:724-1178 | For any allowed rows, with any names and strings and with each moment in either unit, the calls that write them fill a buffer whose output reads back as these rows, columns in micros and designated timestamps in nanos |
| CallLog.RunAppend | questdb-rs/src/ingress/mod.rs:552-1178 | A run with one more call is that call on what the run left |
| CallLog.ReachedMore | questdb-rs/src/ingress/mod.rs:552-1178 | One more call on a buffer in use continues the run of the calls before it |
| BufferObject.Buffer.WithMaxNameLen | questdb-rs/src/ingress/mod.rs:555-575 | A new buffer is empty |
| BufferObject.Buffer.CheckOp | questdb-rs/src/ingress/mod.rs:672-683 | The bitmask test on the object's state |
| BufferObject.Buffer.CheckNamed | questdb-rs/src/ingress/mod.rs:686-696 | Conversion, length and order are checked in that order |
| BufferObject.Buffer.Table | questdb-rs/src/ingress/mod.rs:724-744 | Updates output, call order, first table and `transactional` as the modelled `table` call does, returns its result or error, and logs the call |
| BufferObject.Buffer.Symbol | questdb-rs/src/ingress/mod.rs:790-805 | Appends separator, escaped name, `=` and escaped value, or refuses with the modelled error and changes nothing |
| BufferObject.Buffer.WriteColumnKey | questdb-rs/src/ingress/mod.rs:807-825 | Appends a space before the first column and a comma before others, then the key, or refuses |
| BufferObject.Buffer.ColumnBool | questdb-rs/src/ingress/mod.rs:855-863 | The object ends in the state of the modelled boolean column call |
| BufferObject.Buffer.ColumnI64 | questdb-rs/src/ingress/mod.rs:893-904 | The object ends in the state of the modelled integer column call |
| BufferObject.Buffer.ColumnF64 | questdb-rs/src/ingress/mod.rs:934-943 | The object ends in the state of the modelled float column call |
| BufferObject.Buffer.ColumnStr | questdb-rs/src/ingress/mod.rs:987-996 | The object ends in the state of the modelled string column call, quotes and escapes included |
| BufferObject.Buffer.ColumnTs | questdb-rs/src/ingress/mod.rs:1050-1065 | The object ends in the state of the modelled timestamp column call; the key is written before the argument is converted |
| BufferObject.Buffer.ColumnLong256 | questdb-rs/src/ingress/mod.rs:1067-1076 | The object ends in the state of the modelled long256 column call |
| BufferObject.Buffer.At | questdb-rs/src/ingress/mod.rs:1114-1142 | Ends and counts the row, or refuses and writes nothing, also when the timestamp overflows or is negative |
| BufferObject.Buffer.AtNow | questdb-rs/src/ingress/mod.rs:1172-1178 | Ends and counts the row without a timestamp, or refuses and writes nothing |
| BufferObject.Buffer.SetMarker | questdb-rs/src/ingress/mod.rs:622-635 | Remembers output length and state, or refuses inside a row |
| BufferObject.Buffer.RewindToMarker | questdb-rs/src/ingress/mod.rs:641-652 | Restores the marked length and state and drops the marker, or refuses without one; the truncation cannot panic |
| BufferObject.Buffer.ClearMarker | questdb-rs/src/ingress/mod.rs:658-660 | The marker is dropped and nothing else changes |
| BufferObject.Buffer.Clear | questdb-rs/src/ingress/mod.rs:664-668 | The buffer is as good as new |
| Names.NewTableName | questdb-rs/src/ingress/mod.rs:87-146 | Accepts exactly the non-empty names without refused characters and misplaced dots, where a dot at the end is only seen in ASCII names |
| Names.TrailingDotWitness | questdb-rs/src/ingress/mod.rs:99 | `TableName::new` accepts a name that ends in a dot because it is not ASCII, and refuses one that is |
| Names.NewColumnName | questdb-rs/src/ingress/mod.rs:172-219 | Accepts exactly the non-empty names without refused characters |
| Names.RefusedCodes | questdb-rs/src/ingress/mod.rs:87-219 | The refused characters by their codes; a column name may hold neither dots nor hyphens on top |
| HttpRetry.RetryHttpSend | questdb-rs/src/ingress/http.rs:189-217 | The loop ends, resends the same body and only while the deadline check allows it and only after retriable failures, and returns the last outcome |
| HttpRetry.HttpSendWithRetries | questdb-rs/src/ingress/http.rs:220-235 | Attempts, each with the whole body, go on until the first reason to stop, and the result is the last attempt's |
| HttpRetry.SendTraceIsUnique | questdb-rs/src/ingress/http.rs:189-235 | The number of attempts and the result are determined by the surroundings |
| HttpRetry.OnlyRetriableFailuresAreRetried | questdb-rs/src/ingress/http.rs:165-235 | Whatever `HttpSendWithRetries` did: every attempt but the last failed retriably, so none follows a success or another error, and a zero timeout means one attempt |
| HttpRetry.RetriesFitTheBudget | questdb-rs/src/ingress/http.rs:194-216 | Sleeps are 5 to 1004 ms, fit in the timeout together, bound the number of resends, and only the last resend can start after the deadline |
| HttpRetry.TimeLeftIsUsed | questdb-rs/src/ingress/http.rs:201-204 | In clock terms: every resend's sleep had to end by the deadline, and a retriable failure is only returned when the next sleep would have ended later |
| HttpRetry.SuccessInTimeIsReturned | questdb-rs/src/ingress/http.rs:189-235 | An attempt that succeeds, after retriable failures and with every sleep before it ending in time, is made and its success returned |
| HttpRetry.OneAttempt | questdb-rs/src/ingress/http.rs:220-233 | With no retry timeout, a success or a status outside 500 to 599 there is exactly one attempt |
| HttpRetry.RetriableStatuses | questdb-rs/src/ingress/http.rs:165-187 | The statuses after which another attempt is made |
| HttpRetry.SleepsAddUp | questdb-rs/src/ingress/http.rs:196-215 | The least total of the first n jittered, doubling, capped sleeps |
| SenderModel.EmptyBranchIsDead | questdb-rs/src/ingress/mod.rs:2563-2566 | No reachable buffer that passes the checks is empty |
| SenderModel.FlushClearsIffOk | questdb-rs/src/ingress/mod.rs:2680-2684 | `flush` empties the buffer when it succeeds and leaves it as it was when it fails |
| SenderModel.FlushOutcomeExactly | questdb-rs/src/ingress/mod.rs:2545-2579 | What a flush over TCP returns for a buffer in use: a socket error when closed, an invalid call when the rows may not be flushed, do not fit or are to be transactional, a socket error when the write fails, and otherwise Ok |
| SenderModel.FlushKeepsBuffer | questdb-rs/src/ingress/mod.rs:2645-2684 | The keeping flushes never change the buffer, and a transactional one never sends over TCP |
| FlushLog.FlushDoesOneOf | questdb-rs/src/ingress/mod.rs:2545-2579 | A flush that returns Ok adds its whole buffer to the wire; one whose write fails adds what got through and closes the sender; any other changes nothing |
| FlushLog.WireIsDelivered | questdb-rs/src/ingress/mod.rs:2545-2579 | Over any sequence of flushes the wire is the outputs of those that returned Ok, whole and in order, and then what the first broken write got through; the sender is connected exactly while none broke |
| FlushLog.ClosedMeansBroken | questdb-rs/src/ingress/mod.rs:2575-2578 | The sender is closed exactly if some flush got past the checks and its write failed |
| FlushLog.RemnantIsCut | questdb-rs/src/ingress/mod.rs:2575-2578 | A broken write got through the start of its own buffer, cut after so many octets |
| SenderRuns.RunFollowsLog | questdb-rs/src/ingress/mod.rs:2545-2693 | In any run of calls and flushes over any number of buffers, the sender is what the run's flushes, each with the buffer of that moment, make of it |
| SenderRuns.WireIsWhatWasFlushed | questdb-rs/src/ingress/mod.rs:2545-2693 | Over any such run from sound buffers the wire grows by exactly the outputs of the flushes that returned Ok, each of them one or more whole finished rows, and then by what the first broken write got through of its own whole rows |
| SenderRuns.WireCarriesWholeRows | questdb-rs/src/ingress/mod.rs:2545-2693 | The same from a new connection and new buffers: the wire holds nothing but that |
| SenderRuns.BrokenStaysSilent | questdb-rs/src/ingress/mod.rs:2546-2551 | After a failed write nothing is written and the sender stays closed |
| SenderRuns.WireOnlyGrows | questdb-rs/src/ingress/mod.rs:2575-2578 | What was carried is never taken back |
| SenderModel.TransactionalMeansOneTable | questdb-rs/src/ingress/mod.rs:2581-2588 | The check of a transactional flush passes exactly when all rows that a server reads from the buffer name one table |
| SenderObject.FlushableBufferHasRows | questdb-rs/src/ingress/mod.rs:2563-2566 | No buffer object in use that passes the checks is empty |
| SenderObject.ReportedErrorsAreDistinct | questdb-rs/src/ingress/http.rs:116-161 | Each error category of a failed request, and all that it stands for |
| SenderObject.Sender.HttpSuccessIsDelivery | questdb-rs/src/ingress/mod.rs:2581-2626 | A flush over HTTP that returns Ok has posted the whole buffer at least once, the last time with success, and if transactional only rows of one table |
| SenderObject.Sender.FlushImpl | questdb-rs/src/ingress/mod.rs:2545-2626 | The object follows the modelled flush over TCP; over HTTP the retry loop posts the whole buffer in every attempt of one send, and the sender stays usable; either way the connection stays what the flushes so far made of it |
| SenderObject.Sender.Flush | questdb-rs/src/ingress/mod.rs:2680-2684 | Flushes as the modelled `flush` does and clears the buffer exactly on success |
| SenderObject.Sender.FlushAndKeep | questdb-rs/src/ingress/mod.rs:2654-2656 | Flushes as modelled and keeps the buffer |
| SenderObject.Sender.FlushAndKeepWithFlags | questdb-rs/src/ingress/mod.rs:2645-2647 | Flushes as modelled, transactionally if asked, and keeps the buffer |
| SenderObject.Sender.MustClose | questdb-rs/src/ingress/mod.rs:2691-2693 | True exactly if the sender uses TCP and some earlier flush got past the checks and its write failed |
| Config.OneMoreKey | questdb-rs/src/ingress/mod.rs:1692-1804 | Applying one key after any set of others gives that key's value to its field, or fails for a reason that only depends on the key and the set |
| Config.OrderIsIrrelevant | questdb-rs/src/ingress/mod.rs:1692-1807 | Every order of the parameters gives one verdict: an exact condition for success and the value of every field |
| Config.OrdersAgree | questdb-rs/src/ingress/mod.rs:1692-1807 | Two iteration orders both fail or both give equal builders |
| Config.FromConf | questdb-rs/src/ingress/mod.rs:1669-1807 | The loop over an unordered map computes that verdict: the string is accepted exactly if its schema is known, there is an address, and each key takes its value; the builder then has the host before the first colon, the port behind it or the protocol's own, each field the value its key writes, and the documented defaults for the rest |
| ConfigNumbers.NumbersParse | questdb-rs/src/ingress/mod.rs:2393-2404 | A text is read as a number exactly if it is that number's decimal text, perhaps after a plus and zeros, and the number fits 64 bits |
| Config.SplitAtColon | questdb-rs/src/ingress/mod.rs:1684-1687 | Host and port are the text before and after the first colon |
| Config.TlsKeysLeaveTheirAuthority | questdb-rs/src/ingress/mod.rs:1692-1804 | Wherever `tls_roots` or `tls_ca` stands in an order that the loop gets through, its own value is in the field they share at the end |
| Config.TlsKeysExclude | questdb-rs/src/ingress/mod.rs:1977-1991 | The loop fails on every order that has both `tls_ca` and `tls_roots`, on any builder |
| Config.SpecifiedIsForever | questdb-rs/src/ingress/conf.rs:51-63 | Over any chain of setters no specified setting changes its value |
| Config.CallSetsItsField | questdb-rs/src/ingress/mod.rs:1881-2065 | Each setter gives its own field its value and changes nothing else, or fails; it is accepted exactly if the protocol and the value suit and no other value was given before |
| Config.CallAgain | questdb-rs/src/ingress/conf.rs:51-63 | The same setter once more changes nothing |
| Config.RootsAfterPemFile | questdb-rs/src/ingress/mod.rs:1977-1991 | `tls_roots` is accepted after `tls_ca(PemFile)` and gives the same builder as alone |
| PublicKey.LeadingZerosAreWorthless | questdb-rs/src/ingress/mod.rs:2439-2443 | Padding on the left keeps the big-endian value |
| PublicKey.ParsePublicKey | questdb-rs/src/ingress/mod.rs:2418-2446 | Fails exactly for undecodable or overlong coordinates; otherwise 65 octets, 0x04 first, and both halves have the coordinates' values and end in their octets |
| Wildcard.CommitToSegment | cpp_test/doctest.h:4074-4079 | The exchange argument: with another star reached, the last one never has to move again |
| Wildcard.GiveUpAttempt | cpp_test/doctest.h:4084-4087 | After a mismatch only later starts for the last star are open |
| Wildcard.MatchUpToStar | cpp_test/doctest.h:4065-4072 | The loop before the first star decides or leaves the rest open |
| Wildcard.OnlyStarsLeft | cpp_test/doctest.h:4090-4094 | The last loop decides what may be left of the pattern |
| Wildcard.PlainPatternIsEquality | cpp_test/doctest.h:4066-4067 | Without wildcards and case sensitive, matching is equality |
| Wildcard.PlainPatternIgnoresCase | cpp_test/doctest.h:4066-4067 | Without wildcards and ignoring case, matching is equality up to ASCII letters 32 apart |
| Wildcard.SensitiveMatchesIgnoreCase | cpp_test/doctest.h:4061-4095 | What matches with case sensitivity matches without, for every pattern |
| Wildcard.StarMatchesAll | cpp_test/doctest.h:4074-4079 | A star matches every text |
| Wildcard.QuestionMarkMatchesOne | cpp_test/doctest.h:4066-4067 | A question mark matches exactly the texts of one character |
| Wildcard.MatchesInParts | cpp_test/doctest.h:4061-4095 | A pattern in two parts matches exactly the texts that split into parts they match |
| Wildcard.Wildcmp | cpp_test/doctest.h:4061-4095 | Returns whether the text matches under the recursive meaning of `*` and `?`, in both case modes; for patterns without wildcards stated by comparing characters |
| Wildcard.MatchesAny | cpp_test/doctest.h:4098-4106 | True exactly if some filter matches, or there is none and that is to count |
| FilterTokens.ParseCommaSepArgs | cpp_test/doctest.h:6430-6473 | The loop returns the non-empty parts between the commas of the option's value that are not escaped |
| FilterTokens.TokensAreParts | cpp_test/doctest.h:6436-6470 | For any value: a backslash escapes a comma or a backslash after it and otherwise stands for itself, at the end too |
| FilterTokens.PlainValueIsOnePart | cpp_test/doctest.h:6449-6455 | A value with no comma and no double backslash is one token, with its backslashes |
| FilterTokens.TokensOfJoined | cpp_test/doctest.h:6436-6470 | Splitting escaped tokens joined with commas gives the non-empty ones back, for every list |
| FilterTokens.SplitInvertsJoin | cpp_test/doctest.h:6436-6470 | Splitting inverts joining exactly for lists without empty entries |
| FilterTokens.EmptyEntryWitness | cpp_test/doctest.h:6436-6470 | A list with an empty entry comes back without it |
| FilterTokens.JoinIsNormalForm | cpp_test/doctest.h:6436-6470 | Joining and splitting again what any value was split into changes nothing |
| SmallString.String.Size | cpp_test/doctest.h:3688-3692 | Flag octet or size field give the number of characters |
| SmallString.String.IsTerminated | cpp_test/doctest.h:3546-3559 | What `c_str` points to is the text followed by a NUL |
| SmallString.String.Empty | cpp_test/doctest.h:3576-3579 | A new string is empty |
| SmallString.String.Allocate | cpp_test/doctest.h:3546-3559 | Up to 23 characters stay in the object, more get a fresh block with a NUL at its size |
| SmallString.String.FromChars | cpp_test/doctest.h:3589-3591 | The string holds the characters given |
| SmallString.String.Copy | cpp_test/doctest.h:3568-3574 | The characters of the other string, in memory of its own |
| SmallString.String.FromCopy | cpp_test/doctest.h:3597 | A new string with the other's characters and memory of its own |
| SmallString.String.CopyAssign | cpp_test/doctest.h:3599-3608 | The string takes the other's characters, also when assigned to itself, and the other keeps its own |
| SmallString.String.FromMove | cpp_test/doctest.h:3660-3664 | The characters and the block move, the source is left empty and owns no block |
| SmallString.String.MoveAssign | cpp_test/doctest.h:3666-3675 | Characters and block move and the source is left empty; moved onto itself the string keeps its text |
| SmallString.String.AppendOnStack | cpp_test/doctest.h:3615-3619 | Up to 23 characters the text grows inside the object |
| SmallString.String.AppendInto | cpp_test/doctest.h:3620-3632 | Both texts are in the new block although its fields overwrite the old characters |
| SmallString.String.AppendOnHeap | cpp_test/doctest.h:3635-3638 | The text grows inside its block |
| SmallString.String.Append | cpp_test/doctest.h:3610-3658 | The text is the old text and the other text, in every branch, also where the doubled capacity wraps around; up to 23 characters stay in the object, a block with room is kept, and a new one is at least twice as large if that fits |
| StringRuns.StillApart | cpp_test/doctest.h:3599-3675 | Two strings that exchange what they own, or take new memory, still share nothing with any other string |
| StringRuns.RunNewMove | cpp_test/doctest.h:3660-3664 | A string constructed by a move from any string of a pool takes its text and block, leaves it empty, and shares nothing with any other |
| StringRuns.RunOp | cpp_test/doctest.h:3589-3675 | One append, copy, move or construction in any pool of strings does to their texts what it does to plain texts, and leaves all others alone |
| StringRuns.RunOps | cpp_test/doctest.h:3589-3675 | Any number of them leaves in each string what the same operations make of plain texts, with no memory shared |
| SubcaseTree.UnderAreLeafPaths | cpp_test/doctest.h:4193-4197 | The list of paths to be executed holds exactly the ways down to a leaf |
| SubcaseTree.LeafPathsAreDistinct | cpp_test/doctest.h:4153-4219 | With distinct siblings no path is listed twice |
| SubcaseTree.FromStep | cpp_test/doctest.h:4172-4181 | The leaves from a goal on are its first leaf and then the leaves from its successor on |
| SubcaseRuns.AfterLeaf | cpp_test/doctest.h:4166-4182 | After the leaf nothing is entered any more, and the first sibling not yet traversed becomes the goal |
| SubcaseRuns.RunArrives | cpp_test/doctest.h:4153-4219 | One run starts exactly the subcases on the way to its goal's first leaf, records the leaf and picks its successor |
| SubcaseRuns.StillUnvisited | cpp_test/doctest.h:4172-4174 | Nothing on the way to the next goal has been recorded |
| SubcaseRuns.RoundExecutesNextLeaf | cpp_test/doctest.h:6911-6954 | One round executes the next leaf, indexes nothing out of range and leaves the others for later rounds |
| SubcaseRuns.AfterLeafOverruns | cpp_test/doctest.h:4166-4171 | After the leaf, in any body, the stack is indexed out of range exactly where the leaf path is overrun |
| SubcaseRuns.RunDescends | cpp_test/doctest.h:4153-4219 | On the way to any goal, in any body, the run ends at the first leaf that fits, and goes out of range exactly as described |
| SubcaseRuns.RunOverrunsExactly | cpp_test/doctest.h:6911-6932 | A whole run of any body, from any bookkeeping, indexes the stack out of range if and only if some part met after the leaf overruns the leaf path |
| SubcaseRuns.OverrunsAtLeaf | cpp_test/doctest.h:4166-4171 | For a goal that the body has, that can be read off the body and the leaf path alone |
| SubcaseRuns.ReentryWitness | cpp_test/doctest.h:4166-4171 | A repeated sibling that is entered again without harm |
| SubcaseRuns.RepeatedSiblingWitness | cpp_test/doctest.h:4166-4171 | A repeated sibling that is entered again and opens a subcase below the leaf path |
| SubcaseLoops.LoopOverrunsExactly | cpp_test/doctest.h:6911-6954 | Any number of rounds stays in range if and only if none of their goals overruns |
| SubcaseLoops.RunLeads | cpp_test/doctest.h:4172-4181 | Where what is met again has the same contents, every run picks its next goal among the subcases the body has |
| SubcaseLoops.NoOverrun | cpp_test/doctest.h:4166-4171 | Going through the same contents again never leaves a leaf path at its end |
| SubcaseLoops.LoopStaysInRange | cpp_test/doctest.h:6911-6954 | Where what is met again has the same contents, no round of the loop is ever out of range |
| SubcaseLoops.RoundPicksNewGoal | cpp_test/doctest.h:4172-4181 | After any run of any body, with any bookkeeping, the leaf is recorded and the next goal is not |
| SubcaseLoops.RepeatedLeavesRunOnce | cpp_test/doctest.h:4167-4182 | Where all subcases are leaves, repeated in any way, each round executes the first that is not recorded yet |
| SubcaseLoops.RepeatedLeavesEnd | cpp_test/doctest.h:6911-6954 | Such a loop ends after exactly as many rounds as there are different subcases |
| SubcaseLoops.CircleIsEndless | cpp_test/doctest.h:6911-6954 | A loop that comes back to the goal and records of an earlier round never ends |
| SubcaseLoops.LoopEndsExactly | cpp_test/doctest.h:6911-6954 | For any body and bookkeeping the loop ends if and only if it does not come back, which shows within a number of rounds computed from the body |
| SubcaseLoops.EndlessWitness | cpp_test/doctest.h:4201-4204 | Two subcases with one of their own each, in a loop gone through twice: the runner goes back and forth for ever |
| SubcaseObject.ContextState.ConstructSubcase | cpp_test/doctest.h:4153-4184 | The constructor computes the modelled step on the runner's fields |
| SubcaseObject.ContextState.DestroySubcase | cpp_test/doctest.h:4189-4219 | The destructor computes the modelled step |
| SubcaseObject.ContextState.RunBody | cpp_test/doctest.h:2236-2238 | A body constructs, runs and destroys its subcases in order |
| SubcaseObject.ContextState.RunOnce | cpp_test/doctest.h:6911-6932 | A round, of any body that does not overrun, resets everything but what is recorded and what comes next |
| SubcaseObject.ContextState.RunNextLeaf | cpp_test/doctest.h:6911-6932 | A round executes exactly the first of the leaves left, and leaves the others |
| SubcaseObject.ContextState.RunLeaves | cpp_test/doctest.h:6911-6954 | The loop ends, having executed exactly the leaves left, in order, one a round |
| SubcaseObject.ContextState.RunTestCase | cpp_test/doctest.h:6911-6954 | For a test case that starts afresh, the runs are the leaf paths of the body, each once, depth first |

## Left out

- Sockets, TLS, DNS, authentication handshakes and the HTTP client: only the outcomes of writes and sends are modelled.
- The text of floats: `ryu` is not part of this model; a float is any text of its form, or one of the three non-finite names.
- Base64 decoding and the syntax of configuration strings: the model starts from decoded coordinates and from the parsed map, with one constructor for each known key.
- Error messages: only the category of an error is modelled.
- Capacity of the output and failing allocations, and the wrap-around of the row count: each row takes at least one octet of memory.
- The request timeout derived from the minimum throughput, and the content of HTTP error bodies beyond whether they can be read.
- The user agent, reading the clock (`now`), and conversions from `chrono` types.
- `build_auth`, the protocol and authority tables of the C and C++ interfaces, the examples and the system tests.
- The link between characters and octets in names: `Names` works on characters, the buffer on the octets of whatever conversion was made.
- SmallString.String.Append: appending a string to itself is excluded, because the source then copies between overlapping memory, and so are totals whose size with the NUL does not fit 32 bits.
- SmallString.String.Allocate: the size 2^32 - 1 is excluded, whose capacity wraps around to zero; releasing blocks is not modelled.
- SmallString.String.FromChars: the size 2^32 - 1 is excluded for the same reason; strings are shown to own disjoint memory.
- SubcaseRuns.AfterLeaf: that nothing is entered after the leaf is stated for distinct siblings; with repeated ones SubcaseRuns.AfterLeafOverruns says where the stack is indexed out of range, but not what becomes the next goal.
- SubcaseRuns.RunArrives: the recorded leaf and the next goal are stated for distinct siblings; for other bodies SubcaseRuns.RunDescends gives the leaf and the exact overrun condition, and SubcaseLoops.RunLeads says where the goal lies if what is met again has the same contents.
- SubcaseRuns.RoundExecutesNextLeaf: which leaves remain is stated for distinct siblings, as above.
- SubcaseObject.ContextState.RunTestCase: the enumeration is stated for distinct siblings, as above, since with repeated ones the loop need not end; filters, exceptions, aborting after failures and collisions of path hashes are not modelled; recorded paths are a set of paths.
- FilterTokens.ParseCommaSepArgs: finding the option on the command line is not modelled.
- Wildcard.Wildcmp: `tolower` is the one of ASCII.
- The rest of the test runner: reporters, assertions, floating-point comparison, signal handling, `String::substr` and searching.
