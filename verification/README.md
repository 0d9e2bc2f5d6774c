# Verified model of the core-shared toolkit

A Dafny model of the parts of core-shared that hold an algorithm or a state of
their own, with proofs about them. `dafny verify dfyconfig.toml` checks all of it.

- **Stored times** (`Calendar`, `Decimal`, `TimeLayout`, `TimeGrammar`, `TimeOrder`, `TimeCodec`,
  `TimeTypes`, `Registry`, `Bson`): every timestamp is written as a UTC string and
  read back through a list of layouts, a BSON datetime or a null. The model holds
  the Gregorian calendar, zero-padded digits, and Go's rules for printing and
  parsing the three stored layouts and RFC 3339 (section 5.6 of RFC 3339), with a
  grammar of the accepted texts to hold the parser against. An
  instant is a Unix second and the nanoseconds past it.
- **The Kafka consumer** (`KafkaConsumer`): the fetch, dispatch and commit loop as
  a state machine over partition logs, fetch positions and committed offsets, with
  errors, cancellation, crashes and restarts, and the loop itself as a method
  proved to be runs of that machine.
- **Log handlers** (`OtelHandler`, `Fanout`, `HandlerHeap`): the OpenTelemetry
  bridge and the fanout, first as values with their algebra, then as objects with
  Go slices and arrays of children on the heap, proved against the values.
- **The lazy client** (`ConnectOnce`): `Connect`, `Database`, `Raw`, `Ping` and
  `Close` under every interleaving of any number of callers.
- **Repository helpers** (`Paging`, `ObjectId`, `Filters`, `SnakeCase`): pages of
  a query, identifiers as strings, regular-expression filters, collection names.

What the world outside decides is a parameter or left open: whether a dial, a ping, a fetch, a
commit or a handler fails, which levels a child handler accepts and what its write
returns, how much an append over-allocates, and the letter tables of the runtime. Of the outside
systems these behaviours are taken for granted: a Kafka session starts at the
committed offsets and a commit of a message sets its offset plus one; `sync.Once`
admits one caller and holds the others until it is done; the BSON driver's
`ReadNull` accepts a null and nothing else; the server applies `skip` before
`limit` and reads regular expressions as PCRE does, without options.

## Where the code and its documentation part

The model follows the code. What follows from it is proved:

- Text in the `TimeOnly` layout reads as a time on 1 January of year 0, not of year 1
  as the comment at mongo/datetime.go:107 says, so it is never `IsZero`
  (`TimeCodec.ClockBase`, `TimeCodec.ClockNeverZero`). The texts that are, for any of
  the three types: the empty one, and dated ones naming midnight of 1 January of year 1
  (`TimeCodec.ReadsAsZeroExactly`).
- Each `UnmarshalJSON` accepts every layout, not just the ones its comment names,
  and with the same result for all three types (`TimeCodec.PrimaryImmaterial`).
- A JSON `null` is rejected, while a BSON null is the zero time
  (`TimeTypes.JSONNullRejected`).
- The registry's decoder fails on a BSON undefined, which its own `case` lists and
  the `DateTime` type accepts (`Registry.CodecsAgree`).
- The round trip of stored times holds for the years 0..9999 and fails outside them
  (`TimeTypes.DateTimeRoundTrip`). Their order holds for a few more spans of years, all
  of them found in `TimeOrder.FaithfulYears`: within -1..9999, within one width of
  five digits or more, and odd pairs such as -10000 and -9999. An RFC 3339 offset can carry an accepted text out
  of that span (`TimeCodec.OffsetLeavesCalendar`).
- A message whose handler fails is committed like any other. It can be handed over
  again exactly when that commit is not applied
  (`KafkaConsumer.FailedMessageReturnsExactly`), and any message exactly while the
  committed offset has not passed it (`KafkaConsumer.ComesBackExactly`). Delivery is
  at least once; `KafkaConsumer.ExactlyOnce` says when it is exactly once.
- A failed first `Connect` is final: later calls are not retries
  (`ConnectOnce.FieldsAreFinal`). A `Close` that finds no client does nothing, so when
  it comes before the first `Connect` is done, the pool then opened stays open:
  `ConnectOnce.CloseClosesExactly` says which `Close` leaves nobody with a handle that
  is not disconnected, `ConnectOnce.CloseComesTooEarly` is a run with one.
- `WithGroup` qualifies attributes added before it too, against the contract of
  `slog.Handler`; `OtelHandler.ContractMetExactly` says when the two agree.
- `EndsWith` looks past one final newline (`Filters.EndsWithMeansSuffix`).
- A page number whose product with the size overflows brings other documents
  (`Paging.PageExactly`, `Paging.OverflowWraps`).
- Distinct type names can share a collection: `SnakeCase.SharedExactly` says which.
- `ReplaceByID` refuses an identifier that is not 24 hex digits, although a
  document can be stored under one (`ObjectId.ReplaceFindsStored`), and looks in vain
  for a document whose `_id` is 24 hex digits as text (`ObjectId.LoadedThenReplaced`).

## Model

| member | source | states |
|---|---|---|
| Calendar.FromSeconds | mongo/datetime.go:28 | the UTC fields of an instant: a valid date and clock whose distance from 1970 in seconds is the instant's |
| Calendar.FromSecondsInverts | mongo/datetime.go:28-44 | valid calendar fields and Unix seconds are in bijection, leap years and all, for every year |
| Calendar.EarlierIsFewerSeconds | mongo/registry.go:27-33 | reading valid fields left to right orders them exactly as the instants they name |
| Calendar.DaysBeforeYearClosed | mongo/datetime.go:28 | for every year, the calendar's day count is the closed form with a leap day every 4, not every 100, but every 400 years |
| Calendar.DaysBeforeMonthClosed | mongo/datetime.go:28 | the days before each month in closed form, without the table of month lengths |
| Calendar.SecondsClosed | mongo/datetime.go:28 | the Unix second of any date and clock, by arithmetic alone |
| Decimal.NumberOfPadded | mongo/datetime.go:28 | zero-padded digits denote the number printed, at any width |
| Decimal.PaddedLength | mongo/mongo.go:12-19 | padding fills exactly its width if and only if the number has no more digits than that |
| Decimal.SignedDenotes | mongo/datetime.go:28 | a number prints its sign, if negative, and digits that denote it |
| Decimal.LessExactly | mongo/registry.go:27-33 | bytewise less: after what two texts share, the one goes on with a smaller byte or ends |
| Decimal.LessByLength | mongo/registry.go:27-33 | padded numbers of one length compare bytewise as the numbers do, ties passing to the text after them |
| Decimal.LessByNumber | mongo/registry.go:27-33 | so do numbers that fit the width they are padded to |
| Decimal.WidthStep | mongo/registry.go:27-33 | counting up, the width changes only from all nines to a one, by one digit |
| TimeLayout.TextColumns | mongo/mongo.go:12-19 | a stored date and time has every field in its column of 2006-01-02 15:04:05; DateOnly and TimeOnly text are its two halves |
| TimeLayout.ParseOfText | mongo/datetime.go:168-179 | for each stored layout, parsing undoes printing: the fields shown come back, the others take the parser's defaults |
| TimeLayout.ParseOfZonedText | mongo/datetime.go:168-179 | RFC 3339 text names its local fields and the worth of its fraction, if any, minus its offset, for every accepted offset |
| TimeLayout.NanosAreFractions | mongo/datetime.go:168-179 | up to nine digits of a fraction are worth their number times the missing power of ten, the rest are dropped |
| TimeLayout.ZeroTimeSeconds | mongo/datetime.go:149-150 | the zero time is 62135596800 seconds before 1970 |
| TimeLayout.FastPathRefinesParse | mongo/datetime.go:173-177 | the time package's shortcut for RFC 3339 accepts nothing the general parser does not and means the same |
| TimeGrammar.ParsesExactly | mongo/datetime.go:168-179 | for every layout, text and instant: the text parses as the instant if and only if it is spelt by the grammar (four-digit year, valid day, one or two digits of hour, second below 60, fraction, offset to 24:60) and means that instant |
| TimeGrammar.SpeltIsRead | mongo/datetime.go:168-179 | what the grammar spells is accepted, with its meaning |
| TimeGrammar.ReadIsSpelt | mongo/datetime.go:168-179 | what is accepted splits into the grammar's pieces, with their meaning |
| TimeOrder.TextOrder | mongo/registry.go:27-33 | texts of a layout compare bytewise as the fields they show are ordered |
| TimeOrder.StringOrderIsTimeOrder | mongo/registry.go:27-33 | stored strings compare exactly as the instants, floored to what the layout shows; DateTime strings as the seconds |
| TimeOrder.FaithfulYears | mongo/registry.go:27-33 | for DateTime and DateOnly text and every span of years: stored in the order of what it shows if and only if it has at most one year, lies within -1..9999, has one width past 9999, or is a pair of years before 0 whose later one prints a digit less |
| TimeOrder.NarrowedPair | mongo/registry.go:27-33 | years -10000 and -9999 are stored in time order, and no longer span around -10000 is |
| TimeOrder.DateTimeShowsSeconds | mongo/datetime.go:28 | what DateTime text shows is the instant floored to the second |
| TimeOrder.OrderBreaks | mongo/registry.go:27-33 | for either text and any two times in adjacent years, 9999 and 10000 or -2 and -1 among them, where the width changes after year 0 or stays before it: the earlier one is not stored as the smaller string |
| TimeCodec.ParseFlexibleTime | mongo/datetime.go:168-179 | the loop with early return gives the first match among the layouts tried, the zero time for the empty string, an error when none matches |
| TimeCodec.LayoutsDisjoint | mongo/datetime.go:168-179 | no string is accepted by two layouts, except by the two RFC 3339 ones with one meaning |
| TimeCodec.FirstMatchIsAnyMatch | mongo/datetime.go:168-179 | the first match is t if and only if some listed layout parses the string as t |
| TimeCodec.OrderImmaterial | mongo/datetime.go:172-177 | any permutation, repetition or exchange of RFC 3339 layouts in the list gives the same result |
| TimeCodec.PrimaryImmaterial | mongo/datetime.go:168-179 | every choice of primary layout reads every string alike |
| TimeCodec.FlexibleExactly | mongo/datetime.go:168-179 | a text is read as t if and only if some layout, in whatever order, says t, or the text is empty and t the zero time |
| TimeCodec.UncoveredUnreadable | mongo/datetime.go:168-179 | text printed for a year outside 0..9999 is accepted by no layout |
| TimeCodec.RoundTrip | mongo/datetime.go:28-59 | for every instant: the text printed reads back as the part it shows if the year has four digits (always for a clock time), else not at all |
| TimeCodec.NormalIsIdempotent | mongo/datetime.go:147-179 | for every accepted string: print after parse is a fixed point of itself if the instant's year has four digits, else rejected text |
| TimeCodec.OffsetLeavesCalendar | mongo/datetime.go:168-179 | 0000-01-01T00:00:00+00:01 is accepted and its normal text is not |
| TimeCodec.PartsRecombine | mongo/datetime.go:71-145 | DateOnly reads back as UTC midnight, and its day with TimeOnly's time of day is what DateTime reads back as |
| TimeCodec.ClockBase | mongo/datetime.go:122-130 | every text in the TimeOnly layout, fractions and one-digit hours included, reads as a time on 1 January of year 0 |
| TimeCodec.PrintedClockBase | mongo/datetime.go:113-130 | so does every TimeOnly text printed |
| TimeCodec.ClockNeverZero | mongo/datetime.go:107-111 | no text in the TimeOnly layout is the zero time that IsZero looks for |
| TimeCodec.ReadsAsZeroExactly | mongo/datetime.go:168-179 | a text reads as the zero time if and only if it is empty or some dated layout says so |
| TimeTypes.DecodedExactly | mongo/datetime.go:147-166 | null and undefined are the zero time, a datetime its floored second and a non-negative rest, a string t exactly if some layout says t, any other value an error |
| TimeTypes.DecodeTimeValue | mongo/datetime.go:147-166 | returns just that: an instant that the value says, and an error only if the value says none |
| TimeTypes.UnixMilliFloors | mongo/datetime.go:151-156 | with Go's division toward zero, a BSON datetime before 1970 is still its floored second and a non-negative rest |
| TimeTypes.EscapedPlain | mongo/datetime.go:47-49 | quoting a printed time escapes nothing |
| TimeTypes.TrimQuotesExactly | mongo/datetime.go:181-186 | one pair of quotes is taken off, and data that is not so quoted is left alone |
| TimeTypes.WireRoundTrip | mongo/datetime.go:31-59 | for each type and instant: BSON string and quoted JSON both decode to the part shown if the year has four digits, else to an error |
| TimeTypes.DateTimeRoundTrip | mongo/datetime.go:28-44 | a stored DateTime decodes to the instant floored to the second if and only if its UTC year is 0..9999 |
| TimeTypes.JSONNullRejected | mongo/datetime.go:52-59 | JSON null is an error for each type, BSON null is the zero time |
| TimeTypes.TimeValue.MarshalBSONValue | mongo/datetime.go:31-34 | a BSON string that decodes to the part of the receiver its type shows if the year has four digits, else to an error |
| TimeTypes.TimeValue.UnmarshalBSONValue | mongo/datetime.go:37-44 | assigns the decoded instant, or fails and leaves the receiver as it was |
| TimeTypes.TimeValue.MarshalJSON | mongo/datetime.go:47-49 | quoted, with the text BSON stores between the quotes, decoding likewise |
| TimeTypes.TimeValue.UnmarshalJSON | mongo/datetime.go:52-59 | assigns the instant between the quotes, or fails and leaves the receiver as it was |
| TimeTypes.Transfer | mongo/datetime.go:31-44 | a value marshalled from one receiver into another arrives as the part its type shows, exactly when the year has four digits |
| Registry.EncodeTimeAsString | mongo/registry.go:27-33 | appends to the writer what the DateTime type writes for the instant |
| Registry.DecodeTimeFromString | mongo/registry.go:35-68 | for every value, settable or not: success, the slot's new value, and whether the reader advanced |
| Registry.CodecsAgree | mongo/registry.go:35-68 | slot and DateTime get the same instant for every value, and both accept or both reject all but an undefined; nulls, datetimes and strings alone are consumed |
| Registry.ReencodedDateTimeFloors | mongo/registry.go:27-49 | every BSON datetime, negative milliseconds included, is stored again as the string of its floored second, which decodes to that second if its year has four digits, else to an error |
| KafkaConsumer.StepInv | kafka/consumer.go:42-64 | every step keeps the invariant: committed is at most the fetch position, each session hands over a gapless run, all sessions an interval |
| KafkaConsumer.RunInv | kafka/consumer.go:42-64 | so does every run, restarts included |
| KafkaConsumer.AtLeastOnce | kafka/consumer.go:42-64 | in every reachable state each offset below the committed one was handed to the handler with the message the log holds, and no commit passes the fetch position |
| KafkaConsumer.OncePerSession | kafka/consumer.go:44-58 | between restarts a partition's offsets are handed over in order, each once, none left out, whatever the handler returns |
| KafkaConsumer.RunGrows | kafka/consumer.go:42-64 | committed offsets never fall, history is never rewritten, and a session lasts until a restart |
| KafkaConsumer.CommittedIsFinal | kafka/consumer.go:60-62 | nothing below a committed offset is ever handed over again: a later commit subsumes an earlier failed one |
| KafkaConsumer.FailedMessageIsNotRetried | kafka/consumer.go:53-62 | after a handler error and an applied commit the message is never handed over again, in any continuation |
| KafkaConsumer.ComesBackExactly | kafka/consumer.go:42-64 | for every message handed over: some run hands it over again if and only if the committed offset has not passed it |
| KafkaConsumer.FailedMessageReturnsExactly | kafka/consumer.go:53-62 | after a handler error some run hands the message over again if and only if the commit that follows is not applied |
| KafkaConsumer.Redelivery | kafka/consumer.go:42-64 | after a restart: the offsets from the committed one in order, each once; those handed over before are exactly the suffix up to the highest ever reached |
| KafkaConsumer.RestartRepeatsExactly | kafka/consumer.go:42-64 | in every reachable state: some continuation of a restart hands over a message of the partition again if and only if its committed offset is below the highest handed over plus one |
| KafkaConsumer.ExactlyOnce | kafka/consumer.go:42-64 | if every commit is applied and no restart falls between a handover and its commit: over all sessions each offset from the base is handed over once, in order, and committed |
| KafkaConsumer.LoopIsRun | kafka/consumer.go:42-64 | any stretch of turns of the loop is a run of the machine without a restart |
| KafkaConsumer.StopsExactly | kafka/consumer.go:45-51 | in every reachable state: the loop has returned if and only if, since it was last started, a fetch failed with the context done |
| KafkaConsumer.FetchErrorExactly | kafka/consumer.go:45-51 | a failed fetch changes nothing with the context live, and stops the loop with it done |
| KafkaConsumer.LoopClosed | kafka/consumer.go:42-64 | any stretch in closed form: until the first turn whose fetch fails with the context done, every message offered that the log holds has been handed over, in turn |
| KafkaConsumer.TurnsTakenExactly | kafka/consumer.go:45-51 | the number of turns taken is the first, if any, in which a fetch fails with the context done |
| KafkaConsumer.AppliedCommitsKeepUp | kafka/consumer.go:53-62 | from equal offsets and with every commit applied, committed equals position after every stretch of turns, however many handler calls fail |
| KafkaConsumer.RestartsRepeatNothing | kafka/consumer.go:42-64 | from the start and with every commit applied, however often the loop is restarted between turns: each offset from the base to the position handed over once, in order, and committed == position == highest handed over plus one |
| KafkaConsumer.Reader.FetchMessage | kafka/consumer.go:44-51 | returns the message at the position and advances it, or fails and moves nothing |
| KafkaConsumer.Reader.CommitMessages | kafka/consumer.go:60-62 | sets the partition's committed offset to the message's plus one if applied, changing nothing else |
| KafkaConsumer.Consumer.RunTurn | kafka/consumer.go:43-63 | one turn: goes on unless the fetch fails with the context done; a message fetched is handed over and, unless the commit is rejected, committed, whatever the handler returns; the whole new state |
| KafkaConsumer.Consumer.Start | kafka/consumer.go:42-64 | over any stretch of turns: returns if and only if some fetch fails with the context done by then, after handing over every message offered till then that the log holds; the state reached is AfterTurns |
| OtelHandler.SlogValueToOtelValue | logger/otel_handler.go:88-114 | terminates, and its loop over a group computes Convert at every depth |
| OtelHandler.ConvertInverts | logger/otel_handler.go:88-114 | group shape, key order and leaves are kept at every depth, uint64 modulo 2^64; the value is recovered if and only if it holds no uint64, time, duration or other |
| OtelHandler.ChainState | logger/otel_handler.go:51-65 | after any chain: all attributes added, in order, and the dot-join of all groups opened |
| OtelHandler.ChainFrom | logger/otel_handler.go:51-65 | the same from any handler: attributes added in order, the path grown by every group |
| OtelHandler.ChainEmits | logger/otel_handler.go:30-65 | closed form of the record: the scope, time and message, the severity by level, handler attributes, then record attributes, each under the dot-join of all groups of the chain |
| OtelHandler.MetExactly | logger/otel_handler.go:51-65 | the derived handler stands where the slog contract wants it if and only if groups come before attributes and no empty name after a group |
| OtelHandler.ContractMetExactly | logger/otel_handler.go:30-65 | for every chain and record: the emitted keys are the slog contract's if and only if the chain is so ordered or there is nothing to qualify |
| Fanout.EnabledIsAnyLeaf | logger/fanout.go:18-25 | a tree is enabled if and only if some leaf is, at any nesting, the bridge at every level |
| Fanout.FanIsPipelines | logger/fanout.go:27-40 | handling through nested fanouts is running each leaf alone behind its own Enabled test, same calls, same order, same error |
| Fanout.DerivedAllIsAfterChain | logger/fanout.go:42-56 | a chain sends a child from elsewhere each of its steps, in order, and gives the bridge all attributes and the path of all groups |
| Fanout.DerivationsReachLeaves | logger/fanout.go:42-56 | deriving a tree by a chain leaves every leaf, in place, where that chain leads |
| Fanout.FanoutIsIndependent | logger/fanout.go:18-56 | after any chain of derivations, handling through the tree is running independently derived leaves |
| Fanout.FanoutCalls | logger/fanout.go:27-56 | after any chain: a record is emitted by each bridge and written by each child that accepts its level, in order, with the whole chain, and nothing else happens |
| Fanout.SessionIsIndependent | logger/fanout.go:18-56 | any sequence of derive and log calls, on any handlers and on what was derived from them, makes the calls and has the results it has on the lists of their leaves, run one by one |
| Fanout.LogAdds | logger/fanout.go:27-40 | one act of logging adds the calls of the leaves that take the level, and one result: nil if and only if none of them failed, else the first error |
| Fanout.FanNeedsNoAsking | logger/fanout.go:27-40 | handling through a fanout is the same whether it is asked Enabled first or not |
| Fanout.PipelinesCalls | logger/fanout.go:29-38 | every enabled leaf is called once, in order, whatever the calls before it returned |
| Fanout.PipelinesFirstError | logger/fanout.go:28-39 | the result is nil if and only if no call failed, else the error of the first that did |
| HandlerHeap.Append | logger/otel_handler.go:51-55 | Go's append: the contents extended, in place or in a fresh array that leaves the old one alone |
| HandlerHeap.OtelNode.WithAttrs | logger/otel_handler.go:51-55 | a new object on a backing array of its own, standing for the derived value |
| HandlerHeap.OtelNode.WithGroup | logger/otel_handler.go:57-65 | a new object sharing its parent's attributes, standing for the derived value |
| HandlerHeap.OtelNode.Handle | logger/otel_handler.go:30-49 | scope, time and message, severity by level, and the two loops fill the attributes as Emitted says |
| HandlerHeap.NewFanout | logger/fanout.go:14-16 | a fanout over the list of children given stands for the fan of what they stand for |
| HandlerHeap.Derived | logger/otel_handler.go:51-65 | deriving any handler on the heap stands for deriving its tree of values, on old or fresh storage and with no existing object modified |
| HandlerHeap.DerivedFan | logger/fanout.go:42-56 | the loop fills a fresh list with the children's derivations, at any nesting, and writes to nothing that existed before |
| HandlerHeap.DerivedBy | logger/fanout.go:42-56 | a chain of derivations on the heap is the chain on values |
| HandlerHeap.Siblings | logger/otel_handler.go:51-65 | any number of handlers derived from one parent by any chains: each still stands for its own chain at the end, and the parent for what it was |
| HandlerHeap.Enabled | logger/fanout.go:18-25 | the loop with early return decides EnabledIn of the tree |
| HandlerHeap.HandleChild | logger/fanout.go:30-37 | a child that is not enabled is passed over; one that is gets the record, and the first error is kept |
| HandlerHeap.HandleAll | logger/fanout.go:27-40 | the loop makes the calls and returns the first error that HandledAll says |
| HandlerHeap.RunSession | logger/fanout.go:18-56 | any sequence of deriving and logging on the heap, through parents, siblings and what was derived from them: handlers, calls and results are those of the session on values, and so of the leaves one by one |
| HandlerHeap.DeriveAndHandle | logger/fanout.go:18-56 | deriving a heap fanout and logging through it is running its leaves, derived, as independent pipelines, with the calls written out |
| ConnectOnce.StepInv | mongo/client.go:75-151 | every step of every caller keeps the invariant tying the fields, the waiting callers and all results so far to the one dial |
| ConnectOnce.RunInv | mongo/client.go:75-151 | so does every interleaving |
| ConnectOnce.OneOutcome | mongo/client.go:75-143 | in every interleaving: at most one dial, one outcome for all, client and db set once anyone got a nil error, no nil handle given out or pinged through |
| ConnectOnce.FieldsAreFinal | mongo/client.go:75-151 | no later step, Close included, unsets client, db or connErr, or dials again |
| ConnectOnce.FieldsFromHistory | mongo/client.go:75-151 | in every interleaving each field is what the history of dials, pings and closes alone says: the client or the error of the one attempt, and just what should be closed is |
| ConnectOnce.NoPoolIsLost | mongo/client.go:85-99 | every pool ever dialed is being tried, is the client, or is disconnected |
| ConnectOnce.CallsGetTheirKind | mongo/client.go:75-143 | without an error, every call of an operation comes to one result of that operation's kind |
| ConnectOnce.PendingCallsMove | mongo/client.go:75-143 | while a call is pending, its caller or the one inside once.Do has a step to take |
| ConnectOnce.RunAccounts | mongo/client.go:75-143 | over any run: results plus calls pending grow by one a call, and the steps taken are bounded by six a call and what was pending |
| ConnectOnce.EveryCallReturns | mongo/client.go:75-143 | no run from the start makes more than six steps a call, and one can go no further if and only if each call has come to its one result |
| ConnectOnce.CloseClosesExactly | mongo/client.go:146-151 | for every reachable state: whatever follows a Close, all handles ever given are disconnected ones, if and only if the client was set or Connect had failed by then |
| ConnectOnce.CloseComesTooEarly | mongo/client.go:146-148 | a run in which a Close comes first and the handle given later is never disconnected |
| ConnectOnce.LoneConnect | mongo/client.go:75-106 | the machine's run of a single caller does to the fields exactly what Client.Connect does |
| ConnectOnce.Client.Connect | mongo/client.go:75-106 | first call: fields by how dial and ping go, disconnecting after a failed ping; later calls change nothing; returns connErr |
| ConnectOnce.Client.Database | mongo/client.go:110-115 | a database if and only if no error |
| ConnectOnce.Client.Raw | mongo/client.go:120-125 | a client if and only if no error |
| ConnectOnce.Client.Ping | mongo/client.go:138-143 | goes through the set client, never a nil one, or returns the connect error |
| ConnectOnce.Client.Close | mongo/client.go:146-151 | disconnects the client if there is one and keeps every field |
| Paging.FindCursor | mongo/repository.go:378-394 | options set only for positive skip and limit mean plain dropping and taking |
| Paging.DropTakeExactly | mongo/repository.go:378-394 | place by place, what skipping and limiting leave |
| Paging.WrapExactly | mongo/repository.go:69 | the product changes by a multiple of 2^64, and not at all if and only if it fits |
| Paging.Find | mongo/repository.go:53-59 | every document |
| Paging.FindPaging | mongo/repository.go:62-74 | with page and size defaulted: drop the wrapped 64-bit product, take the size |
| Paging.PageExactly | mongo/repository.go:62-74 | for all arguments, a page below 1 being 1 and a size below 1 being 20: the documents of the page meant, if and only if the product fits in 64 bits, or wraps past the end, or there are none |
| Paging.OverflowWraps | mongo/repository.go:69 | page 2^62+1 of size 4 brings the first page back |
| Paging.PastTheEnd | mongo/repository.go:62-74 | a page that starts past the end is empty |
| Paging.PagesCover | mongo/repository.go:62-74 | pages 1 to n put together are the first n*size documents, a size below 1 counting as 20 |
| Paging.PagesTile | mongo/repository.go:53-74 | for every size, pages 1 to the last put together are Find's result, without overflow on the way |
| ObjectId.StringObjectID.MarshalBSONValue | mongo/objectid.go:46-57 | null, ObjectID or string exactly as the string is empty, 24 hex digits or neither; loading it gives the string's normal form |
| ObjectId.StringObjectID.UnmarshalBSONValue | mongo/objectid.go:61-84 | a null or undefined gives the empty string, an ObjectID its hex digits, a string itself; anything else fails and leaves the receiver as it was |
| ObjectId.HexDigitsExactly | mongo/objectid.go:67-73 | a byte prints as its high and then its low hexadecimal digit, in lower case |
| ObjectId.FromHexExactly | mongo/objectid.go:33-42 | 24 digits of either case parse, as the identifier that prints so, and nothing else does |
| ObjectId.ToObjectIDExactly | mongo/bsonutil.go:11-20 | what is printed reads back, and anything malformed reads as the nil identifier |
| ObjectId.HexInverse | mongo/objectid.go:67-73 | printing a parsed identifier lower-cases its digits |
| ObjectId.HexOnto | mongo/objectid.go:67-73 | parsing a printed identifier gives it back |
| ObjectId.RoundTrip | mongo/objectid.go:46-84 | for every string: decode after encode lower-cases 24 hex digits and keeps anything else |
| ObjectId.MarshalOfNormal | mongo/objectid.go:46-84 | the normal form is stored as the string was, and is its own normal form |
| ObjectId.SameStored | mongo/objectid.go:46-57 | two strings are stored alike if and only if their normal forms are equal |
| ObjectId.StoredAgain | mongo/objectid.go:46-84 | exactly which stored values are kept by loading and storing again |
| ObjectId.EmptyOrMalformed | mongo/bsonutil.go:11-26 | IsObjectIDEmpty holds if and only if IsZero does or the string is not 24 hex digits |
| ObjectId.ZeroIsZeros | mongo/objectid.go:20-29 | IsZero holds of the empty string and of 24 zeros alone |
| ObjectId.LoadedThenReplaced | mongo/repository.go:273-288 | of every document that loads, ReplaceByID looks for the _id it is stored under if and only if that is an ObjectID; text of 24 hex digits it looks for as an ObjectID |
| ObjectId.ReplaceFindsStored | mongo/repository.go:273-288 | ReplaceByID looks for exactly the stored ObjectID, and refuses every identifier stored as text |
| Filters.QuotedExactly | mongo/bsonutil.go:28-42 | the pattern operators and the closing brackets are escaped, and no other byte |
| Filters.OperatorsMustBeQuoted | mongo/bsonutil.go:28-42 | a byte on its own is a pattern for itself if and only if it is no operator |
| Filters.QuotedParses | mongo/bsonutil.go:28-42 | the pattern parser undoes quoting, metacharacters included |
| Filters.StartsWithMeansPrefix | mongo/bsonutil.go:30-32 | selects a text if and only if the value is a prefix of it |
| Filters.ContainsMeansSubstring | mongo/bsonutil.go:40-42 | selects a text if and only if the value occurs in it |
| Filters.EndsWithMeansSuffix | mongo/bsonutil.go:35-37 | selects a text if and only if the value is a suffix of it, or of it without a final newline |
| Filters.NewlineLookedPast | mongo/bsonutil.go:35-37 | a value is found before a final newline although it is no suffix there |
| SnakeCase.BuildSnakeCase | mongo/collection.go:43-57 | the loop over runes builds ToSnakeCase |
| SnakeCase.TwoWords | mongo/collection.go:12-14 | a name of two capitalised words becomes the words in lower case, joined by an underscore |
| SnakeCase.UnsnakeInverts | mongo/collection.go:43-57 | a collection name gives back the ASCII type name, up to underscores before lower-case letters read as upper case |
| SnakeCase.SharedExactly | mongo/collection.go:40-57 | any two upper-first ASCII names share a collection if and only if they are equal up to that reading |
| SnakeCase.CollidesExactly | mongo/collection.go:40-57 | an upper-first ASCII name shares the collection of another, unambiguous one if and only if it has an underscore before a lower-case letter |
| SnakeCase.AloneExactly | mongo/collection.go:40-57 | such a name has its collection to itself if and only if it has no such underscore and no upper-case letter but its first |
| SnakeCase.DistinctNamesDistinctCollections | mongo/collection.go:40-57 | names without an underscore before a lower-case letter share a collection only if they are equal |
| SnakeCase.UnderscoreCollides | mongo/collection.go:43-57 | at any place of any name, an underscore before a lower-case letter and the upper-case letter in their stead make two names of one collection |
| SnakeCase.JobRunCollides | mongo/collection.go:43-57 | as JobRun and Job_run do |

## Left out

- `redis/`, `telemetry/`, `client/`, `camunda/`, `kafka/producer.go`, `kafka/config.go`: option wiring around network clients.
- `middleware/`, `apperror/`, `response/`, `validator/`, `audit/`: each function is settled by reading it once.
- The rest of `mongo/repository.go`: direct calls of the driver.
- Errors of opening a collection and of draining a cursor in `Find` and `FindPaging`; the sort is taken to be total and the collection unchanged.
- Time zones and `time.Location`: instants are compared, not zones; only UTC and RFC 3339 offsets occur. RFC 3339 text is parsed, never printed.
- The 64-bit bounds of Go's `time.Time`: seconds are unbounded integers, so years beyond the range a `time.Time` can hold are covered too.
- The BSON byte layout and reflection: BSON values are a datatype, values that do not decode as their kind says among them; the encoder's error for a value that is not a `time.Time` is ruled out by its type.
- Broker internals: rebalancing between consumers, retention and compaction. A partition's offsets have no gaps, and a fetch from a partition with nothing left is a failed fetch rather than a wait.
- KafkaConsumer.Consumer.Start: covers every finite stretch of the unbounded loop; that a blocking fetch ends is not claimed.
- Clocks, batching, TLS and retries inside the Kafka and Mongo libraries: a call succeeds or fails.
- `LogValuer` resolution: slog values are already resolved; times, durations and other values are the text that their own formatting gives. Floats are reals.
- The severity text of an emitted record and the provider it goes to.
- Sharing of attribute storage inside `slog.Record`, which `Clone` guards against: records are values.
- OtelHandler.ContractMetExactly: covers how the slog contract qualifies keys, not its rules for empty attributes and inlined groups.
- The defaults and checks of `NewClient`, and the options `Connect` passes on.
- Data races on the client's fields: steps are sequentially consistent, so the unsynchronised read in `Close` sees a whole value. A panic inside `once.Do` is not modelled.
- Regular expressions beyond literals, escapes and the two anchors, and patterns holding a NUL byte, which the server refuses.
- `ResolveCollectionName` around the naming loop, and which names share a collection when they are not ASCII.
