# Verified model of the moving-features tier

A Dafny model of the stateful parts of an OGC API - Moving Features server in
front of MobilityDB: the continuous-query windows of its Part 4, the stream
plumbing around them, keyset paging, statement inlining for Spark, the bulk
append, the fleet time series, and the temporal-property documents. Each part
has a short declarative description, a model of the code that computes the same
thing indirectly, and the laws that connect the two.

`dafny verify dfyconfig.toml` checks the whole project.

## What is modelled

* **Windows** (`Records`, `Hopping`, `Tumbling`, `MeosEngine`). A timestamp is
  `Parsed(unix)` or `Unparsed`; the remainder truncates as in Go; a window's
  aggregate is left abstract and the window is the sequence of its records.
  `Hopping` says what HOPPING means over the whole history: for each boundary E,
  crossed by some record, the order-preserving filter of everything before that
  record to [E - span, E). `MeosHandle.RunHopping` is the loop with its buffer,
  moving boundary and prefix eviction, and is proved to deliver exactly those
  windows for every input, late records and unparseable timestamps included.
  `Tumbling` carries the open window and its end. `Slots`, `WindowLaws`,
  `Agreement`, `Runs`, `HopGrid`, `Overlap`, `Fallback`, `Replay` and `Laps` relate
  the operators to each other, to time slots, and to the two sources.
* **Channels** (`Broadcast`, `FanOut`, `LiveHub`, `Bridge`). A channel is a
  bounded queue with an open flag; locks and goroutines are steps of a transition
  system, and the laws hold of every execution. `Broadcast` is the lossy fan-out
  that the query pump and the live hub share, with sends to different subscribers
  and their reads as separate steps; the classes `ContQuery` and `Hub` are the
  critical sections, each proved to be a step (or a broadcast) of that system.
  The goroutine that closes a live channel without looking is a step of its own.
  `Bridge` has the feeder, the external job behind two pipes, and the reader;
  `Engines` compares it with the transform in process.
* **Paging** (`Paging`, `PagingWalk`). The filter clause with its numbered
  arguments, one page, the next link, and a client that follows the links while
  the table changes between requests.
* **Inlining** (`SparkSql`). Replacement of placeholders from the highest number
  down, on any statement, against one-pass substitution.
* **Bulk append** (`BulkAppend`). The batch loop over a transactional store that
  may fail at any statement.
* **Time series** (`TimeSeries`, `TimeSeriesLaws`). The accumulators, the bucket
  grid and the rows, with maps visited in any order.
* **Temporal properties** (`MFJson`, `Tokens`). The MF-JSON writer and the reader
  it is paired with, and the table of type names built by passes over maps.

`Decimal`, `Multiples` and `Wrappers` are shared helpers.

## Where the code and its comments differ

The model follows the code.

* The comment at `stream_engine_meos.go:508-510` says an unparseable timestamp
  falls back to the record's index. HOPPING passes a running index, TUMBLING the
  length of the open window, which starts over with each window. The operators
  then agree exactly for the first two spans of records (`AgreeOnlyAtFirst`).
* The replay source loops "for an unbounded feel" (`stream.go:520`). With
  timestamps that parse the laps after the first close no TUMBLING or HOPPING
  window at all; with the hour-only offsets a store may write, which match none of
  the four layouts, windows go on closing, TUMBLING's ever longer.
  `TumblingStopsIffParsed` and `HoppingStopsIff` give the exact conditions.
* HOPPING with hop = span is not always TUMBLING. Late records and, before the
  epoch, the truncating remainder, which rounds up and makes a window longer than
  its span, tell them apart; `AgreeIffAgreeable` says exactly when. The same
  remainder makes the bucket at zero twice as wide as the others (`ZeroBucket`).
* A row that cannot be read back ends its page, and the short page carries no
  link: paging is complete exactly when every matching row can be read
  (`CompleteIffAllScan`).
* Going from the highest placeholder down keeps `$1` out of `$10`, but a literal
  that contains a lower-numbered placeholder is substituted into again. The exact
  condition is `AllInert` in `InliningIsSimultaneous`; a literal without '$' meets
  it. Placeholders that touch can also be read as another one once the second is
  replaced; `Apart` is the condition that none is.
* A flat temporal-property body must have datetimes and values; the segments of a
  longer value sequence need not (`Accepted`), and their interpolation is that of
  the first segment alone (`FirstSegmentDecides`).

## Model

| member | source | states |
|---|---|---|
| Records.Rem | stream_engine_meos.go:164 | the truncating remainder: it lies strictly between -b and b, has the dividend's sign, and taking it away leaves a multiple of b |
| Records.FirstEnd | stream_engine_meos.go:164 | the end of a window opened at t is a multiple of the width past t, and for t from the epoch on no more than a width past it |
| Records.FirstEndCovers | stream_engine_meos.go:164 | the window opened by a record reaches back to it by no more than a width exactly when its time is not negative or is a multiple of the width |
| Slots.FirstEndIsSlotEnd | stream_engine_meos.go:164 | a window ends with the slot its first record is in, or, when that record is before the epoch and off the grid, with the slot after |
| Records.SecondsAreWorth | stream_engine_meos.go:236-248 | a size or hop of n minutes is 60 n seconds, of n hours 3600 n, in any other unit n, and of none or less one second |
| Records.SpanSeconds | stream_engine_meos.go:494-506 | the span is positive |
| Records.HopSeconds | stream_engine_meos.go:236-248 | the hop is positive |
| Records.Undelivered | stream_engine_meos.go:250-276 | a query ends with the first window it cannot deliver: the earlier ones are its results, and its status says whether the aggregate failed |
| Hopping.PickMeaning | stream_engine_meos.go:212-216 | the filter picks a position if and only if its time lies in the bounds, each once and in stream order |
| Hopping.LatestIsMaximum | stream_engine_meos.go:209 | the time that decides which boundaries are crossed is an upper bound of all seen and one of them |
| Hopping.Crossing | stream_engine_meos.go:209 | the record that crosses a boundary is the first at or past it |
| Hopping.NextEmit | stream_engine_meos.go:203-222 | the boundary waited for is past every time seen, never before the first, and no more than a hop past the latest |
| Hopping.HoppingWindows | stream_engine_meos.go:217 | no empty window is emitted |
| Hopping.HopsExtend | stream_engine_meos.go:209-230 | one more record adds the windows of exactly the boundaries it crosses; none is visited again |
| Hopping.HopsIdle | stream_engine_meos.go:209 | a record no later than an earlier one emits nothing and moves no boundary |
| Hopping.HopsPrefix | stream_engine_meos.go:183-233 | windows emitted are never taken back |
| Hopping.HopsOfPrefix | stream_engine_meos.go:183-233 | windows emitted depend only on the records consumed |
| Tumbling.TumblingConserves | stream_engine_meos.go:155-166 | for any timestamps, closed windows followed by the open one are the input: nothing lost, repeated or reordered, and no window empty |
| Tumbling.CountConserves | stream_engine_meos.go:167-174 | the same for COUNT |
| Tumbling.CountSizes | stream_engine_meos.go:169 | COUNT closes exactly n / Size windows, each of Size records (1 if Size is not positive), and n % Size stay open |
| Tumbling.EndPassesAll | stream_engine_meos.go:155-166 | with parsed times the open window's end passes every time seen and never moves back |
| Tumbling.FallbackGrows | stream_engine_meos.go:156 | without parseable timestamps the k-th window closed holds k times the span of records |
| Tumbling.FallbackConsumes | stream_engine_meos.go:156 | so that k windows use up span * k * (k + 1) / 2 records |
| Tumbling.TumblingPrefix | stream_engine_meos.go:155-166 | TUMBLING windows closed are never taken back |
| Tumbling.CountPrefix | stream_engine_meos.go:167-174 | COUNT windows closed are never taken back |
| Agreement.AgreeIffAgreeable | stream_engine_meos.go:137-233 | for every stream of parsed timestamps, in any order, before the epoch or after: HOPPING with hop = span emits the windows TUMBLING does if and only if either the first time is covered, no window opened off the grid runs on into the very next slot, and records go back to an earlier slot only after one of the greatest; or the first time is not covered and no record is two slots past it |
| Agreement.FromEpoch | stream_engine_meos.go:137-233 | from the epoch on, HOPPING's k-th window is TUMBLING's k-th closed window cut down to the slot of its first record, and they are the same if and only if late records come only after one of the greatest slot |
| Agreement.HoppingIsTumbling | stream_engine_meos.go:137-233 | so for streams in order the two are the same operator: the same windows over the same records in the same order |
| WindowLaws.HoppingKeepsFirstSlots | stream_engine_meos.go:137-233 | the same cut for every parsed stream whose first time is covered and where no window runs on into the next slot |
| WindowLaws.EmitsOnlyFirst | stream_engine_meos.go:209-230 | catching up over a gap emits one window, that of the first boundary crossed, and skips the empty ones |
| WindowLaws.NextEmitIsSlotEnd | stream_engine_meos.go:203-222 | catching up hop by hop ends at the end of the latest slot |
| Runs.TumblingIsRuns | stream_engine_meos.go:155-166 | for streams in order, TUMBLING's windows are exactly the completed maximal runs of equal time / span |
| Overlap.ExactOverlap | stream_engine_meos.go:203-230 | when the span is m hops, a stream in order that has reached a record's time plus the span has emitted that record in exactly m windows |
| Overlap.InWindow | stream_engine_meos.go:212-216 | in order, a record is in a boundary's window if and only if its time is in the span before it, however late the boundary is crossed |
| Fallback.FallbackHopping | stream_engine_meos.go:201-231 | without parseable timestamps boundary E is reached exactly by streams of more than E records, and its window is the min(E, span) records before position E |
| Fallback.AgreeOnlyAtFirst | stream_engine_meos.go:508-518 | HOPPING and TUMBLING over unparseable timestamps emit the same windows if and only if there are at most two spans of records |
| Replay.ReplaySource | stream.go:509-521 | the replay sends the lap over and over, in order |
| Laps.TumblingStopsIffParsed | stream.go:505-523 | for every lap, TUMBLING emits the windows of the first lap and nothing later, however long the replay, if and only if every timestamp of the lap parses |
| Laps.HoppingStopsIff | stream.go:505-523 | for every lap, span and hop, the same of HOPPING if and only if every timestamp parses, or no position of the endless replay lies in the window of a boundary still to come after the first lap |
| Laps.HoppingStopsIffParsed | stream.go:505-523 | with a span no shorter than the hop that is if and only if every timestamp parses |
| Laps.UnparsedLapsHop | stream.go:491-523 | over a lap none of whose timestamps parse every boundary the positions pass gets its window, lap after lap |
| Laps.UnparsedLapsTumble | stream.go:491-523 | and TUMBLING's k-th window holds k spans of records, as many windows as the stream has records for |
| MeosEngine.BoundaryWindow | stream_engine_meos.go:210-229 | filtering the retained buffer gives the filter of the entire history: eviction loses nothing a window needs |
| MeosEngine.CollectWindow | stream_engine_meos.go:211-216 | the window loop collects exactly the buffered records in the bounds, in order |
| MeosEngine.EvictCount | stream_engine_meos.go:224-227 | eviction stops at the first record a later window can need |
| MeosEngine.MeosHandle.EmitWindow | stream_engine_meos.go:251-276 | one event over the window's records, from the first one's timestamp to the last one's, or the status the failure calls for and the results unchanged |
| MeosEngine.MeosHandle.RunTransform | stream_engine_meos.go:110-132 | the results are the lifted records up to the first that cannot be lifted or sent; for an operation that lifts every value they are the transform of the records so far |
| Engines.EnginesAgree | stream_engine_bridge.go:91-143 | a transform in process and one on the bridge that both go to the end of a source emit the same events |
| Engines.BothAreTransforms | stream_engine_bridge.go:88-144 | however either is cut short, it has emitted a prefix of the one transform of the source |
| MeosEngine.MeosHandle.RunAggregate | stream_engine_meos.go:137-178 | the results and the status are those of the closed TUMBLING or COUNT windows, in order, up to the first that cannot be delivered; over a stream in order the TUMBLING ones are the completed maximal runs of equal time divided by what the size is worth in its unit |
| MeosEngine.MeosHandle.RunHopping | stream_engine_meos.go:183-233 | for every input the results and the status are those of the windows of the whole history; over a stream in order these are the windows of the multiples of what the hop is worth, each of what the size is worth before it; what stays buffered is the end of the stream, before the boundary, and for a stream in order no further behind it than the wider of span and hop |
| HopGrid.HoppingIsGrid | stream_engine_meos.go:183-233 | over a stream in order HOPPING emits one window for each multiple of the hop past the first time and up to the last, of all the records in the span before it, leaving out the empty ones |
| MeosEngine.MeosHandle.RunTumbling | stream_engine_meos.go:142-166 | the TUMBLING loop delivers the closed windows |
| MeosEngine.MeosHandle.RunCount | stream_engine_meos.go:167-174 | the COUNT loop delivers the closed windows |
| MeosEngine.MeosHandle.CatchUp | stream_engine_meos.go:209-230 | the inner loop ends past the record's time with every window due delivered and the buffer still sufficient |
| Broadcast.BroadcastInAnyOrder | stream.go:281-288 | a broadcast has one outcome, whatever order the map iteration visits the subscribers in |
| Broadcast.AlwaysSafe | stream.go:279-318 | in every execution a channel is open if and only if it is subscribed, none is closed twice or sent to after closing, none exceeds its capacity, and a stopped query has no subscribers |
| Broadcast.StoppedForGood | stream.go:290-308 | once stopped, always stopped, with every channel closed, those of later subscribers too |
| Broadcast.EveryEventHasItsTurn | stream.go:280-288 | every event pumped while a subscriber is subscribed is offered to it once, in order |
| Broadcast.Delivery | stream.go:277-288 | what a subscriber has read followed by what is queued for it is an in-order subsequence of the events pumped while it was subscribed |
| Broadcast.LosslessIffNeverFull | stream.go:283-286 | nothing is lost exactly when the subscriber's own slots were never full at its turn |
| Broadcast.AcceptedAreGained | stream_live.go:54-66 | with readers taking at any point, the sends of one broadcast that find a slot are as many as the channels that gain by it |
| Broadcast.Independence | stream.go:277-318 | leaving every other subscriber out of an execution leaves an execution in which this one's channel is the same |
| FanOut.ContQuery.PumpOne | stream.go:281-288 | one critical section is one broadcast |
| FanOut.ContQuery.Finish | stream.go:290-296 | the end of the events closes every subscriber and stops the query |
| FanOut.ContQuery.Subscribe | stream.go:299-309 | a new channel, subscribed or, after the end, already closed |
| FanOut.ContQuery.Unsubscribe | stream.go:311-318 | closes the channel if it is subscribed, and otherwise changes nothing |
| FanOut.Registry.Register | stream.go:359-368 | the id was never issued before, removed queries included |
| FanOut.Registry.Remove | stream.go:387-391 | forgets that query alone, and not that its id was issued |
| LiveHub.LiveKeyInjective | stream_live.go:28-30 | keys of collections without NUL in their id tell collection, feature and property apart |
| LiveHub.ShareKeyIff | stream_live.go:28-30 | two different texts could share a key as collection ids if and only if one is the other followed by NUL, an integer, and then nothing or another NUL |
| LiveHub.KeyInjective | main.go:288-290 | collections that exist have ids of lower-case letters, digits and underscores, so their keys tell collection, feature and property apart |
| LiveHub.LiveIsBroadcast | stream_live.go:34-66 | every channel has one goroutine, which waits exactly while the channel is subscribed; so its unconditional close never meets a closed channel, and every execution of the hub is one of the broadcast |
| LiveHub.SecondCloseFaults | stream_live.go:44-46 | running that critical section twice for one channel would fault |
| LiveHub.KeyedByProperty | stream_live.go:28-66 | every execution of the hub keyed by text is one of a hub keyed by property |
| LiveHub.OwnRecordsOnly | stream_live.go:34-66 | a query is given, in order, only records pushed for its own property while it was subscribed |
| LiveHub.Hub.Subscribe | stream_live.go:34-41 | a new channel on the key, every other unchanged |
| LiveHub.Hub.Cancel | stream_live.go:42-48 | the waiting goroutine's unconditional removal and close is the removal of a subscribed channel, every other unchanged, and it waits no more |
| LiveHub.Hub.Publish | stream_live.go:54-66 | one broadcast to the key's channels; the result is the number of queues that grew |
| LiveHub.RoomyOne | stream_live.go:58-64 | the count goes up for a channel with a free slot and for no other |
| Bridge.AlwaysInv | stream_engine_bridge.go:88-144 | in every execution the FIFO holds exactly the timestamps stamped and not yet paired, and the values on their way through the job are those written and not yet read, in order |
| Bridge.EventsArePaired | stream_engine_bridge.go:118-144 | under every interleaving, with noise, cancellation and a crashing job, the events sent are a prefix of the records with the job's value at each one's own timestamp |
| Bridge.TimestampIsThere | stream_engine_bridge.go:128-134 | a reader that holds a value always finds that record's timestamp at the head of the FIFO |
| Bridge.NoDeadlock | stream_engine_bridge.go:88-144 | without cancellation or a crash, over pipes that hold at least one line, when no part can move, the result queue is full, or everything received is emitted and the system waits for the source or has ended |
| Bridge.EndsComplete | stream_engine_bridge.go:91-143 | a run that ends by itself has emitted the transform of everything the source sent |
| Bridge.BoundedWork | stream_engine_bridge.go:88-144 | the number of steps the system takes by itself is bounded by the records sent and the noise made |
| Bridge.StuckIsComplete | stream_engine_bridge.go:88-144 | without cancellation or a crash, whatever order the steps are taken in, they are at most as many as there is work, and when none is left every record the source has sent is emitted with its own timestamp |
| Bridge.CanComplete | stream_engine_bridge.go:88-144 | and from every point of every such run there are steps, at most as many, after which the subscriber has all of them |
| Decimal.DigitsValue | main.go:2083 | decimal digits denote their number and have no leading zero |
| Decimal.ItoaInjective | main.go:2083 | different integers have different texts |
| Decimal.ParseItoa | main.go:541-547 | what is written for a 64-bit integer reads back as it |
| Decimal.ParseIntReads | main.go:542 | the texts read as an integer are exactly an optional sign and digits, within 64 bits, and they read as their amount |
| Decimal.ItoaAvoids | stream_live.go:28-30 | the text of an integer is digits and a sign |
| Paging.ItemFilters | main.go:537-600 | the conditions, under the arguments they were numbered for and whatever is bound after them, accept exactly the rows the request asks for; refusals come in the code's order |
| Paging.AddBox | main.go:563-566 | the box condition's five placeholders name its own five arguments, whatever came before |
| Paging.AddClip | main.go:586-591 | the clipping condition shares the interval's placeholder |
| Paging.WhereIsMatching | main.go:629-632 | the database's answer to the clause is the matching rows in id order |
| Paging.ReadRows | main.go:645-665 | the rows up to the first that cannot be read back, and the last id written |
| Paging.LimitIsWanted | main.go:611-619 | the limit is the request's first "limit" if that is a positive 64-bit integer, else the default, and never above the maximum |
| Paging.StreamItems | main.go:604-674 | the page is the first of the matching rows, as many as asked for or by default within the maximum, up to one that cannot be read back; there is a next link exactly when it is full; and the filter is the one the parameters ask for |
| Paging.DecodedIsRequested | main.go:541-592 | each filter comes from the first value of its own parameter, an empty one is none, and clipping is asked for by either spelling |
| PagingWalk.LinkCarriesOn | main.go:667-672 | the next link asks for the same filter past the last id, at the same limit |
| PagingWalk.FollowLinks | main.go:604-674 | following the links returns the pages of one filter over the successive tables |
| PagingWalk.MatchingAfter | main.go:541-547 | the request past the k-th matching row gets exactly the rows from there on |
| PagingWalk.NeverTwice | main.go:604-674 | whatever happens to the table between requests, ids increase throughout, so none is returned twice |
| PagingWalk.NeverMissed | main.go:604-674 | once the links are followed to the end, a feature present and matching in every state seen has been returned, whatever was inserted or deleted around it, so long as rows can be read back |
| PagingWalk.FixedTable | main.go:604-674 | on an unchanging table the pages make up the matching rows in id order, up to the first that cannot be read back; when all can, in exactly N / limit + 1 requests |
| PagingWalk.CompleteIffAllScan | main.go:647-672 | they make up all of them if and only if every matching row can be read back |
| SparkSql.InlineParams | dialect_spark.go:66-71 | the countdown loop makes one pass over the whole text per argument, highest first, each with a literal that SQL reads as that argument's own value |
| SparkSql.LiteralMeans | dialect_spark.go:73-88 | every argument is written as a literal of its own value: NULL, the integer, the text of the float, or the quoted text |
| SparkSql.LiteralsTell | dialect_spark.go:73-88 | arguments written alike are alike: the same integer, float or text, and NULL only as NULL |
| SparkSql.ReplaceAllParts | dialect_spark.go:68 | replacing in a text is replacing in its parts when no occurrence spans them |
| SparkSql.LiteralsHaveShape | dialect_spark.go:73-88 | a literal never starts with '$', and one that contains it ends in a quote |
| SparkSql.NotAPrefix | dialect_spark.go:67 | a placeholder starts with no higher-numbered one, which is what going from high to low relies on |
| SparkSql.PassOverStage | dialect_spark.go:67-69 | each pass replaces exactly its own placeholders of the statement, and what the earlier literals contain of them |
| SparkSql.PassesDepart | dialect_spark.go:67-69 | a literal survives the later passes if and only if it contains no lower-numbered placeholder |
| SparkSql.InliningIsSimultaneous | dialect_spark.go:66-71 | for every statement whose placeholders are not completed to others by the literals next to them, high-to-low replacement is one-pass substitution if and only if no literal used contains a lower-numbered placeholder |
| SparkSql.SubstitutedAgain | dialect_spark.go:66-71 | a text argument that is itself a placeholder is replaced |
| SparkSql.AdjacentPlaceholders | dialect_spark.go:66-71 | with twenty arguments, the twentieth of them 2, "$1$20" turns into "$12" |
| SparkSql.HarmlessIsApart | dialect_spark.go:66-71 | neighbours are no danger when the first is not the lower, or the literal of the second starts with no digit, and placeholders that do not touch are none either |
| SparkSql.DigitsAhead | dialect_spark.go:67-69 | the digits a placeholder meets when its pass comes are those of the literals after it, whatever the passes have done to them |
| SparkSql.QuoteReadsBack | dialect_spark.go:83-86 | any text, quoted, is one SQL literal that reads back as the text |
| BulkAppend.AppendBatch | bulk.go:108-147 | it succeeds if and only if every observation can be read, every feature's own ones continue its trip in strictly increasing time, and the store does not fail; then each trip is the old one followed by the feature's own observations in batch order, created counts the distinct new ids and created + extended the batch; otherwise the table is unchanged |
| BulkAppend.Transaction.Extend | bulk.go:126-135 | appends the fix if the feature exists and the fix is after its last; otherwise no row or an error, and nothing changes |
| BulkAppend.Transaction.Create | bulk.go:136-141 | adds the feature with its first fix |
| BulkAppend.Transaction.Commit | bulk.go:143-145 | the table becomes the transaction's copy, or stays as it was |
| BulkAppend.AppendablePrefix | bulk.go:114-142 | every prefix of an appendable batch is appendable, so the loop never refuses too early |
| BulkAppend.Refused | bulk.go:126-131 | an observation not after its feature's last refuses the whole batch, and is the first that does |
| BulkAppend.TwoBatches | bulk.go:108-147 | a batch in two parts is accepted, and adds and creates, what the whole does |
| BulkAppend.OrderBetweenFeatures | bulk.go:108-147 | only the order among a feature's own observations matters |
| TimeSeries.Gather | timeseries.go:100-133 | the accumulators hold, for every type and bucket, the sum and the number of that type's speeds rounded to the bucket; the bounds are the least and greatest bucket |
| TimeSeries.Grid | timeseries.go:144-147 | the buckets run from the least to the greatest, a step apart |
| TimeSeries.OnGrid | timeseries.go:144-151 | every multiple of the step between the ends is a bucket |
| TimeSeries.KeysOnGrid | timeseries.go:117-163 | every accumulator's key is a bucket, so the index never falls back to the first place |
| TimeSeries.FillRow | timeseries.go:159-166 | each place gets its own bucket's average, in whatever order the accumulators are visited |
| TimeSeries.TowardZero | timeseries.go:118 | rounding never leaves the interval between zero and the time |
| TimeSeries.Timeseries | timeseries.go:78-170 | buckets are the requested step apart, or 600 seconds when it is not at least 60; a type has a row if and only if some series counts for it, its own or, for rows that name no type, those of "Other"; each cell is the mean of exactly those speeds in the bucket, null if and only if there are none; and without speeds there are no buckets |
| TimeSeries.CellIsSpeeds | timeseries.go:108-129 | a cell holds the speeds of exactly the rows that count for its type, in the bucket their time rounds to |
| TimeSeriesLaws.BucketCovers | timeseries.go:118 | a bucket's half-open interval holds its time exactly for times that are not negative or on the grid |
| TimeSeriesLaws.ZeroBucket | timeseries.go:118 | the bucket at zero takes the times less than a step away on both sides |
| TimeSeriesLaws.MeanBetween | timeseries.go:160-163 | an average lies between the least and the greatest of its speeds |
| TimeSeriesLaws.EverySampleCounts | timeseries.go:117-167 | the cells' counts add up to the number of speeds: none lost, none counted twice |
| TimeSeriesLaws.OneLayout | timeseries.go:100-170 | rows in any order, accumulators visited in any order: one answer |
| MFJson.TPropMFJSON | main.go:896-940 | terminates on any nesting, and writes the document of the innermost body |
| MFJson.WriteSet | main.go:909-925 | the segment loop writes the sequence set |
| MFJson.NestingIsTransparent | main.go:904-908 | wrapping a body in one-segment value sequences, however deep, changes nothing |
| MFJson.FirstSegmentDecides | main.go:910-918 | a set's interpolation is its first segment's or the default |
| MFJson.Accepted | main.go:896-931 | a body whose single part lacks datetimes or values is incomplete; otherwise its first part decides: Linear, Step, Discrete or no name are accepted, Quadratic, Cubic and Regression are not carried, and any other is not named |
| MFJson.WrittenDown | main.go:909-940 | an accepted body is written with the type asked for, the first part's interpolation or the default, and each part's datetimes and values as they are; a bound given as false is false, and any other is true |
| MFJson.ReshapeTemporalProperty | subresource.go:28-50 | the reader's loop gives the document's value sequence, and refuses exactly the documents whose sequences are no list of objects |
| MFJson.SegmentsSurvive | subresource.go:33-50 | what is read back has the written segments in order, each with the datetimes and values of its part, its bounds as written, and the one interpolation |
| MFJson.WriteReadWrite | main.go:896-940 | a document read and written back is the same document |
| Tokens.ScalarTemporalTypes | main.go:776-883 | each entry carries the last type of its name that is not spatial and has a form and a scalar base: its name and form, the column named after it, the token of its base and the interpolation that goes with it |
| Tokens.TPropTokens | main.go:826-849 | in whatever order the maps are visited, each name resolves by alias, else to the owner of an OGC token, else to the type of that name |
| Tokens.OneTable | main.go:826-849 | the table is determined if and only if no two OGC tokens that agree in lower case stand for different types under a name no alias settles |
| Tokens.SharedToken | main.go:833-844 | when the catalog's tokens stay distinct in lower case, a token several types carry resolves to its canonical owner or to nothing, unless an alias or type name claims it |
| Tokens.CatalogDecides | main.go:776-850 | over the tier's own tokens, every catalog gives one table |
| Tokens.OnlyCarriable | main.go:826-877 | no name resolves to a spatial type or to one without a form |
| Tokens.TIntegerIsTint | main.go:814-844 | TInteger is tint, however many integer types the catalog has beside it, unless a type is itself named tinteger |
| Tokens.OwnAliases | main.go:789-850 | each further spelling, and the body that names no type, finds the type the tier means by it |
| Tokens.LowerIffSameLetters | main.go:809-812 | names are told apart by their letters and not by the case of them |

## Left out

- MEOS, cgo and the aggregate and lifted values: foreign code; a window is its sequence of records, and lifting is a parameter.
- The select between a cancelled context and a ready source: a run of the in-process engine takes a source that ends where the query was cancelled.
- The timestamp text parser: which of the four layouts a text matches is the input `Parsed` or `Unparsed`.
- Machine integers and floats: sizes, times and sums are mathematical integers and reals, except that ids and cursors are bounded to 64 bits where they are parsed.
- HTTP, routing, SSE framing, MQTT, compression, Parquet, the sample emitter, static API documents and the browser pages: no state of their own to reason about.
- SQL execution and the drivers: the store is an ordered table of rows, or a map with a transaction; a commit that reports an error has not taken place, and other transactions do not interfere.
- The Spark backend's transaction: it passes statements through, so the all-or-nothing law is not claimed of it.
- The bridge job itself: it is assumed to write one number per number read, in order, with any amount of other output in between; it may hold values it has not answered yet, up to a bound.
- rewriteSparkSQL and Spark's backslash escapes: the statement rewriting is regular expressions, and reading back follows standard SQL, where only the quote is doubled.
- URL encoding of the next link, and the extent and geometry members of a feature: only the id of each row is followed.
- The registry's list, parseInstantsMFJSON, parseFloatSeries and rfc3339Tz: filters and conversions that a reading settles.
- tPropType's trimming of a request's token before the lookup: an expression without state.
- The stages of the query's life that only forward a call (stop, Submit): no property beyond the call.
- MeosEngine.MeosHandle.EmitBoundary, MeosEngine.MeosHandle.CatchUp, FanOut.ContQuery.CloseSubs, LiveHub.Hub.OfferAll, TimeSeries.GatherRow and the Tokens.Add methods: loops or loop bodies the source has inline, given a name here so that each proof stays small.
- LiveHub.Hub.Publish: is one critical section without reads in between; that reads do not change its count is Broadcast.AcceptedAreGained.
- Agreement.AgreeIffAgreeable: is about streams whose timestamps all parse; wholly unparsed ones have Fallback.AgreeOnlyAtFirst, and streams that mix the two have only what holds of every stream.
- PagingWalk.NeverMissed: claims nothing of rows that cannot be read back, since they end a page early.
- TimeSeries.Timeseries: takes times with a four-digit year, which is all the parser accepts; the bounds' starting values are far outside.
