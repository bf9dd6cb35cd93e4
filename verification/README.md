# Pyronova core: a verified model

Pyronova is a Rust HTTP server core with Python on top. This project models the protocols
and codecs the core implements itself and proves what they promise. It verifies with
`dafny verify dfyconfig.toml` (Dafny 4.11).

Concurrent parts are machines: a `State`, a `Step` with one constructor for each atomic
action, `Enabled` and `Apply`. A run (`IsRun`) is any sequence of enabled steps, so a lemma
about runs speaks of every interleaving of any number of threads. Loops over bytes and
strings are methods proved equal to a function, and the lemmas are about that function.
Objects the source updates in place are classes whose methods state their whole new state.

| file | models |
|---|---|
| `Cursor.dfy` | the streaming Postgres cursor shared by threads |
| `ConnectPool.dfy` | racing `connect` calls, one pool per process |
| `StaticCache.dfy` | the static-file cache: byte counter and freshness in one machine |
| `CandidatePath.dfy` | request path to file path |
| `Varint.dfy`, `Grpc.dfy` | varints, the field decoder, frames, the call |
| `Body.dfy` | buffered and streamed request bodies |
| `WebSocket.dfy`, `ConnectionSlots.dfy` | byte budgets, message order, connection slots |
| `RouteTemplate.dfy`, `Routes.dfy` | path templates, registration and sealing |
| `Workers.dfy` | handing sub-interpreters to threads |
| `Compression.dfy`, `VaryHeader.dfy` | content negotiation, headers of a compressed response |
| `Common.dfy`, `Splitting.dfy` | shared vocabulary, sums, splitting at a separator |

## Modelling choices

- A critical section of the cursor's mutex waits for nothing, so it is one step. `notify_all`
  comes after the unlock and is a step of its own. Condition variables may wake spuriously.
- The cursor's driver has a finite script of messages; a failed receive task takes the
  receiver, its batch and the channel's contents with it.
- A file is the history of its versions. An open file may be read as any version it has had
  since it was opened, a piece at a time, so a read can be torn. Stamps never recur
  (`NewStamp`); the source documents that an edit which keeps both parts is not seen.
- The 64-bit byte counter, the 32-bit permit cost and frame length, `u64` varints, `i32`
  sums and saturating body lengths wrap or saturate explicitly.
- Or-ing a shifted byte in is bitwise or on natural numbers (`Varint.Or`); masks and shifts
  are remainders and products by powers of two.
- References to a worker's context are counted: the thread's own, that of its `serve` future,
  and the clones its connection tasks hold. Those tasks live in the thread's local set, and
  dropping it drops them.
- The radix router is any function pair that only answers with inserted ids
  (`Routes.Matcher`); the float parser of `q` values is any function (`WeightParser`).

## What turned out differently

- A cache hit is not always the version whose stamp the request just read. What decides it is
  the fill: `ResponsesAreExact` proves a hit is that version byte for byte whenever the file
  was not edited between the open and the end of the read that filled the entry, whatever
  was edited before or since; `EditedResponseCanDiffer` builds, for any two versions, the
  run in which such an edit makes it false, and even then every byte of the response is of
  some version the file had during that read.
- A WebSocket slot is released before its thread is joined if the request's future is dropped
  while it waits for the hooks' verdict or for the join. `SlotsBoundThreads` allows the
  threads of such futures above the limit until they return, and no other;
  `DroppedFuturesFreeSlotsEarly` reaches that bound under every limit for every number of drops.
- A coding listed only with negative or NaN weights is read as unlisted, so `*` reaches it.
  `NegotiationIsTheRuleIff` says exactly when the answer then differs from the rule,
  `InvalidWeightIsReadAsUnlisted` gives the headers and `NegativeWeightIsReadAsUnlisted` one.
- A body limit of 2^64 - 1 is none: the total saturates there and never exceeds it
  (`LargestLimitIsNone`); every smaller limit holds (`HandlerStaysWithinLimit`).
- A message of 2^32 bytes or more does not survive framing (`FrameRoundTrip`, both ways).
- A rejected route does not leave the table quite untouched: it can leave an empty router for
  its method (`RejectionLeaves`), which answers nothing (`RejectionChangesNoAnswer`).
- A route signature does not fix whether a handler is `async def` (`SignatureLeavesKindOpen`);
  two tables of one signature agree on it exactly where their registrations do (`KindAgreesIff`).

## Model

| member | source | states |
|---|---|---|
| Cursor.DeliveryIsInOrder | src/db.rs:386-416 | in every interleaving of driver and threads, sent = returned (in lock order) ++ buffer ++ holder's batch ++ channel ++ lost, so calls return an in-order prefix without loss or duplicate |
| Cursor.EndOfStreamMeansAllDelivered | src/db.rs:511-537 | by the time a call reports the end every message of the driver was returned in order, unless some call had by then raised for a failed receive task |
| Cursor.EveryCallHasItsAnswer | src/db.rs:547-561 | at any point of any run each thread was given exactly one answer, a message, the end or an error, for each call it made, save the call it is still inside |
| Cursor.TurnsAreExclusiveAndBounded | src/db.rs:419-440 | the receiver is checked out exactly when one thread holds it, the buffer is then empty, and at most twice the channel capacity is in memory |
| Cursor.NoLostWakeup | src/db.rs:496-507 | a thread asleep on the condition variable always has a holder or a notify still to come |
| Cursor.EveryCallReturns | src/db.rs:547-561 | with no new calls every run from any reachable point is bounded and can only stop with all calls returned, with no fairness assumed and spurious wakeups counted |
| Cursor.SomethingCanMove | src/db.rs:496-537 | while a call is under way some thread or the driver has a step towards ending it |
| Cursor.StepDoesWork | src/db.rs:461-537 | every step but a new call lowers the work left, a spurious wakeup raises it by at most one |
| Cursor.StepKeepsInv | src/db.rs:461-537 | every step keeps turn-taking, bounds, endings, pending wakeups and conservation |
| Cursor.SharedCursor.Claim | src/db.rs:461-473 | claiming in place is the function the machine steps by |
| Cursor.SharedCursor.GiveBack | src/db.rs:519-530 | giving the receiver back in place, closing on an empty batch |
| Cursor.SharedCursor.GiveUp | src/db.rs:531-534 | a failed receive closes the cursor and keeps the buffer |
| Cursor.RecvBatch | src/db.rs:123-140 | whatever the driver sends between polls, a batch is the oldest messages in order with none skipped, ends at `max` or at a poll that found nothing, and is empty only at the end of the stream |
| ConnectPool.ReuseIffServes | src/db.rs:165-206 | a pool may be reused exactly if it has every setting the request names, a refusal names one that differs with both values, and unnamed settings are ten connections and thirty seconds |
| ConnectPool.SucceedsIff | src/db.rs:209-232 | in every race a finished call succeeded exactly if its connection did not fail and the published pool has every setting it named |
| ConnectPool.OnePoolPerProcess | src/db.rs:209-232 | in every race one pool is published and stays, successes match it, refusals for a setting do not; every pool a call opened is still to be offered, or published and open, or closing or closed, and closed once no shutdown is left to run |
| StaticCache.CounterIsExact | src/static_fs.rs:220-249 | in every interleaving the counter is live bytes plus reservations plus bytes still to subtract, never wraps, live bytes stay within the cap, and at rest the counter is the live bytes |
| StaticCache.ReservesExactly | src/static_fs.rs:224-232 | in every run an entry is let in exactly if, counted, everything is within 128 MiB |
| StaticCache.MissingFileIsDropped | src/static_fs.rs:320-325 | in every interleaving a request that finds no regular file removes the path's entry before it goes on |
| StaticCache.ResponsesAreExact | src/static_fs.rs:311-353 | in every interleaving a hit has the stamp of the version its request statted and is that version byte for byte unless the file was edited while the entry was filled; a miss is a version current since the stat in the same way; in any case each byte is of some version during the fill |
| StaticCache.UneditedResponsesAreExact | src/static_fs.rs:311-353 | every response whose file was not edited between its stat and its bytes is that version byte for byte, hit or miss |
| StaticCache.EditedResponseCanDiffer | src/static_fs.rs:414-448 | for any two versions with different stamps there is a run whose cache hit, on an entry filled across the edit, answers a stat of the first with the second's bytes |
| StaticCache.FreshKept | src/static_fs.rs:311-353 | every step keeps each entry the version its stamp described if it was filled before the next edit, else woven of the versions it was filled across |
| StaticCache.AccountedKept | src/static_fs.rs:224-249 | every atomic operation keeps the counter's equation and the cap |
| StaticCache.SharedCache.CacheInsert | src/static_fs.rs:224-239 | alone, an insert caches exactly if the entry fits and leaves the counter exact |
| StaticCache.SharedCache.CacheRemove | src/static_fs.rs:242-249 | alone, a removal drops exactly the entry and leaves the counter exact |
| CandidatePath.CandidatePath | src/static_fs.rs:358-372 | refused exactly for a NUL or a `..` segment after decoding, else root plus the decoded names, each plain |
| CandidatePath.AnySpellingFindsTheNames | src/static_fs.rs:355-372 | any mix of literal and escaped spelling of plain names, slashes included, digits printed in either case, maps back to those names |
| CandidatePath.DecodesSpelling | src/static_fs.rs:359 | decoding undoes any spelling of bytes as themselves or as `%` and their two hex digits, a `%` that no two digits follow standing for itself |
| CandidatePath.EveryTextIsSpelled | src/static_fs.rs:359 | every text is such a spelling, so decoding is determined on all inputs |
| Varint.ReadVarintLoop | src/grpc.rs:299-313 | the bitwise loop reads the base-128 value modulo 2^64 of the varint in front, and what follows it |
| Varint.ReadsExactlyVarints | src/grpc.rs:299-313 | a value is read exactly when a varint of at most ten bytes is in front |
| Varint.WriteVarintI32 | src/grpc.rs:315-328 | the loop appends the written form of the sign-extended value |
| Varint.VarintRoundTrip | src/grpc.rs:299-328 | for every `i32` and tail, reading the written value gives it and the tail back; 1 to 5 bytes, or exactly 10 if negative |
| Varint.CastsAreCongruent | src/grpc.rs:215 | sign extension keeps a number modulo 2^64 and the low bits keep it modulo 2^32 |
| Grpc.DecodeSumRequest | src/grpc.rs:206-227 | the loop is the decoding function and ends on every byte string |
| Grpc.DecodesFields | src/grpc.rs:206-246 | every concatenation of well-formed fields decodes to the low 32 bits of the last varint values of fields 1 and 2 |
| Grpc.DecodesOnlyFields | src/grpc.rs:206-246 | only concatenations of well-formed fields decode |
| Grpc.FailsAtFirstBadField | src/grpc.rs:206-246 | a message that does not decode is well-formed fields and then one that is wrong in the way the error says |
| Grpc.UnknownFieldsDoNotMatter | src/grpc.rs:204-246 | unknown fields of any allowed wire type at any field boundary never change the result |
| Grpc.SkipsPayload | src/grpc.rs:229-246 | skipping leaves exactly what follows a payload of any wire type |
| Grpc.SkipsOnlyPayloads | src/grpc.rs:229-246 | what is skipped is one payload of its wire type |
| Grpc.FrameRoundTrip | src/grpc.rs:163-177 | unframing a frame gives the message back if and only if its length is under 2^32 |
| Grpc.UnframeInverts | src/grpc.rs:249-255 | whatever unframes is the frame of its message |
| Grpc.FrameLayout | src/grpc.rs:249-255 | a frame is a zero byte, the length big-endian in four bytes, and the message |
| Grpc.UnframeRefusal | src/grpc.rs:163-177 | each refusal of a frame says what is wrong with it, with the right numbers |
| Grpc.FramedCallSums | src/grpc.rs:132-145 | end to end, any well-formed framed message is answered by a framed reply that decodes to the `i32` congruent to the last values' sum modulo 2^32 |
| Grpc.AnswersOnlyMessages | src/grpc.rs:132-163 | and only frames of well-formed fields are answered with a reply |
| Grpc.PlainCallSums | src/grpc.rs:185-194 | a plain encoded (a, b) is answered with the `i32` congruent to a + b modulo 2^32 |
| Body.Collect | src/body.rs:73-98 | the buffered loop is the function `Buffered` |
| Body.BufferedMeans | src/body.rs:73-98 | buffering stops at the first event that ends the body or takes the plain sum of its bytes over the limit, for that reason, with exactly the bytes before it |
| Body.BodyWithinLimitIsComplete | src/body.rs:73-98 | frames that total at most the limit, then the end, are read whole, however they are cut |
| Body.BodyBuf.Push | src/body.rs:118-132 | pushing appends to the frozen contents, whichever of the three forms |
| Body.StreamBody | src/body.rs:219-264 | the streamed loop is the function `Streamed` |
| Body.ReadersAgree | src/body.rs:73-98 | on every body and limit both readers stop at the same event for the same reason; the chunks are exactly the data frames before it, in order, and on success join to the buffered bytes, across saturation |
| Body.HandlerSeesPrefix | src/body.rs:219-274 | in every interleaving the handler sees a prefix of the body's data frames, or all of those before the end and the one message that says how buffering would end, and nothing after; `Eof` only with the whole body; given up, no closing message; bounded in flight |
| Body.HandlerStaysWithinLimit | src/body.rs:232-264 | what the handler has taken never exceeds a `max_size` below the largest |
| Body.LargestLimitIsNone | src/body.rs:256-259 | at the largest limit any body of data frames, of any length, can be taken whole |
| Body.PatientHandlerSeesAll | src/body.rs:219-230 | a handler that takes everything until the feeder is done has the whole stream |
| Body.KeptUpIsNotGivenUp | src/body.rs:266-274 | a handler that stays and leaves room in the channel is never given up on |
| Body.ChannelCanFill | src/body.rs:148 | the channel takes up to eight messages before the feeder waits |
| WebSocket.MemoryIsBounded | src/websocket.rs:147-173 | each way, free permits plus permits of messages are constant over every run, dropped queues included, so payload plus 64 a message stays within one maximum message; inbound adds one waiting and one held message |
| WebSocket.EmptyQueueHasRoom | src/websocket.rs:144-146 | any allowed message fits once its queue is empty |
| WebSocket.RoomIsExact | src/websocket.rs:285-303 | a send is queued, and a client message admitted, exactly if with it payloads and 64 bytes a message stay within one maximum message |
| WebSocket.CostIs | src/websocket.rs:54-59 | no bit of an allowed message's 32-bit cost is lost |
| WebSocket.MessagesKeepTheirOrder | src/websocket.rs:837-893 | what the handler got is an in-order prefix of arrivals, the rest is held, queued or waiting, and "closed" comes only after everything was given and the pump had stopped |
| WebSocket.ClosingSendsEverything | src/websocket.rs:866-873 | the outbox is closed exactly once the handler closed it or is over, a pump that stops because of it has sent everything queued, and until a pump stops nothing queued is lost |
| WebSocket.StoppedPumpIsReported | src/websocket.rs:254-266 | once the pump has stopped a receive never waits and answers "closed" exactly when nothing is left |
| WebSocket.PumpStopsForGood | src/websocket.rs:837-893 | the pump stops for good at every exit, a client message after the handler is over included |
| WebSocket.NextTakesFirst | src/websocket.rs:251-276 | a receive takes the first message exactly if it is of the kind asked for, text, binary or either, and on a mismatch leaves the remaining sequence unchanged |
| WebSocket.TypedReceivesKeepTheirType | src/websocket.rs:333-352 | over any run text receives return only text messages and binary receives only binary ones |
| WebSocket.Inbox.NextAs | src/websocket.rs:254-276 | the same, updating the held message and the queue in place |
| ConnectionSlots.SlotsBoundThreads | src/websocket.rs:562-633 | on every exit the counter equals slots held and stays within the limit, and live handler threads exceed it by at most those whose future was dropped while waiting and that still run |
| ConnectionSlots.OnlyAcceptedIsServed | src/websocket.rs:594-633 | in every run messages are pumped only for a connection the hooks accepted and that was upgraded, and joined before its answer only if they rejected it |
| ConnectionSlots.DroppedFuturesFreeSlotsEarly | src/websocket.rs:533-558 | under every limit and for every number of dropped futures, a run where that many threads more than the limit live |
| RouteTemplate.TemplateParams | src/router.rs:120-142 | the scan is the function `Params` |
| RouteTemplate.PrintedTemplateRoundTrip | src/router.rs:116-142 | scanning a printed template gives exactly its names in order if and only if it has no `:name` segment |
| RouteTemplate.RefusesFirstColonParam | src/router.rs:145-152 | a path is refused exactly if a segment is `:identifier`, naming the first |
| RouteTemplate.ColonParamIs | src/router.rs:145-152 | a segment is `:name` exactly if it is a colon and then a letter or `_` |
| Routes.App.Insert | src/router.rs:367-397 | inserting in place, the fallible router insert first |
| Routes.App.Register | src/app.rs:1041-1086 | each registration in place, refused after the seal where the source refuses it |
| Routes.AcceptedIff | src/app.rs:1041-1086 | exactly when each registration is accepted |
| Routes.RefusalIs | src/app.rs:1041-1086 | and the reason given when it is not |
| Routes.EveryTableIsSound | src/app.rs:1013-1022 | every run of registrations, sealed or not, keeps ids in range under their own method and path and worker routes and hooks below the seal |
| Routes.SealFreezes | src/router.rs:267-284 | after the seal hooks, fallback and signature never change and routes are only added |
| Routes.WorkersKnowEveryWorkerCall | src/router.rs:437-449 | every worker call a sealed main table resolves is, at the same index of any worker table with that signature, a worker route of the same method and path |
| Routes.RoutesAreAccepted | src/router.rs:367-397 | the routes of a table are its accepted registrations, one for one and in order |
| Routes.KindAgreesIff | src/router.rs:255-284 | in two registered tables of one signature a worker route has the same kind if and only if the registrations that added it agree on `async def` |
| Routes.SignatureLeavesKindOpen | src/router.rs:255-263 | for any accepted path, a `def` and an `async def` registration build tables of one signature and two kinds |
| Routes.MatchedInRange | src/router.rs:486-510 | a request only reaches a route of its own method in any case, or for HEAD a GET route |
| Routes.ResolvesAsRegistered | src/router.rs:437-449 | in every table a script builds, a matched request runs on main or a worker, buffered or streamed, sync or async, as its route was registered |
| Routes.UpperIs | src/router.rs:491 | small letters become their capitals and nothing else changes |
| Routes.AllowedIffAnswered | src/router.rs:454-467 | `Allow` lists exactly the methods a request for the path would be answered with |
| Routes.RejectionChangesNoAnswer | src/router.rs:454-467 | a rejected registration changes no match and no `Allow` set |
| Routes.RejectionLeaves | src/router.rs:375-386 | it leaves the table as it was or with one empty router |
| Workers.EveryWorkerEndsOnce | src/tpc.rs:413-485 | for every failure pattern and interleaving, connection tasks included, no worker is ended twice or leaked, and at the end each was ended exactly once, on its own thread if it was handed over and on the creating thread if not |
| Workers.EndingBeforeTheDropLeaks | src/tpc.rs:194-198 | `serve` can return with any number of context references alive in tasks, and ending the worker then would leak it exactly if there is one; after the local set is dropped it is ended |
| Workers.FailureJoinsFirst | src/tpc.rs:466-481 | a spawn error is returned only after stop and join, a watcher error only before any thread, and every worker not handed over was ended by the creator |
| Workers.FailedThreadStopsServer | src/tpc.rs:451-459 | a thread whose runtime or `serve` failed has told the server to stop by the time it is gone |
| Workers.JoinAll | src/tpc.rs:202-217 | the result is the first failure in spawn order |
| Compression.Negotiate | src/compression.rs:277-328 | the three-maxima loop is `Negotiated` of the parsed elements |
| Compression.NegotiationIsTheRule | src/compression.rs:277-328 | with valid weights the answer is the rule of section 12.5.3 of RFC 9110, brotli before gzip |
| Compression.AcceptsAsRule | src/compression.rs:311-317 | for any weights, code and rule agree on a coding if and only if it is not listed with invalid weights only while `*` is positive |
| Compression.NegotiationIsTheRuleIff | src/compression.rs:311-328 | for all settings and weights, code and rule agree if and only if neither brotli is enabled and misread nor gzip is, with brotli not before it |
| Compression.InvalidWeightIsReadAsUnlisted | src/compression.rs:281-317 | every header `br;q=text, *` whose text parses as negative or NaN gets brotli, where the rule gives gzip or none |
| Compression.NegativeWeightIsReadAsUnlisted | src/compression.rs:281-285 | the header `br;q=-0.5, *` gets brotli where the rule gives none |
| Compression.OrderDoesNotMatter | src/compression.rs:286-309 | permuting the elements never changes the answer |
| Compression.HeaderIsRead | src/compression.rs:286-303 | any written list, with empty elements, blanks, other parameters and repeated weights, is parsed as exactly what it says |
| Compression.NameOfIs | src/compression.rs:305-310 | an element names brotli as `br`, gzip as `gzip` or `x-gzip`, in any case, and every coding as `*` |
| Compression.LowerIs | src/compression.rs:333-339 | capitals become their small letters and nothing else changes |
| VaryHeader.HeaderMap.SetCompressionHeaders | src/compression.rs:389-410 | the in-place edit is the function `Marked` |
| VaryHeader.MarkingIsExact | src/compression.rs:386-410 | encoding set, length gone, other headers kept, `Vary` tokens exactly the old ones and `Accept-Encoding`, idempotent |
| VaryHeader.VaryGainsToken | src/compression.rs:389-417 | for any number and spelling of `Vary` lines the tokens gain exactly the new one |
| VaryHeader.LinesChange | src/compression.rs:389-417 | no line changes exactly if a text line has the token in any case; a line that is no text is never touched |
| VaryHeader.MergedReads | src/compression.rs:399-402 | merging drops the blanks and commas a line ends in and writes a comma, a space and the token |

## Left out

- Mutex poisoning and panics: critical sections and threads are taken not to panic.
- Dropping a cursor before its end, an infinite query, and the conversion of rows and parameters.
- `to_list`, the async and blocking query calls, and the database runtime.
- Symlink resolution, mounts, MIME types and platforms without modification times; a static request's other errors.
- `StreamSlot::take`, body gates and the response body type: each is one case split.
- The WebSocket handshake, ping and pong, the close linger, and how Python is called.
- Path parameters and their decoding, fast responses beyond their effect on `Allow`, sorting and joining the `Allow` value, non-ASCII methods.
- Why a `serve` loop ends, CPU pinning, the idle collector and its tick.
- `is_compressible`, `plan`, the encoders and the compression buffer pool.
- Infinite and subnormal weights: the weight parser is any function to reals or NaN.
- Configuration, logging, monitoring, TLS, the accept loops and the Python layer.
