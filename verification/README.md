# A verified model of libksi

libksi is a C client for a hash-chain timestamping service. This project models its most intricate parts in Dafny and
proves what they promise: the asynchronous request engine and its high-availability fan-out, calendar and aggregation
hash chains, the framing and throttling of the TCP transport, the base32, URI and CRC-32 codecs, and the recycling pool
for hash objects. Line numbers below refer to the C sources.

Objects whose C functions update fields in place are classes; loops are loops with invariants; each such method is
tied to a function over values, and the laws are lemmas about those functions. Hashing is an arbitrary function from
an algorithm and bytes to a digest of the length in the algorithm table. The clock, the socket, the server and the
outcome of foreign calls are parameters, so every statement holds for all of their behaviours.

## Modules

| module | what it is about |
|---|---|
| `RequestRing` | the request cache of an async client as a state machine; what every run keeps |
| `AsyncClient` | the client object; each method performs events of that machine |
| `HaMerge` | merging the answers of several subservices to one request, in every order |
| `HighAvailability` | the high-availability object over real async clients |
| `CalendarTime` | left/right shapes as times, and the bit-smearing `highBit` |
| `HashChain` | imprints and the aggregation fold |
| `AggregationChain` | the memoising chain object and the shape number |
| `CalendarChain` | compatibility of calendar chains, and what a published root commits to |
| `Tlv`, `TcpInput` | TLV headers, tilings of a byte stream, and reassembly in a fixed buffer |
| `TcpOutput`, `TcpTransport` | throttled sending, and what it does to the request cache |
| `Base32` | encoding with groups, and decoding |
| `UrlAutomata`, `UriCharacters`, `UrlGrammar`, `HostGrammar`, `HttpParser` | the URL automata, the grammars of the texts and authorities they take, and the parser |
| `Uri`, `UriRoundTrip` | `uriSplit` and `uriCompose`, and how they fit together |
| `Crc32` | the table-driven loop against the bit-at-a-time definition |
| `RecyclePool` | reference counts and the bounded pool |
| `Common`, `Powers` | shared vocabulary |

## What the code does that one might not expect

Each of these has a member that shows it and an exact condition.

- An error PDU with status 0 leaves a handle in the error state with error code `KSI_OK`. The high-availability service
  refuses to report it as a notice and gives up the handler, so the user's handle may never be queued
  (`HighAvailability.HandleIsNeverGivenBack`; exactly when: `FinalDue` in `HaMerge.FinalExactlyWhenDue`).
- The right-link comparison of two calendar chains takes a trailing left link for a right one
  (`CalendarChain.LooseWithoutTheShape`; exactly when: `CalendarChain.AcceptsTooMuchIff`). It is exact for chains whose
  stored time matches their shape.
- The range test for level corrections sets an error code that is overwritten, so a correction above 0xff is truncated
  and accepted (`HashChain.HugeCorrectionIsAccepted`; exactly when: `HashChain.EndLevelIff`).
- The shape number is computed for up to 65 links, but decodes back only for up to 63
  (`AggregationChain.SixtyFourLinksAreLost`; exactly when: `AggregationChain.ShapeRoundTripIff`).
- A failed recomputation of an aggregation chain has already released the remembered hash and keeps the pointer
  (`AggregationChain.MemoIsLost`; exactly when: `AggregationChain.AggregationHashChain.AggregateMemo`).
- The setters of an aggregation chain leave the remembered root in place, which is then that of the old content
  (`AggregationChain.MemoIsStale`; exactly when: `AggregationChain.AggregationHashChain.AggregateMemo`).
- The padding loop of the base32 encoder does not test for group length 0 and then writes separators for which no room
  was reserved (`Base32.OneByteOverruns`; exactly when: `Base32.EncodingFitsIff`, `Base32.Encode`).
- `uriSplit` drops every leading `#` of a fragment, empty queries and empty fragments, refuses a fragment directly
  behind the authority, and cuts every field to its length modulo 2^16, since `field_data[].len` has 16 bits
  (`UriRoundTrip.LeadingHashIsLost`, `UriRoundTrip.LongPathIsLost`; exactly when: `UriRoundTrip.RoundTripIff`).
- `http_parser_parse_url` ignores the result of `http_parse_host`; the fields set before a failure stay set, and
  `uriSplit` then names another host (`UriRoundTrip.ExclamationEndsTheHost`, `UriRoundTrip.WrongHostIsNamed`; exactly
  when the host loop fails: `HttpParser.HostEndsWellIff`).

The URL parser can be compiled in a strict form and in a lenient one. Both builds of the library choose the lenient one,
to allow underscores in host names (configure.ac:64, src/ksi/makefile:237), and that is the form modelled: `_` is a
host character, and tab, form feed and bytes above ASCII are URL characters.

## Model

| member | source | states |
|---|---|---|
| `RequestRing.AccountingAfterAnyRun` | src/ksi/net_async.c:579-1528 | After any run of a new client, of any length and in any order of events including growth: `received` and `pending` count exactly the slots they stand for, slot 0 is empty, the low bits of each cached id are its slot, each cached handle bears the endpoint's id, and accepted requests = returned + still counted |
| `RequestRing.RunKeepsInv` | src/ksi/net_async.c:579-1528 | Every run of enabled events keeps the whole invariant (counters, shape, order of allocations, identity of occupants) |
| `RequestRing.StepKeepsInv` | src/ksi/net_async.c:579-1528 | Every single event keeps it |
| `RequestRing.CountExtremes` | src/ksi/net_async.c:1453-1453 | The counters add up to zero exactly when nothing is cached, and to the cache size exactly when no slot is free |
| `RequestRing.StepKeepsAccounts` | src/ksi/net_async.c:772-997 | Each event keeps both counters exact |
| `RequestRing.StepKeepsTrace` | src/ksi/net_async.c:734-997 | Each event keeps every allocation either in its own slot under its own id or returned, never both |
| `RequestRing.StepKeepsOrder` | src/ksi/net_async.c:579-604 | Allocations move strictly forward round the ring |
| `RequestRing.StepKeepsOwed` | src/ksi/net_async.c:898-1399 | Only an accepted request adds, and only a returned handle removes, an owed handle |
| `RequestRing.RunConserves` | src/ksi/net_async.c:772-1399 | Allocations minus returned minus counted is constant along every run |
| `RequestRing.ReturnedAtMostOnce` | src/ksi/net_async.c:1348-1399 | Two returns in one run never hand out the same allocation |
| `RequestRing.InitialKeepsInv` | src/ksi/net_async.c:1643-1692 | A new client satisfies the invariant |
| `RequestRing.GrowCounts` | src/ksi/net_async.c:1501-1528 | Growing the cache does not change what is counted |
| `RequestRing.CacheFullIsExact` | src/ksi/net_async.c:589-592 | In every state of a run the counter test holds if and only if all usable slots are occupied |
| `RequestRing.SameIdIsFarApart` | src/ksi/net_async.c:587-600 | Two allocations share a 64-bit id if and only if they share a slot and are a positive multiple of 255 turns apart |
| `RequestRing.StaleAnswerIsIgnored` | src/ksi/net_async.c:945-953 | An answer to a request already returned changes nothing for fewer than 255 turns |
| `RequestRing.AnswerReachesItsRequest` | src/ksi/net_async.c:945-997 | The slot an answer changes holds a live allocation with that id that waits for a response; no other slot changes; and every allocation with that id less than 255 turns old is that very one |
| `RequestRing.TimeoutIsExact` | src/ksi/net_async.c:1318-1346 | A waiting request is not finished up to `timeout` after it was sent and finished any later, as a receive timeout |
| `RequestRing.PassedIsNearer` | src/ksi/net_async.c:1348-1399 | The scan and the allocator pass exactly the slots that are nearer, in steps forward round the ring |
| `AsyncClient.AsyncClient.constructor` | src/ksi/net_async.c:1643-1692 | The new object is the initial state of the machine, with one usable slot |
| `AsyncClient.AsyncClient.CalculateRequestId` | src/ksi/net_async.c:579-604 | Cache full if and only if all usable slots are occupied; otherwise stops on the next free slot in cyclic order within cache size minus one steps, counting turns modulo 255 |
| `AsyncClient.AsyncClient.AddRequest` | src/ksi/net_async.c:666-826 | The call is an `Add` event or changes nothing; a request is owed afterwards exactly if the call succeeded |
| `AsyncClient.AsyncClient.Dispatch` | src/ksi/net_async.c:1401-1425 | Whatever the transport does: the events are exactly the sent and failed requests of its script that waited for dispatch, the cache is what they leave, and the handles owed stay the same |
| `AsyncClient.AsyncClient.SendOne` | src/ksi/net_tcp_async.c:387-450 | One request is sent or given up, if it still waits for that |
| `AsyncClient.AsyncClient.SetResponseError` | src/ksi/net_async.c:898-918 | Fails exactly the handles that wait for a response |
| `AsyncClient.AsyncClient.HandleResponse` | src/ksi/net_async.c:920-1002 | The call is an `Answer` event; an awaited response that does not match its request changes nothing and is reported |
| `AsyncClient.AsyncClient.ProcessResponseQueue` | src/ksi/net_async.c:1143-1286 | The new ring and the result are those of taking the responses in order up to the first bad one, with the last error PDU applied at the end; after an error PDU nothing waits for a response any more; owed handles stay owed |
| `AsyncClient.AsyncClient.TakeTail` | src/ksi/net_async.c:1318-1346 | The finished handle at the tail leaves the cache, its counter drops, a timeout becomes an error |
| `AsyncClient.AsyncClient.FindNextResponse` | src/ksi/net_async.c:1348-1399 | Returns none if and only if no cached handle is finished when it is looked at, each at its own clock reading; otherwise the first finished one in cyclic order |
| `AsyncClient.AsyncClient.Serve` | src/ksi/net_async.c:1416-1444 | Dispatch, responses and a closed connection, in the order of the source, as a function of the old ring |
| `AsyncClient.AsyncClient.Run` | src/ksi/net_async.c:1401-1458 | The new ring is a function of the old one and of the round; the returned handle is a finished one of it, none if and only if there is none; a request that nothing was received for stays in its slot up to the timeout after it was sent, and later a finished handle is returned, which if it is this one has timed out; `waiting` is zero if and only if nothing is cached; exactly the returned handle stops being owed, and it bears the endpoint's id |
| `AsyncClient.UnservedIsKept` | src/ksi/net_async.c:1416-1444 | A round without failures or a response for a waiting request leaves it as it is |
| `AsyncClient.FirstResponseDecides` | src/ksi/net_async.c:955-997 | The first verified response for a request decides, with its own status, whatever else is received |
| `AsyncClient.ErrorPduLeavesItsCode` | src/ksi/net_async.c:1263-1277 | A request without a response gets the code of the last error PDU |
| `AsyncClient.FinishedIsKept` | src/ksi/net_async.c:898-1002 | A request that does not wait any more is left alone by whatever is received |
| `AsyncClient.RoundLeavesItsCode` | src/ksi/net_async.c:1416-1444 | Which code a round leaves in a waiting request without a response: the transport's, the last error PDU's, or that of the closed connection |
| `AsyncClient.AsyncClient.SetCacheSize` | src/ksi/net_async.c:1501-1528 | The cache never shrinks and growing keeps every handle in its slot; refused exactly for a smaller size (with 64-bit wrap-around); the invariant is kept if and only if the cache has at most 2^32 slots |
| `HaMerge.ExactlyOnce` | src/ksi/net_ha.c:845-990 | For k ≥ 1 answers in any order, errors with codes: exactly one final handle, carrying the first success if there is one and else the first error; notices plus that error are the multiset of errors with their origins |
| `HaMerge.FinalExactlyWhenDue` | src/ksi/net_ha.c:845-990 | For all answers, also errors without a code: the handle is queued once if it is due and otherwise not at all |
| `HaMerge.StateAfter` | src/ksi/net_ha.c:845-990 | What the user's handle says after any answers, in terms of the first answer and the first success |
| `HaMerge.ErrorsAreConserved` | src/ksi/net_ha.c:686-731 | No error is invented, lost or doubled, apart from later ones without a code |
| `HaMerge.ErrorsCompleteIff` | src/ksi/net_ha.c:686-731 | The user sees exactly the errors that occurred if and only if every failure after the first answer has a code |
| `HaMerge.QueuedAtFirstSuccess` | src/ksi/net_ha.c:845-924 | Before all answers are in, the handle is queued if and only if a success came |
| `HaMerge.QueuedHandleIsFrozen` | src/ksi/net_ha.c:845-990 | No later answer changes a queued handle |
| `HaMerge.UncodedErrorLosesTheHandle` | src/ksi/net_ha.c:686-694 | A pair of answers after which no handle is ever queued |
| `HighAvailability.RecordKeepsBooks` | src/ksi/net_ha.c:845-990 | One more answer keeps counter, handle and queue of every request equal to the merge of its answers |
| `HighAvailability.OpenKeepsBooks` | src/ksi/net_ha.c:145-214 | A new request does the same |
| `HighAvailability.OneAnswerLess` | src/ksi/net_ha.c:992-1054 | Returning a handle settles one debt of one subservice and no other |
| `HighAvailability.SettledIsToldOnce` | src/ksi/net_ha.c:845-990 | A request answered by all that took it was queued exactly once if due; if its errors have codes it is due, carries the first success or else the first error, and with the notices shows exactly the errors that occurred |
| `HighAvailability.HighAvailabilityService.ReportErrorNotice` | src/ksi/net_ha.c:686-731 | A notice is queued with code and origin, or refused without a code |
| `HighAvailability.HighAvailabilityService.HandleReqResponse` | src/ksi/net_ha.c:845-924 | Request and queue become what merging a success gives |
| `HighAvailability.HighAvailabilityService.HandleErrorResponse` | src/ksi/net_ha.c:926-990 | Request and queue become what merging a failure gives |
| `HighAvailability.HighAvailabilityService.Absorb` | src/ksi/net_ha.c:1024-1040 | The answer of a returned handle is recorded for its request, and for no other |
| `HighAvailability.HighAvailabilityService.Poll` | src/ksi/net_ha.c:1003-1047 | Running one subservice keeps the caches of all subservices, the counters and the queue consistent; the answer recorded, if any, is that of the finished handle it gave back, was owed by it and bears its endpoint id |
| `HighAvailability.HighAvailabilityService.ResponseHandler` | src/ksi/net_ha.c:992-1054 | One round over all subservices records exactly the handles they give back, in their order; nothing is given to the user meanwhile |
| `HighAvailability.HighAvailabilityService.Offer` | src/ksi/net_ha.c:145-214 | A subservice takes the clone exactly if it has a free slot and neither preparing nor queueing fails; then it owes one answer more, and the others owe what they owed |
| `HighAvailability.HighAvailabilityService.OfferToAll` | src/ksi/net_ha.c:145-214 | The expected count is the number of takers; without a taker there is an error to report |
| `HighAvailability.HighAvailabilityService.Accept` | src/ksi/net_ha.c:145-214 | From then on exactly the takers owe an answer to the request |
| `HighAvailability.HighAvailabilityService.AddRequest` | src/ksi/net_ha.c:79-223 | Succeeds if and only if some subservice took the request, and which do; exactly those owe an answer; a refused request leaves the books as they were and returns the code of the last subservice. A key names one addition, since each call makes a new request object |
| `HighAvailability.HighAvailabilityService.GetPendingCount` | src/ksi/net_ha.c:604-643 | The largest of the pending counts |
| `HighAvailability.HighAvailabilityService.GetReceivedCount` | src/ksi/net_ha.c:645-684 | The largest of the received counts plus the queue |
| `HighAvailability.HighAvailabilityService.CountWaiting` | src/ksi/net_ha.c:1094-1108 | The largest number of unfinished slots of any cache, plus the largest number of received ones, plus the queue; zero if and only if no subservice owes an answer and the queue is empty |
| `HighAvailability.HighAvailabilityService.DrainedMeansSettled` | src/ksi/net_ha.c:1066-1113 | Then all that took a request have answered it, and all that was queued was given to the user |
| `HighAvailability.HighAvailabilityService.Pop` | src/ksi/net_ha.c:1087-1093 | The queue is given to the user from its head, in order |
| `HighAvailability.HighAvailabilityService.DrainedMeansGivenBack` | src/ksi/net_ha.c:1066-1113 | Then every request ever accepted was answered once by each that took it, and the user was told so exactly once: the whole claim of `HaMerge.ExactlyOnce` about what was delivered |
| `HighAvailability.HighAvailabilityService.Run` | src/ksi/net_ha.c:1066-1113 | `waiting` is that count, and zero if and only if drained, with that consequence, in every reachable state |
| `HighAvailability.HandleIsNeverGivenBack` | src/ksi/net_ha.c:686-694 | A run of two async clients under the service, one of which receives an error PDU with status 0: `waiting` is 0 and the user's handle was never given back |
| `HighAvailability.GivesUncodedError` | src/ksi/net_async.c:1263-1277 | An error PDU with status 0 makes a client return an error without a code |
| `CalendarTime.HighBitIsTop` | src/ksi/hashchain.c:39-47 | The six shift-and-or steps give the largest power of two not above n, for all n below 2^64 |
| `CalendarTime.CalculateAggregationTime` | src/ksi/hashchain.c:306-360 | Accepts exactly the shapes that lead to a leaf, for 1 ≤ P < 2^63, and returns a time not above P; all else is a format error |
| `CalendarTime.TimeOfShape` | src/ksi/hashchain.c:306-360 | Every time 0..P has a shape that decodes to it, with at most bitlength(P) links |
| `CalendarTime.ShapeOfTime` | src/ksi/hashchain.c:306-360 | Every accepted shape is the shape of its time, which lies in 0..P |
| `CalendarTime.TimesAreUnique` | src/ksi/hashchain.c:306-360 | One-to-one: accepted shapes are equal if and only if their times are |
| `CalendarTime.LeavesAreTimes` | src/ksi/hashchain.c:306-360 | The calendar tree has the leaves 0..P, in order |
| `CalendarTime.TimeIsLeaf` | src/ksi/hashchain.c:306-360 | The decoded time is the leaf a walk along the links ends at |
| `CalendarTime.RightsAreOneBits` | src/ksi/hashchain.c:306-360 | The number of right links is the number of one bits of the time, whatever P is |
| `CalendarTime.RightsAreBinaryExpansion` | src/ksi/hashchain.c:306-360 | What the right links add is a strictly decreasing sequence of powers of two whose sum is the time |
| `HashChain.FromDigest` | src/ksi/hash.c:225-273 | A data hash exists exactly for digests of the length their algorithm has |
| `HashChain.DigestSizes` | src/ksi/hash.c:63-78 | The digest lengths of the algorithms, in bits, and which ids are not valid |
| `HashChain.ImprintsSelfDelimiting` | src/ksi/hash.c:225-264 | No imprint is a proper prefix of another |
| `HashChain.Turn` | src/ksi/hashchain.c:192-283 | One turn of the loop, with the hasher opened, replaced or reset, does one step of the fold |
| `HashChain.AggregateChain` | src/ksi/hashchain.c:161-301 | The loop computes the fold, with all its error cases |
| `HashChain.AggregateConcat` | src/ksi/hashchain.c:161-301 | A concatenation aggregates as its second part from where the first ended |
| `HashChain.InputIsBound` | src/ksi/hashchain.c:161-301 | A chain that leads from two different hashes to one root exhibits a concrete collision |
| `HashChain.ChainIsBound` | src/ksi/hashchain.c:161-301 | Binding: two aggregation chains of the same directions from hashes of one length to one root have the same start, sibling bytes and level bytes, or a concrete collision is exhibited |
| `HashChain.LinkFieldsAreBound` | src/ksi/hashchain.c:71-158 | So the root commits to the imprint, the legacy id and the metadata of every link |
| `HashChain.SiblingFields` | src/ksi/hashchain.c:71-158 | A link is hashed if and only if exactly one sibling is set, and its bytes tell it from every other of its kind |
| `HashChain.KindIsNotBound` | src/ksi/hashchain.c:71-158 | The root does not commit to the kind of a sibling: an imprint and metadata with the same bytes give the same root |
| `HashChain.AlgorithmFollowsHash` | src/ksi/hashchain.c:199-225 | In a calendar chain the algorithm is always that of the current hash; elsewhere it never changes |
| `HashChain.EndLevelIff` | src/ksi/hashchain.c:199-268 | On success the end level is the start level plus the sum of (correction + 1), and at most 0xff, if and only if every correction fits a byte |
| `HashChain.SucceedsIffLevelFits` | src/ksi/hashchain.c:199-268 | With such corrections a well-formed chain aggregates if and only if its end level is at most 0xff |
| `HashChain.FailsIffOverflows` | src/ksi/hashchain.c:199-268 | With whatever corrections, a well-formed chain fails if and only if its level overflows along the way |
| `HashChain.OverflowsIffSum` | src/ksi/hashchain.c:199-268 | With byte-sized corrections that is the case if and only if the start level plus the sum is above 0xff |
| `HashChain.HugeCorrectionIsAccepted` | src/ksi/hashchain.c:199-268 | A correction of 2^64 - 1 is accepted and leaves the level as it is |
| `HashChain.ListIsConcatenation` | src/ksi/hashchain.c:1175-1218 | Chains linked output to input with one algorithm have the root and level of the concatenated chain |
| `AggregationChain.AggregationHashChain.AggregateMemo` | src/ksi/hashchain.c:1011-1052 | The result is the fresh one if and only if the memo is right or not used; so it is for every sequence of start levels, as long as no setter intervenes; the memo is lost if and only if a hash is remembered and a valid level, different from the last one, cannot be aggregated |
| `AggregationChain.FreshIffCanAggregate` | src/ksi/hashchain.c:1011-1052 | An aggregation succeeds if and only if nothing is missing, the algorithm is supported, every link has one sibling and the level does not overflow |
| `AggregationChain.AggregationHashChain.SetChain` | src/ksi/hashchain.c:1171-1173 | The links are replaced, the memo is left alone |
| `AggregationChain.AggregationHashChain.SetInputHash` | src/ksi/hashchain.c:1171-1173 | The same for the input hash |
| `AggregationChain.AggregationHashChain.SetAggrHashId` | src/ksi/hashchain.c:1171-1173 | The same for the algorithm |
| `AggregationChain.AggregationHashChain.NewInputIsStale` | src/ksi/hashchain.c:1171-1173 | A memo that is right for two input hashes exhibits a concrete collision |
| `AggregationChain.MemoIsStale` | src/ksi/hashchain.c:1022-1044 | The links are taken away after an aggregation: the object still returns the root, where a fresh computation fails |
| `AggregationChain.MemoIsLost` | src/ksi/hashchain.c:1022-1035 | One well-formed link, aggregated at level 0 and then at 0xff: the memo points to a released hash |
| `AggregationChain.AggregateList` | src/ksi/hashchain.c:1175-1218 | The loop over chain objects with right memos computes the fold of fresh results, with missing fields refused, and keeps the memos right |
| `AggregationChain.ListFreshIsListSpec` | src/ksi/hashchain.c:1175-1218 | For chains with all fields it is the list fold of `HashChain.ListIsConcatenation` |
| `AggregationChain.CalculateShape` | src/ksi/hashchain.c:1054-1096 | Up to 65 links: the digits under a leading one, modulo 2^64; more are refused |
| `AggregationChain.ReadShapeNumber` | src/ksi/hashchain.c:1054-1096 | The unbounded shape number decodes back, for every chain |
| `AggregationChain.ShapeRoundTripIff` | src/ksi/hashchain.c:1054-1096 | The 64-bit shape number decodes back if and only if there are at most 63 links |
| `AggregationChain.SixtyFourLinksAreLost` | src/ksi/hashchain.c:1054-1096 | A concrete chain of 64 links whose number does not decode back |
| `AggregationChain.ShapeInjective` | src/ksi/hashchain.c:1054-1096 | Up to 63 links, different shapes have different numbers |
| `CalendarChain.NextRight` | src/ksi/hashchain.c:1357-1372 | The inner loop finds the next right link, or ends on a trailing left link |
| `CalendarChain.VerifyRightLinks` | src/ksi/hashchain.c:1330-1413 | Exactly what the two-pointer loop accepts, for any two chains |
| `CalendarChain.VerifyCompatibilityTo` | src/ksi/hashchain.c:1415-1439 | OK if and only if the input hashes are equal, the loop accepts, and the aggregation times are, or the publication time where a chain has none; so publication times do not matter beside aggregation times; which error otherwise |
| `CalendarChain.VerifyExtension` | src/ksi/hashchain.c:1293-1328 | A chain with an aggregation time is compatible with itself under any publication time |
| `CalendarChain.EqualHashesExist` | src/ksi/hash.c:428-431 | Hashes are equal if and only if both exist and are the same bytes |
| `CalendarChain.SameTimeSameRights` | src/ksi/hashchain.c:306-360 | Chains for one time have equally many right links, also towards different publications |
| `CalendarChain.CompatibilityIsExact` | src/ksi/hashchain.c:1330-1439 | If the stored times match the shapes, the loop accepts if and only if the right imprints are equal |
| `CalendarChain.LooseWithoutTheShape` | src/ksi/hashchain.c:1357-1385 | Without that premise a concrete pair of different chains is accepted, in one direction only |
| `CalendarChain.AcceptsTooMuchIff` | src/ksi/hashchain.c:1330-1413 | For any two chains: too much is accepted if and only if a trailing left link stands in for a right one |
| `CalendarChain.AggregateCalendar` | src/ksi/hashchain.c:372-374 | The root of a chain of imprints is hashed message after message, with level byte 0xff, each under the algorithm of its right hash; refused if and only if one of these is not supported |
| `CalendarChain.MessageDetermines` | src/ksi/hashchain.c:238-271 | Both hashes can be read back from a hashed message |
| `CalendarChain.SameRootSameChain` | src/ksi/hashchain.c:161-301 | Binding: same shape and same root mean same input and same links, or a concrete collision is exhibited |
| `CalendarChain.PublicationBindsTime` | src/ksi/hashchain.c:161-360 | A publication commits to one input hash per time, or a concrete collision is exhibited |
| `Tlv.ParseHdr` | src/ksi/fast_tlv.c:28-80 | Succeeds exactly if the header is there; tag, flags and lengths are those of its bytes, also of a part of them |
| `Tlv.MemRead` | src/ksi/fast_tlv.c:166-195 | Succeeds exactly if the buffer starts with a whole TLV |
| `Tlv.ReadTlvs` | src/ksi/fast_tlv.c:213-231 | The loop reads TLVs until the limit, the end or the first incomplete one |
| `Tlv.MemReadN` | src/ksi/fast_tlv.c:197-241 | Succeeds exactly if the part looked at is tiled by TLVs, and returns where they start |
| `Tlv.TileConserves` | src/ksi/fast_tlv.c:166-195 | The PDUs and the rest, joined, are the stream |
| `Tlv.TilesAreTlvs` | src/ksi/fast_tlv.c:166-195 | Each PDU is exactly one TLV |
| `Tlv.RestIsShort` | src/ksi/net_tcp_async.c:274-363 | The rest starts no whole TLV and is shorter than 0xffff + 4 bytes |
| `Tlv.TilingIsUnique` | src/ksi/net_tcp_async.c:274-363 | The tiling is the only way to cut the stream into TLVs and a rest that starts none |
| `Tlv.TileAppend` | src/ksi/net_tcp_async.c:274-363 | More bytes never change PDUs already found |
| `Tlv.ChunksDoNotMatter` | src/ksi/net_tcp_async.c:274-363 | However the stream is cut, the receiver ends with the tiling of the whole |
| `Tlv.ReadBack` | src/ksi/tlv_element.c:258-293 | Reading what was written gives back tag, flags and length, whatever follows |
| `Tlv.SerializedIsTlv` | src/ksi/tlv_element.c:258-293 | A written element is one TLV, with a header of two bytes if and only if tag and length are small |
| `Tlv.WrittenStreamIsTiled` | src/ksi/tlv_element.c:258-293 | A stream of written elements is cut into exactly these |
| `TcpInput.TcpInput.CloseSocket` | src/ksi/net_tcp_async.c:156-170 | The unfinished rest is dropped and a new connection starts from nothing |
| `TcpInput.TcpInput.Append` | src/ksi/net_tcp_async.c:281-306 | Received bytes go behind those in the buffer |
| `TcpInput.TcpInput.Remove` | src/ksi/net_tcp_async.c:359-363 | The bytes of a PDU leave the buffer, the others move up |
| `TcpInput.TcpInput.Drain` | src/ksi/net_tcp_async.c:314-363 | All complete PDUs of the buffer go to the queue in order, the rest stays; the error branch behind a complete header is dead |
| `TcpInput.TcpInput.Take` | src/ksi/net_tcp_async.c:274-363 | A read of full size always fits into the buffer |
| `TcpInput.TcpInput.HandleInput` | src/ksi/net_tcp_async.c:274-363 | Whatever recv returns: all bytes up to the first outcome without data are read; the PDUs queued and the bytes kept are the tiling of the stream; the connection is closed if and only if recv says so or fails |
| `TcpInput.TcpInput.GetResponse` | src/ksi/net_tcp_async.c:479-500 | PDUs leave in the order in which they came |
| `TcpOutput.WindowBound` | src/ksi/net_tcp_async.c:371-451 | Any half-open window of a round's length holds at most twice the maximum of completed sends |
| `TcpOutput.TwoRounds` | src/ksi/net_tcp_async.c:375-380 | Such a window meets at most two rounds |
| `TcpOutput.WindowBoundIsTight` | src/ksi/net_tcp_async.c:371-451 | For every maximum and every duration of at least 2: a log within the limits that has twice the maximum in a window |
| `TcpOutput.UnitWindow` | src/ksi/net_tcp_async.c:371-451 | With the default duration 1 a window is a round, so that the maximum itself is the bound |
| `TcpOutput.BurstTwice` | src/ksi/net_tcp_async.c:371-451 | The send loop itself reaches twice the maximum in a window, for every maximum and every duration of at least 2 |
| `TcpOutput.SendBurst` | src/ksi/net_tcp_async.c:371-451 | A round that has sent nothing sends the maximum of ready requests |
| `TcpOutput.RestartKeepsThrottled` | src/ksi/net_tcp_async.c:375-380 | A new round after an old one keeps the limits |
| `TcpOutput.SendKeepsThrottled` | src/ksi/net_tcp_async.c:381-450 | One more send below the maximum keeps the limits |
| `TcpOutput.TcpOutput.AnyWindow` | src/ksi/net_tcp_async.c:371-451 | In every reachable state: at most the maximum in each round and twice the maximum in each window; the maximum itself for duration 1 |
| `TcpOutput.TcpOutput.AddToSendQueue` | src/ksi/net_tcp_async.c:459-477 | Requests join the end of the queue |
| `TcpOutput.TcpOutput.StartTurn` | src/ksi/net_tcp_async.c:375-380 | After the restart test the clock lies inside the running round |
| `TcpOutput.TcpOutput.CountSend` | src/ksi/net_tcp_async.c:435-436 | A completed send is counted, within the limits |
| `TcpOutput.TcpOutput.HandleOutput` | src/ksi/net_tcp_async.c:371-451 | Requests leave at the head, in order, each for a reason (not waiting, timed out, wholly written) and with the state, error code and send time that go with it; each completed send is logged with its time and round; where a refused send left off; the log stays within the limits |
| `TcpOutput.SendBytes` | src/ksi/net_tcp_async.c:406-433 | How far one request gets; never beyond its length |
| `TcpTransport.Dispatch` | src/ksi/net_tcp_async.c:371-451 | One send loop over queued handles is exactly the sent and failed events of the requests that left the queue, in order; every handle is then in the state in which its request left, and the rest of the queue still names waiting handles |
| `TcpTransport.EffectsAreEvents` | src/ksi/net_tcp_async.c:387-450 | Each departure other than a drop is one event of the ring, and touches its own slot only |
| `Base32.ReadsFive` | src/ksi/base32.c:149-184 | The masks and shifts read five consecutive bits, zeros behind the end |
| `Base32.AddBits` | src/ksi/base32.c:45-80 | The bits of a symbol go behind those in the buffer, which stays clear behind them |
| `Base32.Decode` | src/ksi/base32.c:82-146 | The result is the bit stream of the symbols before the first '=', in whole bytes; a foreign character is refused |
| `Base32.EndedIsFinal` | src/ksi/base32.c:104-130 | Nothing behind '=' or a refused character matters |
| `Base32.PackIsUnique` | src/ksi/base32.c:136-140 | Only one byte string has the bits of a stream |
| `Base32.Encode` | src/ksi/base32.c:186-240 | Text and NUL are written inside the buffer of the computed size, or the encoder writes behind it: exactly with group length 0 and a length of 1, 2 or 3 modulo 5; an empty input is refused |
| `Base32.PutSymbols` | src/ksi/base32.c:212-218 | The loop over the data writes the symbols with their separators, inside the buffer for every group length |
| `Base32.PutPadding` | src/ksi/base32.c:220-227 | The padding loop writes '=' with its separators; it would leave the buffer only if the text is longer than it |
| `Base32.EncodingFitsIff` | src/ksi/base32.c:200-229 | Text and NUL fit the computed size if and only if there are groups or the length modulo 5 is 0 or 4 |
| `Base32.OneByteOverruns` | src/ksi/base32.c:200-229 | A single byte without groups does not fit |
| `Base32.GroupingOnlyInserts` | src/ksi/base32.c:212-229 | Without separators the text is the plain one, for every group length |
| `Base32.SeparatorsAre` | src/ksi/base32.c:212-227 | With groups, exactly the characters behind a full group are separators, but for the one directly behind the last symbol |
| `Base32.DecoderAlphabet` | src/ksi/base32.c:104-130 | The alphabet in either case, '-', '=', the other four digits, and no other character |
| `Base32.RoundTrip` | src/ksi/base32.c:82-240 | Decoding the encoded text gives the bytes back, for every non-empty input and every group length; where the encoder overruns its buffer this is about the text it would have written |
| `UrlAutomata.RunConcat` | src/ksi/http_parser.c:503-571 | Scanning a text is scanning its parts one after the other |
| `UrlAutomata.RunInside` | src/ksi/http_parser.c:503-571 | No field ever reaches beyond the characters read |
| `UrlAutomata.RunField` | src/ksi/http_parser.c:560-570 | A run of characters in one state becomes exactly one field, with its length modulo 2^16 |
| `HttpParser.HostLoop` | src/ksi/http_parser.c:440-484 | The loop with its early exit computes the run of the host automaton over the host field |
| `HttpParser.UrlLoop` | src/ksi/http_parser.c:515-571 | The loop with its early exit computes the run of the URL automaton over the text |
| `UrlAutomata.HostRunInside` | src/ksi/http_parser.c:430-484 | The same for the host loop |
| `UrlAutomata.HostRunDisjoint` | src/ksi/http_parser.c:430-484 | Host and user information together are never longer than the text read |
| `UriCharacters.SameClasses` | src/ksi/http_parser.c:178-203 | The character classes of the parser are those written out for names, addresses, logins, schemes and paths |
| `UrlGrammar.ReadableIff` | src/ksi/http_parser.c:216-362 | The URL automaton reads a text to its end if and only if it is in the grammar: a path, or a scheme with an authority in which no two '@' meet, then a path, a query and a fragment, the latter only behind one of these |
| `HttpParser.ParseHost` | src/ksi/http_parser.c:430-500 | The fields are those of the host automaton, also after a failure; fails if and only if the text of the host field is not in the grammar |
| `HostGrammar.ServerIffAccepted` | src/ksi/http_parser.c:364-500 | Without user information the host loop ends well if and only if the text is a name or a bracketed address, and a port if any |
| `HostGrammar.LoginIffAccepted` | src/ksi/http_parser.c:364-500 | With user information: if and only if such a text follows userinfo characters and '@' |
| `HostGrammar.RunServer` | src/ksi/http_parser.c:430-500 | The host and port fields of an accepted text are its host, without brackets, and its digits, with lengths modulo 2^16 |
| `HostGrammar.RunLogin` | src/ksi/http_parser.c:430-500 | The user information field is what stands before '@', and behind it the loop starts afresh |
| `HostGrammar.AtMeansLogin` | src/ksi/http_parser.c:364-500 | An authority of the grammar has user information if and only if '@' occurs in it |
| `HttpParser.HostFieldIsAuthority` | src/ksi/http_parser.c:503-571 | An accepted text with a host field has an authority between the first "://" and the next '/' or '?'; '@' was noticed if and only if it occurs there; the field is what a 16-bit length leaves of it |
| `HttpParser.AuthorityIsUnique` | src/ksi/http_parser.c:503-571 | There is only one such place in a text |
| `HttpParser.HostEndsWellIff` | src/ksi/http_parser.c:430-580 | For every accepted text with a host field: http_parse_host, whose result is ignored, succeeds if and only if the authority is in the grammar, if it has less than 2^16 characters; in general if and only if what a 16-bit length leaves of it is |
| `HttpParser.ParseUrl` | src/ksi/http_parser.c:503-600 | The fields are those of the two automata, inside the text, with 16-bit lengths and a port of at most 0xffff |
| `Uri.IndexOf` | src/ksi/net.c:102-108 | The first ':' of the user information |
| `Uri.UriSplit` | src/ksi/net.c:65-196 | Each part is the text of its field; a format error for a text the parser refuses or a login without ':' |
| `Uri.Append` | src/ksi/compatibility.c:45-56 | Printing behind a text cuts what does not fit and stays a C string |
| `Uri.AppendPart` | src/ksi/net.c:206-232 | An absent part prints nothing; a present one goes behind the text so far |
| `Uri.Compose` | src/ksi/net.c:198-235 | The buffer gets the composed text, cut to its size; untouched if there is nothing to print or the size is refused |
| `UriRoundTrip.DecimalIsNumber` | src/ksi/net.c:218-220 | A printed port reads back as itself |
| `UriRoundTrip.PrintedIsSigned` | src/ksi/net.c:218-220 | A port beyond the signed numbers is printed as a negative one |
| `UriRoundTrip.ScanAuthority` | src/ksi/http_parser.c:503-571 | Login, host and port together become the host field, with a 16-bit length, and '@' is noticed |
| `UriRoundTrip.HostAuthority` | src/ksi/http_parser.c:430-500 | The host loop takes them apart again |
| `UriRoundTrip.ScanText` | src/ksi/http_parser.c:503-571 | All fields of a composed text, with 16-bit lengths; a fragment directly behind the authority is refused |
| `UriRoundTrip.SplitOfComposed` | src/ksi/net.c:65-235 | For all legal parts with an authority of less than 2^16 characters: `uriSplit` returns their normal form, which says what is dropped and what is cut, or refuses in exactly two cases |
| `UriRoundTrip.LongAuthorityIsLost` | src/ksi/http_parser.c:430-440 | A longer authority never comes back whole |
| `UriRoundTrip.LongPathIsLost` | src/ksi/http_parser.c:560-563 | A path of 2^16 characters comes back empty |
| `UriRoundTrip.RoundTripIff` | src/ksi/net.c:65-235 | For all legal parts: `uriSplit` returns the parts given to `uriCompose` if and only if they are regular, which a caller can check: port at most 0xffff; scheme, authority, path, query and fragment each below 2^16 characters; no empty query or fragment; a path with its '/'; no leading '#' |
| `UriRoundTrip.BufferRoundTrip` | src/ksi/net.c:65-235 | The same through the buffer of `uriCompose`, when the text fits; otherwise it holds a prefix |
| `UriRoundTrip.LeadingHashIsLost` | src/ksi/http_parser.c:328-341 | A concrete fragment that does not come back |
| `UriRoundTrip.WrongHostIsNamed` | src/ksi/http_parser.c:578-580 | For an authority of less than 2^16 characters that is a name, a userinfo character no host has, and more of those: uriSplit succeeds and names another host |
| `UriRoundTrip.ExclamationEndsTheHost` | src/ksi/http_parser.c:578-580 | `http://a!b/` is split into a URI with the host `a` |
| `UriRoundTrip.ComposeAgainIff` | src/ksi/net.c:65-235 | For a text composed from legal parts with an authority below 2^16 characters that `uriSplit` accepts: splitting and composing again prints the same text if and only if no part is dropped or cut |
| `UriRoundTrip.ComposeIsInjective` | src/ksi/net.c:198-235 | Different regular parts are printed differently |
| `UriRoundTrip.HostlessIff` | src/ksi/http_parser.c:573-577 | Without an authority a text is accepted if and only if a path follows and neither query nor fragment has characters; what it splits into |
| `UriRoundTrip.SchemeAloneIsRefused` | src/ksi/http_parser.c:573-577 | A scheme alone, with or without the start of "://", is refused |
| `Crc32.TableIsRight` | src/ksi/crc32.c:34-99 | Every one of the 256 entries is the division of its index, bit by bit |
| `Crc32.EightBitsIsLinear` | src/ksi/crc32.c:34-99 | The division of a byte is linear |
| `Crc32.TableStep` | src/ksi/crc32.c:103-116 | One table step does what eight single-bit steps do |
| `Crc32.TurnIsByteStep` | src/ksi/crc32.c:109-113 | The same in a 64-bit `unsigned long` |
| `Crc32.Crc32` | src/ksi/crc32.c:103-116 | The loop computes the reflected CRC-32 for every message and every 32-bit start value |
| `Crc32.CrcConcat` | src/ksi/crc32.h:37-39 | `crc(a + b, iv) = crc(b, crc(a, iv))` |
| `Crc32.OneByteIsDetected` | src/ksi/crc32.c:103-116 | A change of one byte, anywhere in a message of any length, changes the checksum |
| `Crc32.DivideIsInjective` | src/ksi/crc32.c:103-116 | Registers that differ still differ after any message |
| `Crc32.LeadingZeroIsDetected` | src/ksi/crc32.c:103-116 | A zero byte in front of a message changes its checksum |
| `Crc32.LetterA` | src/ksi/crc32.c:103-116 | The checksum of the message "a" |
| `RecyclePool.Context.Alloc` | src/ksi/hash.c:193-220 | Never returns an object somebody refers to; takes the last pooled one if there is one |
| `RecyclePool.Context.FromDigest` | src/ksi/hash.c:225-273 | A new reference to a well-formed hash, or an error; objects in use are untouched |
| `RecyclePool.Context.Close` | src/ksi/hash.c:543-592 | The same for a hasher, which is closed exactly on success; a hash nobody wants and one whose implementation fails are freed again, and the implementation's error code is returned |
| `RecyclePool.Context.Fill` | src/ksi/hash.c:253-264 | An allocated object gets its contents and its first reference |
| `RecyclePool.Context.Release` | src/ksi/hash.c:98-107 | An object without references is pooled if there is room, once |
| `RecyclePool.Context.Ref` | src/ksi/hash.c:409-426 | One more reference is held |
| `RecyclePool.Context.Free` | src/ksi/hash.c:88-110 | One reference less; the last one moves the object to the pool, which holds unreferenced objects, each once, within its limit |

## Left out

- Configuration requests, pushed configurations and `serverConf` (src/ksi/net_async.c:778-814, src/ksi/net_ha.c:733-843): the claims are about plain requests, whose handles live in the cache.
- Consolidation of configurations in the high-availability service: its range tests accept every value.
- Handles as shared objects: a handle is a value in its slot, the transport's send queue names it by its slot (`TcpTransport.Dispatch` shows that the two agree), and a request cloned for a subservice keeps only its identity.
- A handle added again while an earlier addition is still being answered: its two request objects would share one handle.
- What happens in a cache of more than 2^32 slots: such a slot does not fit the low bits of an id, and the invariant ends there (`AsyncClient.AsyncClient.SetCacheSize`).
- Sockets, TLS, libcurl, WinHTTP, WinINet and PKI: their outcomes are parameters.
- The connection states of the TCP `dispatch` and its return code when a send would block; what the peer sees after a partly sent request times out.
- `Crc32.Crc32`: says nothing about start values above 32 bits on platforms with a 64-bit `unsigned long`.
- Base32 and URI lengths near the limits of `size_t` and `int`; texts are sequences of characters that stand for bytes other than NUL.
- The strict form of the URL parser, which neither build compiles.
- Hash objects without a context, and clients that free references they do not hold.
- `http_parser_parse_url` for CONNECT requests: `uriSplit` never asks for it.
- `uriSplit` with some output pointers NULL, other than user and password together: the omitted parts are simply not returned.
- Allocation failures, NULL arguments, the error stack and logging, except where a branch of the modelled logic depends on them.
- Identities and metadata of aggregation chains, TLV templates, signatures, policies, the block signer, the publications file and HMAC.
