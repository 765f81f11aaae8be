# The Desi Events: a verification model

This project models, in Dafny, the five parts of The Desi Events repository whose correctness rests on more than one
function, and proves what those parts promise. Run `dafny verify dfyconfig.toml` in this directory to check all of it.

| Part | Files | What is proved |
|---|---|---|
| Traffic roll-up | `TrafficTotals`, `TrafficProtocol`, `TrafficHistory`, `TrafficLease`, `TrafficRollup` | Over every interleaving of runs, beacons, crashes, faults, take-overs and demonstration seeding: a deleted row has been counted for good, final totals never change, nobody takes a lease before its end, an overtaken run commits nothing more until a claim under its own name, a completion is recorded exactly by a run none of whose statements failed. The run itself, step by step against arbitrary other clients, accounts for every row it deletes and every completion it records. |
| Layouts and seats | `CompanionGraph`, `Layout`, `LayoutPayload`, `LayoutValidator`, `LayoutCompanions`, `Seating`, `SeatSelection`, `StableSort`, `SeatMap` | The validator reports each issue, under its key, exactly when the layout gives rise to it; the loop finder returns every loop once; the companion closure is the least closed set and, on an accepted layout, closed both ways and at most twice the selection; grouping loses and invents no seat. |
| One-time codes | `Numerals`, `Base32`, `Totp` | Base32 over a never-masked 32-bit accumulator round-trips; codes are the truncation RFC 4226 describes; when accepted counters increase, however checks interleave, is stated exactly. |
| OpenAPI document | `RoutePaths`, `JsonTrees`, `Hoisting`, `RefChecker`, `OpenApiDocument`, `OpenApiReferences`, `OpenApiContract`, `OpenApiMeaning`, `OpenApiCoverage` | Hoisting definitions preserves what every fragment means, to any depth of reference, in the finished document; nothing is overwritten; what the reference check can and cannot tell is stated exactly; each route has one operation. |
| Counting | `Batches`, `BatchProperties`, `LedgerHistory`, `LedgerAccounts`, `Holds`, `Lineage` | Batches are built exactly when they balance; every account's balance is the sum of what was posted, and the ledger reconciles over every history, corrections included; sweeping holds is invisible to availability, and what oversells a tier is stated exactly; terminal tickets are as many as tickets issued just when none crossed lines. |

## How the model reads the source

- An object the source updates in place is a class (`TrafficStore`, `RollupSummary`, `ComponentBag`, `RefWalk`); a loop that
  updates local variables is a method proved against a function or predicate; expressions are functions.
- A thrown error or a `null` is a `Result` or an `Option`. JavaScript `Map`s and objects whose order matters are an order
  with a map (`Layout.Index`) or a list of fields with distinct keys (`JsonTrees.IsObject`).
- Days are whole numbers and instants whole milliseconds. Money and counts are integers; where JavaScript would round or
  wrap, the model does (`Batches.Round`, `Numerals.Shl`).

### Assumptions of the traffic part

They are conditions of the steps in `TrafficProtocol`, so that every theorem carries them in the open.

- A row of day D is written only while real time is before midnight of D+2, under an id not used before (`MayInsert`).
- A run's business instant `now` is not after real time when it starts; it may lie anywhere in the past (`MayStart`).
- Each transaction is one atomic step; a crash or a fault falls between steps or rolls one back.
- Nothing is assumed of worker names: the name is the process's, not the run's
  (`apps/worker/src/processors/roll-up-traffic.js:66-73`). Fencing is stated per run, until the next claim under its own
  name; `OvertakenCommitsIff` says exactly when a run overtaken by another name commits again, and `SharedNameIsNoFence`
  is a history from an empty database in which one does. Runs are told apart by an identity that exists only in proofs.
- The demonstration seed leaves real totals alone (`packages/db/scripts/seed.mjs:5474-5491`), so nothing need be assumed
  about when it runs; its look-up and its write are taken as one step.

### Conditions of the document part

A fragment is closed when every pointer in it names one of its own `$defs`, and tame when it may also point outside the
document (`Hoisting.IsClosed`, `Hoisting.IsTame`). Route ids are the dotted pairs that `BAD_ID` asks for, and distinct.
`OpenApiCoverage.SampleTable` shows a table with a self-referring definition that meets all of it.

### Where the code and its prose disagree

- The file comment of the traffic roll-up says that a worker whose lease was taken over stops before it writes anything
  more. This holds until some run of the same process claims the lease (see above), and not for the deletion of old
  salts, which happens outside the lease: `OvertakenRunDeletesSalt` is a history in which it happens. It is the one
  change an overtaken run makes (`OvertakenChangesIff`), and never touches the salt of a day not over (`TodaysSaltStays`).
- The contract check calls itself the proof that hoisting happened. `CheckIsExact` says what its silence means: a local
  pointer that names no definition of its fragment but has a component's name is captured, and not noticed.
- The parameters of an operation are documented as ordered by property name. They come in the order of the schema's
  properties, then the path's names it lacks (`ParameterOrder`); `DeclaredOrderStays` is an input where that is not
  sorted.
- Placing an order is documented to keep its stock reserved while the payment is made
  (`apps/api/src/routes/orders.js:443-447`). The order keeps the expiry its holds had, a lapsed hold reserves nothing, and
  settling converts holds without looking at their expiry (`apps/api/src/lib/checkout.js:513-527`). Stock that lapsed in
  between may have been sold again: `LapsedHoldOversells`, and `FitsThroughoutIff` for the exact condition.
- `refundBatch` needs a positive organiser share, although `orderPaidBatch` may post none (`RefundExact`).
- `transferBatch` and `payoutBatch` both credit transfer clearing, so a paid-out transfer leaves twice its amount there
  (`TransferThenPayout`).
- "An unbalanced batch cannot be built" holds for totals up to the last exact integer and for no greater bound
  (`BalancesUpToIff`).
- An accepted code is promised not to be accepted again within its window (`apps/api/src/routes/auth.js:290-293`). The
  last use is read (`:307-309`) and written (`:317-320`) by two statements, and the write has no condition, unlike the
  one that spends a recovery code. Two requests that both read first are both accepted: `OneCodeTwice`, from an unused
  factor, and `ReadTogether`, at any point of its life. `AcceptedOnceIff` is the exact condition.

## Model

| member | source | states |
|---|---|---|
| TrafficTotals.PurgeableIffSumsFinal | packages/db/src/traffic-rollup.js:415-434 | The purge cut-off is the exact complement of the upsert's overwrite guard: a run may purge a day just when the totals it writes for that day can never be replaced. |
| TrafficTotals.NothingSums | packages/db/src/traffic-rollup.js:226-244 | Without rows all seventeen figures are zero. |
| TrafficTotals.SumsGrow | packages/db/src/traffic-rollup.js:226-244 | What each of the seventeen figures counts: one more row raises exactly those of its kind, source and placement by one, and a visitor figure exactly when no row of its kinds has that hash. |
| TrafficTotals.RollUpWrites | packages/db/src/traffic-rollup.js:218-271 | Every event with a row on the day, and no other, gets the sums of its own rows, real and computed at the run's instant, unless its totals are real and were computed two whole days or more after the day began. |
| TrafficTotals.SumsMeetChecks | packages/db/src/traffic-rollup.js:218-271 | The seventeen sums of any rows the raw table admits satisfy every CHECK of the totals table: views split by source, clicks by placement, visitors within views. |
| TrafficTotals.VisitorsWithinViews | packages/db/src/traffic-rollup.js:218-271 | Distinct visitors and anonymous views together never exceed the page views. |
| TrafficTotals.RollUpIdempotent | packages/db/src/traffic-rollup.js:218-271 | Recomputing a day from the same rows, at any later instant, changes no figure, no flag and no key. |
| TrafficTotals.RollUpKeeps | packages/db/src/traffic-rollup.js:218-271 | Other days, final totals and events without rows keep their totals through a roll-up of a day. |
| TrafficTotals.EmptyDayUntouched | packages/db/src/traffic-rollup.js:218-271 | A day with no raw rows left is never touched, so a purged day is never recomputed to zero. |
| TrafficTotals.ShortBatchEmptiesDay | packages/db/src/traffic-rollup.js:357-366 | A batch shorter than its limit leaves no row of the day: stopping the loop there is right. |
| TrafficProtocol.WholeDayCounted | packages/db/src/traffic-rollup.js:218-271 | While no row of a day was deleted, a roll-up leaves final totals that count every row ever written, and settles a purgeable day. |
| TrafficProtocol.SettledDayUntouched | packages/db/src/traffic-rollup.js:218-271 | Once every event of a day has final totals, a roll-up from what is left of the day changes nothing: a purge cut short shrinks no total. |
| TrafficProtocol.PurgeKeepsStore | packages/db/src/traffic-rollup.js:285-292 | Deleting any batch of a settled day keeps the store's invariant. |
| TrafficProtocol.InsertKeeps | packages/db/src/traffic-rollup.js:53-58 | A beacon's late row, written while its day may still take one, invalidates no final total. |
| TrafficProtocol.StepKeeps | packages/db/src/traffic-rollup.js:384-477 | Every step of every client - claim, day, batch, fault, release, crash, beacon, clock, seed, salts - keeps the invariant. |
| TrafficHistory.PurgedImpliesCounted | packages/db/src/traffic-rollup.js:345-367 | In every history: once any raw row of a day is gone, every event with a row ever written for the day has real totals equal to the sums over all of them. |
| TrafficHistory.FinalTotalsNeverChange | packages/db/src/traffic-rollup.js:218-271 | In every history a final total is the same, bit for bit, in every later state, whatever instants later runs were given. |
| TrafficHistory.CompletionMeansDone | packages/db/src/traffic-rollup.js:470-476 | In every history the recorded completion changes only when a run gives its own lease back having added up every day it listed, in order, with no row old enough for it to purge left or uncounted. |
| TrafficHistory.CompletionExact | packages/db/src/traffic-rollup.js:436-474 | A run that gives its own lease back records a completion exactly when none of its statements has failed. |
| TrafficHistory.ClaimFencesEarlierRuns | packages/db/src/traffic-rollup.js:153-199 | Once a claim under another name has succeeded, a run that had claimed before commits no roll-up, batch or release, whatever the clocks read, unless and until some run claims under its name. |
| TrafficHistory.CommittedBlocks | packages/db/src/traffic-rollup.js:317-324 | Committed steps under two names never alternate without a claim in between: after another's commit a run commits again only if its name has claimed since. |
| TrafficHistory.OwnerIsLastClaim | packages/db/src/traffic-rollup.js:153-199 | After somebody else's claim the lease is under a name just when a later claim under it is the last step that moved the lease. |
| TrafficHistory.OvertakenCommitsIff | packages/db/src/traffic-rollup.js:153-199 | The exact condition: a run overtaken by another name and still at work can commit again just when a later claim under its own name holds the lease. |
| TrafficHistory.SharedNameIsNoFence | packages/db/src/traffic-rollup.js:317-324 | A history from an empty database: a run of one process is overtaken by another process, a second run of the first process takes the lease over in turn, and the overtaken first run's day commits. |
| TrafficHistory.OvertakenChangesIff | packages/db/src/traffic-rollup.js:448-454 | In every history a run overtaken by another name, until a claim under its own, changes the database by a step of its own exactly when the step deletes salts and there is one of a day before the run's business day. |
| TrafficHistory.OvertakenRunDeletesSalt | packages/db/src/traffic-rollup.js:448-454 | A history from an empty database: a run loses its lease to another worker and deletes a salt all the same. |
| TrafficHistory.TodaysSaltStays | apps/api/src/lib/traffic.js:315-328 | In every history, whoever deletes a salt, roll-up or API, its day is over: the salt in use is never lost. |
| TrafficLease.ClaimTakesIff | packages/db/src/traffic-rollup.js:153-173 | In every history a claim takes the lease exactly when the end set by the step that wrote it last, a claim's reading or a renewal's second plus that run's `leaseMs`, lies before the claim's own reading, or it has been given back since; then it sets owner and end, and otherwise nothing. |
| TrafficLease.CommitsIff | packages/db/src/traffic-rollup.js:317-324 | A roll-up or a batch commits exactly when the step that wrote the lease last was of its own worker name and the end it set is after the reading. |
| TrafficLease.FreesIff | packages/db/src/traffic-rollup.js:185-199 | A release gives the lease back exactly when that step was of its own worker name, lapsed or not. |
| TrafficLease.TakenOnlyAfterTheEnd | packages/db/src/traffic-rollup.js:153-173 | Mutual exclusion: when the lease passes from one name to another, the step is a claim that read a clock past the end the first one's last write had set. |
| TrafficEvolution.StepsEvolve | packages/db/src/traffic-rollup.js:384-477 | Every step by any other run, of the same worker name or not, stays within what a run relies on: no new rows on old days, final totals kept, nothing added to this run's own work. |
| TrafficRollup.TrafficStore.ClaimTrafficRollupLease | packages/db/src/traffic-rollup.js:153-173 | It fails exactly when the lease lasts at the instant read, and otherwise sets owner and expiry: the protocol's claim. |
| TrafficRollup.TrafficStore.ReleaseTrafficRollupLease | packages/db/src/traffic-rollup.js:185-199 | It releases only the caller's own lease, records a completion only when told to, and the record of releases agrees with the recorded completion. |
| TrafficRollup.TrafficStore.RollUpTransaction | packages/db/src/traffic-rollup.js:346-355 | A committed first transaction is the protocol's day step; a lost lease or a fault leaves the store as it was; a short batch empties the day. |
| TrafficRollup.TrafficStore.BatchTransactionOf | packages/db/src/traffic-rollup.js:357-366 | A committed later transaction is the protocol's batch step on a settled day, and deletes exactly what it reports. |
| TrafficRollup.TrafficStore.RollUpAndPurgeDay | packages/db/src/traffic-rollup.js:345-367 | Whatever other clients do in between, under whatever name, and however it ends: it terminates, the summary grows by exactly the rows this run's committed transactions deleted, and a finished day was added up once and, when purgeable, is settled and has no raw row. |
| TrafficRollup.TrafficStore.RunTrafficRollup | packages/db/src/traffic-rollup.js:384-477 | `rowsPurged` is exact however the run ends. No completion is recorded by a run that failed, lost the lease or never got it. A run that returns otherwise has added up the day of every row there throughout, left nothing it may purge, and recorded exactly one completion, unless its release found the lease under another name. |
| TrafficRollup.TrafficStore.FinishRun | packages/db/src/traffic-rollup.js:448-476 | After a failed day it throws and any release records no completion; otherwise it returns with everything purgeable gone and the completion recorded, or throws without one. |
| TrafficRollup.TrafficStore.DiscardSalts | packages/db/src/traffic-rollup.js:448-454 | Exactly the salts of days before the business day go, and are counted. |
| TrafficRollup.TrafficStore.ListDays | packages/db/src/traffic-rollup.js:421-422 | The days listed are those with a raw row, ascending, each once. |
| CompanionGraph.CompanionCycles | packages/inventory/src/layout.js:332-358 | For every partial graph and visiting order: terminates; each list returned is a simple loop; a key is on a loop just when it is on a returned one; no two share a key; nothing is returned just when the graph is acyclic. |
| CompanionGraph.EachLoopOnce | packages/inventory/src/layout.js:332-358 | Each loop of the graph is returned exactly once, up to rotation. |
| CompanionGraph.LoopsMeetOnce | packages/inventory/src/layout.js:322-330 | Two loops that share a key are rotations of each other. |
| CompanionGraph.TailIsTheLoop | packages/inventory/src/layout.js:343-353 | The tail a walk comes back to is a loop, and the only one the walk meets. |
| CompanionGraph.DeadEnd | packages/inventory/src/layout.js:343-354 | A walk that runs out or into settled keys met no loop: dangling targets are dead ends. |
| LayoutValidator.ValidateLayout | packages/inventory/src/layout.js:90-307 | Every issue, code and key, is reported just when the payload itself breaks the rule under that key, and of each companion loop exactly one key once; so each of the 25 codes is reported just when its rule is broken, `valid` just when none is; the seat count is the number of seats. |
| LayoutPayload.NormalisedAlikeIff | packages/inventory/src/layout.js:318-320 | Two names clash exactly when one is the other but for white space at the ends and the case of ASCII letters, character by character. |
| LayoutPayload.NamesReported | packages/inventory/src/layout.js:113-212 | A zone's, section's, row's or seat's name is reported exactly when one before it, of its section for rows, is the same name in that sense; a restricted seat exactly when its note is absent or all white space. |
| LayoutPayload.ReportedIff | packages/inventory/src/layout.js:109-295 | Every other issue too, told from the payload: keys used twice, sections against their kind, seats that name what is not declared or is elsewhere, companions that are none, and of two seats that claim one the later. |
| LayoutPayload.SeatInRowAt | packages/inventory/src/layout.js:157-161 | Every seat of every row is walked once, with its section and row, after the sections and rows before it. |
| LayoutPayload.LooseSeatAt | packages/inventory/src/layout.js:164-167 | And every seat outside rows, after those of its section's rows, with no row. |
| LayoutPayload.IndexKeepsLast | packages/inventory/src/layout.js:196-212 | Of seats that share a key the last is the one checked, and the one whose companion is followed. |
| LayoutPayload.IndexKeepsOrder | packages/inventory/src/layout.js:214-216 | Seats are checked in the order in which their keys came first. |
| Layout.BrokenIffReported | packages/inventory/src/layout.js:41-80 | A rule is broken just when the layout gives rise to some issue with its code, rule by rule. |
| LayoutValidator.CheckZones | packages/inventory/src/layout.js:113-124 | A zone is reported just when its key, or its normalised name, repeats one before it. |
| LayoutValidator.CheckKind | packages/inventory/src/layout.js:170-185 | A section is reported just when its seats or its capacity contradict its kind. |
| LayoutValidator.RecordSeat | packages/inventory/src/layout.js:196-212 | Recording a seat adds exactly its own faults under its key: repeated key, repeated label, restriction without a note; the later seat replaces the earlier under one key. |
| LayoutValidator.CheckCrossReferences | packages/inventory/src/layout.js:215-243 | A seat is reported under a reference code just when it breaks that rule. |
| LayoutValidator.CheckCompanions | packages/inventory/src/layout.js:245-295 | A seat is reported under a pair rule just when it breaks it, and as sharing just when a seat before it claims the same one. |
| LayoutValidator.CheckCycles | packages/inventory/src/layout.js:297-304 | One issue is added per loop of the companion graph, under the loop's first key, and none else. |
| Layout.UniqueKeysIndexEverySeat | packages/inventory/src/layout.js:196-198 | With unique keys the index by key is the whole layout, in order: nothing was overwritten. |
| LayoutCompanions.CompanionVerdictExact | packages/inventory/src/layout.js:245-295 | The companion pass is silent just when every edge goes to a declared, different, accessible seat of the same section with no companion of its own and no other claimant. |
| LayoutCompanions.LoopsBreakAnotherRule | packages/inventory/src/layout.js:252-284 | Any loop already makes a seat its own companion or a companion with a companion. |
| LayoutCompanions.CycleSearchNeverDecides | packages/inventory/src/layout.js:297-306 | The loop search adds issues but never changes the verdict. |
| LayoutCompanions.AcceptedSeatsPair | packages/inventory/src/layout.js:196-295 | An accepted layout has unique seat keys, an index of all its seats, and only clean pairs. |
| Seating.SeatsWithCompanions | packages/inventory/src/seating.js:189-220 | The loop computes the closure function, for every data, cyclic or not. |
| Seating.BindsIff | packages/inventory/src/seating.js:200-215 | What is followed from a seat, row by row: the seat its last row names, unless that is empty, and the first row that claims it. |
| Seating.SelectionClosure | packages/inventory/src/seating.js:189-220 | The result has no seat twice, holds every chosen seat, is closed under both directions the code follows, and lies inside every closed set that holds the selection. |
| Seating.ClosureIdempotent | packages/inventory/src/seating.js:189-220 | Closing a closure returns it, seat for seat in the same order. |
| Seating.AddCloses | packages/inventory/src/seating.js:200-215 | One addition follows everything it adds. |
| SeatPairs.AcceptedLayoutPairs | apps/api/src/lib/venue-maps.js:262-307 | The seat rows written for an accepted layout are clean pairs: what the validator accepts is what the companion search needs. |
| SeatPairs.WrittenClaimsIff | apps/api/src/lib/venue-maps.js:266-307 | A row claims another exactly when its seat claims the other's. |
| SeatPairs.SelectionOnAcceptedLayout | packages/inventory/src/seating.js:189-220 | On an accepted layout a selection at most doubles and is closed in both directions. |
| SeatSelection.ValidateSeatSelection | packages/inventory/src/seating.js:242-312 | Succeeds just when the count rules hold and every implied seat can be taken; then returns the closure, duplicate-free, within the limit, matched position by position to available event seats; otherwise the first reason met. |
| SeatSelection.CountOkIff | packages/inventory/src/seating.js:242-272 | The count rules: a choice, no seat twice, and with companions no more than ten nor than the ticket type allows. |
| SeatSelection.RefusedIff | packages/inventory/src/seating.js:274-312 | A seat is not found exactly when the map or the session has none of that id; otherwise its last event seat decides, and only an available one is taken. |
| SeatSelection.WouldStrandCompanion | packages/inventory/src/seating.js:326-340 | True just when some kept seat is bound to a released one. |
| SeatSelection.ClosedSelectionNeverStrands | packages/inventory/src/seating.js:326-340 | A validated selection kept whole is stranded by no release of other seats. |
| SeatSelection.StrandingSymmetric | packages/inventory/src/seating.js:326-340 | On clean pairs the stranding test is symmetric in its two lists. |
| StableSort.OrderedIsOrdered | packages/inventory/src/seating.js:374-380 | Sorting orders by the configured order, then by the label's rank. |
| StableSort.OrderedIsStable | packages/inventory/src/seating.js:374-380 | Items with equal keys keep the order they came in. |
| StableSort.StableOrderUnique | packages/inventory/src/seating.js:374-380 | No other arrangement is ordered and keeps the order of ties, so this is what the built-in sort returns. |
| SeatMap.FileSeats | packages/inventory/src/seating.js:356-367 | The two tables hold, for each row and each section, its seats in the order given. |
| SeatMap.FiledInOrder | packages/inventory/src/seating.js:356-367 | Filing seats one list after the other files them in that order. |
| SeatMap.GroupSeatMap | packages/inventory/src/seating.js:355-399 | The loops and tables compute the grouped map. |
| SeatMap.EachIsOrdered | packages/inventory/src/seating.js:374-398 | Sections, rows within a section and seats within a row or section are in the configured order, and where that is the same, but for sections, in the order of their labels. |
| SeatMap.ViewsShowTheirOwn | packages/inventory/src/seating.js:374-398 | Every section has exactly its own view, with its id, name and order, and every row its own under its own section; a row's view shows only seats of that row, and a section's own seats are on no row. |
| SeatMap.SeatsConserved | packages/inventory/src/seating.js:355-399 | A seat occurs in the output once for every place the plan has for it, for each time it was given. |
| SeatMap.ListedSeatsShownOnce | packages/inventory/src/seating.js:355-399 | With distinct section and row ids each listed seat is shown exactly as often as given and no other seat at all. |
| Numerals.OrAdds | packages/auth/src/totp.js:59-112 | Where no bit is set in both, or-ing adds. |
| Numerals.AndMasks | packages/auth/src/totp.js:59-112 | And-ing with 2^k - 1 keeps the low k bits. |
| Base32.PushBits | packages/auth/src/totp.js:65-66 | Shifting into the wrapped accumulator and or-ing appends bits to what is pending. |
| Base32.PopBits | packages/auth/src/totp.js:68-71 | Shifting right and masking takes the top pending bits off, although old bits are never cleared. |
| Base32.Base32Encode | packages/auth/src/totp.js:59-77 | The text has ceil(8n/5) alphabet characters and its bits are the bytes' bits padded with zeros, although the accumulator wraps at 32 bits. |
| Base32.Base32Decode | packages/auth/src/totp.js:89-112 | Decodes just when the cleaned text is base32, then to the bytes whose bits are its leading bits; otherwise reports the first character that is not, in its upper case, whatever upper-case table the platform has outside ASCII. |
| Base32.DecodeEncoded | packages/auth/src/totp.js:59-112 | Whatever decodes an encoding is the original bytes. |
| Base32.RoundTrip | packages/auth/src/totp.js:59-112 | Decoding what was encoded gives the bytes back, for every byte sequence. |
| Base32.EncodeDecoded | packages/auth/src/totp.js:59-112 | The other way round: text survives decoding and encoding just when fewer than five bits were left over and all of them zero. |
| Base32.EncodingUnique | packages/auth/src/totp.js:59-77 | Bytes have one encoding. |
| Base32.SeparatorsIgnored | packages/auth/src/totp.js:89-92 | White space and `=` typed anywhere do not change what is decoded. |
| Base32.ReadAsIff | packages/auth/src/totp.js:89-92 | ASCII text is read as a base32 text exactly when it spells it, each letter a capital or the lower case of it, with spaces, tabs, line ends and `=` put in anywhere. |
| Base32.TypedDecodes | packages/auth/src/totp.js:59-112 | However an encoding is typed in that sense, it decodes to the bytes. |
| Base32.OutsideAsciiIff | packages/auth/src/totp.js:89-101 | Of characters outside ASCII that are no white space exactly ten are accepted, such as the long s, whatever upper case the others have outside ASCII. |
| Base32.CleanIsText | packages/auth/src/totp.js:89-101 | Text is accepted exactly when the upper case of each of its characters, but for what is ignored, is base32. |
| Totp.CounterOfStep | packages/auth/src/totp.js:133-137 | A counter is that of exactly the instants of its step. |
| Totp.MessageIsCounter | packages/auth/src/totp.js:149-154 | The two halves written are the counter as eight big-endian bytes. |
| Totp.MessagesApart | packages/auth/src/totp.js:149-154 | Different counters never hash the same message. |
| Totp.TruncatedIsNumber | packages/auth/src/totp.js:157-162 | The or-ed shifts are the 31-bit number RFC 4226, section 5.3, takes at the digest's own offset: no sign bit, no overlap. |
| Totp.CodeIsNumber | packages/auth/src/totp.js:164 | A code has exactly the configured digits and is the truncated number modulo that power of ten. |
| Totp.VerifyTotp | packages/auth/src/totp.js:196-224 | The outcome is decided by the first counter of the window whose code was typed: valid just when it is above the last accepted, replayed otherwise; malformed and mismatch as stated; a counter that does not fit throws. |
| Totp.ReplayedIff | packages/auth/src/totp.js:216-220 | A code that matches in the window is valid exactly when its counter is above the last accepted, and replayed otherwise. |
| Totp.MalformedIff | packages/auth/src/totp.js:201-205 | A code is malformed exactly when it is not as many decimal digits as a code has. |
| Totp.SpacesAnywhere | packages/auth/src/totp.js:201 | White space typed anywhere in a code changes nothing. |
| Totp.CurrentCodeMatches | packages/auth/src/totp.js:196-224 | The current step's code is valid or replayed, never a mismatch, whatever else is in the window. |
| Totp.StoredCounter | apps/api/src/routes/auth.js:307-320 | The counter read back from the stored moment is the one accepted. |
| Totp.AcceptedCountersIncrease | apps/api/src/routes/auth.js:297-323 | Over a factor's whole life, while no check is accepted between the read and the write of another that is, each accepted counter is greater than all accepted before it. |
| Totp.AcceptedOnceIff | apps/api/src/routes/auth.js:297-323 | However reads and writes of different checks interleave, accepted counters increase, so that no code is accepted twice, exactly when each accepted counter is above the one stored at the moment it is written. |
| Totp.ReadTogether | apps/api/src/routes/auth.js:307-320 | At any point of a factor's life, a code that would be accepted is accepted twice when two requests read the last use before either writes it. |
| Totp.OneCodeTwice | apps/api/src/routes/auth.js:307-320 | So the code of the earliest step of the window, presented twice to an unused factor, is accepted twice, for every key, time and parameters for which that step exists. |
| RoutePaths.PathParamNames | packages/api-contract/src/path.js:32-41 | Lists the parameter segments' names in order. |
| RoutePaths.ParamNamesJoin | packages/api-contract/src/path.js:32-41 | In order of appearance: the names of two parts of a path are those of the first and then those of the second. |
| RoutePaths.ParamNamesIff | packages/api-contract/src/path.js:32-41 | A name is listed exactly when some segment is a colon and that name, a letter or `_` and then letters, digits and `_`. |
| RoutePaths.SegmentsOfJoined | packages/api-contract/src/path.js:22-24 | Segments joined by slashes are split into the same segments. |
| RoutePaths.TemplateTellsPathsApart | packages/api-contract/src/path.js:49-56 | Two paths without braces in literal segments share a template only if they are the same segments, hence the same routing shape. |
| RoutePaths.BracesMatter | packages/api-contract/src/path.js:113-117 | Without that condition it is false: `/a/:id` and `/a/{id}` share a template and differ in shape. |
| RoutePaths.TemplateAndShapeIff | packages/api-contract/src/path.js:49-117 | The exact condition: two paths with one template have one routing shape just when they have parameters in the same places. |
| Hoisting.ComponentBag.HoistDefinitions | packages/api-contract/src/openapi.js:108-126 | The two loops write exactly the renamed, rewritten definitions into the bag, in order, and return the rewritten rest. |
| Hoisting.HoistStores | packages/api-contract/src/openapi.js:112-123 | After a hoist each definition is in the bag under its key and every other key is as before. |
| Hoisting.RewritePreservesMeaning | packages/api-contract/src/openapi.js:77-95 | Following references to any depth gives the same tree before rewriting, against the fragment's definitions, and after, against the bag; recursive definitions included. |
| Hoisting.HoistPreservesMeaning | packages/api-contract/src/openapi.js:108-126 | A hoisted fragment means against the new bag what it meant against its own definitions. |
| Hoisting.RestIsRewritten | packages/api-contract/src/openapi.js:111 | Returning the rest unrewritten when there are no definitions is what rewriting it would give. |
| RefChecker.RefWalk.Walk | packages/api-contract/src/validate.js:512-543 | The walk appends the issues of a fragment in order. |
| RefChecker.SilentIffResolved | packages/api-contract/src/validate.js:503-549 | It is silent just when every pointer names a component the document has. |
| OpenApiDocument.BuildParameters | packages/api-contract/src/openapi.js:142-178 | Builds one location's parameters and hoists its fragment. |
| OpenApiDocument.BuildResponses | packages/api-contract/src/openapi.js:187-224 | Builds the responses and hoists the response fragment. |
| OpenApiDocument.BuildOperation | packages/api-contract/src/openapi.js:233-301 | Builds the operation, hoisting parameters, query, response and body in that order. |
| OpenApiDocument.BuildOpenApiDocument | packages/api-contract/src/openapi.js:316-381 | Builds the document route by route, or stops at the first route whose operation is already there. |
| OpenApiDocument.CheckDanglingRefs | packages/api-contract/src/validate.js:503-549 | Walks the paths, then the components. |
| OpenApiCoverage.ParametersListed | packages/api-contract/src/openapi.js:152-177 | The parameters are the fragment's properties and the required names, each once, in the location asked for. |
| OpenApiCoverage.SchemaFromFragment | packages/api-contract/src/openapi.js:163-173 | A parameter's schema is its property's fields less the description, a string's where there is no property or null, and empty where the property is no object. |
| OpenApiCoverage.DescriptionFromFragment | packages/api-contract/src/openapi.js:165-175 | Its description is the property's, unless that is empty. |
| OpenApiCoverage.RequiredIff | packages/api-contract/src/openapi.js:160-172 | It is required exactly when it is in the path, or the fragment or the path lists it so. |
| OpenApiCoverage.PathThenQuery | packages/api-contract/src/openapi.js:233-247 | An operation's parameters are those of its path, each under its name, and then those of its query. |
| OpenApiCoverage.PathParametersRequired | packages/api-contract/src/openapi.js:233-237 | Every `:name` of the path is a required path parameter, whether or not the schema has it. |
| OpenApiCoverage.ParameterOrder | packages/api-contract/src/openapi.js:159-161 | Parameters come in the order of the schema's properties, then the required names it lacks; a query's are sorted by name exactly when its properties are. |
| OpenApiCoverage.DeclaredOrderStays | packages/api-contract/src/openapi.js:140-161 | Properties declared `q`, `page` are documented in that order: the documented order by name is not kept. |
| OpenApiCoverage.OperationCarries | packages/api-contract/src/openapi.js:187-262 | The operation carries its id, its parameters, the hoisted response schema (or a string of the media type it produces), and the hoisted body schema or the raw body's media types, each in its place; no error response replaces the success response. |
| OpenApiCoverage.ErrorsDocumented | packages/api-contract/src/openapi.js:208-221 | Every declared error status answers with the shared error response. |
| OpenApiCoverage.RawBodyListed | packages/api-contract/src/openapi.js:263-276 | A raw body lists each accepted media type once. |
| OpenApiCoverage.CheckIsExact | packages/api-contract/src/validate.js:503-549 | The check is silent on a hoisted fragment, its definitions included, exactly when every local pointer names a definition of the fragment or a component of the document, and every other pointer resolves. |
| OpenApiCoverage.CheckIsExactInDocument | packages/api-contract/src/validate.js:503-549 | The same for every fragment of a route table, against the components its document has. |
| OpenApiCoverage.SilentAndClosed | packages/api-contract/src/validate.js:503-549 | For a fragment of local pointers that the check is silent on: it was closed exactly when no pointer was captured by a component of another. |
| OpenApiCoverage.SchemaNames | packages/api-contract/src/openapi.js:112-119 | Only the name `ErrorResponse`, or one with a dot, can be captured: the document has no other components. |
| OpenApiCoverage.MeaningKeptIff | packages/api-contract/src/openapi.js:77-95 | Rewriting keeps what a node means, its references followed to any depth, exactly when no pointer is captured or already points at a component, in the node or in any definition it leads to within that depth. |
| OpenApiCoverage.CaptureGoesUnseen | packages/api-contract/src/openapi.js:85-88 | Any captured pointer, wherever it stands: it led nowhere before, leads to the component after, and raises no issue. |
| OpenApiReferences.SchemasResolve | packages/api-contract/src/openapi.js:327-353 | Every component of a document made of closed fragments resolves within the document. |
| OpenApiReferences.OperationGood | packages/api-contract/src/openapi.js:233-301 | Assembling an operation adds no pointer but the one to the shared error response. |
| OpenApiContract.AllPathsExact | packages/api-contract/src/openapi.js:335-354 | Generation succeeds just when no two routes share template and method, and then each route has its own operation in its place, there is no other, and there are as many as routes. |
| OpenApiContract.FindDuplicates | packages/api-contract/src/validate.js:573-606 | A duplicate id is reported just when an earlier route has it; a duplicate route just when an earlier one has its method and shape, naming the first such. |
| OpenApiContract.OneOperationPerRoute | packages/api-contract/src/validate.js:590-606 | A table without a duplicate route and without braces in literal segments is documented, with exactly one operation per route. |
| OpenApiContract.NoDanglingRefs | packages/api-contract/src/validate.js:503-549 | In a document made of closed fragments the reference check finds nothing. |
| OpenApiContract.KeysTellPrefixesApart | packages/api-contract/src/openapi.js:112-119 | For valid route ids a component key determines the id, the location and the definition's name, dots in the name or not. |
| OpenApiMeaning.NoHoistOverwrites | packages/api-contract/src/openapi.js:112-123 | With valid, distinct route ids every hoisted definition, and the error response, is still in the finished document. |
| OpenApiMeaning.FragmentsKeepMeaning | packages/api-contract/src/openapi.js:77-126 | Every fragment of the table means in the finished document, to any depth, what it meant on its own. |
| OpenApiMeaning.ParametersKeepMeaning | packages/api-contract/src/openapi.js:152-177 | So does every parameter's schema, cut out of its fragment. |
| Batches.ComposeBatch | packages/ledger/src/batches.js:112-142 | The loop's totals, as JavaScript adds, decide the batch and its error. |
| Batches.ComposedExact | packages/ledger/src/batches.js:112-142 | While both totals are exact integers a batch is composed just when the currency is one, there is an entry, and the signed sum is zero; then it has the entries and their total on both sides, and otherwise the error says which of the three failed. |
| Batches.RoundedIsDouble | packages/ledger/src/batches.js:124-130 | A rounded total is at most 53 bits times a power of two, no more than half a spacing away, and even where two are as near. |
| Batches.NoneNearer | packages/ledger/src/batches.js:124-130 | No number of at most 53 bits times a power of two is nearer: totals are added as IEEE 754 adds doubles. |
| Batches.BalancesUpToIff | packages/ledger/src/batches.js:112-142 | That every batch built from valid entries balances is so for totals up to a bound exactly when the bound is at most the last exact integer. |
| Batches.LargeTotalsRound | packages/ledger/src/batches.js:39-48 | Beyond exact integers a batch one minor unit out is accepted. |
| Batches.OrderPaidBatch | packages/ledger/src/batches.js:169-239 | Pushing entries one by one builds the batch of all of them, or returns the first refused entry's error. |
| Batches.RefundBatch | packages/ledger/src/batches.js:261-317 | The same for a refund. |
| BatchProperties.OrderPaidExact | packages/ledger/src/batches.js:169-239 | An order's batch is built just when captured plus discount equals organiser net plus fee plus tax, with the sign rules the code has: negative fee, tax and discount are left out, organiser net may be zero. |
| BatchProperties.RefundExact | packages/ledger/src/batches.js:261-317 | A refund's batch is built just when its parts add up and the organiser bears some of it. |
| BatchProperties.MovedExact | packages/ledger/src/batches.js:331-352 | A two-entry movement is built for every valid amount and currency. |
| BatchProperties.MovedRefused | packages/ledger/src/batches.js:59-75 | And otherwise refused for its amount, not positive or too large, before its currency. |
| BatchProperties.RefundSettledEffect | packages/ledger/src/batches.js:331-352 | A settled refund is built for every valid amount and currency, and moves it out of refund clearing and the processor's account, for any slice of accounts and organisations. |
| BatchProperties.DisputeEffects | packages/ledger/src/batches.js:369-496 | A dispute is built just when the amount is held from one of the two accounts allowed, and moves it from there into dispute clearing; won, every account is as before; lost, the processor takes it. |
| BatchProperties.TransferEffects | packages/ledger/src/batches.js:508-562 | A transfer moves the amount from what the organiser is owed to transfer clearing, and its reversal undoes that on every account. |
| BatchProperties.PayoutEffects | packages/ledger/src/batches.js:575-611 | A payout debits payout clearing and credits transfer clearing, and a failed payout undoes that on every account. |
| BatchProperties.TransferThenPayout | packages/ledger/src/batches.js:508-611 | A transfer and its payout leave twice the amount credited in transfer clearing. |
| BatchProperties.CorrectionIsMirror | packages/ledger/src/batches.js:624-642 | Every posted batch can be corrected, and its correction is its mirror. |
| BatchProperties.CorrectionUndoes | packages/ledger/src/batches.js:624-642 | A batch and its correction change no account; correcting the correction has the batch's effect again. |
| LedgerHistory.OrderSlice | packages/ledger/src/batches.js:169-239 | What an order's batch does to each account: captured and discount debited, net, fee and tax credited, each amount to its own account. |
| LedgerHistory.RefundSlice | packages/ledger/src/batches.js:261-317 | What a refund's batch does to each account: share, fee and tax debited, the whole credited to refund clearing. |
| LedgerHistory.PostingEffect | packages/ledger/src/batches.js:169-642 | Every posting, correction of whatever batch included, moves nothing into or out of the whole, and moves the two clearing accounts by exactly what it opens, closes or takes back. |
| LedgerHistory.LedgerReconciles | packages/ledger/src/batches.js:112-642 | After any history, per currency and for any set of organisations: refund clearing is what is decided and not settled, dispute clearing what is still disputed, plus exactly what corrections took back. |
| LedgerHistory.AccountsSumToZero | packages/ledger/src/batches.js:112-642 | Whatever has been posted, corrections of anything included, the accounts sum to zero, per currency and for any set of organisations. |
| LedgerHistory.ClearingIsDueIff | packages/ledger/src/batches.js:261-642 | Each clearing account is exactly what is due just when corrections have taken back nothing on balance from it. |
| LedgerHistory.NothingTakenBack | packages/ledger/src/batches.js:624-642 | Corrections of batches that never touched a clearing account take nothing back from it. |
| LedgerAccounts.PostingDebits | packages/ledger/src/batches.js:169-611 | What each posting debits or credits to each of the accounts, read off the posting. |
| LedgerAccounts.BalancesArePostings | packages/ledger/src/batches.js:112-642 | After any history the balance of every account, transfer and payout clearing and the organisers' payables among them, is the sum of what each posting says of it, a correction taking back what the posting it names did; per currency and for any set of organisations. |
| Holds.PartitionExpiredHolds | packages/inventory/src/holds.js:93-111 | The buckets are the due, the live and the inactive holds, told by status and expiry, each in order, and together every hold as often as given. |
| Holds.ActiveHeldQuantity | packages/inventory/src/holds.js:130-140 | The live holds' quantities summed, or an error when a live one is no count. |
| Holds.ComputeAvailability | packages/inventory/src/availability.js:43-51 | Fails just when a counter is no count; what is available, sold and held makes up the total while it can, and otherwise nothing is available and it is sold out. |
| Holds.ShownIsLeft | packages/inventory/src/availability.js:43-51 | What a read shows as available is what neither has been sold nor is held by a live hold, down to nothing. |
| Holds.SweepInvisible | packages/inventory/src/holds.js:93-140 | Marking any of the due holds EXPIRED changes neither held quantity nor availability at any instant from then on, errors included. |
| Holds.SweepInvisibleIff | packages/inventory/src/holds.js:93-140 | Marking is invisible from now on just when no marked hold with a quantity was still live. |
| Holds.AvailabilityNeverFalls | packages/inventory/src/availability.js:43-51 | With nothing written, availability never falls as time passes and never becomes an error. |
| Holds.RefusalIff | packages/inventory/src/quantity.js:35-88 | For which reason a request is refused, reason by reason; it passes exactly between the minimum and both the maximum and the stock. |
| Holds.ConvertTakes | apps/api/src/lib/checkout.js:513-527 | Settling a hold takes its quantity from what is left, unless the hold was still live and had reserved it. |
| Holds.ConvertFitsIff | apps/api/src/lib/checkout.js:513-527 | What is sold and reserved still fits after a hold is settled exactly when the hold was live or there was room for it. |
| Holds.FitsThroughoutIff | apps/api/src/lib/checkout.js:513-527 | Over any history of placing, settling, releasing, sweeping and waiting, sold plus reserved has fitted throughout exactly when every settlement of a lapsed hold found room. |
| Holds.NeverOversold | packages/inventory/src/quantity.js:35-88 | While every settlement of a lapsed hold has found room, no more is ever sold than there is. |
| Holds.LapsedHoldOversells | apps/api/src/lib/checkout.js:513-527 | A settlement that finds no room oversells: one ticket held until 10, held again by somebody else after that, is sold twice when both orders settle. |
| Lineage.TerminalsCountOpenings | scripts/load/invariants.js:222-247 | A line's terminal members are as many as its members with no predecessor on the line. |
| Lineage.TerminalsCountIssuedIff | scripts/load/invariants.js:222-247 | They are as many as the tickets issued on the line exactly when no member of the line supersedes a ticket of another. |
| Lineage.StrandedIffCycles | scripts/load/invariants.js:240-247 | A line is reported without a current member just when it has members and every one lies on a cycle. |
| Lineage.ReplacementKeepsCounts | scripts/load/invariants.js:222-238 | On any table, healthy or not, replacing a ticket without a successor by a new one on its line moves the terminal and changes no line's count of terminals or issued tickets; nor of usable passes, if the one replaced was usable. |
| Lineage.TerminalsEqualIssued | scripts/load/invariants.js:222-313 | After any history of issues, transfers and revocations: one terminal per ticket issued, no more usable passes than that, nothing stranded. |
| Lineage.SettlementCheckExact | scripts/load/invariants.js:248-290 | On every history the settlement check fails just when a line was issued more tickets than it sold, and otherwise the check of usable passes, more live tickets than were sold, passes too. |

## Left out

- HTTP routes, process wiring, logging, queues and retries: input and output only.
- Prisma and PostgreSQL: a transaction is one atomic step and a statement its meaning on sets of rows; pools, isolation levels and timeouts (`rollupTransactionOptions`) are not modelled.
- Deleting an event with its traffic, deduplication keys of beacons and creating the lease's state row: not part of the protocol.
- TrafficRollup.TrafficStore.DiscardSalts: the deletion of old salts is not fenced by the lease, as in the source.
- Cryptography and randomness: the keyed hash is any function with 20-byte digests; passwords, seals, sessions and tokens are not modelled.
- LayoutValidator.ValidateLayout: the path and the message of an issue are omitted, and so are the issues' order and how often one is repeated; codes and keys are kept. Case folding of labels is ASCII only.
- SeatMap.GroupSeatMap: a label is its rank in a fixed collation; fields that are only copied are omitted.
- The public view of a seat, seat counts and seat transitions: each is read off one table or one filter.
- The recovery codes and the enrolment address: string building only.
- Zod and its JSON Schema output: a route carries arbitrary fragments instead.
- Hoisting.ComponentBag.HoistDefinitions: `$defs` is an object when present, and no key is one an object inherits (`constructor`, `__proto__`).
- OpenApiDocument.BuildOperation: summaries, descriptions, tags, security requirements and a body's `required` mark are omitted, and responses keep the order they are written in.
- The checks of a route in isolation and of the document's fixed parts: single conditions on one value.
- Batches.ComposeBatch: memos are omitted; kinds, accounts and sides are enumerations and amounts integers, so their type errors do not arise.
- LedgerHistory.LedgerReconciles: totals of an order or a refund stay within exact integers.
- Holds.ComputeAvailability: amounts are integers and missing arguments are already defaulted; the time to live that sets a hold's expiry is not modelled.
- Holds.FitsThroughoutIff: a request and its hold are one step, which the source leaves to the caller, and an order is the holds it settles.
- The other load invariants (overselling, double seats, postings, check-ins, refunds, balance): single grouped queries.
- Lineage.TerminalsEqualIssued: the transfer, revocation and refund services are taken as their effect on ticket rows.
